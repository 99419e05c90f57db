/** CCMSX509Signed: something to be signed, an algorithm and an "encrypted" bit string. */
module CmsSigned {
  import opened Outcomes
  import opened DerCodec
  import opened Asn1
  import opened AlgorithmIdentifier

  /** SignAndPopLC */
  function EncSigned(toBeSigned: Enc, algorithm: AlgorithmId, encrypted: bytes): (r: Outcome<Enc>)
    ensures r.Ok? ==> r.value.Node? && r.value.id == SEQUENCE_ID
  {
    var alg :- EncAlgorithm(algorithm);
    Ok(Node(SEQUENCE_ID, [toBeSigned, alg, EncBits(encrypted)]))
  }

  datatype SignedParts = SignedParts(toBeSigned: Item, algorithm: AlgorithmId, encrypted: bytes)

  /** DecodeSignatureArrayL: the number of items is up to the caller. */
  function DecSignatureArray(items: seq<Item>): (r: Outcome<SignedParts>)
  {
    var toBeSigned :- At(items, 0);
    var second :- At(items, 1);
    var algorithm :- DecAlgorithm(second.Encoding());
    var third :- At(items, 2);
    var encrypted :- DecBits(third);
    Ok(SignedParts(toBeSigned, algorithm, encrypted))
  }

  /** Two items are needed at once, and a third when the algorithm is known. */
  lemma SignatureArrayPanics(items: seq<Item>)
    ensures DecSignatureArray(items) == Panic <==>
      |items| < 2 || (|items| == 2 && DecAlgorithm(items[1].Encoding()).Ok?)
  {
    hide DecAlgorithm;
  }

  /** DecodeSignatureL */
  function DecSignature(raw: bytes): (r: Outcome<SignedParts>)
    ensures r != Panic
  {
    var items :- DecodeBoundedSequence(raw, 3, 3);
    DecSignatureArray(items)
  }

  lemma SignedRoundTrip(toBeSigned: Enc, algorithm: AlgorithmId, encrypted: bytes)
    requires EncSigned(toBeSigned, algorithm, encrypted).Ok? && Fits(EncSigned(toBeSigned, algorithm, encrypted).value)
    ensures var t := EncSigned(toBeSigned, algorithm, encrypted).value;
      && Fits(toBeSigned)
      && DecSignatureArray(ItemsOf(t.kids))
        == (if encrypted == [] then Leave(KErrLibrary)
          else Ok(SignedParts(ItemOf(toBeSigned), NormAlgorithm(algorithm), encrypted)))
      && DecSignature(Der(t)) == DecSignatureArray(ItemsOf(t.kids))
  {
    hide EncAlgorithm, DecAlgorithm, NormAlgorithm, Tlv;
    var t := EncSigned(toBeSigned, algorithm, encrypted).value;
    DecodeNode(t);
    assert t.kids[0] == toBeSigned && Fits(t.kids[1]) && t.kids[2] == EncBits(encrypted);
    AlgorithmRoundTrip(algorithm);
    BitsRoundTrip(encrypted, BIT_STRING_ID);
  }
}
