/** CCMSX509AlgorithmIdentifier: an algorithm, an optional digest algorithm that makes
    it a signing algorithm, and opaque parameters. */
module AlgorithmIdentifier {
  import opened Outcomes
  import opened DerCodec
  import opened Asn1

  datatype Algorithm = RSA | DSA | DH | MD2 | MD5 | SHA1

  datatype AlgorithmId = AlgorithmId(algorithm: Algorithm, digest: Option<Algorithm>, params: bytes)

  const PKCS1: bytes := [0x2A, 0x86, 0x48, 0x86, 0xF7, 0x0D, 0x01, 0x01]
  const RSADSI_DIGEST: bytes := [0x2A, 0x86, 0x48, 0x86, 0xF7, 0x0D, 0x02]
  const X957: bytes := [0x2A, 0x86, 0x48, 0xCE, 0x38, 0x04]
  const X942: bytes := [0x2A, 0x86, 0x48, 0xCE, 0x3E, 0x02]
  const OIW_SHA1: bytes := [0x2B, 0x0E, 0x03, 0x02, 0x1A]

  /** The object identifier written for an algorithm pair, where there is one. */
  function OidFor(algorithm: Algorithm, digest: Option<Algorithm>): Option<bytes> {
    match (algorithm, digest)
    case (RSA, None) => Some(PKCS1 + [0x01])
    case (DSA, None) => Some(X957 + [0x01])
    case (DH, None) => Some(X942 + [0x01])
    case (MD2, None) => Some(RSADSI_DIGEST + [0x02])
    case (MD5, None) => Some(RSADSI_DIGEST + [0x05])
    case (SHA1, None) => Some(OIW_SHA1)
    case (RSA, Some(MD2)) => Some(PKCS1 + [0x02])
    case (RSA, Some(MD5)) => Some(PKCS1 + [0x04])
    case (RSA, Some(SHA1)) => Some(PKCS1 + [0x05])
    case (DSA, Some(SHA1)) => Some(X957 + [0x03])
    case (_, _) => None
  }

  datatype Pair = Pair(algorithm: Algorithm, digest: Option<Algorithm>)

  /** One arc below the given prefix. */
  predicate Under(prefix: bytes, oid: bytes) {
    |oid| == |prefix| + 1 && oid[..|prefix|] == prefix
  }

  function FromOid(oid: bytes): Outcome<Pair> {
    if oid == OIW_SHA1 then Ok(Pair(SHA1, None))
    else if Under(PKCS1, oid) then
      match oid[8]
      case 0x01 => Ok(Pair(RSA, None))
      case 0x02 => Ok(Pair(RSA, Some(MD2)))
      case 0x04 => Ok(Pair(RSA, Some(MD5)))
      case 0x05 => Ok(Pair(RSA, Some(SHA1)))
      case _ => Leave(KErrNotSupported)
    else if Under(RSADSI_DIGEST, oid) then
      match oid[7]
      case 0x02 => Ok(Pair(MD2, None))
      case 0x05 => Ok(Pair(MD5, None))
      case _ => Leave(KErrNotSupported)
    else if Under(X957, oid) then
      match oid[6]
      case 0x01 => Ok(Pair(DSA, None))
      case 0x03 => Ok(Pair(DSA, Some(SHA1)))
      case _ => Leave(KErrNotSupported)
    else if Under(X942, oid) && oid[6] == 0x01 then Ok(Pair(DH, None))
    else Leave(KErrNotSupported)
  }

  /** The table is injective: every identifier written names the pair it was written for. */
  lemma OidInverse(algorithm: Algorithm, digest: Option<Algorithm>)
    requires OidFor(algorithm, digest).Some?
    ensures FromOid(OidFor(algorithm, digest).value) == Ok(Pair(algorithm, digest))
  {
    var oid := OidFor(algorithm, digest).value;
    if algorithm == DSA {
      assert Under(X957, oid);
    } else if algorithm == DH {
      assert Under(X942, oid) && oid[4] == 0x3E && X957[4] == 0x38;
      assert oid[..6][4] == 0x3E;
    } else if algorithm == RSA {
      assert Under(PKCS1, oid);
    } else if algorithm != SHA1 {
      assert Under(RSADSI_DIGEST, oid);
    }
  }

  function ParamsEncoder(params: bytes): (r: Outcome<Enc>) {
    if params != [] then Reencode(params) else Ok(Leaf(NULL_ID, []))
  }

  function EncAlgorithm(a: AlgorithmId): (r: Outcome<Enc>)
    ensures r.Ok? ==> r.value.Node? && r.value.id == SEQUENCE_ID
  {
    match OidFor(a.algorithm, a.digest)
    case None => Leave(KErrArgument)
    case Some(oid) =>
      var params :- ParamsEncoder(a.params);
      Ok(Node(SEQUENCE_ID, [EncOid(oid), params]))
  }

  function DecAlgorithm(raw: bytes): (r: Outcome<AlgorithmId>)
    ensures r != Panic
  {
    var items :- DecodeBoundedSequence(raw, 1, 2);
    var pair :- FromOid(items[0].contents);
    Ok(AlgorithmId(pair.algorithm, pair.digest, if |items| > 1 then items[1].Encoding() else []))
  }

  /** What an identifier becomes on its way through the codec: absent parameters turn
      into an encoded NULL, present ones get their constructed bit. */
  function NormAlgorithm(a: AlgorithmId): AlgorithmId {
    a.(params := match ParamsEncoder(a.params) case Ok(t) => Der(t) case _ => a.params)
  }

  lemma AlgorithmRoundTrip(a: AlgorithmId)
    requires EncAlgorithm(a).Ok? && Fits(EncAlgorithm(a).value)
    ensures DecAlgorithm(Der(EncAlgorithm(a).value)) == Ok(NormAlgorithm(a))
  {
    OidInverse(a.algorithm, a.digest);
    DecodeNode(EncAlgorithm(a).value);
  }

  /** Encoding again gives the same octets exactly when the parameters were not left
      empty: an empty field is written as a primitive NULL, and the NULL read back is
      written as a constructed one. */
  lemma AlgorithmStable(a: AlgorithmId)
    requires EncAlgorithm(a).Ok?
    ensures EncAlgorithm(NormAlgorithm(a)).Ok?
    ensures Der(EncAlgorithm(NormAlgorithm(a)).value) == Der(EncAlgorithm(a).value) <==> a.params != []
    ensures EncAlgorithm(NormAlgorithm(NormAlgorithm(a))) == EncAlgorithm(NormAlgorithm(a))
  {
    hide Der;
    AlgorithmReencoded(a);
    DerOfAlike(EncAlgorithm(NormAlgorithm(a)).value, EncAlgorithm(a).value);
  }

  /** The same for the encoders, which differ in the identifier of one leaf at most. */
  lemma AlgorithmReencoded(a: AlgorithmId)
    requires EncAlgorithm(a).Ok?
    ensures EncAlgorithm(NormAlgorithm(a)).Ok?
    ensures Alike(EncAlgorithm(NormAlgorithm(a)).value, EncAlgorithm(a).value)
    ensures EncAlgorithm(NormAlgorithm(a)) == EncAlgorithm(a) <==> a.params != []
    ensures EncAlgorithm(NormAlgorithm(NormAlgorithm(a))) == EncAlgorithm(NormAlgorithm(a))
  {
    if a.params != [] {
      RewrittenStable(a.params);
      AlikeSelf(EncAlgorithm(a).value);
    } else {
      var empty := Leaf(NULL_ID, []);
      ReencodeDer(empty);
      assert ParamsEncoder(Der(empty)) == Ok(Leaf(0x25, []));
      assert EncAlgorithm(a).value.kids[1] == empty;
      assert EncAlgorithm(NormAlgorithm(a)).value.kids[1] == Leaf(0x25, []);
      ReencodeDer(Leaf(0x25, []));
      NodesAlike(EncAlgorithm(NormAlgorithm(a)).value, EncAlgorithm(a).value);
    }
  }

  lemma TwoKids(a: Enc, b: Enc)
    ensures DerAll([a, b]) == Der(a) + Der(b)
  {
    hide Der;
    assert [a, b][1..] == [b];
    DerAllSingle(b);
  }

  /** The constructed NULL takes as many octets as the primitive one. */
  lemma NullReplaced(oid: Enc, t: Enc, u: Enc)
    requires t == Node(SEQUENCE_ID, [oid, Leaf(NULL_ID, [])]) && u == Node(SEQUENCE_ID, [oid, Leaf(0x25, [])])
      && Fits(t)
    ensures Fits(u) && Contents(u) != Contents(t)
  {
    hide LengthOctets;
    assert t.kids[0] == oid;
    TwoKids(oid, Leaf(NULL_ID, []));
    TwoKids(oid, Leaf(0x25, []));
    assert Contents(t)[|Der(oid)|] == NULL_ID && Contents(u)[|Der(oid)|] == 0x25;
  }

  /** The same for an identifier that is wrapped. */
  lemma WrappedAlgorithmStable(a: AlgorithmId)
    requires EncAlgorithm(a).Ok? && Wrap(EncAlgorithm(a).value).Ok?
    ensures EncAlgorithm(NormAlgorithm(a)).Ok? && Wrap(EncAlgorithm(NormAlgorithm(a)).value).Ok?
    ensures var t, u := Wrap(EncAlgorithm(a).value), Wrap(EncAlgorithm(NormAlgorithm(a)).value);
      (Der(u.value) == Der(t.value) <==> a.params != []) && (u == t <==> a.params != []) && Alike(u.value, t.value)
  {
    hide Der, EncAlgorithm, NormAlgorithm, Wrap;
    WrappedAlgorithmReencoded(a);
    DerOfAlike(Wrap(EncAlgorithm(NormAlgorithm(a)).value).value, Wrap(EncAlgorithm(a).value).value);
  }

  lemma WrappedAlike(t: Enc, u: Enc)
    requires Alike(u, t) && Wrap(t).Ok? && Wrap(u).Ok?
    ensures Alike(Wrap(u).value, Wrap(t).value)
  {
    hide Der, Contents;
    ReencodeDer(t);
    ReencodeDer(u);
    AlikeSize(u, t);
  }

  lemma WrappedAlgorithmReencoded(a: AlgorithmId)
    requires EncAlgorithm(a).Ok? && Wrap(EncAlgorithm(a).value).Ok?
    ensures EncAlgorithm(NormAlgorithm(a)).Ok? && Wrap(EncAlgorithm(NormAlgorithm(a)).value).Ok?
    ensures var t, u := Wrap(EncAlgorithm(a).value), Wrap(EncAlgorithm(NormAlgorithm(a)).value);
      (u == t <==> a.params != []) && Alike(u.value, t.value)
  {
    hide Wrap, LengthOctets;
    AlgorithmReencoded(a);
    if a.params == [] {
      var oid := EncOid(OidFor(a.algorithm, a.digest).value);
      var t, u := EncAlgorithm(a).value, EncAlgorithm(NormAlgorithm(a)).value;
      assert ParamsEncoder(NormAlgorithm(a).params) == Ok(Leaf(0x25, [])) by {
        ReencodeDer(Leaf(NULL_ID, []));
      }
      NullReplaced(oid, t, u);
      WrapExact(t);
      WrapExact(u);
    }
    WrappedAlike(EncAlgorithm(a).value, EncAlgorithm(NormAlgorithm(a)).value);
  }
}
