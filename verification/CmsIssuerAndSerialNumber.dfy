/** CCMSIssuerAndSerialNumber: an issuer name and the raw octets of an INTEGER. */
module CmsIssuerAndSerialNumber {
  import opened Outcomes
  import opened DerCodec
  import opened Asn1

  datatype IssuerSerialNumber = IssuerSerialNumber(issuer: Name, serial: bytes)

  function EncIssuer(v: IssuerSerialNumber): (r: Enc)
    ensures r.Node? && r.id == SEQUENCE_ID
  {
    Node(SEQUENCE_ID, [EncName(v.issuer), Leaf(INTEGER_ID, v.serial)])
  }

  function DecIssuer(raw: bytes): (r: Outcome<IssuerSerialNumber>)
    ensures r != Panic
  {
    var items :- DecodeBoundedSequence(raw, 2, 2);
    var issuer :- DecName(items[0].Encoding());
    Ok(IssuerSerialNumber(issuer, items[1].contents))
  }

  /** The serial number octets survive as they are, minimal or not. */
  lemma IssuerRoundTrip(v: IssuerSerialNumber)
    requires Fits(EncIssuer(v))
    ensures DecIssuer(Der(EncIssuer(v))) == Ok(v)
  {
    var t := EncIssuer(v);
    DecodeNode(t);
    assert Fits(t.kids[0]);
    NameRoundTrip(v.issuer);
  }

  class IssuerAndSerialNumber {
    var iIssuerName: Name
    var iSerialNumber: bytes

    function Value(): IssuerSerialNumber
      reads this
    {
      IssuerSerialNumber(iIssuerName, iSerialNumber)
    }

    constructor (issuerName: Name, serialNumber: bytes)
      ensures Value() == IssuerSerialNumber(issuerName, serialNumber)
    {
      iIssuerName, iSerialNumber := issuerName, serialNumber;
    }

    method DecodeL(raw: bytes) returns (r: Outcome<()>)
      modifies this
      ensures r == Status(DecIssuer(raw))
      ensures r.Ok? ==> Value() == DecIssuer(raw).value
      ensures !r.Ok? ==> Value() == old(Value())
    {
      var itemsData :- DecodeBoundedSequence(raw, 2, 2);
      var name :- DecName(itemsData[0].Encoding());
      iIssuerName := name;
      iSerialNumber := itemsData[1].contents;
      r := Ok(());
    }
  }
}
