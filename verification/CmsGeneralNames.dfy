/** CCMSX509GeneralName, CCMSX509GeneralNames and CCMSX509IssuerSerial. */
module CmsGeneralNames {
  import opened Outcomes
  import opened DerCodec
  import opened Asn1

  const MAX_TAG: nat := 8

  type NameTag = n: nat | n <= MAX_TAG

  /** The data is the encoding of the value the name carries. */
  datatype GeneralNameValue = GeneralNameValue(tag: NameTag, data: bytes)

  /** A constructed value is wrapped, a primitive one is written as a re-tagged octet
      string, since wrapping would set its constructed bit. */
  function EncGeneralName(n: GeneralNameValue): (r: Outcome<Enc>)
    ensures r.Ok? ==> r.value.Node? && Constructed(r.value.id)
  {
    match ReadTlv(n.data)
    case None => Leave(KErrLibrary)
    case Some(p) =>
      ReadTlvSound(n.data);
      var base := if Constructed(n.data[0]) then Reencode(n.data).value else EncOctets(p.item.contents);
      Ok(ExplicitTag(SetTag(base, p.item.Tag(), p.item.Class()), n.tag))
  }

  function DecGeneralName(raw: bytes): (r: Outcome<GeneralNameValue>)
    ensures r != Panic
  {
    var item :- Head(raw);
    if item.Tag() > MAX_TAG then Leave(KErrArgument) else Ok(GeneralNameValue(item.Tag(), item.contents))
  }

  /** The data up to the end of its first value. */
  function NormGeneralName(n: GeneralNameValue): GeneralNameValue {
    match Head(n.data)
    case Ok(item) => n.(data := item.Encoding())
    case _ => n
  }

  /** The base encoder reproduces the value octet by octet, constructed bit included. */
  lemma BaseIsExact(n: GeneralNameValue)
    requires EncGeneralName(n).Ok?
    ensures Head(n.data).Ok? && Head(n.data).value.Fits()
    ensures Contents(EncGeneralName(n).value) == Head(n.data).value.Encoding()
  {
    hide LengthOctets;
    ReadTlvSound(n.data);
    var item := Head(n.data).value;
    assert item.id == n.data[0];
    var base := if Constructed(item.id) then Reencode(n.data).value else EncOctets(item.contents);
    IdentifierParts(base, item.id);
  }

  lemma GeneralNameRoundTrip(n: GeneralNameValue)
    requires EncGeneralName(n).Ok? && Fits(EncGeneralName(n).value)
    ensures DecGeneralName(Der(EncGeneralName(n).value)) == Ok(NormGeneralName(n))
  {
    hide Reencode, DecFirst, SetTag;
    BaseIsExact(n);
    ReadWholeDer(EncGeneralName(n).value);
  }

  /** A name is read back unchanged exactly when its data is one value and nothing more. */
  lemma GeneralNameExact(n: GeneralNameValue)
    requires EncGeneralName(n).Ok? && Fits(EncGeneralName(n).value)
    ensures DecGeneralName(Der(EncGeneralName(n).value)) == Ok(n) <==> ReadTlv(n.data).value.rest == []
  {
    hide EncGeneralName, DecGeneralName, Tlv;
    GeneralNameRoundTrip(n);
    assert ReadTlv(n.data).Some? by {
      BaseIsExact(n);
    }
    ReadTlvSound(n.data);
    var p := ReadTlv(n.data).value;
    if p.rest == [] {
      assert n.data == p.item.Encoding();
    } else {
      assert |p.item.Encoding()| < |n.data|;
    }
  }

  // ------------------------------------------------------------------- lists

  type GeneralNamesValue = seq<GeneralNameValue>

  function EncListedName(n: GeneralNameValue): (r: Outcome<Enc>)
  {
    var name :- EncGeneralName(n);
    Wrap(name)
  }

  function EncGeneralNames(names: GeneralNamesValue): (r: Outcome<Enc>)
    ensures r.Ok? ==> r.value.Node? && r.value.id == SEQUENCE_ID
  {
    var kids :- EncodeAll(names, EncListedName);
    Ok(Node(SEQUENCE_ID, kids))
  }

  function DecGeneralNames(raw: bytes): (r: Outcome<GeneralNamesValue>)
    ensures r != Panic
  {
    var items :- DecodeSequence(raw);
    DecodeAllSafe(items, DecGeneralName);
    if items == [] then Leave(KErrArgument) else DecodeAll(items, DecGeneralName)
  }

  lemma ListedNameRoundTrip(n: GeneralNameValue)
    requires EncListedName(n).Ok?
    ensures DecGeneralName(Der(EncListedName(n).value)) == Ok(NormGeneralName(n))
  {
    hide EncGeneralName, DecGeneralName;
    WrapExact(EncGeneralName(n).value);
    GeneralNameRoundTrip(n);
  }

  lemma GeneralNamesRoundTrip(names: GeneralNamesValue)
    requires EncGeneralNames(names).Ok? && Fits(EncGeneralNames(names).value)
    ensures DecGeneralNames(Der(EncGeneralNames(names).value))
      == if names == [] then Leave(KErrArgument) else Ok(MapAll(names, NormGeneralName))
  {
    hide EncListedName, DecGeneralName, NormGeneralName;
    DecodeNode(EncGeneralNames(names).value);
    EncodeAllKids(names, EncListedName);
    forall i | 0 <= i < |names|
      ensures EncListedName(names[i]).Ok?
        && DecGeneralName(Der(EncListedName(names[i]).value)) == Ok(NormGeneralName(names[i]))
    {
      ListedNameRoundTrip(names[i]);
    }
    ListRoundTrip(names, EncListedName, DecGeneralName, NormGeneralName);
  }

  class GeneralNames {
    var iGeneralNames: GeneralNamesValue

    constructor ()
      ensures iGeneralNames == []
    {
      iGeneralNames := [];
    }

    /** A failure leaves the old names in place. */
    method DecodeL(raw: bytes) returns (r: Outcome<()>)
      modifies this
      ensures r == Status(DecGeneralNames(raw))
      ensures iGeneralNames == if r.Ok? then DecGeneralNames(raw).value else old(iGeneralNames)
    {
      hide DecGeneralName, Tlv;
      var nameData :- DecodeSequence(raw);
      if |nameData| == 0 {
        return Leave(KErrArgument);
      }
      var names :- DecodeAllL(nameData, DecGeneralName);
      iGeneralNames := names;
      r := Ok(());
    }

    /** The deep copy: equal names in the same order; an empty list is refused. */
    method SetGeneralNamesL(generalNames: GeneralNamesValue) returns (r: Outcome<()>)
      modifies this
      ensures r == if generalNames == [] then Leave(KErrArgument) else Ok(())
      ensures iGeneralNames == if r.Ok? then generalNames else old(iGeneralNames)
    {
      if |generalNames| == 0 {
        return Leave(KErrArgument);
      }
      var names: GeneralNamesValue := [];
      for i := 0 to |generalNames|
        invariant iGeneralNames == old(iGeneralNames)
        invariant names == generalNames[..i]
      {
        names := names + [GeneralNameValue(generalNames[i].tag, generalNames[i].data)];
      }
      iGeneralNames := names;
      r := Ok(());
    }
  }

  // ------------------------------------------------------- issuer and serial

  datatype IssuerSerialValue = IssuerSerialValue(issuer: GeneralNamesValue, serial: TInt, issuerUid: Option<bytes>)

  function EncBitsField(octets: Option<bytes>): (r: seq<Enc>)
    ensures |r| == if octets.Some? then 1 else 0
  {
    match octets
    case Some(s) => [EncBits(s)]
    case None => []
  }

  function DecBitsAt(items: seq<Item>, pos: nat): (r: Outcome<Option<bytes>>)
    ensures r != Panic
  {
    if pos >= |items| then Ok(None)
    else
      var octets :- DecBits(items[pos]);
      Ok(Some(octets))
  }

  function EncIssuerSerial(v: IssuerSerialValue): (r: Outcome<Enc>)
    ensures r.Ok? ==> r.value.Node? && r.value.id == SEQUENCE_ID
  {
    var issuer :- EncGeneralNames(v.issuer);
    Ok(Node(SEQUENCE_ID, [issuer, EncInt(v.serial)] + EncBitsField(v.issuerUid)))
  }

  function DecIssuerSerial(raw: bytes): (r: Outcome<IssuerSerialValue>)
    ensures r != Panic
  {
    var items :- DecodeBoundedSequence(raw, 2, 3);
    var issuer :- DecGeneralNames(items[0].Encoding());
    var serial :- DecInt(items[1]);
    var uid :- DecBitsAt(items, 2);
    Ok(IssuerSerialValue(issuer, serial, uid))
  }

  function NormIssuerSerial(v: IssuerSerialValue): IssuerSerialValue {
    v.(issuer := MapAll(v.issuer, NormGeneralName))
  }

  predicate IssuerSerialReadable(v: IssuerSerialValue) {
    v.issuer != [] && v.issuerUid != Some([])
  }

  lemma IssuerSerialRoundTrip(v: IssuerSerialValue)
    requires EncIssuerSerial(v).Ok? && Fits(EncIssuerSerial(v).value)
    ensures DecIssuerSerial(Der(EncIssuerSerial(v).value)) == Ok(NormIssuerSerial(v)) <==> IssuerSerialReadable(v)
  {
    hide EncGeneralNames, DecGeneralNames, NormGeneralName, EncInt, DecInt, Tlv;
    var t := EncIssuerSerial(v).value;
    DecodeNode(t);
    assert Fits(t.kids[0]) && t.kids[1] == EncInt(v.serial);
    GeneralNamesRoundTrip(v.issuer);
    IntRoundTrip(v.serial);
    if v.issuerUid.Some? {
      assert t.kids[2] == EncBits(v.issuerUid.value);
    }
  }
}
