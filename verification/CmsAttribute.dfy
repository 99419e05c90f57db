/** CCMSAttribute: an attribute type and its encoded values. */
module CmsAttribute {
  import opened Outcomes
  import opened DerCodec
  import opened Asn1
  import opened TimeUtil

  datatype AttributeValue = AttributeValue(oid: bytes, values: seq<bytes>)

  const PKCS9: bytes := [0x2A, 0x86, 0x48, 0x86, 0xF7, 0x0D, 0x01, 0x09]
  const CONTENT_TYPE_OID: bytes := PKCS9 + [0x03]
  const MESSAGE_DIGEST_OID: bytes := PKCS9 + [0x04]
  const SIGN_TIME_OID: bytes := PKCS9 + [0x05]

  /** CMSCreateEncoderLC: three known types are decoded before they are encoded again,
      any other value is wrapped as it is. */
  function EncValue(oid: bytes, encoding: bytes): (r: Outcome<Enc>)
  {
    if oid == CONTENT_TYPE_OID then
      var data :- DecFirst(encoding);
      Ok(EncOid(data))
    else if oid == MESSAGE_DIGEST_OID then
      var data :- DecFirst(encoding);
      Ok(EncOctets(data))
    else if oid == SIGN_TIME_OID then
      var time :- DecTime(encoding);
      Ok(EncTime(time))
    else Reencode(encoding)
  }

  function ValueEncoder(oid: bytes): bytes -> Outcome<Enc> {
    encoding => EncValue(oid, encoding)
  }

  function NormValue(oid: bytes, encoding: bytes): bytes {
    match EncValue(oid, encoding)
    case Ok(t) => Der(t)
    case _ => encoding
  }

  /** Whatever the type, a value is not changed again after its first encoding. */
  lemma ValueStable(oid: bytes, encoding: bytes)
    requires EncValue(oid, encoding).Ok?
    ensures Fits(EncValue(oid, encoding).value)
    ensures EncValue(oid, NormValue(oid, encoding)) == EncValue(oid, encoding)
  {
    if oid == CONTENT_TYPE_OID || oid == MESSAGE_DIGEST_OID {
      ReadTlvSound(encoding);
      ReadWholeDer(EncValue(oid, encoding).value);
    } else if oid == SIGN_TIME_OID {
      TimeRoundTrip(DecTime(encoding).value);
    } else {
      RewrittenStable(encoding);
    }
  }

  function EncAttribute(a: AttributeValue): (r: Outcome<Enc>)
    ensures r.Ok? ==> r.value.Node? && r.value.id == SEQUENCE_ID
  {
    var values :- EncodeAll(a.values, ValueEncoder(a.oid));
    Ok(Node(SEQUENCE_ID, [EncOid(a.oid), Node(SET_ID, values)]))
  }

  function Encodings(items: seq<Item>): (r: seq<bytes>)
    ensures |r| == |items|
  {
    seq(|items|, i requires 0 <= i < |items| => items[i].Encoding())
  }

  /** An empty value set panics: the value array is created with its size as granularity. */
  function DecAttribute(raw: bytes): (r: Outcome<AttributeValue>)
  {
    var items :- DecodeBoundedSequence(raw, 2, 3);
    var values :- Children(items[1]);
    if values == [] then Panic else Ok(AttributeValue(items[0].contents, Encodings(values)))
  }

  /** An attribute with an empty value set. */
  predicate AttributeEndsThread(raw: bytes) {
    DecodeBoundedSequence(raw, 2, 3).Ok? && DecodeBoundedSequence(raw, 2, 3).value[1].contents == []
  }

  /** An empty value set is the only thing that ends the thread. */
  lemma AttributePanicExact(raw: bytes)
    ensures DecAttribute(raw) == Panic <==> AttributeEndsThread(raw)
  {
    hide DecodeBoundedSequence;
    if DecodeBoundedSequence(raw, 2, 3).Ok? {
      var values := DecodeBoundedSequence(raw, 2, 3).value[1];
      if Children(values).Ok? {
        ItemsSound(values.contents);
      }
    }
  }

  /** A list of attributes the first of which that is not decoded has an empty value set. */
  predicate AttributesEndThread(items: seq<Item>) {
    FirstEnds(items, DecAttribute, AttributeEndsThread)
  }

  lemma AttributesPanicExact(items: seq<Item>)
    ensures DecodeAll(items, DecAttribute) == Panic <==> AttributesEndThread(items)
  {
    hide DecAttribute, AttributeEndsThread, DecodeAll, FirstEnds;
    forall i | 0 <= i < |items|
      ensures DecAttribute(items[i].Encoding()) == Panic <==> AttributeEndsThread(items[i].Encoding())
    {
      AttributePanicExact(items[i].Encoding());
    }
    DecodeAllEnds(items, DecAttribute, AttributeEndsThread);
  }

  function NormAttribute(a: AttributeValue): AttributeValue {
    a.(values := seq(|a.values|, i requires 0 <= i < |a.values| => NormValue(a.oid, a.values[i])))
  }

  /** An attribute with at least one value is read back, its values in their written form;
      one without values is encoded but cannot be decoded. */
  lemma AttributeRoundTrip(a: AttributeValue)
    requires EncAttribute(a).Ok? && Fits(EncAttribute(a).value)
    ensures DecAttribute(Der(EncAttribute(a).value)) == if a.values == [] then Panic else Ok(NormAttribute(a))
  {
    var t := EncAttribute(a).value;
    DecodeNode(t);
    DecodeNode(t.kids[1]);
    EncodeAllKids(a.values, ValueEncoder(a.oid));
    assert Encodings(ItemsOf(t.kids[1].kids)) == NormAttribute(a).values;
  }

  /** Decoding and encoding again reproduces the octets. */
  lemma AttributeStable(a: AttributeValue)
    requires EncAttribute(a).Ok?
    ensures EncAttribute(NormAttribute(a)) == EncAttribute(a)
    ensures NormAttribute(NormAttribute(a)) == NormAttribute(a)
  {
    EncodeAllKids(a.values, ValueEncoder(a.oid));
    forall i | 0 <= i < |a.values|
      ensures EncValue(a.oid, NormValue(a.oid, a.values[i])) == EncValue(a.oid, a.values[i])
    {
      ValueStable(a.oid, a.values[i]);
    }
    EncodeAllSame(NormAttribute(a).values, a.values, ValueEncoder(a.oid));
  }

  class Attribute {
    var iAttributeType: bytes
    var iAttributeValues: seq<bytes>

    function Value(): AttributeValue
      reads this
    {
      AttributeValue(iAttributeType, iAttributeValues)
    }

    constructor ()
      ensures Value() == AttributeValue([], [])
    {
      iAttributeType, iAttributeValues := [], [];
    }

    constructor WithValues(attributeType: bytes, attributeValues: seq<bytes>)
      ensures Value() == AttributeValue(attributeType, attributeValues)
    {
      iAttributeType, iAttributeValues := attributeType, attributeValues;
    }

    /** The type is assigned before the values are known to be good, so a failure can
        leave a new type beside the old values. */
    method DecodeL(raw: bytes) returns (r: Outcome<()>)
      modifies this
      ensures r == Status(DecAttribute(raw))
      ensures r.Ok? ==> Value() == DecAttribute(raw).value
      ensures !r.Ok? ==> iAttributeValues == old(iAttributeValues)
      ensures !r.Ok? ==>
        match DecodeBoundedSequence(raw, 2, 3)
        case Ok(items) => iAttributeType == items[0].contents
        case _ => iAttributeType == old(iAttributeType)
    {
      var itemsData :- DecodeBoundedSequence(raw, 2, 3);
      iAttributeType := itemsData[0].contents;
      var attValues :- Children(itemsData[1]);
      if attValues == [] {
        return Panic;
      }
      var tmpArray: seq<bytes> := [];
      for i := 0 to |attValues|
        invariant tmpArray == Encodings(attValues[..i])
      {
        tmpArray := tmpArray + [attValues[i].Encoding()];
      }
      assert attValues[..|attValues|] == attValues;
      iAttributeValues := tmpArray;
      r := Ok(());
    }

    method EncoderLC() returns (r: Outcome<Enc>)
      ensures r == EncAttribute(Value())
    {
      var values :- EncodeAllL(iAttributeValues, ValueEncoder(iAttributeType));
      r := Ok(Node(SEQUENCE_ID, [EncOid(iAttributeType), Node(SET_ID, values)]));
    }

    method SetAttributeTypeL(attributeType: bytes)
      modifies this
      ensures Value() == old(Value()).(oid := attributeType)
    {
      iAttributeType := attributeType;
    }

    method SetAttributeValuesL(attributeValues: seq<bytes>)
      modifies this
      ensures Value() == old(Value()).(values := attributeValues)
    {
      iAttributeValues := attributeValues;
    }
  }
}
