/** CCMSSignerInfo: one signer's identifier, algorithms, attributes and signature
    (sections 5.3 and 5.4 of RFC 2630). */
module CmsSignerInfo {
  import opened Outcomes
  import opened DerCodec
  import opened Asn1
  import opened AlgorithmIdentifier
  import opened TimeUtil
  import opened CmsAttribute
  import opened CmsEncapsulatedContentInfo
  import opened CmsIssuerAndSerialNumber

  datatype SignerInfoValue = SignerInfoValue(
    version: TInt,
    issuerAndSerial: Option<IssuerSerialNumber>,
    subjectKeyIdentifier: Option<bytes>,
    digestAlgorithm: AlgorithmId,
    signedAttributes: seq<AttributeValue>,
    signatureAlgorithm: AlgorithmId,
    signatureValue: bytes,
    unsignedAttributes: seq<AttributeValue>)

  const SIGNED_ATTRS_TAG: nat := 0
  const UNSIGNED_ATTRS_TAG: nat := 1

  /** Exactly one identifier is stored, and version 1 means issuer and serial number. */
  predicate ChoiceHolds(s: SignerInfoValue) {
    && (s.issuerAndSerial.Some? <==> s.version == 1)
    && (s.subjectKeyIdentifier.Some? <==> s.version != 1)
  }

  // ----------------------------------------------------------------- encoding

  function EncSignerId(s: SignerInfoValue): (r: Outcome<Enc>) {
    match (s.issuerAndSerial, s.subjectKeyIdentifier)
    case (Some(issuer), _) => Ok(EncIssuer(issuer))
    case (None, Some(key)) => Ok(EncOctets(key))
    case (None, None) => Panic
  }

  /** No field at all is written for an empty attribute list. */
  function EncAttributeField(attributes: seq<AttributeValue>, id: byte): (r: Outcome<seq<Enc>>)
    ensures r.Ok? ==> |r.value| == if attributes == [] then 0 else 1
  {
    if attributes == [] then Ok([])
    else
      var kids :- EncodeAll(attributes, EncAttribute);
      Ok([Node(id, kids)])
  }

  const SIGNED_ATTRS_ID: byte := 0xA0
  const UNSIGNED_ATTRS_ID: byte := 0xA1

  function EncSignerInfo(s: SignerInfoValue): (r: Outcome<Enc>)
    ensures r.Ok? ==> r.value.Node? && r.value.id == SEQUENCE_ID
  {
    var signer :- EncSignerId(s);
    var digestAlg :- EncAlgorithm(s.digestAlgorithm);
    var signed :- EncAttributeField(s.signedAttributes, SIGNED_ATTRS_ID);
    var signatureAlg :- EncAlgorithm(s.signatureAlgorithm);
    var unsigned :- EncAttributeField(s.unsignedAttributes, UNSIGNED_ATTRS_ID);
    Ok(Node(SEQUENCE_ID,
      [EncInt(s.version), signer, digestAlg] + signed + [signatureAlg, EncOctets(s.signatureValue)] + unsigned))
  }

  /** Section 5.3 of RFC 2630, except that a subject key identifier is written as a plain
      OCTET STRING and not under the tag [0]. */
  lemma SignerInfoLayout(s: SignerInfoValue)
    requires EncSignerInfo(s).Ok?
    ensures var t := EncSignerInfo(s).value;
      t.id == 0x30
      && Ids(t.kids) == [0x02] + (if s.issuerAndSerial.Some? then [0x30] else [0x04]) + [0x30]
        + (if s.signedAttributes != [] then [0xA0] else []) + [0x30, 0x04]
        + (if s.unsignedAttributes != [] then [0xA1] else [])
    ensures var kids := EncSignerInfo(s).value.kids;
      var pos := if s.signedAttributes != [] then 4 else 3;
      && kids[2] == EncAlgorithm(s.digestAlgorithm).value
      && kids[pos] == EncAlgorithm(s.signatureAlgorithm).value && kids[pos + 1] == EncOctets(s.signatureValue)
  {
    hide EncAlgorithm, EncAttribute, EncIssuer, EncodeAll;
    var signed := EncAttributeField(s.signedAttributes, SIGNED_ATTRS_ID).value;
    var unsigned := EncAttributeField(s.unsignedAttributes, UNSIGNED_ATTRS_ID).value;
    assert Ids(signed) == if s.signedAttributes != [] then [0xA0] else [];
    assert Ids(unsigned) == if s.unsignedAttributes != [] then [0xA1] else [];
  }

  // ----------------------------------------------------------------- decoding

  /** The field at pos where it carries the tag, otherwise nothing. */
  function DecAttributeField(items: seq<Item>, pos: nat, tag: nat): (r: Outcome<seq<AttributeValue>>) {
    if pos < |items| && items[pos].Tag() == tag then DecList(items[pos], DecAttribute) else Ok([])
  }

  function Present(items: seq<Item>, pos: nat, tag: nat): nat {
    if pos < |items| && items[pos].Tag() == tag then 1 else 0
  }

  function DecSignerInfo(raw: bytes): (r: Outcome<SignerInfoValue>)
  {
    var items :- DecodeBoundedSequence(raw, 5, 7);
    DecSignerItems(items)
  }

  function DecIssuerChoice(item: Item, version: TInt): (r: Outcome<Option<IssuerSerialNumber>>)
    ensures r != Panic
  {
    if version != 1 then Ok(None)
    else
      var issuer :- DecIssuer(item.Encoding());
      Ok(Some(issuer))
  }

  function DecKeyChoice(item: Item, version: TInt): Option<bytes> {
    if version == 1 then None else Some(item.contents)
  }

  function DecSignerItems(items: seq<Item>): (r: Outcome<SignerInfoValue>)
    requires 5 <= |items| <= 7
  {
    var version :- DecInt(items[0]);
    var issuer :- DecIssuerChoice(items[1], version);
    var key := DecKeyChoice(items[1], version);
    var digestAlg :- DecAlgorithm(items[2].Encoding());
    var signed :- DecAttributeField(items, 3, SIGNED_ATTRS_TAG);
    var pos := 3 + Present(items, 3, SIGNED_ATTRS_TAG);
    var signatureAlg :- DecAlgorithm(items[pos].Encoding());
    if pos + 1 >= |items| then Leave(KErrArgument)
    else
      var unsigned :- DecAttributeField(items, pos + 2, UNSIGNED_ATTRS_TAG);
      Ok(SignerInfoValue(version, issuer, key, digestAlg, signed, signatureAlg, items[pos + 1].contents, unsigned))
  }

  /** The field at pos carries the tag, and one of its attributes has no values. */
  predicate AttributeFieldEndsThread(items: seq<Item>, pos: nat, tag: nat) {
    && pos < |items| && items[pos].Tag() == tag
    && Children(items[pos]).Ok? && AttributesEndThread(Children(items[pos]).value)
  }

  lemma AttributeFieldPanicExact(items: seq<Item>, pos: nat, tag: nat)
    ensures DecAttributeField(items, pos, tag) == Panic <==> AttributeFieldEndsThread(items, pos, tag)
  {
    hide DecAttribute, Children, AttributesEndThread, DecodeAll;
    if pos < |items| && Children(items[pos]).Ok? {
      AttributesPanicExact(Children(items[pos]).value);
    }
  }

  /** The fields up to the digest algorithm can be read, and either the signed attributes end
      the thread, or they and the signature algorithm can be read, there is a signature, and
      the unsigned attributes do. */
  predicate SignerItemsEndThread(items: seq<Item>)
    requires 5 <= |items| <= 7
  {
    && DecInt(items[0]).Ok?
    && DecIssuerChoice(items[1], DecInt(items[0]).value).Ok?
    && DecAlgorithm(items[2].Encoding()).Ok?
    && (AttributeFieldEndsThread(items, 3, SIGNED_ATTRS_TAG)
      || (DecAttributeField(items, 3, SIGNED_ATTRS_TAG).Ok?
        && var pos := 3 + Present(items, 3, SIGNED_ATTRS_TAG);
          && DecAlgorithm(items[pos].Encoding()).Ok?
          && pos + 1 < |items|
          && AttributeFieldEndsThread(items, pos + 2, UNSIGNED_ATTRS_TAG)))
  }

  predicate SignerEndsThread(raw: bytes) {
    DecodeBoundedSequence(raw, 5, 7).Ok? && SignerItemsEndThread(DecodeBoundedSequence(raw, 5, 7).value)
  }

  /** Which octets make a signer info end the thread: those with an attribute without values
      that the cursor gets to. */
  lemma SignerPanicExact(raw: bytes)
    ensures DecSignerInfo(raw) == Panic <==> SignerEndsThread(raw)
  {
    hide DecodeBoundedSequence, DecInt, DecIssuerChoice, DecAlgorithm, DecAttributeField, AttributeFieldEndsThread, Tlv;
    if DecodeBoundedSequence(raw, 5, 7).Ok? {
      var items := DecodeBoundedSequence(raw, 5, 7).value;
      AttributeFieldPanicExact(items, 3, SIGNED_ATTRS_TAG);
      AttributeFieldPanicExact(items, 5 + Present(items, 3, SIGNED_ATTRS_TAG), UNSIGNED_ATTRS_TAG);
    }
  }

  /** Whatever is decoded has the identifier that goes with its version. */
  lemma DecodedChoice(raw: bytes)
    ensures DecSignerInfo(raw).Ok? ==> ChoiceHolds(DecSignerInfo(raw).value)
  {
    hide DecInt, DecIssuer, DecAlgorithm, DecAttributeField, DecodeBoundedSequence, Present, Tlv;
  }

  // --------------------------------------------------------------- round trip

  function NormSignerInfo(s: SignerInfoValue): SignerInfoValue {
    s.(digestAlgorithm := NormAlgorithm(s.digestAlgorithm),
       signedAttributes := MapAll(s.signedAttributes, NormAttribute),
       signatureAlgorithm := NormAlgorithm(s.signatureAlgorithm),
       unsignedAttributes := MapAll(s.unsignedAttributes, NormAttribute))
  }

  predicate HasValues(a: AttributeValue) {
    a.values != []
  }

  predicate ValuesPresent(attributes: seq<AttributeValue>) {
    AllOf(attributes, HasValues)
  }

  /** What the decoder needs beyond an encoding that succeeded. */
  predicate SignerInfoReadable(s: SignerInfoValue) {
    ChoiceHolds(s) && ValuesPresent(s.signedAttributes) && ValuesPresent(s.unsignedAttributes)
  }

  /** Attribute lists under any constructed tag are read back element by element, unless
      some attribute has no values. */
  lemma AttributesRoundTrip(attributes: seq<AttributeValue>, id: byte)
    requires EncodeAll(attributes, EncAttribute).Ok?
    requires Fits(Node(id, EncodeAll(attributes, EncAttribute).value))
    ensures DecList(ItemOf(Node(id, EncodeAll(attributes, EncAttribute).value)), DecAttribute)
      == Ok(MapAll(attributes, NormAttribute))
      <==> ValuesPresent(attributes)
  {
    hide EncAttribute, DecAttribute, NormAttribute;
    EncodeAllKids(attributes, EncAttribute);
    forall i | 0 <= i < |attributes| && Fits(EncAttribute(attributes[i]).value)
      ensures DecAttribute(Der(EncAttribute(attributes[i]).value)) == Ok(NormAttribute(attributes[i]))
        <==> HasValues(attributes[i])
    {
      AttributeRoundTrip(attributes[i]);
    }
    TaggedListRoundTrip(attributes, id, EncAttribute, DecAttribute, NormAttribute, HasValues);
  }

  /** An optional attribute field at pos is recognised by its tag alone. */
  lemma AttributeFieldRoundTrip(attributes: seq<AttributeValue>, id: byte, tag: nat, items: seq<Item>, pos: nat)
    requires EncAttributeField(attributes, id).Ok?
    requires id as nat % 0x20 == tag
    requires var field := EncAttributeField(attributes, id).value;
      if field == [] then pos < |items| ==> items[pos].Tag() != tag
      else pos < |items| && Fits(field[0]) && items[pos] == ItemOf(field[0])
    ensures DecAttributeField(items, pos, tag) == Ok(MapAll(attributes, NormAttribute)) <==> ValuesPresent(attributes)
    ensures Present(items, pos, tag) == |EncAttributeField(attributes, id).value|
  {
    if attributes != [] {
      AttributesRoundTrip(attributes, id);
    } else {
      assert MapAll(attributes, NormAttribute) == [];
    }
  }

  /** The identifier is read back as it was stored exactly when the version agrees with
      the alternative. */
  lemma SignerIdRoundTrip(s: SignerInfoValue, item: Item)
    requires EncSignerId(s).Ok? && Fits(EncSignerId(s).value) && item == ItemOf(EncSignerId(s).value)
    ensures DecIssuerChoice(item, s.version) == Ok(s.issuerAndSerial)
      && DecKeyChoice(item, s.version) == s.subjectKeyIdentifier
      <==> ChoiceHolds(s)
  {
    hide DecIssuer, EncIssuer;
    ItemEncoding(EncSignerId(s).value);
    if s.issuerAndSerial.Some? {
      IssuerRoundTrip(s.issuerAndSerial.value);
    }
  }

  /** A signer info is read back, equal up to the written form of opaque values, exactly
      when its version agrees with its identifier and no attribute is without values. */
  lemma SignerInfoRoundTrip(s: SignerInfoValue)
    requires EncSignerInfo(s).Ok? && Fits(EncSignerInfo(s).value)
    ensures DecSignerInfo(Der(EncSignerInfo(s).value)) == Ok(NormSignerInfo(s)) <==> SignerInfoReadable(s)
  {
    hide LengthOctets, EncAttribute, DecAttribute, EncAlgorithm, DecAlgorithm, EncIssuer, DecIssuer, NormAttribute,
      NormAlgorithm, DecSignerItems, ChoiceHolds, ValuesPresent, DecIssuerChoice, DecKeyChoice, DecAttributeField,
      NormSignerInfo, EncSignerId, EncAttributeField, EncInt, DecInt, Tlv, MapAll;
    var t := EncSignerInfo(s).value;
    var kids, items := t.kids, ItemsOf(t.kids);
    var signed := EncAttributeField(s.signedAttributes, SIGNED_ATTRS_ID).value;
    var unsigned := EncAttributeField(s.unsignedAttributes, UNSIGNED_ATTRS_ID).value;
    var pos := 3 + |signed|;
    assert DecodeBoundedSequence(Der(t), 5, 7) == Ok(items) by {
      DecodeNode(t);
    }
    assert forall i :: 0 <= i < |kids| ==>
      Fits(kids[i]) && items[i] == ItemOf(kids[i]) && items[i].Encoding() == Der(kids[i]);
    assert kids[0] == EncInt(s.version) && kids[1] == EncSignerId(s).value
      && kids[2] == EncAlgorithm(s.digestAlgorithm).value;
    assert kids[pos] == EncAlgorithm(s.signatureAlgorithm).value && kids[pos + 1] == EncOctets(s.signatureValue);
    assert signed != [] ==> kids[3] == signed[0];
    assert unsigned != [] ==> kids[pos + 2] == unsigned[0];
    assert DecInt(items[0]) == Ok(s.version) by {
      IntRoundTrip(s.version);
    }
    SignerIdRoundTrip(s, items[1]);
    assert DecAlgorithm(items[2].Encoding()) == Ok(NormAlgorithm(s.digestAlgorithm)) by {
      AlgorithmRoundTrip(s.digestAlgorithm);
    }
    assert DecAlgorithm(items[pos].Encoding()) == Ok(NormAlgorithm(s.signatureAlgorithm)) by {
      AlgorithmRoundTrip(s.signatureAlgorithm);
    }
    AttributeFieldRoundTrip(s.signedAttributes, SIGNED_ATTRS_ID, SIGNED_ATTRS_TAG, items, 3);
    AttributeFieldRoundTrip(s.unsignedAttributes, UNSIGNED_ATTRS_ID, UNSIGNED_ATTRS_TAG, items, pos + 2);
    SignerItemsDecode(s, items, pos);
  }

  /** The decoder's cursor, given what each item decodes to. */
  lemma SignerItemsDecode(s: SignerInfoValue, items: seq<Item>, pos: nat)
    requires 5 <= |items| <= 7
    requires DecInt(items[0]) == Ok(s.version)
    requires DecAlgorithm(items[2].Encoding()) == Ok(NormAlgorithm(s.digestAlgorithm))
    requires pos == 3 + Present(items, 3, SIGNED_ATTRS_TAG) && pos + 1 < |items|
    requires DecAlgorithm(items[pos].Encoding()) == Ok(NormAlgorithm(s.signatureAlgorithm))
    requires items[pos + 1].contents == s.signatureValue
    ensures DecSignerItems(items) == Ok(NormSignerInfo(s)) <==>
      && DecIssuerChoice(items[1], s.version) == Ok(s.issuerAndSerial)
      && DecKeyChoice(items[1], s.version) == s.subjectKeyIdentifier
      && DecAttributeField(items, 3, SIGNED_ATTRS_TAG) == Ok(MapAll(s.signedAttributes, NormAttribute))
      && DecAttributeField(items, pos + 2, UNSIGNED_ATTRS_TAG) == Ok(MapAll(s.unsignedAttributes, NormAttribute))
  {
    hide DecInt, DecAlgorithm, DecIssuerChoice, DecKeyChoice, DecAttributeField, NormAlgorithm, NormAttribute, Tlv;
  }

  /** Encoding a decoded signer info again reproduces the octets exactly when neither
      algorithm had its parameters left empty. */
  lemma SignerInfoStable(s: SignerInfoValue)
    requires EncSignerInfo(s).Ok?
    ensures EncSignerInfo(NormSignerInfo(s)).Ok?
    ensures Der(EncSignerInfo(NormSignerInfo(s)).value) == Der(EncSignerInfo(s).value)
      <==> s.digestAlgorithm.params != [] && s.signatureAlgorithm.params != []
  {
    hide Der, EncSignerInfo, NormSignerInfo;
    SignerInfoReencoded(s);
    DerOfAlike(EncSignerInfo(NormSignerInfo(s)).value, EncSignerInfo(s).value);
  }

  lemma SignerInfoReencoded(s: SignerInfoValue)
    requires EncSignerInfo(s).Ok?
    ensures EncSignerInfo(NormSignerInfo(s)).Ok?
    ensures Alike(EncSignerInfo(NormSignerInfo(s)).value, EncSignerInfo(s).value)
    ensures EncSignerInfo(NormSignerInfo(s)) == EncSignerInfo(s)
      <==> s.digestAlgorithm.params != [] && s.signatureAlgorithm.params != []
  {
    hide EncAttributeField, EncAlgorithm, NormAttribute, NormAlgorithm, EncInt;
    AttributeFieldStable(s.signedAttributes, SIGNED_ATTRS_ID);
    AttributeFieldStable(s.unsignedAttributes, UNSIGNED_ATTRS_ID);
    AlgorithmReencoded(s.digestAlgorithm);
    AlgorithmReencoded(s.signatureAlgorithm);
    var t, u := EncSignerInfo(s).value, EncSignerInfo(NormSignerInfo(s)).value;
    var pos := 3 + |EncAttributeField(s.signedAttributes, SIGNED_ATTRS_ID).value|;
    assert t.kids[2] == EncAlgorithm(s.digestAlgorithm).value;
    assert u.kids[2] == EncAlgorithm(NormAlgorithm(s.digestAlgorithm)).value;
    assert t.kids[pos] == EncAlgorithm(s.signatureAlgorithm).value;
    assert u.kids[pos] == EncAlgorithm(NormAlgorithm(s.signatureAlgorithm)).value;
    NodesAlike(u, t);
  }

  lemma AttributeFieldStable(attributes: seq<AttributeValue>, id: byte)
    requires EncAttributeField(attributes, id).Ok?
    ensures EncAttributeField(MapAll(attributes, NormAttribute), id) == EncAttributeField(attributes, id)
  {
    if attributes != [] {
      EncodeAllKids(attributes, EncAttribute);
      forall i | 0 <= i < |attributes|
        ensures EncAttribute(MapAll(attributes, NormAttribute)[i]) == EncAttribute(attributes[i])
      {
        AttributeStable(attributes[i]);
      }
      EncodeAllSame(MapAll(attributes, NormAttribute), attributes, EncAttribute);
    }
  }

  // -------------------------------------------- input of the signature digest

  /** SignedAttributesEncodedL: the attributes as a SET OF, or nothing. */
  function SignedAttributesEncoded(s: SignerInfoValue): (r: Outcome<Option<bytes>>) {
    var field :- EncAttributeField(s.signedAttributes, SET_ID);
    Ok(if field == [] then None else Some(Der(field[0])))
  }

  /** Section 5.4 of RFC 2630: the digested octets are those of the [0] field, except
      for the identifier octet, which is that of a SET OF. */
  lemma DigestInputDiffersInTagOnly(s: SignerInfoValue)
    requires EncSignerInfo(s).Ok? && s.signedAttributes != []
    ensures SignedAttributesEncoded(s).Ok? && SignedAttributesEncoded(s).value.Some?
    ensures var digested := SignedAttributesEncoded(s).value.value;
      var field := Der(EncSignerInfo(s).value.kids[3]);
      && field[0] == 0xA0 && digested[0] == 0x31 && field[1..] == digested[1..]
  {
    var kids := EncodeAll(s.signedAttributes, EncAttribute).value;
    assert EncSignerInfo(s).value.kids[3] == Node(SIGNED_ATTRS_ID, kids);
    SameAfterIdentifier(Node(SIGNED_ATTRS_ID, kids), Node(SET_ID, kids));
  }

  lemma SameAfterIdentifier(a: Enc, b: Enc)
    requires Contents(a) == Contents(b)
    ensures Der(a)[0] == a.id && Der(b)[0] == b.id && Der(a)[1..] == Der(b)[1..]
  {
    var rest := LengthOctets(|Contents(a)|) + Contents(a);
    assert Der(a) == [a.id] + rest && Der(b) == [b.id] + rest;
  }

  /** The signature still covers the same octets after the signer info has been
      transported, although every value is decoded and encoded again by its type. */
  lemma DigestInputPreserved(s: SignerInfoValue)
    requires EncSignerInfo(s).Ok? && Fits(EncSignerInfo(s).value)
    requires SignerInfoReadable(s)
    ensures DecSignerInfo(Der(EncSignerInfo(s).value)).Ok?
    ensures SignedAttributesEncoded(DecSignerInfo(Der(EncSignerInfo(s).value)).value) == SignedAttributesEncoded(s)
  {
    SignerInfoRoundTrip(s);
    AttributeFieldStable(s.signedAttributes, SET_ID);
  }

  // ------------------------------------------------------- the URL attribute

  const URL_CERTIFICATE_OID: bytes := [0x67, 0x2B, 0x02, 0x01]

  /** The value is written under a context-specific tag 22, not as an IA5String. */
  function UrlAttribute(url: bytes): AttributeValue {
    AttributeValue(URL_CERTIFICATE_OID, [Der(ImplicitTag(EncOctets(url), IA5_STRING_TAG))])
  }

  predicate IsUrl(a: AttributeValue) {
    a.oid == URL_CERTIFICATE_OID
  }

  /** Only the last attribute may be a URL attribute. */
  predicate UrlOnlyLast(attributes: seq<AttributeValue>) {
    forall i :: 0 <= i < |attributes| - 1 ==> !IsUrl(attributes[i])
  }

  function WithoutUrls(attributes: seq<AttributeValue>): (r: seq<AttributeValue>)
  {
    if attributes == [] then []
    else
      var front := WithoutUrls(attributes[..|attributes| - 1]);
      var last := attributes[|attributes| - 1];
      if IsUrl(last) then front else front + [last]
  }

  lemma {:induction false} WithoutUrlsKeeps(attributes: seq<AttributeValue>)
    requires forall i :: 0 <= i < |attributes| ==> !IsUrl(attributes[i])
    ensures WithoutUrls(attributes) == attributes
  {
    if attributes != [] {
      var front := attributes[..|attributes| - 1];
      WithoutUrlsKeeps(front);
      assert attributes == front + [attributes[|attributes| - 1]];
    }
  }

  /** The deletion loop of the two certificate setters. Its bound is the count before
      any deletion, so a deletion anywhere but at the end makes a later index run past
      the shrunken array: the loop panics exactly in that case, and otherwise removes
      every URL attribute and keeps the order of the rest. */
  method RemoveUrlAttributes(attributes: seq<AttributeValue>) returns (r: Outcome<seq<AttributeValue>>)
    ensures r.Ok? <==> UrlOnlyLast(attributes)
    ensures r.Ok? ==> r.value == WithoutUrls(attributes)
    ensures !r.Ok? ==> r == Panic
  {
    var current := attributes;
    var count := |attributes|;
    for i := 0 to count
      invariant |current| <= count
      invariant |current| == count ==> current == attributes && forall k :: 0 <= k < i ==> !IsUrl(attributes[k])
      invariant |current| < count && i < count ==> !UrlOnlyLast(attributes)
      invariant |current| < count && i == count ==>
        UrlOnlyLast(attributes) && current == attributes[..count - 1] && IsUrl(attributes[count - 1])
    {
      if i >= |current| {
        return Panic;
      }
      if IsUrl(current[i]) {
        current := current[..i] + current[i + 1..];
      }
    }
    if |current| == count {
      WithoutUrlsKeeps(attributes);
    } else {
      WithoutUrlsKeeps(attributes[..count - 1]);
    }
    r := Ok(current);
  }

  // ------------------------------------------------------- setters and runs

  /** SetCertificateL */
  function WithCertificate(s: SignerInfoValue, issuer: IssuerSerialNumber): SignerInfoValue {
    s.(issuerAndSerial := Some(issuer), unsignedAttributes := WithoutUrls(s.unsignedAttributes),
       subjectKeyIdentifier := None, version := 1)
  }

  /** SetCertificateUrlL */
  function WithCertificateUrl(s: SignerInfoValue, url: bytes, keyId: bytes): SignerInfoValue {
    s.(unsignedAttributes := WithoutUrls(s.unsignedAttributes) + [UrlAttribute(url)],
       subjectKeyIdentifier := Some(keyId), issuerAndSerial := None, version := 3)
  }

  datatype SignerStep =
    | SetCertificate(issuer: IssuerSerialNumber)
    | SetCertificateUrl(url: bytes, keyId: bytes)
    | SetUnsignedAttributes(attributes: seq<AttributeValue>)
    | SetSignedAttributes(contentType: bytes, digest: bytes, time: Time, certHash: Option<bytes>)
    | Decode(raw: bytes)

  predicate SetsCertificate(step: SignerStep) {
    step.SetCertificate? || step.SetCertificateUrl?
  }

  /** What a step makes of the object; a decoding that leaves makes nothing of it. */
  function Applied(s: SignerInfoValue, step: SignerStep): Outcome<SignerInfoValue> {
    if SetsCertificate(step) && !UrlOnlyLast(s.unsignedAttributes) then Panic
    else match step
      case SetCertificate(issuer) => Ok(WithCertificate(s, issuer))
      case SetCertificateUrl(url, keyId) => Ok(WithCertificateUrl(s, url, keyId))
      case SetUnsignedAttributes(attributes) => Ok(s.(unsignedAttributes := attributes))
      case SetSignedAttributes(contentType, digest, time, certHash) =>
        Ok(s.(signedAttributes := SignedAttributesFor(contentType, digest, time, certHash)))
      case Decode(raw) =>
        match DecSignerInfo(raw)
        case Ok(decoded) => Ok(decoded)
        case Leave(_) => Ok(s)
        case Panic => Panic
  }

  function AppliedAll(s: SignerInfoValue, steps: seq<SignerStep>): Outcome<SignerInfoValue> {
    if steps == [] then Ok(s)
    else
      var before :- AppliedAll(s, steps[..|steps| - 1]);
      Applied(before, steps[|steps| - 1])
  }

  /** The unsigned attributes that came in last: from the start, a decoding or a setter. */
  function BroughtIn(s: SignerInfoValue, steps: seq<SignerStep>): seq<AttributeValue> {
    if steps == [] then s.unsignedAttributes
    else
      var before := BroughtIn(s, steps[..|steps| - 1]);
      match steps[|steps| - 1]
      case SetUnsignedAttributes(attributes) => attributes
      case Decode(raw) => if DecSignerInfo(raw).Ok? then DecSignerInfo(raw).value.unsignedAttributes else before
      case _ => before
  }

  /** Nothing that is decoded has an attribute without values that the cursor gets to, and no
      certificate is set while the attributes that came in last have a URL attribute before
      their last place. */
  predicate Harmless(s: SignerInfoValue, steps: seq<SignerStep>) {
    steps == [] || (
      var before, last := steps[..|steps| - 1], steps[|steps| - 1];
      && Harmless(s, before)
      && (SetsCertificate(last) ==> UrlOnlyLast(BroughtIn(s, before)))
      && (last.Decode? ==> !SignerEndsThread(last.raw)))
  }

  predicate NoUrl(attributes: seq<AttributeValue>) {
    forall i :: 0 <= i < |attributes| ==> !IsUrl(attributes[i])
  }

  lemma {:induction false} WithoutUrlsHasNone(attributes: seq<AttributeValue>)
    ensures NoUrl(WithoutUrls(attributes))
  {
    if attributes != [] {
      WithoutUrlsHasNone(attributes[..|attributes| - 1]);
    }
  }

  /** Any sequence of setters and decodings gets through exactly when it is harmless. The
      identifier choice is then intact, the deletion loop is safe exactly when it was on the
      attributes that came in last, none of those but URL attributes has been reordered,
      dropped or added, and after a certificate setter there is a URL attribute exactly when
      it was the URL setter. */
  lemma {:induction false} SetterRuns(s: SignerInfoValue, steps: seq<SignerStep>)
    requires ChoiceHolds(s)
    ensures AppliedAll(s, steps).Ok? <==> Harmless(s, steps)
    ensures !AppliedAll(s, steps).Ok? ==> AppliedAll(s, steps) == Panic
    ensures AppliedAll(s, steps).Ok? ==>
      var final, base := AppliedAll(s, steps).value, BroughtIn(s, steps);
      && ChoiceHolds(final)
      && (UrlOnlyLast(final.unsignedAttributes) <==> UrlOnlyLast(base))
      && WithoutUrls(final.unsignedAttributes) == WithoutUrls(base)
      && (steps != [] && steps[|steps| - 1].SetCertificate? ==> final.unsignedAttributes == WithoutUrls(base))
      && (steps != [] && steps[|steps| - 1].SetCertificateUrl? ==>
        final.unsignedAttributes == WithoutUrls(base) + [UrlAttribute(steps[|steps| - 1].url)])
  {
    hide UrlOnlyLast, WithoutUrls, DecSignerInfo, SignerEndsThread, UrlAttribute, SignedAttributesFor;
    if steps != [] {
      var before, last := steps[..|steps| - 1], steps[|steps| - 1];
      SetterRuns(s, before);
      if AppliedAll(s, before).Ok? {
        if SetsCertificate(last) && UrlOnlyLast(AppliedAll(s, before).value.unsignedAttributes) {
          CertificateSet(AppliedAll(s, before).value, if last.SetCertificateUrl? then last.url else []);
        } else if last.Decode? {
          SignerPanicExact(last.raw);
          DecodedChoice(last.raw);
        }
      }
    }
  }

  /** What both certificate setters leave of the attributes. */
  lemma CertificateSet(s: SignerInfoValue, url: bytes)
    requires UrlOnlyLast(s.unsignedAttributes)
    ensures var kept := WithoutUrls(s.unsignedAttributes);
      && UrlOnlyLast(kept) && WithoutUrls(kept) == kept
      && UrlOnlyLast(kept + [UrlAttribute(url)]) && WithoutUrls(kept + [UrlAttribute(url)]) == kept
  {
    var kept := WithoutUrls(s.unsignedAttributes);
    WithoutUrlsHasNone(s.unsignedAttributes);
    WithoutUrlsKeeps(kept);
    assert (kept + [UrlAttribute(url)])[..|kept|] == kept;
  }

  /** Two attributes with the URL first: the source never builds this list itself, but
      a decoded message or SetUnsignedAttributesL can, and setting a certificate then ends
      the thread. */
  lemma UrlFirstPanics(s: SignerInfoValue, url: bytes, other: AttributeValue, issuer: IssuerSerialNumber)
    ensures !UrlOnlyLast([UrlAttribute(url), other])
    ensures AppliedAll(s, [SetUnsignedAttributes([UrlAttribute(url), other]), SetCertificate(issuer)]) == Panic
  {
    var attributes := [UrlAttribute(url), other];
    var steps := [SetUnsignedAttributes(attributes), SetCertificate(issuer)];
    assert IsUrl(attributes[0]);
    assert steps[..1] == [SetUnsignedAttributes(attributes)] && steps[..1][..0] == [];
    assert AppliedAll(s, steps[..1]) == Ok(s.(unsignedAttributes := attributes));
  }

  // -------------------------------------------------------- signed attributes

  const SIGNING_CERTIFICATE_OID: bytes := PKCS9 + [0x10, 0x02, 0x0C]

  function OptionalAttribute(oid: bytes, encoding: Option<bytes>): (r: seq<AttributeValue>) {
    match encoding
    case Some(octets) => [AttributeValue(oid, [octets])]
    case None => []
  }

  /** SetSignedAttributesL: empty content types and digests are left out. */
  function SignedAttributesFor(contentType: bytes, digest: bytes, time: Time,
    certHash: Option<bytes>): seq<AttributeValue> {
    OptionalAttribute(CONTENT_TYPE_OID, if contentType == [] then None else Some(Der(EncOid(contentType))))
    + OptionalAttribute(MESSAGE_DIGEST_OID, if digest == [] then None else Some(Der(EncOctets(digest))))
    + [AttributeValue(SIGN_TIME_OID, [Der(EncTime(time))])]
    + OptionalAttribute(SIGNING_CERTIFICATE_OID, certHash)
  }

  /** Sections 11.1 to 11.3 of RFC 2630: what the three attributes that are always built
      carry can be read from their values, and the whole list can be encoded and decoded. */
  lemma SignedAttributesReadable(contentType: bytes, digest: bytes, time: Time, certHash: Option<bytes>)
    requires 0 < |contentType| < LENGTH_LIMIT && 0 < |digest| < LENGTH_LIMIT
    requires certHash.Some? ==> ReadTlv(certHash.value).Some?
    ensures var attributes := SignedAttributesFor(contentType, digest, time, certHash);
      && |attributes| == 3 + (if certHash.Some? then 1 else 0)
      && attributes[0].oid == CONTENT_TYPE_OID && DecFirst(attributes[0].values[0]) == Ok(contentType)
      && attributes[1].oid == MESSAGE_DIGEST_OID && DecFirst(attributes[1].values[0]) == Ok(digest)
      && attributes[2].oid == SIGN_TIME_OID && DecTime(attributes[2].values[0]) == Ok(time)
      && ValuesPresent(attributes) && EncodeAll(attributes, EncAttribute).Ok?
  {
    hide Tlv, EncTime, DecTime, ReadTlv, EncAttribute, EncodeAll;
    var attributes := SignedAttributesFor(contentType, digest, time, certHash);
    ReadWholeDer(EncOid(contentType));
    ReadWholeDer(EncOctets(digest));
    TimeRoundTrip(time);
    assert CONTENT_TYPE_OID[8] == 0x03 && MESSAGE_DIGEST_OID[8] == 0x04 && SIGN_TIME_OID[8] == 0x05;
    assert |SIGNING_CERTIFICATE_OID| == 11;
    assert EncValue(CONTENT_TYPE_OID, attributes[0].values[0]).Ok?;
    assert EncValue(MESSAGE_DIGEST_OID, attributes[1].values[0]).Ok?;
    assert EncValue(SIGN_TIME_OID, attributes[2].values[0]).Ok?;
    assert certHash.Some? ==> EncValue(SIGNING_CERTIFICATE_OID, attributes[3].values[0]).Ok?;
    forall i | 0 <= i < |attributes| ensures EncAttribute(attributes[i]).Ok? {
      OneValueEncodes(attributes[i]);
    }
    AllEncode(attributes);
  }

  lemma OneValueEncodes(a: AttributeValue)
    requires |a.values| == 1 && EncValue(a.oid, a.values[0]).Ok?
    ensures EncAttribute(a).Ok?
  {
    hide EncValue;
    var enc := ValueEncoder(a.oid);
    var front := a.values[..|a.values| - 1];
    assert front == [];
    assert EncodeAll(front, enc) == Ok([]);
    assert enc(a.values[|a.values| - 1]) == EncValue(a.oid, a.values[0]);
    assert EncodeAll(a.values, enc).Ok?;
  }

  lemma {:induction false} AllEncode(attributes: seq<AttributeValue>)
    requires forall i :: 0 <= i < |attributes| ==> EncAttribute(attributes[i]).Ok?
    ensures EncodeAll(attributes, EncAttribute).Ok?
  {
    hide EncAttribute;
    if attributes != [] {
      AllEncode(attributes[..|attributes| - 1]);
    }
  }

  // ------------------------------------------------------------------ objects

  class SignerInfo {
    var iData: SignerInfoValue

    /** NewL( url, key identifier, digest ) */
    constructor FromUrl(url: bytes, keyId: bytes, digest: bytes, now: Time)
      ensures iData == WithCertificateUrl(Fresh(digest, now), url, keyId)
      ensures ChoiceHolds(iData) && UrlOnlyLast(iData.unsignedAttributes)
    {
      iData := Fresh(digest, now);
      new;
      var r := SetCertificateUrlL(url, keyId);
    }

    /** NewL( certificate, digest ) */
    constructor FromCertificate(issuer: IssuerSerialNumber, digest: bytes, now: Time)
      ensures iData == WithCertificate(Fresh(digest, now), issuer)
      ensures ChoiceHolds(iData) && UrlOnlyLast(iData.unsignedAttributes)
    {
      iData := Fresh(digest, now);
      new;
      var r := SetCertificateL(issuer);
    }

    /** A failure at any depth leaves the object as it was: everything is decoded into
        new data, which replaces the old at the end. */
    method DecodeL(raw: bytes) returns (r: Outcome<()>)
      modifies this
      ensures r == Status(DecSignerInfo(raw))
      ensures iData == if r.Ok? then DecSignerInfo(raw).value else old(iData)
      ensures r.Ok? ==> ChoiceHolds(iData)
    {
      hide LengthOctets, Tlv, DecAlgorithm, DecIssuer, DecAttribute, DecInt, DecodeBoundedSequence, DecodeAll, Children;
      var signerInfo :- DecodeBoundedSequence(raw, 5, 7);
      assert DecSignerInfo(raw) == DecSignerItems(signerInfo);
      var pos := 0;
      var version :- DecInt(signerInfo[pos]);
      pos := pos + 1;
      var issuer: Option<IssuerSerialNumber> := None;
      var key: Option<bytes> := None;
      if version == 1 {
        var v :- DecIssuer(signerInfo[pos].Encoding());
        issuer := Some(v);
      } else {
        key := Some(signerInfo[pos].contents);
      }
      pos := pos + 1;
      var digestAlg :- DecAlgorithm(signerInfo[pos].Encoding());
      pos := pos + 1;
      var signed: seq<AttributeValue> := [];
      if signerInfo[pos].Tag() == SIGNED_ATTRS_TAG {
        var attributes :- Children(signerInfo[pos]);
        signed :- DecodeAllL(attributes, DecAttribute);
        pos := pos + 1;
      }
      var signatureAlg :- DecAlgorithm(signerInfo[pos].Encoding());
      pos := pos + 1;
      if pos >= |signerInfo| {
        return Leave(KErrArgument);
      }
      var signature := signerInfo[pos].contents;
      pos := pos + 1;
      var unsigned: seq<AttributeValue> := [];
      if pos < |signerInfo| && signerInfo[pos].Tag() == UNSIGNED_ATTRS_TAG {
        var attributes :- Children(signerInfo[pos]);
        unsigned :- DecodeAllL(attributes, DecAttribute);
      }
      iData := SignerInfoValue(version, issuer, key, digestAlg, signed, signatureAlg, signature, unsigned);
      r := Ok(());
    }

    method EncoderLC() returns (r: Outcome<Enc>)
      ensures r == EncSignerInfo(iData)
    {
      hide EncAlgorithm, EncSignerId, EncodeAll, EncInt, EncOctets;
      var root := [EncInt(iData.version)];
      var signer :- EncSignerId(iData);
      var digestAlg :- EncAlgorithm(iData.digestAlgorithm);
      root := root + [signer, digestAlg];
      if |iData.signedAttributes| > 0 {
        var kids :- EncodeAllL(iData.signedAttributes, EncAttribute);
        root := root + [Node(SIGNED_ATTRS_ID, kids)];
      }
      var signatureAlg :- EncAlgorithm(iData.signatureAlgorithm);
      root := root + [signatureAlg, EncOctets(iData.signatureValue)];
      if |iData.unsignedAttributes| > 0 {
        var kids :- EncodeAllL(iData.unsignedAttributes, EncAttribute);
        root := root + [Node(UNSIGNED_ATTRS_ID, kids)];
      }
      assert root == [EncInt(iData.version), signer, digestAlg]
        + EncAttributeField(iData.signedAttributes, SIGNED_ATTRS_ID).value
        + [signatureAlg, EncOctets(iData.signatureValue)]
        + EncAttributeField(iData.unsignedAttributes, UNSIGNED_ATTRS_ID).value;
      r := Ok(Node(SEQUENCE_ID, root));
    }

    method SignedAttributesEncodedL() returns (r: Outcome<Option<bytes>>)
      ensures r == SignedAttributesEncoded(iData)
    {
      if |iData.signedAttributes| == 0 {
        return Ok(None);
      }
      var kids :- EncodeAllL(iData.signedAttributes, EncAttribute);
      r := Ok(Some(Der(Node(SET_ID, kids))));
    }

    method SetCertificateL(issuer: IssuerSerialNumber) returns (r: Outcome<()>)
      modifies this
      ensures r.Ok? <==> UrlOnlyLast(old(iData).unsignedAttributes)
      ensures r.Ok? ==> iData == WithCertificate(old(iData), issuer)
    {
      iData := iData.(issuerAndSerial := Some(issuer));
      var kept :- RemoveUrlAttributes(iData.unsignedAttributes);
      iData := iData.(unsignedAttributes := kept, subjectKeyIdentifier := None, version := 1);
      r := Ok(());
    }

    method SetCertificateUrlL(url: bytes, keyId: bytes) returns (r: Outcome<()>)
      modifies this
      ensures r.Ok? <==> UrlOnlyLast(old(iData).unsignedAttributes)
      ensures r.Ok? ==> iData == WithCertificateUrl(old(iData), url, keyId)
    {
      var certUrl := UrlAttribute(url);
      var kept :- RemoveUrlAttributes(iData.unsignedAttributes);
      iData := iData.(unsignedAttributes := kept + [certUrl]);
      iData := iData.(subjectKeyIdentifier := Some(keyId), issuerAndSerial := None, version := 3);
      r := Ok(());
    }

    /** Takes the attributes over, whatever they are. */
    method SetUnsignedAttributesL(attributes: seq<AttributeValue>)
      modifies this
      ensures iData == old(iData).(unsignedAttributes := attributes)
    {
      iData := iData.(unsignedAttributes := attributes);
    }

    method SetSignedAttributesL(contentType: bytes, digest: bytes, time: Time, certHash: Option<bytes>)
      modifies this
      ensures iData == old(iData).(signedAttributes := SignedAttributesFor(contentType, digest, time, certHash))
    {
      var tmp: seq<AttributeValue> := [];
      if contentType != [] {
        tmp := tmp + [AttributeValue(CONTENT_TYPE_OID, [Der(EncOid(contentType))])];
      }
      if digest != [] {
        tmp := tmp + [AttributeValue(MESSAGE_DIGEST_OID, [Der(EncOctets(digest))])];
      }
      tmp := tmp + [AttributeValue(SIGN_TIME_OID, [Der(EncTime(time))])];
      if certHash.Some? {
        tmp := tmp + [AttributeValue(SIGNING_CERTIFICATE_OID, [certHash.value])];
      }
      iData := iData.(signedAttributes := tmp);
    }
  }

  /** BaseConstructL: SHA-1, RSA, three signed attributes, the digest as signature value. */
  function Fresh(digest: bytes, now: Time): SignerInfoValue {
    SignerInfoValue(0, None, None, AlgorithmId(SHA1, None, []), SignedAttributesFor(ID_DATA, digest, now, None),
      AlgorithmId(RSA, None, []), digest, [])
  }
}
