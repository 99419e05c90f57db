/** Octets from elsewhere, which the decoders accept: what has been decoded from them is
    always readable again, when encoding it reproduces them, and when the octets that are
    digested are those that were received. */
module CmsReceived {
  import opened Outcomes
  import opened DerCodec
  import opened Asn1
  import opened TimeUtil
  import opened AlgorithmIdentifier
  import opened CmsAttribute
  import opened CmsEncapsulatedContentInfo
  import opened CmsSignerInfo
  import opened CmsGeneralNames
  import opened CmsSigned
  import opened CmsX509Certificate
  import opened CmsAttributeCertificate
  import opened CmsCertificateChoices
  import opened CmsCertificateList
  import opened CmsSignedData
  import opened CmsOriginatorInfo
  import opened CmsRecipientInfo
  import opened CmsKeyAgreeRecipientInfo
  import opened CmsAuthenticatedData
  import opened CmsStability
  import opened CmsAuthenticatedStability
  import opened CmsWrittenForm

  // ------------------------------------------- what is decoded can be read again

  lemma {:induction false} DecodedList<T>(items: seq<Item>, dec: bytes -> Outcome<T>, readable: T -> bool)
    requires DecodeAll(items, dec).Ok?
    requires forall i :: 0 <= i < |items| && dec(items[i].Encoding()).Ok? ==> readable(dec(items[i].Encoding()).value)
    ensures AllOf(DecodeAll(items, dec).value, readable)
  {
    hide Tlv;
    if items != [] {
      DecodedList(items[..|items| - 1], dec, readable);
    }
  }

  lemma DecodedAttributes(items: seq<Item>)
    requires DecodeAll(items, DecAttribute).Ok?
    ensures ValuesPresent(DecodeAll(items, DecAttribute).value)
  {
    hide Tlv, DecodeBoundedSequence;
    DecodedList(items, DecAttribute, HasValues);
  }

  lemma DecodedBits(item: Item)
    ensures DecBits(item).Ok? ==> DecBits(item).value != []
  {
  }

  lemma DecodedCertificate(raw: bytes)
    ensures DecCertificate(raw).Ok? ==> CertificateReadable(DecCertificate(raw).value)
  {
    hide DecodeBoundedSequence, DecAlgorithm, DecName, DecValidity, DecVersion, Tlv;
  }

  lemma DecodedNames(raw: bytes)
    ensures DecGeneralNames(raw).Ok? ==> DecGeneralNames(raw).value != []
  {
    hide DecodeSequence, DecGeneralName;
  }

  lemma DecodedSubject(item: Item)
    ensures DecSubject(item).Ok? ==>
      match DecSubject(item).value
      case BaseCertificate(id) => IssuerSerialReadable(id)
      case SubjectName(names) => names != []
  {
    hide DecGeneralNames, DecodeBoundedSequence, DecInt, Tlv;
    DecodedNames(item.contents);
    if DecodeBoundedSequence(item.contents, 2, 3).Ok? {
      DecodedNames(DecodeBoundedSequence(item.contents, 2, 3).value[0].Encoding());
    }
  }

  lemma DecodedInfoFields(items: seq<Item>, pos: nat, version: TInt)
    ensures DecInfoFields(items, pos, version).Ok? ==> InfoReadable(DecInfoFields(items, pos, version).value)
  {
    hide DecSubject, DecGeneralNames, DecAlgorithm, DecInt, DecPeriod, DecodeAll, DecodeSequence, Tlv, ValuesPresent,
      IssuerSerialReadable;
    if DecInfoFields(items, pos, version).Ok? {
      DecodedSubject(items[pos]);
      DecodedNames(items[pos + 1].Encoding());
      DecodedAttributes(DecodeSequence(items[pos + 5].Encoding()).value);
    }
  }

  lemma DecodedAttributeCertificate(raw: bytes, tag: nat)
    ensures DecImplicitAttributeCertificate(raw, tag).Ok? ==>
      AttributeCertificateReadable(DecImplicitAttributeCertificate(raw, tag).value)
  {
    hide DecInfoFields, InfoReadable, DecAlgorithm, DecodeBoundedSequence, Children, Tlv, InfoVersionPresent, DecInt;
    if DecImplicitAttributeCertificate(raw, tag).Ok? {
      var signed := DecSignatureArray(Children(Head(raw).value).value).value;
      var items := DecodeBoundedSequence(signed.toBeSigned.Encoding(), 6, 9).value;
      if InfoVersionPresent(items) {
        DecodedInfoFields(items, 1, DecInt(items[0]).value);
      } else {
        DecodedInfoFields(items, 0, INFO_DEFAULT_VERSION);
      }
    }
  }

  lemma DecodedChoiceOf(raw: bytes)
    ensures DecChoice(raw).Ok? ==> ChoiceReadable(DecChoice(raw).value)
  {
    hide DecCertificate, CertificateReadable, DecImplicitAttributeCertificate, AttributeCertificateReadable, Head;
    DecodedCertificate(raw);
    DecodedAttributeCertificate(raw, ATTR_CERT_TAG);
  }

  lemma DecodedCrl(raw: bytes)
    ensures DecCrl(raw).Ok? ==> CrlReadable(DecCrl(raw).value)
  {
    hide DecodeBoundedSequence, DecTbsHead, DecTbsTail, DecAlgorithm, Tlv;
  }

  lemma DecodedAttributeField(items: seq<Item>, pos: nat, tag: nat)
    ensures DecAttributeField(items, pos, tag).Ok? ==> ValuesPresent(DecAttributeField(items, pos, tag).value)
  {
    hide Children;
    if pos < |items| && Children(items[pos]).Ok? && DecodeAll(Children(items[pos]).value, DecAttribute).Ok? {
      DecodedAttributes(Children(items[pos]).value);
    }
  }

  lemma DecodedSigner(raw: bytes)
    ensures DecSignerInfo(raw).Ok? ==> SignerInfoReadable(DecSignerInfo(raw).value)
  {
    hide DecodeBoundedSequence, DecInt, DecIssuerChoice, DecAlgorithm, DecAttributeField, Tlv, ValuesPresent,
      ChoiceHolds;
    DecodedChoice(raw);
    if DecSignerInfo(raw).Ok? {
      var items := DecodeBoundedSequence(raw, 5, 7).value;
      DecodedAttributeField(items, 3, SIGNED_ATTRS_TAG);
      DecodedAttributeField(items, 5 + Present(items, 3, SIGNED_ATTRS_TAG), UNSIGNED_ATTRS_TAG);
    }
  }

  lemma DecodedListAt<T>(items: seq<Item>, pos: nat, tag: nat, dec: bytes -> Outcome<T>, readable: T -> bool)
    requires forall s: bytes :: dec(s).Ok? ==> readable(dec(s).value)
    ensures DecListAt(items, pos, tag, dec).Ok? ==> AllReadable(DecListAt(items, pos, tag, dec).value, readable)
  {
    hide Children, Tlv;
    if TagAt(items, pos, tag) && DecList(items[pos], dec).Ok? {
      DecodedList(Children(items[pos]).value, dec, readable);
    }
  }

  /** Whatever has been decoded meets the condition under which it is read back. */
  lemma DecodedSignedData(raw: bytes)
    ensures DecSignedData(raw).Ok? ==> SignedDataReadable(DecSignedData(raw).value)
  {
    hide DecodeBoundedSequence, DecodeSequence, DecInt, DecDigestAlgorithms, DecContentInfo, DecListAt, Tlv, DecChoice,
      ChoiceReadable, DecCrl, CrlReadable, DecSignerInfo, SignerInfoReadable, DecodeAll, AllOf, AllReadable;
    if DecSignedData(raw).Ok? {
      var items := DecodeBoundedSequence(raw, 4, 6).value;
      forall s: bytes | DecChoice(s).Ok? ensures ChoiceReadable(DecChoice(s).value) {
        DecodedChoiceOf(s);
      }
      forall s: bytes | DecCrl(s).Ok? ensures CrlReadable(DecCrl(s).value) {
        DecodedCrl(s);
      }
      forall s: bytes | DecSignerInfo(s).Ok? ensures SignerInfoReadable(DecSignerInfo(s).value) {
        DecodedSigner(s);
      }
      DecodedListAt(items, 3, CERTIFICATES_TAG, DecChoice, ChoiceReadable);
      var pos := 3 + if TagAt(items, 3, CERTIFICATES_TAG) then 1 else 0;
      DecodedListAt(items, pos, CRLS_TAG, DecCrl, CrlReadable);
      var last := pos + if TagAt(items, pos, CRLS_TAG) then 1 else 0;
      DecodedList(DecodeSequence(items[last].Encoding()).value, DecSignerInfo, SignerInfoReadable);
    }
  }

  lemma DecodedRecipient(raw: bytes)
    ensures DecRecipient(raw).Ok? ==> RecipientReadable(DecRecipient(raw).value)
  {
    hide DecKeyTrans, TransChoiceHolds, DecKeyAgree, DecKek, Head;
  }

  lemma DecodedCountedList<T>(item: Item, dec: bytes -> Outcome<T>, readable: T -> bool)
    requires forall s: bytes :: dec(s).Ok? ==> readable(dec(s).value)
    ensures DecCountedList(item, dec).Ok? ==> ListReadable(Some(DecCountedList(item, dec).value), readable)
  {
    hide Children, Tlv;
    if DecCountedList(item, dec).Ok? {
      DecodedList(Children(item).value, dec, readable);
    }
  }

  lemma DecodedOriginatorArray(items: seq<Item>)
    ensures DecOriginatorArray(items).Ok? ==> OriginatorInfoReadable(DecOriginatorArray(items).value)
  {
    hide DecCountedList, ListReadable, DecChoice, ChoiceReadable, DecCrl, CrlReadable, Tlv;
    if DecOriginatorArray(items).Ok? {
      forall s: bytes | DecChoice(s).Ok? ensures ChoiceReadable(DecChoice(s).value) {
        DecodedChoiceOf(s);
      }
      forall s: bytes | DecCrl(s).Ok? ensures CrlReadable(DecCrl(s).value) {
        DecodedCrl(s);
      }
      var v := DecOriginatorArray(items).value;
      AbsentReadable<ChoiceValue>(ChoiceReadable);
      AbsentReadable<CrlValue>(CrlReadable);
      if v.certs.Some? {
        DecodedCountedList(items[0], DecChoice, ChoiceReadable);
      }
      if v.crls.Some? {
        DecodedCountedList(items[if v.certs.Some? then 1 else 0], DecCrl, CrlReadable);
      }
    }
  }

  lemma AbsentReadable<T>(readable: T -> bool)
    ensures ListReadable(None, readable)
  {
  }

  lemma DecodedSomeAttributes(item: Item)
    ensures DecSomeAttributes(item).Ok? ==> ListReadable(Some(DecSomeAttributes(item).value), HasValues)
  {
    hide Children, DecAttribute, HasValues;
    if DecSomeAttributes(item).Ok? {
      DecodedAttributes(Children(item).value);
    }
  }

  lemma DecodedAuthHead(items: seq<Item>)
    requires 5 <= |items| && DecAuthHead(items).Ok?
    ensures var h := DecAuthHead(items).value;
      && (h.originatorInfo.Some? ==> OriginatorInfoReadable(h.originatorInfo.value))
      && h.recipients != [] && AllOf(h.recipients, RecipientReadable)
  {
    hide DecInt, DecOriginatorArray, OriginatorInfoReadable, DecAlgorithm, DecDigestAt, DecodeSequence, Children, Head,
      DecRecipient, RecipientReadable, DecodeAll, Tlv;
    if items[1].Tag() == ORIGINATOR_INFO_TAG {
      DecodedOriginatorArray(Children(Head(items[1].Encoding()).value).value);
    }
    forall s: bytes | DecRecipient(s).Ok? ensures RecipientReadable(DecRecipient(s).value) {
      DecodedRecipient(s);
    }
    var pos := if items[1].Tag() == ORIGINATOR_INFO_TAG then 2 else 1;
    DecodedList(DecodeSequence(items[pos].Encoding()).value, DecRecipient, RecipientReadable);
  }

  lemma DecodedAuthTail(items: seq<Item>, pos: nat)
    requires DecAuthTail(items, pos).Ok?
    ensures var t := DecAuthTail(items, pos).value;
      ListReadable(t.authenticated, HasValues) && ListReadable(t.unauthenticated, HasValues)
  {
    hide DecContentInfo, DecSomeAttributes, ListReadable, Tlv;
    AbsentReadable(HasValues);
    var t := DecAuthTail(items, pos).value;
    DecodedSomeAttributes(items[pos + 1]);
    var last := pos + 1 + (if t.authenticated.Some? then 2 else 1);
    if last < |items| {
      DecodedSomeAttributes(items[last]);
    }
  }

  lemma DecodedAuthenticatedData(raw: bytes)
    ensures DecAuthenticatedData(raw).Ok? ==> AuthenticatedDataReadable(DecAuthenticatedData(raw).value)
  {
    hide DecodeBoundedSequence, DecAuthHead, DecAuthTail, OriginatorInfoReadable, ListReadable, AllOf;
    if DecAuthenticatedData(raw).Ok? {
      var items := DecodeBoundedSequence(raw, 5, 9).value;
      DecodedAuthHead(items);
      DecodedAuthTail(items, DecAuthHead(items).value.pos);
    }
  }

  // -------------------------------------------------------- passing octets on

  /** The signed-data that is encoded is the one decoded from the octets. */
  predicate PassedOn(raw: bytes) {
    && DecSignedData(raw).Ok?
    && var t := EncSignedData(DecSignedData(raw).value);
      t.Ok? && Fits(t.value)
  }

  function Again(raw: bytes): bytes
    requires PassedOn(raw)
  {
    Der(EncSignedData(DecSignedData(raw).value).value)
  }

  /** The encoder writes raw for w, which is readable and has no algorithm identifier without
      parameters. */
  predicate Writes(w: SignedDataValue, raw: bytes) {
    && SignedDataReadable(w) && SignedDataHasParams(w)
    && EncSignedData(w).Ok? && Fits(EncSignedData(w).value) && Der(EncSignedData(w).value) == raw
  }

  /** A signed-data in its written form has parameters everywhere. */
  lemma WrittenHasParams(v: SignedDataValue)
    requires SignedDataWritten(v)
    ensures SignedDataHasParams(v)
  {
    hide AloneConstructed, AttributeWritten, NameWritten, RevokedWritten, ExtensionWritten;
  }

  /** Whatever octets are accepted, what is decoded from them and encoded is accepted again,
      as the same signed-data in its written form. */
  lemma AcceptedAgain(raw: bytes)
    requires PassedOn(raw)
    ensures DecSignedData(Again(raw)) == Ok(NormSignedData(DecSignedData(raw).value))
  {
    hide DecSignedData, EncSignedData, NormSignedData, SignedDataReadable;
    DecodedSignedData(raw);
    SignedDataRoundTrip(DecSignedData(raw).value);
  }

  /** Accepted octets are reproduced exactly when they are what the encoder writes for some
      signed-data that can be read back and in which, at any depth, no algorithm identifier
      is without parameters. */
  lemma ReproducedExact(raw: bytes)
    requires DecSignedData(raw).Ok?
    ensures PassedOn(raw) && Again(raw) == raw <==> exists w :: Writes(w, raw)
  {
    hide DecSignedData, EncSignedData, NormSignedData, SignedDataReadable, SignedDataHasParams, SignedDataWritten, Der;
    var v := DecSignedData(raw).value;
    if PassedOn(raw) && Again(raw) == raw {
      DecodedSignedData(raw);
      SignedDataReadBack(v);
      WrittenHasParams(v);
      assert Writes(v, raw);
    }
    if w :| Writes(w, raw) {
      SignedDataRoundTrip(w);
      SignedDataReencoded(w);
      SignedDataStable(w);
    }
  }

  predicate AuthPassedOn(raw: bytes) {
    && DecAuthenticatedData(raw).Ok?
    && var t := EncAuthenticatedData(DecAuthenticatedData(raw).value);
      t.Ok? && Fits(t.value)
  }

  function AuthAgain(raw: bytes): bytes
    requires AuthPassedOn(raw)
  {
    Der(EncAuthenticatedData(DecAuthenticatedData(raw).value).value)
  }

  predicate AuthWrites(w: AuthenticatedDataValue, raw: bytes) {
    && AuthenticatedDataReadable(w) && AuthenticatedDataHasParams(w)
    && EncAuthenticatedData(w).Ok? && Fits(EncAuthenticatedData(w).value) && Der(EncAuthenticatedData(w).value) == raw
  }

  lemma AuthWrittenHasParams(v: AuthenticatedDataValue)
    requires AuthenticatedDataWritten(v)
    ensures AuthenticatedDataHasParams(v)
  {
    hide AloneConstructed, AttributeWritten, NameWritten, RevokedWritten, ExtensionWritten;
  }

  /** The same for authenticated-data. */
  lemma AuthAcceptedAgain(raw: bytes)
    requires AuthPassedOn(raw)
    ensures DecAuthenticatedData(AuthAgain(raw)) == Ok(NormAuthenticatedData(DecAuthenticatedData(raw).value))
  {
    hide DecAuthenticatedData, EncAuthenticatedData, NormAuthenticatedData, AuthenticatedDataReadable;
    DecodedAuthenticatedData(raw);
    AuthenticatedDataRoundTrip(DecAuthenticatedData(raw).value);
  }

  lemma AuthReproducedExact(raw: bytes)
    requires DecAuthenticatedData(raw).Ok?
    ensures AuthPassedOn(raw) && AuthAgain(raw) == raw <==> exists w :: AuthWrites(w, raw)
  {
    hide DecAuthenticatedData, EncAuthenticatedData, NormAuthenticatedData, AuthenticatedDataReadable,
      AuthenticatedDataHasParams, AuthenticatedDataWritten, Der;
    var v := DecAuthenticatedData(raw).value;
    if AuthPassedOn(raw) && AuthAgain(raw) == raw {
      DecodedAuthenticatedData(raw);
      AuthenticatedDataReadBack(v);
      AuthWrittenHasParams(v);
      assert AuthWrites(v, raw);
    }
    if w :| AuthWrites(w, raw) {
      AuthenticatedDataRoundTrip(w);
      AuthenticatedDataReencoded(w);
      AuthenticatedDataStable(w);
    }
  }

  // ------------------------------------------------------ received attributes

  lemma {:induction false} EncodeAllOk<T>(vs: seq<T>, enc: T -> Outcome<Enc>)
    requires forall i :: 0 <= i < |vs| ==> enc(vs[i]).Ok?
    ensures EncodeAll(vs, enc).Ok?
  {
    if vs != [] {
      EncodeAllOk(vs[..|vs| - 1], enc);
    }
  }

  /** A list is written as it was received exactly when each of its elements is. */
  lemma ListReproduced<T>(vs: seq<T>, enc: T -> Outcome<Enc>, item: Item, canonical: Item -> bool)
    requires item.Fits() && Children(item).Ok? && |vs| == |Children(item).value|
    requires forall i :: 0 <= i < |vs| && enc(vs[i]).Ok? ==> LowTag(enc(vs[i]).value.id)
    requires var list := Children(item).value;
      forall i :: 0 <= i < |vs| ==>
        (enc(vs[i]).Ok? && Der(enc(vs[i]).value) == list[i].Encoding() <==> canonical(list[i]))
    ensures EncodeAll(vs, enc).Ok? && DerAll(EncodeAll(vs, enc).value) == item.contents
      <==> AllOf(Children(item).value, canonical)
  {
    hide Tlv, Der, DerAll, Items;
    var list := Children(item).value;
    if AllOf(list, canonical) {
      assert forall i :: 0 <= i < |vs| ==> canonical(list[i]);
      EncodeAllOk(vs, enc);
    }
    if EncodeAll(vs, enc).Ok? {
      EncodeAllKids(vs, enc);
      KidsReproduced(EncodeAll(vs, enc).value, item);
    }
  }

  /** A value that EncValue takes, in the form in which it writes it. */
  predicate ValueCanonical(oid: bytes, value: bytes) {
    (oid == SIGN_TIME_OID ==> DecTime(value).Ok?) && ValueWritten(oid, value)
  }

  function CanonicalFor(oid: bytes): Item -> bool {
    (value: Item) => ValueCanonical(oid, value.Encoding())
  }

  lemma ValueReproduced(oid: bytes, value: Item)
    requires value.Fits()
    ensures EncValue(oid, value.Encoding()).Ok? && Der(EncValue(oid, value.Encoding()).value) == value.Encoding()
      <==> ValueCanonical(oid, value.Encoding())
  {
    hide EncTime, DecTime, Der, Tlv, ReadTlv, ValueWritten;
    var s := value.Encoding();
    ReadTlvEncoding(value, []);
    assert s + [] == s;
    ValueUnchanged(oid, s);
    assert oid == SIGN_TIME_OID ==> oid != CONTENT_TYPE_OID && oid != MESSAGE_DIGEST_OID by {
      assert CONTENT_TYPE_OID[8] == 0x03 && MESSAGE_DIGEST_OID[8] == 0x04 && SIGN_TIME_OID[8] == 0x05;
    }
  }

  lemma ValuesReproduced(oid: bytes, item: Item)
    requires item.Fits() && Children(item).Ok?
    ensures var encs := EncodeAll(Encodings(Children(item).value), ValueEncoder(oid));
      encs.Ok? && DerAll(encs.value) == item.contents <==> AllOf(Children(item).value, CanonicalFor(oid))
  {
    hide Tlv, Der, Items, ValueCanonical, EncValue, EncodeAll, AllOf;
    var values := Children(item).value;
    ItemsSound(item.contents);
    forall i | 0 <= i < |values|
      ensures EncValue(oid, values[i].Encoding()).Ok? ==> LowTag(EncValue(oid, values[i].Encoding()).value.id)
      ensures EncValue(oid, values[i].Encoding()).Ok?
        && Der(EncValue(oid, values[i].Encoding()).value) == values[i].Encoding()
        <==> CanonicalFor(oid)(values[i])
    {
      ValueReproduced(oid, values[i]);
      if EncValue(oid, values[i].Encoding()).Ok? {
        ValueStable(oid, values[i].Encoding());
      }
    }
    ListReproduced(Encodings(values), ValueEncoder(oid), item, CanonicalFor(oid));
  }

  /** A SEQUENCE of exactly an OBJECT IDENTIFIER and a SET, with values in written form. */
  predicate AttributeCanonical(item: Item) {
    && item.id == SEQUENCE_ID
    && Children(item).Ok?
    && var items := Children(item).value;
      && |items| == 2 && items[0].id == OID_ID && items[1].id == SET_ID
      && Children(items[1]).Ok?
      && AllOf(Children(items[1]).value, CanonicalFor(items[0].contents))
  }

  /** The attribute that is decoded from the item is written as the item. */
  predicate AttributeReproduced(item: Item) {
    && DecAttribute(item.Encoding()).Ok?
    && var t := EncAttribute(DecAttribute(item.Encoding()).value);
      t.Ok? && Der(t.value) == item.Encoding()
  }

  /** What is decoded from a received attribute is written as it was received exactly when it
      is in canonical form. */
  lemma AttributeReproducedExact(item: Item)
    requires item.Fits() && DecAttribute(item.Encoding()).Ok?
    ensures AttributeReproduced(item) <==> AttributeCanonical(item)
  {
    hide Tlv, Der, DerAll, Items, AllOf, EncodeAll;
    ReadTlvEncoding(item, []);
    assert item.Encoding() + [] == item.Encoding();
    var items := Children(item).value;
    var oid := items[0].contents;
    ItemsSound(item.contents);
    ValuesReproduced(oid, items[1]);
    var encs := EncodeAll(Encodings(Children(items[1]).value), ValueEncoder(oid));
    if encs.Ok? {
      PairReproduced(EncOid(oid), Node(SET_ID, encs.value), item);
      DerOfNode(SET_ID, encs.value);
      TlvInjective(SET_ID, DerAll(encs.value), items[1]);
      DerOfLeaf(OID_ID, oid);
      TlvInjective(OID_ID, oid, items[0]);
    }
  }

  lemma PairReproduced(first: Enc, second: Enc, item: Item)
    requires item.Fits() && Children(item).Ok? && LowTag(first.id) && LowTag(second.id)
    ensures var items := Children(item).value;
      Der(Node(SEQUENCE_ID, [first, second])) == item.Encoding() <==>
      && item.id == SEQUENCE_ID && |items| == 2
      && Der(first) == items[0].Encoding() && Der(second) == items[1].Encoding()
  {
    hide Tlv, Der, DerAll, Items;
    var kids := [first, second];
    KidsReproduced(kids, item);
    DerOfNode(SEQUENCE_ID, kids);
    TlvInjective(SEQUENCE_ID, DerAll(kids), item);
    assert kids[0] == first && kids[1] == second;
  }

  // ----------------------------------------------- the digest of what was received

  lemma AttributeListReproduced(attributes: seq<AttributeValue>, item: Item)
    requires item.Fits() && DecList(item, DecAttribute) == Ok(attributes)
    ensures var kids := EncodeAll(attributes, EncAttribute);
      kids.Ok? && DerAll(kids.value) == item.contents <==> AllOf(Children(item).value, AttributeCanonical)
  {
    hide Tlv, DerAll, Der, Items, DecAttribute, EncAttribute, AttributeCanonical, EncodeAll, DecodeAll, AllOf;
    var list := Children(item).value;
    ItemsSound(item.contents);
    DecodedElements(list, DecAttribute);
    forall i | 0 <= i < |list|
      ensures EncAttribute(attributes[i]).Ok? && Der(EncAttribute(attributes[i]).value) == list[i].Encoding()
        <==> AttributeCanonical(list[i])
    {
      assert DecAttribute(list[i].Encoding()) == Ok(attributes[i]);
      AttributeReproducedExact(list[i]);
    }
    ListReproduced(attributes, EncAttribute, item, AttributeCanonical);
  }

  /** The items of a signer info that has been decoded. */
  function SignerItems(raw: bytes): (r: seq<Item>)
    requires DecSignerInfo(raw).Ok?
    ensures 5 <= |r| <= 7
  {
    DecodeBoundedSequence(raw, 5, 7).value
  }

  /** Section 5.4 of RFC 2630 for a signer info from elsewhere: what SignedAttributesEncodedL
      gives are the octets received in the [0] field, but for the identifier octet, exactly
      when each attribute in it was received in canonical form. */
  lemma DigestInputReceived(raw: bytes)
    requires DecSignerInfo(raw).Ok? && Present(SignerItems(raw), 3, SIGNED_ATTRS_TAG) == 1
    ensures var field := SignerItems(raw)[3];
      && Children(field).Ok?
      && (SignedAttributesEncoded(DecSignerInfo(raw).value) == Ok(Some([SET_ID] + field.Encoding()[1..]))
        <==> Children(field).value != [] && AllOf(Children(field).value, AttributeCanonical))
  {
    hide Tlv, Items, DecAttribute, EncAttribute, AttributeCanonical, AllOf, EncodeAll, DecodeAll, DecInt,
      DecIssuerChoice, DecAlgorithm, DecodeBoundedSequence, Der;
    var v, field := DecSignerInfo(raw).value, SignerItems(raw)[3];
    ItemsFit(raw);
    AttributeListReproduced(v.signedAttributes, field);
    if EncodeAll(v.signedAttributes, EncAttribute).Ok? {
      var kids := EncodeAll(v.signedAttributes, EncAttribute).value;
      DerOfNode(SET_ID, kids);
      SameBehindIdentifier(DerAll(kids), field);
    }
  }

  lemma SameBehindIdentifier(a: bytes, item: Item)
    requires item.Fits()
    ensures Tlv(SET_ID, a) == [SET_ID] + item.Encoding()[1..] <==> a == item.contents
  {
    var other := Item(SET_ID, item.contents);
    assert other.Encoding() == [SET_ID] + item.Encoding()[1..];
    TlvInjective(SET_ID, a, other);
  }

  lemma ItemsFit(raw: bytes)
    requires DecSignerInfo(raw).Ok?
    ensures AllFit(SignerItems(raw))
  {
    hide DecSignerItems;
    ItemsSound(Head(raw).value.contents);
  }

  lemma {:induction false} DecodedElements<T>(items: seq<Item>, dec: bytes -> Outcome<T>)
    requires DecodeAll(items, dec).Ok?
    ensures forall i :: 0 <= i < |items| ==> dec(items[i].Encoding()) == Ok(DecodeAll(items, dec).value[i])
  {
    hide Tlv;
    if items != [] {
      DecodedElements(items[..|items| - 1], dec);
    }
  }
}
