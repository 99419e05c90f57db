/** Which values are already in the form in which they are written, so that reading back
    what has been encoded gives them unchanged: the opaque encodings in them are one value
    each, under the identifier the encoder gives it, and no optional list is empty. */
module CmsWrittenForm {
  import opened Outcomes
  import opened DerCodec
  import opened Asn1
  import opened TimeUtil
  import opened AlgorithmIdentifier
  import opened CmsAttribute
  import opened CmsSignerInfo
  import opened CmsGeneralNames
  import opened CmsX509Certificate
  import opened CmsAttributeCertificate
  import opened CmsCertificateChoices
  import opened CmsCertificateList
  import opened CmsSignedData
  import opened CmsOriginatorInfo
  import opened CmsOriginatorIdentifierOrKey
  import opened CmsRecipientInfo
  import opened CmsKeyAgreeRecipientInfo
  import opened CmsAuthenticatedData

  // ---------------------------------------------------------- opaque encodings

  /** One value and nothing behind it; octets that cannot be read are never written. */
  predicate Alone(s: bytes) {
    ReadTlv(s).Some? ==> ReadTlv(s).value.rest == []
  }

  predicate AloneUnder(s: bytes, id: byte) {
    ReadTlv(s).Some? ==> ReadTlv(s).value.rest == [] && s[0] == id
  }

  predicate AloneConstructed(s: bytes) {
    ReadTlv(s).Some? ==> ReadTlv(s).value.rest == [] && Constructed(s[0])
  }

  /** Writing the contents under an identifier gives the octets they were read from. */
  lemma WrittenUnder(s: bytes, id: byte)
    requires ReadTlv(s).Some?
    ensures Tlv(id, ReadTlv(s).value.item.contents) == s <==> AloneUnder(s, id)
  {
    hide LengthOctets, ReadTlv;
    ReadTlvSound(s);
    var p := ReadTlv(s).value;
    assert s == p.item.Encoding() + p.rest && s[0] == p.item.id;
    assert Tlv(id, p.item.contents)[0] == id;
    if p.rest == [] {
      assert s == p.item.Encoding();
    } else {
      assert |Tlv(id, p.item.contents)| == |p.item.Encoding()| < |s|;
    }
  }

  lemma DerOfLeaf(id: byte, contents: bytes)
    ensures Der(Leaf(id, contents)) == Tlv(id, contents)
  {
    LeafContents(Leaf(id, contents));
  }

  predicate AlgorithmWritten(a: AlgorithmId) {
    a.params != [] && AloneConstructed(a.params)
  }

  lemma AlgorithmUnchanged(a: AlgorithmId)
    ensures NormAlgorithm(a) == a <==> AlgorithmWritten(a)
  {
    if a.params != [] && ReadTlv(a.params).Some? {
      RewrittenExact(a.params);
    }
  }

  // ---------------------------------------------------------------------- times

  lemma {:induction false} DecimalNumber(s: bytes)
    requires AllDigits(s)
    ensures Decimal(Number(s), |s|) == s && Number(s) < Pow10(|s|)
  {
    if s != [] {
      DecimalNumber(s[..|s| - 1]);
    }
  }

  lemma {:induction false} PairsOfRead(s: bytes)
    requires AllDigits(s) && |s| % 2 == 0
    ensures Pairs(ReadPairs(s)) == s
  {
    if s != [] {
      DecimalNumber(s[..2]);
      PairsOfRead(s[2..]);
      assert s == s[..2] + s[2..];
    }
  }

  /** A time string is determined by the fields read from it. */
  lemma StringOfRead(s: bytes, yearDigits: nat)
    requires DecString(s, yearDigits).Ok?
    ensures var t := DecString(s, yearDigits).value;
      TimeString(t.year, yearDigits, t) == s && t.year < Pow10(yearDigits)
  {
    hide Pairs, Decimal;
    var t := DecString(s, yearDigits).value;
    DecimalNumber(s[..yearDigits]);
    PairsOfRead(s[yearDigits..yearDigits + 10]);
    FivePairs(s[yearDigits..yearDigits + 10]);
    assert s == s[..yearDigits] + s[yearDigits..yearDigits + 10] + [s[yearDigits + 10]];
  }

  lemma FivePairs(s: bytes)
    requires AllDigits(s) && |s| == 10
    ensures var d := ReadPairs(s); d == [d[0], d[1], d[2], d[3], d[4]]
  {
    hide ReadPairs;
  }

  /** A signing time is one value, a UTCTime for the years 1950 to 2049 and a
      GeneralizedTime for all others. */
  predicate TimeWritten(s: bytes) {
    DecTime(s).Ok? ==> AloneUnder(s, EncTime(DecTime(s).value).id)
  }

  lemma TimeUnchanged(s: bytes)
    requires DecTime(s).Ok?
    ensures Der(EncTime(DecTime(s).value)) == s <==> TimeWritten(s)
  {
    hide TimeString, DecString, Tlv;
    var t, item := DecTime(s).value, Head(s).value;
    ReadTlvSound(s);
    assert s[0] == item.id by { FirstOctet(s); }
    WrittenUnder(s, EncTime(t).id);
    if item.id == EncTime(t).id {
      TimeContents(item, t, s);
    } else {
      FirstOfDer(EncTime(t));
    }
  }

  lemma FirstOctet(s: bytes)
    requires ReadTlv(s).Some?
    ensures s[0] == ReadTlv(s).value.item.id
  {
  }

  lemma FirstOfDer(t: Enc)
    ensures Der(t) != [] && Der(t)[0] == t.id
  {
  }

  lemma TimeContents(item: Item, t: Time, s: bytes)
    requires Head(s) == Ok(item) && DecTime(s) == Ok(t) && item.id == EncTime(t).id
    ensures Contents(EncTime(t)) == item.contents
  {
    hide TimeString, DecString;
    if item.Tag() == GENERALIZED_TIME_TAG {
      StringOfRead(item.contents, 4);
    } else {
      StringOfRead(item.contents, 2);
      var u := DecString(item.contents, 2).value;
      assert Pow10(2) == 100;
      assert t.year % 100 == u.year;
      SameString(t, u, u.year);
    }
  }

  /** The year is the only field that depends on the kind of string. */
  lemma SameString(t: Fields, u: Fields, year: nat)
    requires t.(year := 0) == u.(year := 0)
    ensures TimeString(year, 2, t) == TimeString(year, 2, u)
  {
  }

  // ------------------------------------------------------------------ attributes

  predicate ValueWritten(oid: bytes, encoding: bytes) {
    if oid == CONTENT_TYPE_OID then AloneUnder(encoding, OID_ID)
    else if oid == MESSAGE_DIGEST_OID then AloneUnder(encoding, OCTET_STRING_ID)
    else if oid == SIGN_TIME_OID then TimeWritten(encoding)
    else AloneConstructed(encoding)
  }

  lemma ValueUnchanged(oid: bytes, encoding: bytes)
    ensures NormValue(oid, encoding) == encoding <==> ValueWritten(oid, encoding)
  {
    hide ReadTlv, EncTime, DecTime, Tlv;
    if oid == SIGN_TIME_OID {
      assert oid != CONTENT_TYPE_OID && oid != MESSAGE_DIGEST_OID by {
        assert CONTENT_TYPE_OID[8] == 0x03 && MESSAGE_DIGEST_OID[8] == 0x04 && SIGN_TIME_OID[8] == 0x05;
      }
      if DecTime(encoding).Ok? {
        TimeUnchanged(encoding);
      }
    } else if ReadTlv(encoding).Some? {
      if oid == CONTENT_TYPE_OID {
        WrittenUnder(encoding, OID_ID);
        DerOfLeaf(OID_ID, DecFirst(encoding).value);
      } else if oid == MESSAGE_DIGEST_OID {
        WrittenUnder(encoding, OCTET_STRING_ID);
        DerOfLeaf(OCTET_STRING_ID, DecFirst(encoding).value);
      } else {
        RewrittenExact(encoding);
      }
    }
  }

  predicate AttributeWritten(a: AttributeValue) {
    forall i :: 0 <= i < |a.values| ==> ValueWritten(a.oid, a.values[i])
  }

  lemma AttributeUnchanged(a: AttributeValue)
    ensures NormAttribute(a) == a <==> AttributeWritten(a)
  {
    hide NormValue, ValueWritten;
    forall i | 0 <= i < |a.values|
      ensures NormAttribute(a).values[i] == a.values[i] <==> ValueWritten(a.oid, a.values[i])
    {
      ValueUnchanged(a.oid, a.values[i]);
    }
  }

  // ----------------------------------------------------------------------- lists

  lemma ListUnchanged<T>(vs: seq<T>, norm: T -> T, written: T -> bool)
    requires forall i :: 0 <= i < |vs| ==> (norm(vs[i]) == vs[i] <==> written(vs[i]))
    ensures MapAll(vs, norm) == vs <==> AllOf(vs, written)
  {
    var ws := MapAll(vs, norm);
    assert forall i :: 0 <= i < |vs| ==> ws[i] == norm(vs[i]);
  }

  /** Where empty lists are not written. */
  predicate ListWritten<T>(list: Option<seq<T>>, written: T -> bool) {
    list.Some? ==> |list.value| > 0 && AllOf(list.value, written)
  }

  lemma OptionalUnchanged<T>(list: Option<seq<T>>, norm: T -> T, written: T -> bool)
    requires list.Some? ==> forall i :: 0 <= i < |list.value| ==>
      (norm(list.value[i]) == list.value[i] <==> written(list.value[i]))
    ensures NormOptional(list, norm) == list <==> ListWritten(list, written)
    ensures MapOptional(list, norm) == list <==> AllReadable(list, written)
  {
    if list.Some? {
      ListUnchanged(list.value, norm, written);
    }
  }

  lemma AttributesUnchanged(attributes: seq<AttributeValue>)
    ensures MapAll(attributes, NormAttribute) == attributes <==> AllOf(attributes, AttributeWritten)
  {
    hide NormAttribute, AttributeWritten;
    forall i | 0 <= i < |attributes|
      ensures NormAttribute(attributes[i]) == attributes[i] <==> AttributeWritten(attributes[i])
    {
      AttributeUnchanged(attributes[i]);
    }
    ListUnchanged(attributes, NormAttribute, AttributeWritten);
  }

  // ---------------------------------------------------------------- signed data

  predicate SignerWritten(s: SignerInfoValue) {
    && AlgorithmWritten(s.digestAlgorithm) && AlgorithmWritten(s.signatureAlgorithm)
    && AllOf(s.signedAttributes, AttributeWritten) && AllOf(s.unsignedAttributes, AttributeWritten)
  }

  lemma SignerUnchanged(s: SignerInfoValue)
    ensures NormSignerInfo(s) == s <==> SignerWritten(s)
  {
    hide NormAlgorithm, AlgorithmWritten, NormAttribute, AttributeWritten, MapAll, AllOf;
    AlgorithmUnchanged(s.digestAlgorithm);
    AlgorithmUnchanged(s.signatureAlgorithm);
    AttributesUnchanged(s.signedAttributes);
    AttributesUnchanged(s.unsignedAttributes);
  }

  predicate CertificateWritten(c: CertificateValue) {
    AlgorithmWritten(c.signature) && AlgorithmWritten(c.publicKeyInfo.algorithm) && AlgorithmWritten(c.algorithm)
  }

  lemma CertificateUnchanged(c: CertificateValue)
    ensures NormCertificate(c) == c <==> CertificateWritten(c)
  {
    hide NormAlgorithm, AlgorithmWritten;
    AlgorithmUnchanged(c.signature);
    AlgorithmUnchanged(c.publicKeyInfo.algorithm);
    AlgorithmUnchanged(c.algorithm);
  }

  predicate NameWritten(n: GeneralNameValue) {
    Alone(n.data)
  }

  lemma NamesUnchanged(names: GeneralNamesValue)
    ensures MapAll(names, NormGeneralName) == names <==> AllOf(names, NameWritten)
  {
    hide NormGeneralName, NameWritten;
    forall i | 0 <= i < |names| ensures NormGeneralName(names[i]) == names[i] <==> NameWritten(names[i]) {
      NameUnchanged(names[i]);
    }
    ListUnchanged(names, NormGeneralName, NameWritten);
  }

  lemma NameUnchanged(n: GeneralNameValue)
    ensures NormGeneralName(n) == n <==> NameWritten(n)
  {
    hide ReadTlv;
    if ReadTlv(n.data).Some? {
      FirstOctet(n.data);
      WrittenUnder(n.data, ReadTlv(n.data).value.item.id);
    }
  }

  predicate InfoWritten(info: InfoValue) {
    && (info.baseCertificateId.Some? ==> AllOf(info.baseCertificateId.value.issuer, NameWritten))
    && (info.subjectName.Some? ==> AllOf(info.subjectName.value, NameWritten))
    && AllOf(info.issuer, NameWritten)
    && AlgorithmWritten(info.signature)
    && AllOf(info.attributes, AttributeWritten)
  }

  lemma InfoUnchanged(info: InfoValue)
    ensures NormInfo(info) == info <==> InfoWritten(info)
  {
    hide NormAlgorithm, AlgorithmWritten, NormAttribute, AttributeWritten, NormGeneralName, NameWritten, MapAll, AllOf;
    if info.baseCertificateId.Some? {
      NamesUnchanged(info.baseCertificateId.value.issuer);
    }
    if info.subjectName.Some? {
      NamesUnchanged(info.subjectName.value);
    }
    NamesUnchanged(info.issuer);
    AlgorithmUnchanged(info.signature);
    AttributesUnchanged(info.attributes);
  }

  predicate ChoiceWritten(c: ChoiceValue) {
    match c
    case Plain(certificate) => CertificateWritten(certificate)
    case Attribute(attrCert) => InfoWritten(attrCert.info) && AlgorithmWritten(attrCert.algorithm)
  }

  lemma ChoiceUnchanged(c: ChoiceValue)
    ensures NormChoice(c) == c <==> ChoiceWritten(c)
  {
    hide NormCertificate, CertificateWritten, NormInfo, InfoWritten, NormAlgorithm, AlgorithmWritten;
    if c.Plain? {
      CertificateUnchanged(c.certificate);
    } else {
      InfoUnchanged(c.attrCert.info);
      AlgorithmUnchanged(c.attrCert.algorithm);
    }
  }

  /** The data of an extension is the encoding of an OCTET STRING. */
  predicate ExtensionWritten(e: Extension) {
    AloneUnder(e.data, OCTET_STRING_ID)
  }

  lemma ExtensionsUnchanged(extensions: Option<seq<Extension>>)
    ensures NormExtensions(extensions) == extensions <==> ListWritten(extensions, ExtensionWritten)
  {
    hide NormExtension, ExtensionWritten;
    if extensions.Some? {
      var list := extensions.value;
      forall i | 0 <= i < |list| ensures NormExtension(list[i]) == list[i] <==> ExtensionWritten(list[i]) {
        ExtensionUnchanged(list[i]);
      }
      ListUnchanged(list, NormExtension, ExtensionWritten);
    }
  }

  lemma ExtensionUnchanged(e: Extension)
    ensures NormExtension(e) == e <==> ExtensionWritten(e)
  {
    hide ReadTlv;
    if ReadTlv(e.data).Some? {
      WrittenUnder(e.data, OCTET_STRING_ID);
      DerOfLeaf(OCTET_STRING_ID, DecFirst(e.data).value);
    }
  }

  predicate RevokedWritten(c: Revoked) {
    ListWritten(c.extensions, ExtensionWritten)
  }

  lemma RevokedListUnchanged(revoked: Option<seq<Revoked>>)
    ensures NormRevokedList(revoked) == revoked <==> ListWritten(revoked, RevokedWritten)
  {
    hide NormExtensions;
    if revoked.Some? {
      var list := revoked.value;
      forall i | 0 <= i < |list| ensures NormRevoked(list[i]) == list[i] <==> RevokedWritten(list[i]) {
        ExtensionsUnchanged(list[i].extensions);
      }
      ListUnchanged(list, NormRevoked, RevokedWritten);
    }
  }

  predicate CrlWritten(c: CrlValue) {
    && c.version == DEFAULT_VERSION && AlgorithmWritten(c.signatureAlgorithm)
    && ListWritten(c.revoked, RevokedWritten) && ListWritten(c.extensions, ExtensionWritten)
  }

  lemma CrlUnchanged(c: CrlValue)
    ensures NormCrl(c) == c <==> CrlWritten(c)
  {
    hide NormAlgorithm, AlgorithmWritten, NormRevokedList, NormExtensions, ListWritten;
    AlgorithmUnchanged(c.signatureAlgorithm);
    RevokedListUnchanged(c.revoked);
    ExtensionsUnchanged(c.extensions);
  }

  predicate SignedDataWritten(v: SignedDataValue) {
    && AllOf(v.digestAlgorithms, AlgorithmWritten)
    && ListWritten(v.certificates, ChoiceWritten)
    && ListWritten(v.crls, CrlWritten)
    && AllOf(v.signerInfos, SignerWritten)
  }

  lemma SignedDataUnchanged(v: SignedDataValue)
    ensures NormSignedData(v) == v <==> SignedDataWritten(v)
  {
    hide NormAlgorithm, AlgorithmWritten, NormChoice, ChoiceWritten, NormCrl, CrlWritten, NormSignerInfo, SignerWritten,
      MapAll, AllOf, NormOptional, ListWritten;
    forall a: AlgorithmId ensures NormAlgorithm(a) == a <==> AlgorithmWritten(a) {
      AlgorithmUnchanged(a);
    }
    forall c: ChoiceValue ensures NormChoice(c) == c <==> ChoiceWritten(c) {
      ChoiceUnchanged(c);
    }
    forall c: CrlValue ensures NormCrl(c) == c <==> CrlWritten(c) {
      CrlUnchanged(c);
    }
    forall s: SignerInfoValue ensures NormSignerInfo(s) == s <==> SignerWritten(s) {
      SignerUnchanged(s);
    }
    ListUnchanged(v.digestAlgorithms, NormAlgorithm, AlgorithmWritten);
    OptionalUnchanged(v.certificates, NormChoice, ChoiceWritten);
    OptionalUnchanged(v.crls, NormCrl, CrlWritten);
    ListUnchanged(v.signerInfos, NormSignerInfo, SignerWritten);
  }

  /** What can be read back is read back unchanged, octet by octet, exactly when all opaque
      encodings in it, at any depth, are in their written form. */
  lemma SignedDataReadBack(v: SignedDataValue)
    requires EncSignedData(v).Ok? && Fits(EncSignedData(v).value) && SignedDataReadable(v)
    ensures DecSignedData(Der(EncSignedData(v).value)) == Ok(v) <==> SignedDataWritten(v)
  {
    hide EncSignedData, DecSignedData, NormSignedData, SignedDataReadable, SignedDataWritten;
    SignedDataRoundTrip(v);
    SignedDataUnchanged(v);
  }

  // --------------------------------------------------------- authenticated data

  predicate OriginatorWritten(o: OriginatorValue) {
    o.OriginatorKey? ==> AlgorithmWritten(o.publicKey.algorithm)
  }

  predicate RecipientWritten(r: RecipientValue) {
    match r
    case KeyTrans(trans) => AlgorithmWritten(trans.algorithm)
    case KeyAgree(agree) => AlgorithmWritten(agree.algorithm) && OriginatorWritten(agree.originator)
    case Kek(kek) => AlgorithmWritten(kek.algorithm)
  }

  lemma RecipientUnchanged(r: RecipientValue)
    ensures NormRecipient(r) == r <==> RecipientWritten(r)
  {
    hide NormAlgorithm, AlgorithmWritten;
    if r.KeyTrans? {
      AlgorithmUnchanged(r.trans.algorithm);
    } else if r.KeyAgree? {
      AlgorithmUnchanged(r.agree.algorithm);
      if r.agree.originator.OriginatorKey? {
        AlgorithmUnchanged(r.agree.originator.publicKey.algorithm);
      }
    } else {
      AlgorithmUnchanged(r.kek.algorithm);
    }
  }

  predicate OriginatorInfoWritten(v: OriginatorInfoValue) {
    AllReadable(v.certs, ChoiceWritten) && AllReadable(v.crls, CrlWritten)
  }

  lemma OriginatorInfoUnchanged(v: OriginatorInfoValue)
    ensures NormOriginatorInfo(v) == v <==> OriginatorInfoWritten(v)
  {
    hide NormChoice, ChoiceWritten, NormCrl, CrlWritten, MapOptional, AllReadable;
    forall c: ChoiceValue ensures NormChoice(c) == c <==> ChoiceWritten(c) {
      ChoiceUnchanged(c);
    }
    forall c: CrlValue ensures NormCrl(c) == c <==> CrlWritten(c) {
      CrlUnchanged(c);
    }
    OptionalUnchanged(v.certs, NormChoice, ChoiceWritten);
    OptionalUnchanged(v.crls, NormCrl, CrlWritten);
  }

  predicate AuthenticatedDataWritten(v: AuthenticatedDataValue) {
    && (v.originatorInfo.Some? ==> OriginatorInfoWritten(v.originatorInfo.value))
    && AllOf(v.recipients, RecipientWritten)
    && AlgorithmWritten(v.macAlgorithm)
    && (v.digestAlgorithm.Some? ==> AlgorithmWritten(v.digestAlgorithm.value))
    && AllReadable(v.authenticated, AttributeWritten)
    && AllReadable(v.unauthenticated, AttributeWritten)
  }

  lemma AuthenticatedDataUnchanged(v: AuthenticatedDataValue)
    ensures NormAuthenticatedData(v) == v <==> AuthenticatedDataWritten(v)
  {
    hide NormAlgorithm, AlgorithmWritten, NormOriginatorInfo, OriginatorInfoWritten, NormRecipient, RecipientWritten,
      NormAttribute, AttributeWritten, MapAll, AllOf, MapOptional, AllReadable;
    forall r: RecipientValue ensures NormRecipient(r) == r <==> RecipientWritten(r) {
      RecipientUnchanged(r);
    }
    forall a: AttributeValue ensures NormAttribute(a) == a <==> AttributeWritten(a) {
      AttributeUnchanged(a);
    }
    if v.originatorInfo.Some? {
      OriginatorInfoUnchanged(v.originatorInfo.value);
    }
    if v.digestAlgorithm.Some? {
      AlgorithmUnchanged(v.digestAlgorithm.value);
    }
    AlgorithmUnchanged(v.macAlgorithm);
    ListUnchanged(v.recipients, NormRecipient, RecipientWritten);
    OptionalUnchanged(v.authenticated, NormAttribute, AttributeWritten);
    OptionalUnchanged(v.unauthenticated, NormAttribute, AttributeWritten);
  }

  /** The same for authenticated-data. */
  lemma AuthenticatedDataReadBack(v: AuthenticatedDataValue)
    requires EncAuthenticatedData(v).Ok? && Fits(EncAuthenticatedData(v).value) && AuthenticatedDataReadable(v)
    ensures DecAuthenticatedData(Der(EncAuthenticatedData(v).value)) == Ok(v) <==> AuthenticatedDataWritten(v)
  {
    hide EncAuthenticatedData, DecAuthenticatedData, NormAuthenticatedData, AuthenticatedDataReadable,
      AuthenticatedDataWritten;
    AuthenticatedDataRoundTrip(v);
    AuthenticatedDataUnchanged(v);
  }
}
