/** When a decoded message is encoded again, to the octet: decoding puts opaque values
    into their written form, and only algorithm parameters that had been left empty are
    then written differently, as a constructed NULL instead of a primitive one. */
module CmsStability {
  import opened Outcomes
  import opened DerCodec
  import opened Asn1
  import opened TimeUtil
  import opened AlgorithmIdentifier
  import opened CmsAttribute
  import opened CmsEncapsulatedContentInfo
  import opened CmsSignerInfo
  import opened CmsGeneralNames
  import opened CmsSigned
  import opened CmsX509Certificate
  import opened CmsAttributeCertificate
  import opened CmsCertificateChoices
  import opened CmsCertificateList
  import opened CmsSignedData

  predicate HasParams(a: AlgorithmId) {
    a.params != []
  }

  /** The written form of v has an encoder like that of v, and the same one exactly when
      stable. */
  predicate Reencodes<T>(v: T, enc: T -> Outcome<Enc>, norm: T -> T, stable: T -> bool) {
    enc(v).Ok? ==>
      enc(norm(v)).Ok? && Alike(enc(norm(v)).value, enc(v).value) && (enc(norm(v)) == enc(v) <==> stable(v))
  }

  /** Lists of encoders are alike when their elements are, and equal exactly when they are. */
  lemma {:induction false} ListReencoded<T>(vs: seq<T>, enc: T -> Outcome<Enc>, norm: T -> T, stable: T -> bool)
    requires EncodeAll(vs, enc).Ok?
    requires forall i :: 0 <= i < |vs| ==> Reencodes(vs[i], enc, norm, stable)
    ensures EncodeAll(MapAll(vs, norm), enc).Ok?
    ensures AllAlike(EncodeAll(MapAll(vs, norm), enc).value, EncodeAll(vs, enc).value)
    ensures EncodeAll(MapAll(vs, norm), enc) == EncodeAll(vs, enc) <==> AllOf(vs, stable)
  {
    if vs != [] {
      var front, last := vs[..|vs| - 1], vs[|vs| - 1];
      ListReencoded(front, enc, norm, stable);
      assert MapAll(vs, norm)[..|vs| - 1] == MapAll(front, norm);
      assert AllOf(vs, stable) <==> AllOf(front, stable) && stable(last) by {
        assert vs == front + [last];
      }
      assert Reencodes(last, enc, norm, stable);
      AppendsDecode(EncodeAll(MapAll(front, norm), enc), EncodeAll(front, enc).value, enc(norm(last)), enc(last).value);
    }
  }

  // -------------------------------------------------------------- certificates

  lemma PublicKeyInfoReencoded(p: PublicKeyInfo)
    requires EncPublicKeyInfo(p).Ok?
    ensures EncPublicKeyInfo(NormPublicKeyInfo(p)).Ok?
    ensures Alike(EncPublicKeyInfo(NormPublicKeyInfo(p)).value, EncPublicKeyInfo(p).value)
    ensures EncPublicKeyInfo(NormPublicKeyInfo(p)) == EncPublicKeyInfo(p) <==> HasParams(p.algorithm)
  {
    hide EncAlgorithm, NormAlgorithm;
    AlgorithmReencoded(p.algorithm);
    var t, u := EncPublicKeyInfo(p).value, EncPublicKeyInfo(NormPublicKeyInfo(p)).value;
    assert t.kids[0] == EncAlgorithm(p.algorithm).value && u.kids[0] == EncAlgorithm(NormAlgorithm(p.algorithm)).value;
    NodesAlike(u, t);
  }

  predicate CertificateHasParams(c: CertificateValue) {
    HasParams(c.signature) && HasParams(c.publicKeyInfo.algorithm) && HasParams(c.algorithm)
  }

  lemma ToBeSignedReencoded(c: CertificateValue)
    requires EncToBeSigned(c).Ok?
    ensures EncToBeSigned(NormCertificate(c)).Ok?
    ensures Alike(EncToBeSigned(NormCertificate(c)).value, EncToBeSigned(c).value)
    ensures EncToBeSigned(NormCertificate(c)) == EncToBeSigned(c)
      <==> HasParams(c.signature) && HasParams(c.publicKeyInfo.algorithm)
  {
    hide EncAlgorithm, NormAlgorithm, EncPublicKeyInfo, NormPublicKeyInfo, EncUid, EncValidity, EncInt, ExplicitTag,
      HasParams;
    AlgorithmReencoded(c.signature);
    PublicKeyInfoReencoded(c.publicKeyInfo);
    assert HasParams(c.signature) <==> c.signature.params != [] by { ParamsMeaning(c.signature); }
    var t, u := EncToBeSigned(c).value, EncToBeSigned(NormCertificate(c)).value;
    assert t.kids[2] == EncAlgorithm(c.signature).value && u.kids[2] == EncAlgorithm(NormAlgorithm(c.signature)).value;
    assert t.kids[6] == EncPublicKeyInfo(c.publicKeyInfo).value
      && u.kids[6] == EncPublicKeyInfo(NormPublicKeyInfo(c.publicKeyInfo)).value;
    NodesAlike(u, t);
  }

  lemma ParamsMeaning(a: AlgorithmId)
    ensures HasParams(a) <==> a.params != []
  {
  }

  /** What is signed, and the algorithm beside it. */
  lemma SignedReencoded(t: Enc, u: Enc, a: AlgorithmId, encrypted: bytes)
    requires EncSigned(t, a, encrypted).Ok? && Alike(u, t)
    ensures EncSigned(u, NormAlgorithm(a), encrypted).Ok?
    ensures Alike(EncSigned(u, NormAlgorithm(a), encrypted).value, EncSigned(t, a, encrypted).value)
    ensures EncSigned(u, NormAlgorithm(a), encrypted) == EncSigned(t, a, encrypted) <==> u == t && HasParams(a)
  {
    hide EncAlgorithm, NormAlgorithm;
    AlgorithmReencoded(a);
    var x, y := EncSigned(t, a, encrypted).value, EncSigned(u, NormAlgorithm(a), encrypted).value;
    assert x.kids[0] == t && y.kids[0] == u;
    assert x.kids[1] == EncAlgorithm(a).value && y.kids[1] == EncAlgorithm(NormAlgorithm(a)).value;
    NodesAlike(y, x);
  }

  lemma CertificateReencoded(c: CertificateValue)
    requires EncCertificate(c).Ok?
    ensures EncCertificate(NormCertificate(c)).Ok?
    ensures Alike(EncCertificate(NormCertificate(c)).value, EncCertificate(c).value)
    ensures EncCertificate(NormCertificate(c)) == EncCertificate(c) <==> CertificateHasParams(c)
  {
    hide EncToBeSigned, EncSigned, NormAlgorithm, HasParams;
    ToBeSignedReencoded(c);
    SignedReencoded(EncToBeSigned(c).value, EncToBeSigned(NormCertificate(c)).value, c.algorithm, c.encrypted);
  }

  /** A certificate that has been decoded is encoded to the octets it came from exactly when
      none of its three algorithm identifiers had been left without parameters. */
  lemma CertificateStable(c: CertificateValue)
    requires EncCertificate(c).Ok?
    ensures EncCertificate(NormCertificate(c)).Ok?
    ensures Der(EncCertificate(NormCertificate(c)).value) == Der(EncCertificate(c).value) <==> CertificateHasParams(c)
  {
    hide Der, EncCertificate, NormCertificate, CertificateHasParams;
    CertificateReencoded(c);
    DerOfAlike(EncCertificate(NormCertificate(c)).value, EncCertificate(c).value);
  }

  // ---------------------------------------------------- attribute certificates

  lemma GeneralNameStable(n: GeneralNameValue)
    requires EncGeneralName(n).Ok?
    ensures EncGeneralName(NormGeneralName(n)) == EncGeneralName(n)
  {
    ReadTlvSound(n.data);
    var item := Head(n.data).value;
    assert n.data[0] == item.id == item.Encoding()[0];
    ReadTlvEncoding(item, []);
    assert item.Encoding() + [] == item.Encoding();
  }

  lemma GeneralNamesStable(names: GeneralNamesValue)
    requires EncGeneralNames(names).Ok?
    ensures EncGeneralNames(MapAll(names, NormGeneralName)) == EncGeneralNames(names)
  {
    hide EncGeneralName, NormGeneralName, Wrap;
    EncodeAllKids(names, EncListedName);
    forall i | 0 <= i < |names| ensures EncListedName(MapAll(names, NormGeneralName)[i]) == EncListedName(names[i]) {
      GeneralNameStable(names[i]);
    }
    EncodeAllSame(MapAll(names, NormGeneralName), names, EncListedName);
  }

  lemma SubjectStable(info: InfoValue)
    requires EncSubject(info).Ok?
    ensures EncSubject(NormInfo(info)) == EncSubject(info)
  {
    hide EncGeneralNames, NormAlgorithm, NormAttribute, NormGeneralName;
    if info.baseCertificateId.Some? {
      GeneralNamesStable(info.baseCertificateId.value.issuer);
    } else {
      GeneralNamesStable(info.subjectName.value);
    }
  }

  lemma AttributeSequenceStable(attributes: seq<AttributeValue>)
    requires EncAttributeSequence(attributes).Ok?
    ensures EncAttributeSequence(MapAll(attributes, NormAttribute)) == EncAttributeSequence(attributes)
  {
    hide EncAttribute, NormAttribute;
    EncodeAllKids(attributes, EncAttribute);
    forall i | 0 <= i < |attributes|
      ensures EncAttribute(MapAll(attributes, NormAttribute)[i]) == EncAttribute(attributes[i])
    {
      AttributeStable(attributes[i]);
    }
    EncodeAllSame(MapAll(attributes, NormAttribute), attributes, EncAttribute);
  }

  lemma InfoReencoded(info: InfoValue)
    requires EncInfo(info).Ok?
    ensures EncInfo(NormInfo(info)).Ok?
    ensures Alike(EncInfo(NormInfo(info)).value, EncInfo(info).value)
    ensures EncInfo(NormInfo(info)) == EncInfo(info) <==> HasParams(info.signature)
  {
    hide EncSubject, EncGeneralNames, EncAlgorithm, NormAlgorithm, EncAttributeSequence, EncInt, EncPeriod,
      EncBitsField, NormAttribute, NormGeneralName, NormIssuerSerial, MapAll;
    SubjectStable(info);
    GeneralNamesStable(info.issuer);
    AlgorithmReencoded(info.signature);
    AttributeSequenceStable(info.attributes);
    var t, u := EncInfo(info).value, EncInfo(NormInfo(info)).value;
    assert t.kids[3] == EncAlgorithm(info.signature).value
      && u.kids[3] == EncAlgorithm(NormAlgorithm(info.signature)).value;
    NodesAlike(u, t);
  }

  predicate AttributeCertificateHasParams(c: AttributeCertificateValue) {
    HasParams(c.info.signature) && HasParams(c.algorithm)
  }

  lemma AttributeCertificateReencoded(c: AttributeCertificateValue)
    requires EncAttributeCertificate(c).Ok?
    ensures EncAttributeCertificate(NormAttributeCertificate(c)).Ok?
    ensures Alike(EncAttributeCertificate(NormAttributeCertificate(c)).value, EncAttributeCertificate(c).value)
    ensures EncAttributeCertificate(NormAttributeCertificate(c)) == EncAttributeCertificate(c)
      <==> AttributeCertificateHasParams(c)
  {
    hide EncInfo, NormInfo, EncSigned, NormAlgorithm, HasParams;
    InfoReencoded(c.info);
    SignedReencoded(EncInfo(c.info).value, EncInfo(NormInfo(c.info)).value, c.algorithm, c.encrypted);
  }

  /** The same for an attribute certificate and its two algorithm identifiers. */
  lemma AttributeCertificateStable(c: AttributeCertificateValue)
    requires EncAttributeCertificate(c).Ok?
    ensures EncAttributeCertificate(NormAttributeCertificate(c)).Ok?
    ensures Der(EncAttributeCertificate(NormAttributeCertificate(c)).value) == Der(EncAttributeCertificate(c).value)
      <==> AttributeCertificateHasParams(c)
  {
    hide Der, EncAttributeCertificate, NormAttributeCertificate, AttributeCertificateHasParams;
    AttributeCertificateReencoded(c);
    DerOfAlike(EncAttributeCertificate(NormAttributeCertificate(c)).value, EncAttributeCertificate(c).value);
  }

  predicate ChoiceHasParams(c: ChoiceValue) {
    match c
    case Plain(certificate) => CertificateHasParams(certificate)
    case Attribute(attrCert) => AttributeCertificateHasParams(attrCert)
  }

  lemma ChoiceReencoded(c: ChoiceValue)
    requires EncChoice(c).Ok?
    ensures EncChoice(NormChoice(c)).Ok?
    ensures Alike(EncChoice(NormChoice(c)).value, EncChoice(c).value)
    ensures EncChoice(NormChoice(c)) == EncChoice(c) <==> ChoiceHasParams(c)
  {
    hide EncCertificate, NormCertificate, CertificateHasParams, EncAttributeCertificate, NormAttributeCertificate,
      AttributeCertificateHasParams;
    match c
    case Plain(certificate) => CertificateReencoded(certificate);
    case Attribute(attrCert) => AttributeCertificateReencoded(attrCert);
  }

  // ----------------------------------------------------------- revocation lists

  predicate CrlHasParams(c: CrlValue) {
    c.signatureAlgorithm.params != []
  }

  // -------------------------------------------------------------- signed data

  predicate SignerHasParams(s: SignerInfoValue) {
    HasParams(s.digestAlgorithm) && HasParams(s.signatureAlgorithm)
  }

  predicate SignedDataHasParams(v: SignedDataValue) {
    && AllOf(v.digestAlgorithms, HasParams)
    && AllReadable(v.certificates, ChoiceHasParams)
    && AllReadable(v.crls, CrlHasParams)
    && AllOf(v.signerInfos, SignerHasParams)
  }

  lemma SetReencoded<T>(vs: seq<T>, enc: T -> Outcome<Enc>, norm: T -> T, stable: T -> bool)
    requires EncSet(vs, enc).Ok?
    requires forall i :: 0 <= i < |vs| ==> Reencodes(vs[i], enc, norm, stable)
    ensures EncSet(MapAll(vs, norm), enc).Ok?
    ensures Alike(EncSet(MapAll(vs, norm), enc).value, EncSet(vs, enc).value)
    ensures EncSet(MapAll(vs, norm), enc) == EncSet(vs, enc) <==> AllOf(vs, stable)
  {
    ListReencoded(vs, enc, norm, stable);
  }

  lemma FieldReencoded<T>(list: Option<seq<T>>, id: byte, enc: T -> Outcome<Enc>, norm: T -> T, stable: T -> bool)
    requires EncListField(list, id, enc).Ok?
    requires list.Some? ==> forall i :: 0 <= i < |list.value| ==> Reencodes(list.value[i], enc, norm, stable)
    ensures EncListField(NormOptional(list, norm), id, enc).Ok?
    ensures AllAlike(EncListField(NormOptional(list, norm), id, enc).value, EncListField(list, id, enc).value)
    ensures EncListField(NormOptional(list, norm), id, enc) == EncListField(list, id, enc)
      <==> AllReadable(list, stable)
  {
    if NormList(list).Some? {
      ListReencoded(list.value, enc, norm, stable);
      var kids := EncodeAll(list.value, enc).value;
      var norms := EncodeAll(MapAll(list.value, norm), enc).value;
      assert [Node(id, norms)][0] == Node(id, norms) && [Node(id, kids)][0] == Node(id, kids);
    }
  }

  /** The elements, one kind after the other. */
  lemma ElementsReencoded(v: SignedDataValue)
    requires EncSignedData(v).Ok?
    ensures var n := NormSignedData(v);
      && EncSet(n.digestAlgorithms, EncAlgorithm).Ok? && EncSet(n.signerInfos, EncSignerInfo).Ok?
      && EncListField(n.certificates, CERTIFICATES_ID, EncChoice).Ok? && EncListField(n.crls, CRLS_ID, EncCrl).Ok?
      && FieldsAlike(n, v)
      && (EncSet(n.digestAlgorithms, EncAlgorithm) == EncSet(v.digestAlgorithms, EncAlgorithm)
        <==> AllOf(v.digestAlgorithms, HasParams))
      && (EncListField(n.certificates, CERTIFICATES_ID, EncChoice)
        == EncListField(v.certificates, CERTIFICATES_ID, EncChoice)
        <==> AllReadable(v.certificates, ChoiceHasParams))
      && (EncListField(n.crls, CRLS_ID, EncCrl) == EncListField(v.crls, CRLS_ID, EncCrl)
        <==> AllReadable(v.crls, CrlHasParams))
      && (EncSet(n.signerInfos, EncSignerInfo) == EncSet(v.signerInfos, EncSignerInfo)
        <==> AllOf(v.signerInfos, SignerHasParams))
  {
    hide EncAlgorithm, NormAlgorithm, EncChoice, NormChoice, EncCrl, NormCrl, EncSignerInfo, NormSignerInfo, EncSet,
      EncListField, NormOptional, ChoiceHasParams, AllReadable, AllOf, MapAll, Alike;
    forall a: AlgorithmId ensures Reencodes(a, EncAlgorithm, NormAlgorithm, HasParams) {
      if EncAlgorithm(a).Ok? {
        AlgorithmReencoded(a);
      }
    }
    forall c: ChoiceValue ensures Reencodes(c, EncChoice, NormChoice, ChoiceHasParams) {
      if EncChoice(c).Ok? {
        ChoiceReencoded(c);
      }
    }
    forall c: CrlValue ensures Reencodes(c, EncCrl, NormCrl, CrlHasParams) {
      if EncCrl(c).Ok? {
        CrlReencoded(c);
      }
    }
    forall s: SignerInfoValue ensures Reencodes(s, EncSignerInfo, NormSignerInfo, SignerHasParams) {
      if EncSignerInfo(s).Ok? {
        SignerInfoReencoded(s);
      }
    }
    SetReencoded(v.digestAlgorithms, EncAlgorithm, NormAlgorithm, HasParams);
    FieldReencoded(v.certificates, CERTIFICATES_ID, EncChoice, NormChoice, ChoiceHasParams);
    FieldReencoded(v.crls, CRLS_ID, EncCrl, NormCrl, CrlHasParams);
    SetReencoded(v.signerInfos, EncSignerInfo, NormSignerInfo, SignerHasParams);
  }

  /** The encoders of the fields that hold algorithm identifiers are alike. */
  predicate FieldsAlike(n: SignedDataValue, v: SignedDataValue)
    requires EncSet(n.digestAlgorithms, EncAlgorithm).Ok? && EncSet(n.signerInfos, EncSignerInfo).Ok?
    requires EncListField(n.certificates, CERTIFICATES_ID, EncChoice).Ok? && EncListField(n.crls, CRLS_ID, EncCrl).Ok?
    requires EncSignedData(v).Ok?
  {
    && Alike(EncSet(n.digestAlgorithms, EncAlgorithm).value, EncSet(v.digestAlgorithms, EncAlgorithm).value)
    && AllAlike(EncListField(n.certificates, CERTIFICATES_ID, EncChoice).value,
      EncListField(v.certificates, CERTIFICATES_ID, EncChoice).value)
    && AllAlike(EncListField(n.crls, CRLS_ID, EncCrl).value, EncListField(v.crls, CRLS_ID, EncCrl).value)
    && Alike(EncSet(n.signerInfos, EncSignerInfo).value, EncSet(v.signerInfos, EncSignerInfo).value)
  }

  /** A signed-data that has been decoded is encoded to the octets it came from exactly when
      no algorithm identifier in it, at any depth, had been left without parameters. */
  lemma SignedDataStable(v: SignedDataValue)
    requires EncSignedData(v).Ok?
    ensures EncSignedData(NormSignedData(v)).Ok?
    ensures Der(EncSignedData(NormSignedData(v)).value) == Der(EncSignedData(v).value) <==> SignedDataHasParams(v)
  {
    hide Der, EncSignedData, NormSignedData, SignedDataHasParams;
    SignedDataReencoded(v);
    DerOfAlike(EncSignedData(NormSignedData(v)).value, EncSignedData(v).value);
  }

  lemma SignedDataReencoded(v: SignedDataValue)
    requires EncSignedData(v).Ok?
    ensures EncSignedData(NormSignedData(v)).Ok?
    ensures Alike(EncSignedData(NormSignedData(v)).value, EncSignedData(v).value)
    ensures EncSignedData(NormSignedData(v)) == EncSignedData(v) <==> SignedDataHasParams(v)
  {
    hide EncSet, EncListField, EncContentInfo, EncInt, NormSignedData, AllOf, AllReadable, NormOptional, HasParams,
      FieldsAlike;
    ElementsReencoded(v);
    var n := NormSignedData(v);
    SameScalars(v);
    SameFields(v, n);
    FieldsAlikeNode(v, n);
  }

  lemma FieldsAlikeNode(v: SignedDataValue, n: SignedDataValue)
    requires EncSignedData(v).Ok? && EncSignedData(n).Ok?
    requires n.version == v.version && n.contentInfo == v.contentInfo && FieldsAlike(n, v)
    ensures Alike(EncSignedData(n).value, EncSignedData(v).value)
  {
    hide EncSet, EncListField, EncContentInfo, EncInt, Alike;
    NodesAlike(EncSignedData(n).value, EncSignedData(v).value);
  }

  lemma SameScalars(v: SignedDataValue)
    ensures NormSignedData(v).version == v.version && NormSignedData(v).contentInfo == v.contentInfo
    ensures NormList(NormSignedData(v).certificates).Some? <==> NormList(v.certificates).Some?
    ensures NormList(NormSignedData(v).crls).Some? <==> NormList(v.crls).Some?
  {
  }

  /** Two encodings with the same optional fields are equal exactly when all fields are. */
  lemma SameFields(v: SignedDataValue, n: SignedDataValue)
    requires EncSignedData(v).Ok?
    requires n.version == v.version && n.contentInfo == v.contentInfo
    requires NormList(n.certificates).Some? <==> NormList(v.certificates).Some?
    requires NormList(n.crls).Some? <==> NormList(v.crls).Some?
    requires EncSet(n.digestAlgorithms, EncAlgorithm).Ok? && EncSet(n.signerInfos, EncSignerInfo).Ok?
    requires EncListField(n.certificates, CERTIFICATES_ID, EncChoice).Ok? && EncListField(n.crls, CRLS_ID, EncCrl).Ok?
    ensures EncSignedData(n).Ok?
    ensures EncSignedData(n) == EncSignedData(v) <==>
      && EncSet(n.digestAlgorithms, EncAlgorithm) == EncSet(v.digestAlgorithms, EncAlgorithm)
      && EncListField(n.certificates, CERTIFICATES_ID, EncChoice)
        == EncListField(v.certificates, CERTIFICATES_ID, EncChoice)
      && EncListField(n.crls, CRLS_ID, EncCrl) == EncListField(v.crls, CRLS_ID, EncCrl)
      && EncSet(n.signerInfos, EncSignerInfo) == EncSet(v.signerInfos, EncSignerInfo)
  {
    hide EncSet, EncListField, EncContentInfo, EncInt, NormList;
    var t, u := EncSignedData(v).value, EncSignedData(n).value;
    var certificates, crls := EncListField(v.certificates, CERTIFICATES_ID, EncChoice).value,
      EncListField(v.crls, CRLS_ID, EncCrl).value;
    var pos := 3 + |certificates|;
    assert t.kids[1] == EncSet(v.digestAlgorithms, EncAlgorithm).value
      && u.kids[1] == EncSet(n.digestAlgorithms, EncAlgorithm).value;
    assert t.kids[3..pos] == certificates
      && u.kids[3..pos] == EncListField(n.certificates, CERTIFICATES_ID, EncChoice).value;
    assert t.kids[pos..pos + |crls|] == crls
      && u.kids[pos..pos + |crls|] == EncListField(n.crls, CRLS_ID, EncCrl).value;
    assert t.kids[|t.kids| - 1] == EncSet(v.signerInfos, EncSignerInfo).value
      && u.kids[|u.kids| - 1] == EncSet(n.signerInfos, EncSignerInfo).value;
  }
}
