/** CCMSX509Certificate, with its validity and its subject public key info
    (section 4.1 of RFC 2459). */
module CmsX509Certificate {
  import opened Outcomes
  import opened DerCodec
  import opened Asn1
  import opened TimeUtil
  import opened AlgorithmIdentifier
  import opened CmsSigned

  datatype Validity = Validity(notBefore: Time, notAfter: Time)

  datatype PublicKeyInfo = PublicKeyInfo(algorithm: AlgorithmId, key: bytes)

  datatype CertificateValue = CertificateValue(
    version: TInt,
    serial: bytes,
    signature: AlgorithmId,
    issuer: Name,
    validity: Validity,
    subject: Name,
    publicKeyInfo: PublicKeyInfo,
    issuerUid: Option<bytes>,
    subjectUid: Option<bytes>,
    algorithm: AlgorithmId,
    encrypted: bytes)

  const VERSION_TAG: nat := 0
  const ISSUER_UID_TAG: nat := 1
  const SUBJECT_UID_TAG: nat := 2

  // ------------------------------------------------------- validity, public key

  function EncValidity(v: Validity): Enc {
    Node(SEQUENCE_ID, [EncTime(v.notBefore), EncTime(v.notAfter)])
  }

  function DecValidity(raw: bytes): (r: Outcome<Validity>)
    ensures r != Panic
  {
    var items :- DecodeBoundedSequence(raw, 2, 2);
    var notBefore :- DecTime(items[0].Encoding());
    var notAfter :- DecTime(items[1].Encoding());
    Ok(Validity(notBefore, notAfter))
  }

  lemma ValidityRoundTrip(v: Validity)
    requires Fits(EncValidity(v))
    ensures DecValidity(Der(EncValidity(v))) == Ok(v)
  {
    hide EncTime, DecTime, Tlv;
    DecodeNode(EncValidity(v));
    TimeRoundTrip(v.notBefore);
    TimeRoundTrip(v.notAfter);
  }

  function EncPublicKeyInfo(p: PublicKeyInfo): (r: Outcome<Enc>)
  {
    var algorithm :- EncAlgorithm(p.algorithm);
    Ok(Node(SEQUENCE_ID, [algorithm, EncBits(p.key)]))
  }

  function DecPublicKeyInfo(raw: bytes): (r: Outcome<PublicKeyInfo>)
    ensures r != Panic
  {
    var items :- DecodeBoundedSequence(raw, 2, 2);
    var algorithm :- DecAlgorithm(items[0].Encoding());
    var key :- DecBits(items[1]);
    Ok(PublicKeyInfo(algorithm, key))
  }

  function NormPublicKeyInfo(p: PublicKeyInfo): PublicKeyInfo {
    p.(algorithm := NormAlgorithm(p.algorithm))
  }

  lemma PublicKeyInfoRoundTrip(p: PublicKeyInfo)
    requires EncPublicKeyInfo(p).Ok? && Fits(EncPublicKeyInfo(p).value)
    ensures DecPublicKeyInfo(Der(EncPublicKeyInfo(p).value))
      == if p.key == [] then Leave(KErrLibrary) else Ok(NormPublicKeyInfo(p))
  {
    hide EncAlgorithm, DecAlgorithm, NormAlgorithm, Tlv;
    var t := EncPublicKeyInfo(p).value;
    DecodeNode(t);
    assert Fits(t.kids[0]) && t.kids[1] == EncBits(p.key);
    AlgorithmRoundTrip(p.algorithm);
  }

  // ------------------------------------------------------------- to be signed

  /** A unique identifier: a bit string under an IMPLICIT tag. */
  function EncUid(uid: Option<bytes>, tag: ContextTag): (r: seq<Enc>) {
    match uid
    case Some(octets) => [ImplicitTag(EncBits(octets), tag)]
    case None => []
  }

  /** The version is always written, under an EXPLICIT tag. */
  function EncToBeSigned(c: CertificateValue): (r: Outcome<Enc>)
    ensures r.Ok? ==> r.value.Node? && r.value.id == SEQUENCE_ID
  {
    var signature :- EncAlgorithm(c.signature);
    var publicKeyInfo :- EncPublicKeyInfo(c.publicKeyInfo);
    Ok(Node(SEQUENCE_ID,
      [ExplicitTag(EncInt(c.version), VERSION_TAG), Leaf(INTEGER_ID, c.serial), signature, EncName(c.issuer),
       EncValidity(c.validity), EncName(c.subject), publicKeyInfo]
      + EncUid(c.issuerUid, ISSUER_UID_TAG) + EncUid(c.subjectUid, SUBJECT_UID_TAG)))
  }

  /** Section 4.1 of RFC 2459: EXPLICIT [0] version, serial number, algorithm, issuer,
      validity, subject, key, and the unique identifiers under IMPLICIT [1] and [2]. */
  lemma CertificateLayout(c: CertificateValue)
    requires EncToBeSigned(c).Ok?
    ensures Ids(EncToBeSigned(c).value.kids) == [0xA0, 0x02, 0x30, 0x30, 0x30, 0x30, 0x30]
      + (if c.issuerUid.Some? then [0x81] else []) + (if c.subjectUid.Some? then [0x82] else [])
    ensures var kids := EncToBeSigned(c).value.kids;
      kids[3] == EncName(c.issuer) && kids[4] == EncValidity(c.validity) && kids[5] == EncName(c.subject)
  {
    hide EncAlgorithm, EncPublicKeyInfo, EncValidity, EncName, EncUid, Ids;
    var kids := EncToBeSigned(c).value.kids;
    var mandatory := kids[..7];
    var issuerUid, subjectUid := EncUid(c.issuerUid, ISSUER_UID_TAG), EncUid(c.subjectUid, SUBJECT_UID_TAG);
    assert kids == mandatory + issuerUid + subjectUid;
    MandatoryIds(c);
    UidIds(c.issuerUid, ISSUER_UID_TAG);
    UidIds(c.subjectUid, SUBJECT_UID_TAG);
    IdsOfParts(mandatory, issuerUid);
    IdsOfParts(mandatory + issuerUid, subjectUid);
  }

  lemma MandatoryIds(c: CertificateValue)
    requires EncToBeSigned(c).Ok?
    ensures |EncToBeSigned(c).value.kids| >= 7
    ensures Ids(EncToBeSigned(c).value.kids[..7]) == [0xA0, 0x02, 0x30, 0x30, 0x30, 0x30, 0x30]
  {
    hide EncAlgorithm, EncUid;
  }

  lemma UidIds(uid: Option<bytes>, tag: ContextTag)
    ensures Ids(EncUid(uid, tag)) == if uid.Some? then [(0x80 + tag) as byte] else []
  {
  }

  function EncCertificate(c: CertificateValue): (r: Outcome<Enc>)
    ensures r.Ok? ==> r.value.Node? && r.value.id == SEQUENCE_ID
  {
    var toBeSigned :- EncToBeSigned(c);
    EncSigned(toBeSigned, c.algorithm, c.encrypted)
  }

  predicate VersionPresent(items: seq<Item>)
    requires items != []
  {
    items[0].Tag() == VERSION_TAG && items[0].Class() == ContextSpecific
  }

  function DecVersion(items: seq<Item>): (r: Outcome<TInt>)
    requires items != []
    ensures r != Panic
  {
    if !VersionPresent(items) then Ok(0)
    else
      var inner :- Head(items[0].contents);
      DecInt(inner)
  }

  datatype MandatoryFields = MandatoryFields(serial: bytes, signature: AlgorithmId, issuer: Name,
    validity: Validity, subject: Name, publicKeyInfo: PublicKeyInfo)

  /** Six fields from pos on; nothing has checked that there are that many. */
  function DecMandatory(items: seq<Item>, pos: nat): (r: Outcome<MandatoryFields>)
  {
    var serial :- At(items, pos);
    var signatureItem :- At(items, pos + 1);
    var signature :- DecAlgorithm(signatureItem.Encoding());
    var issuerItem :- At(items, pos + 2);
    var issuer :- DecName(issuerItem.Encoding());
    var validityItem :- At(items, pos + 3);
    var validity :- DecValidity(validityItem.Encoding());
    var subjectItem :- At(items, pos + 4);
    var subject :- DecName(subjectItem.Encoding());
    var keyItem :- At(items, pos + 5);
    var publicKeyInfo :- DecPublicKeyInfo(keyItem.Encoding());
    Ok(MandatoryFields(serial.contents, signature, issuer, validity, subject, publicKeyInfo))
  }

  function DecUidAt(items: seq<Item>, pos: nat, tag: nat): (r: Outcome<Option<bytes>>)
    ensures r != Panic
  {
    if pos < |items| && items[pos].Tag() == tag then
      var octets :- DecBits(items[pos]);
      Ok(Some(octets))
    else Ok(None)
  }

  function DecCertificateItems(items: seq<Item>, signed: SignedParts): (r: Outcome<CertificateValue>)
    requires items != []
  {
    var version :- DecVersion(items);
    var pos := if VersionPresent(items) then 1 else 0;
    var fields :- DecMandatory(items, pos);
    var issuerUid :- DecUidAt(items, pos + 6, ISSUER_UID_TAG);
    var subjectUid :- DecUidAt(items, pos + 6 + (if issuerUid.Some? then 1 else 0), SUBJECT_UID_TAG);
    Ok(CertificateValue(version, fields.serial, fields.signature, fields.issuer, fields.validity, fields.subject,
      fields.publicKeyInfo, issuerUid, subjectUid, signed.algorithm, signed.encrypted))
  }

  function DecCertificate(raw: bytes): (r: Outcome<CertificateValue>)
  {
    var signed :- DecSignature(raw);
    var items :- DecodeBoundedSequence(signed.toBeSigned.Encoding(), 6, 10);
    DecCertificateItems(items, signed)
  }

  /** A version and five fields that can all be read, but no key behind them. */
  predicate EndsBeforeKey(items: seq<Item>)
    requires items != []
  {
    && |items| == 6
    && VersionPresent(items)
    && DecVersion(items).Ok?
    && DecAlgorithm(items[2].Encoding()).Ok?
    && DecName(items[3].Encoding()).Ok?
    && DecValidity(items[4].Encoding()).Ok?
    && DecName(items[5].Encoding()).Ok?
  }

  /** The lower bound on the number of items does not allow for the optional version, so
      the cursor runs past the end of six items that start with a version, unless one of
      them makes the decoder leave before. Seven items are enough, and so are six without
      a version. */
  lemma CertificateCursor(items: seq<Item>, signed: SignedParts)
    requires 6 <= |items| <= 10
    ensures DecCertificateItems(items, signed) == Panic <==> EndsBeforeKey(items)
    ensures |items| == 6 && VersionPresent(items) ==> !DecCertificateItems(items, signed).Ok?
  {
    hide DecAlgorithm, DecName, DecValidity, DecPublicKeyInfo, DecInt, DecBits;
  }

  /** The items of what is signed, once the signature and their number have been checked. */
  function ToBeSignedItems(raw: bytes): (r: Outcome<seq<Item>>)
    ensures r != Panic
    ensures r.Ok? ==> 6 <= |r.value| <= 10
  {
    var signed :- DecSignature(raw);
    DecodeBoundedSequence(signed.toBeSigned.Encoding(), 6, 10)
  }

  predicate CertificateEndsThread(raw: bytes) {
    ToBeSignedItems(raw).Ok? && EndsBeforeKey(ToBeSignedItems(raw).value)
  }

  /** No other input ends the thread. */
  lemma CertificatePanicExact(raw: bytes)
    ensures DecCertificate(raw) == Panic <==> CertificateEndsThread(raw)
  {
    hide DecCertificateItems, DecSignature, DecodeBoundedSequence, EndsBeforeKey, Tlv;
    if ToBeSignedItems(raw).Ok? {
      CertificateCursor(ToBeSignedItems(raw).value, DecSignature(raw).value);
    }
  }

  function NormCertificate(c: CertificateValue): CertificateValue {
    c.(signature := NormAlgorithm(c.signature),
       publicKeyInfo := NormPublicKeyInfo(c.publicKeyInfo),
       algorithm := NormAlgorithm(c.algorithm))
  }

  /** Every bit string holds at least one octet. */
  predicate CertificateReadable(c: CertificateValue) {
    c.publicKeyInfo.key != [] && c.issuerUid != Some([]) && c.subjectUid != Some([]) && c.encrypted != []
  }

  lemma UidRoundTrip(uid: Option<bytes>, tag: ContextTag, items: seq<Item>, pos: nat)
    requires if uid.Some? then pos < |items| && items[pos] == ItemOf(EncUid(uid, tag)[0])
      else pos < |items| ==> items[pos].Tag() != tag
    ensures DecUidAt(items, pos, tag) == Ok(uid) <==> uid != Some([])
  {
    if uid.Some? {
      BitsRoundTrip(uid.value, items[pos].id);
    }
  }

  lemma MandatoryRoundTrip(c: CertificateValue)
    requires EncToBeSigned(c).Ok? && Fits(EncToBeSigned(c).value)
    ensures DecMandatory(ItemsOf(EncToBeSigned(c).value.kids), 1)
      == if c.publicKeyInfo.key == [] then Leave(KErrLibrary)
         else Ok(MandatoryFields(c.serial, NormAlgorithm(c.signature), c.issuer, c.validity, c.subject,
           NormPublicKeyInfo(c.publicKeyInfo)))
  {
    hide EncAlgorithm, DecAlgorithm, NormAlgorithm, EncValidity, DecValidity, EncName, DecName, EncPublicKeyInfo,
      DecPublicKeyInfo, NormPublicKeyInfo, Tlv, EncUid, EncInt, ExplicitTag;
    var kids := EncToBeSigned(c).value.kids;
    var items := ItemsOf(kids);
    assert forall i :: 0 <= i < 7 ==>
      Fits(kids[i]) && items[i] == ItemOf(kids[i]) && items[i].Encoding() == Der(kids[i]);
    assert kids[1] == Leaf(INTEGER_ID, c.serial) && kids[2] == EncAlgorithm(c.signature).value
      && kids[3] == EncName(c.issuer);
    assert kids[4] == EncValidity(c.validity) && kids[5] == EncName(c.subject)
      && kids[6] == EncPublicKeyInfo(c.publicKeyInfo).value;
    AlgorithmRoundTrip(c.signature);
    NameRoundTrip(c.issuer);
    ValidityRoundTrip(c.validity);
    NameRoundTrip(c.subject);
    PublicKeyInfoRoundTrip(c.publicKeyInfo);
  }

  lemma ToBeSignedRoundTrip(c: CertificateValue, signed: SignedParts)
    requires EncToBeSigned(c).Ok? && Fits(EncToBeSigned(c).value)
    requires signed.algorithm == NormAlgorithm(c.algorithm) && signed.encrypted == c.encrypted
    ensures DecCertificateItems(ItemsOf(EncToBeSigned(c).value.kids), signed) == Ok(NormCertificate(c))
      <==> c.publicKeyInfo.key != [] && c.issuerUid != Some([]) && c.subjectUid != Some([])
  {
    hide DecMandatory, EncAlgorithm, NormAlgorithm, EncValidity, EncName, EncPublicKeyInfo, NormPublicKeyInfo,
      EncInt, DecInt, Tlv;
    var kids := EncToBeSigned(c).value.kids;
    var items := ItemsOf(kids);
    assert kids[0] == ExplicitTag(EncInt(c.version), VERSION_TAG);
    assert DecVersion(items) == Ok(c.version) by {
      IntRoundTrip(c.version);
      ReadWholeDer(EncInt(c.version));
    }
    MandatoryRoundTrip(c);
    var next := 7 + |EncUid(c.issuerUid, ISSUER_UID_TAG)|;
    assert c.issuerUid.Some? ==> kids[7] == EncUid(c.issuerUid, ISSUER_UID_TAG)[0];
    assert c.subjectUid.Some? ==> kids[next] == EncUid(c.subjectUid, SUBJECT_UID_TAG)[0];
    UidRoundTrip(c.issuerUid, ISSUER_UID_TAG, items, 7);
    UidRoundTrip(c.subjectUid, SUBJECT_UID_TAG, items, next);
  }

  lemma CertificateRoundTrip(c: CertificateValue)
    requires EncCertificate(c).Ok? && Fits(EncCertificate(c).value)
    ensures DecCertificate(Der(EncCertificate(c).value)) == Ok(NormCertificate(c)) <==> CertificateReadable(c)
  {
    hide EncToBeSigned, DecCertificateItems, NormCertificate, NormAlgorithm, EncSigned, DecSignature, Tlv;
    var toBeSigned := EncToBeSigned(c).value;
    SignedRoundTrip(toBeSigned, c.algorithm, c.encrypted);
    if c.encrypted == [] {
      return;
    }
    DecodeNode(toBeSigned);
    var signed := SignedParts(ItemOf(toBeSigned), NormAlgorithm(c.algorithm), c.encrypted);
    assert DecSignature(Der(EncCertificate(c).value)) == Ok(signed);
    assert signed.toBeSigned.Encoding() == Der(toBeSigned);
    assert DecodeBoundedSequence(Der(toBeSigned), 6, 10) == Ok(ItemsOf(toBeSigned.kids)) by {
      ToBeSignedSize(c);
    }
    ToBeSignedRoundTrip(c, signed);
  }

  /** What is signed, cut off before the key. */
  function Truncated(c: CertificateValue): (t: Enc)
    requires EncToBeSigned(c).Ok?
    ensures t.Node? && |t.kids| == 6
  {
    ToBeSignedSize(c);
    Node(SEQUENCE_ID, EncToBeSigned(c).value.kids[..6])
  }

  /** Every certificate that is cut off in this way and signed ends the thread. */
  lemma TruncatedCertificatePanics(c: CertificateValue)
    requires EncToBeSigned(c).Ok? && EncSigned(Truncated(c), c.algorithm, c.encrypted).Ok?
    requires Fits(EncSigned(Truncated(c), c.algorithm, c.encrypted).value) && c.encrypted != []
    ensures DecCertificate(Der(EncSigned(Truncated(c), c.algorithm, c.encrypted).value)) == Panic
  {
    hide EncSigned, DecSignature, DecCertificate, EndsBeforeKey, Tlv, EncToBeSigned;
    var t := Truncated(c);
    var raw := Der(EncSigned(t, c.algorithm, c.encrypted).value);
    SignedRoundTrip(t, c.algorithm, c.encrypted);
    DecodeNode(t);
    assert ToBeSignedItems(raw) == Ok(ItemsOf(t.kids)) by {
      ItemEncoding(t);
    }
    TruncatedItems(c);
    CertificatePanicExact(raw);
  }

  lemma TruncatedItems(c: CertificateValue)
    requires EncToBeSigned(c).Ok? && Fits(Truncated(c))
    ensures EndsBeforeKey(ItemsOf(Truncated(c).kids))
  {
    hide EncAlgorithm, DecAlgorithm, NormAlgorithm, EncValidity, DecValidity, EncName, DecName, EncPublicKeyInfo,
      DecPublicKeyInfo, Tlv, EncUid, EncInt, DecInt;
    var kids := Truncated(c).kids;
    var items := ItemsOf(kids);
    assert forall i :: 0 <= i < 6 ==>
      Fits(kids[i]) && items[i] == ItemOf(kids[i]) && items[i].Encoding() == Der(kids[i]);
    assert kids[0] == ExplicitTag(EncInt(c.version), VERSION_TAG) && kids[2] == EncAlgorithm(c.signature).value;
    assert kids[3] == EncName(c.issuer) && kids[4] == EncValidity(c.validity) && kids[5] == EncName(c.subject);
    assert DecVersion(items) == Ok(c.version) by {
      IntRoundTrip(c.version);
      ReadWholeDer(EncInt(c.version));
    }
    AlgorithmRoundTrip(c.signature);
    NameRoundTrip(c.issuer);
    ValidityRoundTrip(c.validity);
    NameRoundTrip(c.subject);
  }

  const SOME_TIME: Time := Fields(2000, 1, 1, 0, 0, 0)
  const SOME_ALGORITHM := AlgorithmId(SHA1, None, [])
  const SOME_CERTIFICATE := CertificateValue(2, [1], SOME_ALGORITHM, [], Validity(SOME_TIME, SOME_TIME), [],
    PublicKeyInfo(SOME_ALGORITHM, [1]), None, None, SOME_ALGORITHM, [1])

  lemma SomePartsFit()
    ensures EncAlgorithm(SOME_ALGORITHM).Ok? && Fits(EncAlgorithm(SOME_ALGORITHM).value)
    ensures |Contents(EncAlgorithm(SOME_ALGORITHM).value)| <= 22
    ensures Fits(EncValidity(SOME_CERTIFICATE.validity)) && |Contents(EncValidity(SOME_CERTIFICATE.validity))| <= 38
    ensures Fits(ExplicitTag(EncInt(2), VERSION_TAG)) && |Contents(ExplicitTag(EncInt(2), VERSION_TAG))| <= 7
  {
    hide TimeString;
    NodeFits(EncAlgorithm(SOME_ALGORITHM).value, 5);
    NodeFits(EncValidity(SOME_CERTIFICATE.validity), 13);
    NodeFits(ExplicitTag(EncInt(2), VERSION_TAG), 1);
  }

  lemma SomeTruncatedFits()
    ensures EncToBeSigned(SOME_CERTIFICATE).Ok?
    ensures Fits(Truncated(SOME_CERTIFICATE)) && |Contents(Truncated(SOME_CERTIFICATE))| <= 264
  {
    hide Tlv, EncAlgorithm, EncValidity, ExplicitTag, EncInt, Contents;
    SomePartsFit();
    var kids := Truncated(SOME_CERTIFICATE).kids;
    assert kids[0] == ExplicitTag(EncInt(2), VERSION_TAG) && kids[1] == Leaf(INTEGER_ID, [1]);
    assert kids[2] == EncAlgorithm(SOME_ALGORITHM).value && kids[4] == EncValidity(SOME_CERTIFICATE.validity);
    assert kids[3] == kids[5] == EncName([]);
    assert |Contents(EncName([]))| == 0 && |Contents(Leaf(INTEGER_ID, [1]))| == 1 by {
      LeafContents(EncName([]));
      LeafContents(Leaf(INTEGER_ID, [1]));
    }
    NodeFits(Truncated(SOME_CERTIFICATE), 38);
  }

  /** One such input. */
  lemma CertificateThatPanics()
    ensures var t := EncSigned(Truncated(SOME_CERTIFICATE), SOME_ALGORITHM, [1]);
      t.Ok? && DecCertificate(Der(t.value)) == Panic
  {
    hide DecCertificate, Tlv, EncAlgorithm, EncToBeSigned, Contents, Truncated;
    SomePartsFit();
    SomeTruncatedFits();
    var t := EncSigned(Truncated(SOME_CERTIFICATE), SOME_ALGORITHM, [1]).value;
    LeafContents(EncBits([1]));
    NodeFits(t, 300);
    TruncatedCertificatePanics(SOME_CERTIFICATE);
  }

  lemma ToBeSignedSize(c: CertificateValue)
    requires EncToBeSigned(c).Ok?
    ensures 7 <= |EncToBeSigned(c).value.kids| <= 9
  {
  }

  // ------------------------------------------------------------------ objects

  const KVERSION2: TInt := 1
  const KVERSION3: TInt := 2

  /** The version after setting a unique identifier: 2 or 3 stay, all others become 2. */
  function VersionWithUid(version: TInt): TInt {
    if version > KVERSION3 || version < KVERSION2 then KVERSION2 else version
  }

  class X509Certificate {
    var iData: CertificateValue

    /** The constructor from parts: version 1, no unique identifiers. */
    constructor (serial: bytes, signature: AlgorithmId, issuer: Name, validity: Validity, subject: Name,
      publicKeyInfo: PublicKeyInfo, algorithm: AlgorithmId, encrypted: bytes)
      ensures iData == CertificateValue(0, serial, signature, issuer, validity, subject, publicKeyInfo, None, None,
        algorithm, encrypted)
    {
      iData := CertificateValue(0, serial, signature, issuer, validity, subject, publicKeyInfo, None, None, algorithm,
        encrypted);
    }

    /** A failure at any depth leaves the object as it was. */
    method DecodeL(raw: bytes) returns (r: Outcome<()>)
      modifies this
      ensures r == Status(DecCertificate(raw))
      ensures iData == if r.Ok? then DecCertificate(raw).value else old(iData)
    {
      hide DecSignature, DecMandatory, DecVersion, DecBits, Tlv;
      var signed :- DecSignature(raw);
      var itemList :- DecodeBoundedSequence(signed.toBeSigned.Encoding(), 6, 10);
      var sequenceCounter := 0;
      var version :- DecVersion(itemList);
      if VersionPresent(itemList) {
        sequenceCounter := 1;
      }
      var fields :- DecMandatory(itemList, sequenceCounter);
      sequenceCounter := sequenceCounter + 6;
      var itemCount := |itemList|;
      var issuerUid: Option<bytes> := None;
      if sequenceCounter < itemCount {
        if itemList[sequenceCounter].Tag() == ISSUER_UID_TAG {
          var octets :- DecBits(itemList[sequenceCounter]);
          issuerUid := Some(octets);
          sequenceCounter := sequenceCounter + 1;
        }
      }
      var subjectUid: Option<bytes> := None;
      if sequenceCounter < itemCount {
        if itemList[sequenceCounter].Tag() == SUBJECT_UID_TAG {
          var octets :- DecBits(itemList[sequenceCounter]);
          subjectUid := Some(octets);
        }
      }
      iData := CertificateValue(version, fields.serial, fields.signature, fields.issuer, fields.validity,
        fields.subject, fields.publicKeyInfo, issuerUid, subjectUid, signed.algorithm, signed.encrypted);
      r := Ok(());
    }

    method SetVersion(version: TInt)
      modifies this
      ensures iData == old(iData).(version := version)
    {
      iData := iData.(version := version);
    }

    method SetIssuerUniqueIdentifierL(uid: bytes)
      modifies this
      ensures iData == old(iData).(issuerUid := Some(uid), version := VersionWithUid(old(iData).version))
    {
      iData := iData.(issuerUid := Some(uid));
      if iData.version > KVERSION3 || iData.version < KVERSION2 {
        iData := iData.(version := KVERSION2);
      }
    }

    method SetSubjectUniqueIdentifierL(uid: bytes)
      modifies this
      ensures iData == old(iData).(subjectUid := Some(uid), version := VersionWithUid(old(iData).version))
    {
      iData := iData.(subjectUid := Some(uid));
      if iData.version > KVERSION3 || iData.version < KVERSION2 {
        iData := iData.(version := KVERSION2);
      }
    }
  }

  /** What CCMSCertificateChoices stores: a copy built through the setters. */
  function CopyCertificate(c: CertificateValue): CertificateValue {
    if c.issuerUid.None? && c.subjectUid.None? then c else c.(version := VersionWithUid(c.version))
  }

  /** The copy equals the original exactly when a unique identifier comes with version
      2 or 3; otherwise the copy's version is changed to 2. */
  lemma CopyExact(c: CertificateValue)
    ensures CopyCertificate(c) == c
      <==> (c.issuerUid.Some? || c.subjectUid.Some? ==> c.version == KVERSION2 || c.version == KVERSION3)
  {
  }
}
