/** CCMSX509AttributeCertificateInfo and CCMSX509AttributeCertificate. */
module CmsAttributeCertificate {
  import opened Outcomes
  import opened DerCodec
  import opened Asn1
  import opened TimeUtil
  import opened AlgorithmIdentifier
  import opened CmsAttribute
  import opened CmsSignerInfo
  import opened CmsGeneralNames
  import opened CmsSigned

  datatype InfoValue = InfoValue(
    version: TInt,
    baseCertificateId: Option<IssuerSerialValue>,
    subjectName: Option<GeneralNamesValue>,
    issuer: GeneralNamesValue,
    signature: AlgorithmId,
    serial: TInt,
    notBefore: Time,
    notAfter: Time,
    attributes: seq<AttributeValue>,
    issuerUid: Option<bytes>)

  const BASE_CERTIFICATE_ID_TAG: nat := 0
  const SUBJECT_NAME_TAG: nat := 1
  const INFO_DEFAULT_VERSION: TInt := 0

  // ------------------------------------------------------------------ subject

  /** The CHOICE of subject, stored as two nullable fields, is written EXPLICIT. */
  function EncSubject(info: InfoValue): (r: Outcome<Enc>)
    ensures r.Ok? ==> info.baseCertificateId.Some? || info.subjectName.Some?
  {
    match (info.baseCertificateId, info.subjectName)
    case (Some(id), _) =>
      var inner :- EncIssuerSerial(id);
      Ok(ExplicitTag(inner, BASE_CERTIFICATE_ID_TAG))
    case (None, Some(names)) =>
      var inner :- EncGeneralNames(names);
      Ok(ExplicitTag(inner, SUBJECT_NAME_TAG))
    case (None, None) => Panic
  }

  datatype Subject = BaseCertificate(id: IssuerSerialValue) | SubjectName(names: GeneralNamesValue)

  function DecSubject(item: Item): (r: Outcome<Subject>)
    ensures r != Panic
  {
    if item.Tag() == BASE_CERTIFICATE_ID_TAG then
      var id :- DecIssuerSerial(item.contents);
      Ok(BaseCertificate(id))
    else if item.Tag() == SUBJECT_NAME_TAG then
      var names :- DecGeneralNames(item.contents);
      Ok(SubjectName(names))
    else Leave(KErrArgument)
  }

  // ----------------------------------------------------------- validity period

  function EncPeriod(notBefore: Time, notAfter: Time): Enc {
    Node(SEQUENCE_ID, [EncGeneralizedTime(notBefore), EncGeneralizedTime(notAfter)])
  }

  datatype Period = Period(notBefore: Time, notAfter: Time)

  function DecPeriod(raw: bytes): (r: Outcome<Period>)
    ensures r != Panic
  {
    var items :- DecodeBoundedSequence(raw, 2, 2);
    var notBefore :- DecGeneralizedTime(items[0]);
    var notAfter :- DecGeneralizedTime(items[1]);
    Ok(Period(notBefore, notAfter))
  }

  lemma PeriodRoundTrip(notBefore: Time, notAfter: Time)
    requires Fits(EncPeriod(notBefore, notAfter))
    ensures DecPeriod(Der(EncPeriod(notBefore, notAfter))) == Ok(Period(notBefore, notAfter))
  {
    hide EncGeneralizedTime, DecGeneralizedTime, Tlv;
    DecodeNode(EncPeriod(notBefore, notAfter));
    GeneralizedTimeRoundTrip(notBefore);
    GeneralizedTimeRoundTrip(notAfter);
  }

  // ---------------------------------------------------------------- attributes

  function EncAttributeSequence(attributes: seq<AttributeValue>): (r: Outcome<Enc>)
  {
    var kids :- EncodeAll(attributes, EncAttribute);
    Ok(Node(SEQUENCE_ID, kids))
  }

  function DecAttributeSequence(raw: bytes): (r: Outcome<seq<AttributeValue>>)
  {
    var items :- DecodeSequence(raw);
    DecodeAll(items, DecAttribute)
  }

  lemma AttributeSequenceRoundTrip(attributes: seq<AttributeValue>)
    requires EncAttributeSequence(attributes).Ok? && Fits(EncAttributeSequence(attributes).value)
    ensures DecAttributeSequence(Der(EncAttributeSequence(attributes).value)) == Ok(MapAll(attributes, NormAttribute))
      <==> ValuesPresent(attributes)
  {
    var t := EncAttributeSequence(attributes).value;
    DecodeNode(t);
    AttributesRoundTrip(attributes, SEQUENCE_ID);
  }

  // ---------------------------------------------------------------------- info

  function EncInfo(info: InfoValue): (r: Outcome<Enc>)
    ensures r.Ok? ==> r.value.Node? && r.value.id == SEQUENCE_ID
  {
    var subject :- EncSubject(info);
    var issuer :- EncGeneralNames(info.issuer);
    var signature :- EncAlgorithm(info.signature);
    var attributes :- EncAttributeSequence(info.attributes);
    Ok(Node(SEQUENCE_ID,
      [EncInt(info.version), subject, issuer, signature, EncInt(info.serial),
       EncPeriod(info.notBefore, info.notAfter), attributes]
      + EncBitsField(info.issuerUid)))
  }

  predicate InfoVersionPresent(items: seq<Item>)
    requires items != []
  {
    items[0].Tag() == INTEGER_TAG && items[0].Class() == Universal
  }

  /** The six mandatory fields from pos on; nothing has checked that there are that many. */
  function DecInfoFields(items: seq<Item>, pos: nat, version: TInt): (r: Outcome<InfoValue>)
    ensures r.Ok? ==> (r.value.baseCertificateId.Some? <==> r.value.subjectName.None?)
  {
    var subjectItem :- At(items, pos);
    var subject :- DecSubject(subjectItem);
    var issuerItem :- At(items, pos + 1);
    var issuer :- DecGeneralNames(issuerItem.Encoding());
    var signatureItem :- At(items, pos + 2);
    var signature :- DecAlgorithm(signatureItem.Encoding());
    var serialItem :- At(items, pos + 3);
    var serial :- DecInt(serialItem);
    var periodItem :- At(items, pos + 4);
    var period :- DecPeriod(periodItem.Encoding());
    var attributesItem :- At(items, pos + 5);
    var attributes :- DecAttributeSequence(attributesItem.Encoding());
    var uid :- DecBitsAt(items, pos + 6);
    Ok(InfoValue(version,
      if subject.BaseCertificate? then Some(subject.id) else None,
      if subject.SubjectName? then Some(subject.names) else None,
      issuer, signature, serial, period.notBefore, period.notAfter, attributes, uid))
  }

  function DecInfo(raw: bytes): (r: Outcome<InfoValue>)
  {
    var items :- DecodeBoundedSequence(raw, 6, 9);
    if InfoVersionPresent(items) then
      var version :- DecInt(items[0]);
      DecInfoFields(items, 1, version)
    else DecInfoFields(items, 0, INFO_DEFAULT_VERSION)
  }

  /** The five fields before the attributes can be read. */
  predicate AttributesReached(items: seq<Item>, pos: nat)
    requires pos + 5 <= |items|
  {
    && DecSubject(items[pos]).Ok?
    && DecGeneralNames(items[pos + 1].Encoding()).Ok?
    && DecAlgorithm(items[pos + 2].Encoding()).Ok?
    && DecInt(items[pos + 3]).Ok?
    && DecPeriod(items[pos + 4].Encoding()).Ok?
  }

  /** Attributes one of which has no values, with all before it decoded. */
  predicate AttributeSequenceEndsThread(raw: bytes) {
    DecodeSequence(raw).Ok? && AttributesEndThread(DecodeSequence(raw).value)
  }

  lemma AttributeSequencePanics(raw: bytes)
    ensures DecAttributeSequence(raw) == Panic <==> AttributeSequenceEndsThread(raw)
  {
    hide DecAttribute, DecodeSequence, AttributesEndThread;
    if DecodeSequence(raw).Ok? {
      AttributesPanicExact(DecodeSequence(raw).value);
    }
  }

  /** The cursor gets to the attributes, and there are none, or one of them has no values. */
  predicate FieldsEndThread(items: seq<Item>, pos: nat)
    requires pos + 5 <= |items|
  {
    && AttributesReached(items, pos)
    && (|items| == pos + 5 || AttributeSequenceEndsThread(items[pos + 5].Encoding()))
  }

  lemma InfoCursor(items: seq<Item>, pos: nat, version: TInt)
    requires pos + 5 <= |items|
    ensures DecInfoFields(items, pos, version) == Panic <==> FieldsEndThread(items, pos)
  {
    hide DecSubject, DecGeneralNames, DecAlgorithm, DecInt, DecPeriod, DecAttributeSequence, DecBitsAt, Tlv,
      AttributeSequenceEndsThread;
    if pos + 5 < |items| {
      AttributeSequencePanics(items[pos + 5].Encoding());
    }
  }

  predicate InfoEndsThread(raw: bytes) {
    && DecodeBoundedSequence(raw, 6, 9).Ok?
    && var items := DecodeBoundedSequence(raw, 6, 9).value;
      if InfoVersionPresent(items) then DecInt(items[0]).Ok? && FieldsEndThread(items, 1)
      else FieldsEndThread(items, 0)
  }

  /** The lower bound on the number of items does not allow for the optional version: six
      items that start with one end the thread where the last five of them can be read. */
  lemma InfoPanicExact(raw: bytes)
    ensures DecInfo(raw) == Panic <==> InfoEndsThread(raw)
  {
    hide DecInfoFields, DecodeBoundedSequence, DecInt, FieldsEndThread, InfoVersionPresent, Tlv;
    if DecodeBoundedSequence(raw, 6, 9).Ok? {
      var items := DecodeBoundedSequence(raw, 6, 9).value;
      if InfoVersionPresent(items) {
        if DecInt(items[0]).Ok? {
          InfoCursor(items, 1, DecInt(items[0]).value);
        }
      } else {
        InfoCursor(items, 0, INFO_DEFAULT_VERSION);
      }
    }
  }

  function NormInfo(info: InfoValue): InfoValue {
    info.(
      baseCertificateId := match info.baseCertificateId case Some(id) => Some(NormIssuerSerial(id)) case None => None,
      subjectName := match info.subjectName case Some(names) => Some(MapAll(names, NormGeneralName)) case None => None,
      issuer := MapAll(info.issuer, NormGeneralName),
      signature := NormAlgorithm(info.signature),
      attributes := MapAll(info.attributes, NormAttribute))
  }

  /** One subject alternative, no empty name list, no empty bit string, no attribute
      without values. */
  predicate InfoReadable(info: InfoValue) {
    && (info.baseCertificateId.Some? <==> info.subjectName.None?)
    && (info.baseCertificateId.Some? ==> IssuerSerialReadable(info.baseCertificateId.value))
    && info.subjectName != Some([])
    && info.issuer != []
    && ValuesPresent(info.attributes)
    && info.issuerUid != Some([])
  }

  /** The stored alternative; the base certificate comes first. */
  function NormSubject(info: InfoValue): Subject
    requires info.baseCertificateId.Some? || info.subjectName.Some?
  {
    if info.baseCertificateId.Some? then BaseCertificate(NormIssuerSerial(info.baseCertificateId.value))
    else SubjectName(MapAll(info.subjectName.value, NormGeneralName))
  }

  lemma SubjectRoundTrip(info: InfoValue)
    requires EncSubject(info).Ok? && Fits(EncSubject(info).value)
    ensures DecSubject(ItemOf(EncSubject(info).value)) == Ok(NormSubject(info)) <==>
      if info.baseCertificateId.Some? then IssuerSerialReadable(info.baseCertificateId.value)
        else info.subjectName != Some([])
  {
    hide EncIssuerSerial, DecIssuerSerial, EncGeneralNames, DecGeneralNames, NormIssuerSerial, NormGeneralName;
    if info.baseCertificateId.Some? {
      IssuerSerialRoundTrip(info.baseCertificateId.value);
    } else {
      GeneralNamesRoundTrip(info.subjectName.value);
    }
  }

  lemma InfoRoundTrip(info: InfoValue)
    requires EncInfo(info).Ok? && Fits(EncInfo(info).value)
    ensures DecInfo(Der(EncInfo(info).value)) == Ok(NormInfo(info)) <==> InfoReadable(info)
  {
    hide EncSubject, DecSubject, EncGeneralNames, DecGeneralNames, EncAlgorithm, DecAlgorithm, NormAlgorithm,
      EncPeriod, DecPeriod, EncAttributeSequence, DecAttributeSequence, EncInt, DecInt, Tlv, NormAttribute,
      NormGeneralName, NormIssuerSerial;
    hide DecInfoFields, NormInfo, EncBitsField, DecBitsAt, MapAll, ValuesPresent, IssuerSerialReadable, NormSubject;
    var t := EncInfo(info).value;
    var kids, items := t.kids, ItemsOf(t.kids);
    DecodeNode(t);
    assert forall i :: 0 <= i < 7 ==>
      Fits(kids[i]) && items[i] == ItemOf(kids[i]) && items[i].Encoding() == Der(kids[i]);
    assert kids[0] == EncInt(info.version) && kids[1] == EncSubject(info).value
      && kids[2] == EncGeneralNames(info.issuer).value;
    assert kids[3] == EncAlgorithm(info.signature).value && kids[4] == EncInt(info.serial);
    assert kids[5] == EncPeriod(info.notBefore, info.notAfter)
      && kids[6] == EncAttributeSequence(info.attributes).value;
    IntIdentifier(info.version);
    IntRoundTrip(info.version);
    SubjectRoundTrip(info);
    GeneralNamesRoundTrip(info.issuer);
    AlgorithmRoundTrip(info.signature);
    IntRoundTrip(info.serial);
    PeriodRoundTrip(info.notBefore, info.notAfter);
    AttributeSequenceRoundTrip(info.attributes);
    UidFieldRoundTrip(info.issuerUid, kids, 7);
    InfoFieldsDecode(info, items);
  }

  /** What EncInfo writes, cut off before the attributes. */
  function TruncatedInfo(info: InfoValue): (t: Enc)
    requires EncInfo(info).Ok?
    ensures t.Node? && |t.kids| == 6
  {
    Node(SEQUENCE_ID, EncInfo(info).value.kids[..6])
  }

  /** Every readable info that is cut off in this way ends the thread. */
  lemma TruncatedInfoPanics(info: InfoValue)
    requires EncInfo(info).Ok? && Fits(TruncatedInfo(info)) && InfoReadable(info)
    ensures DecInfo(Der(TruncatedInfo(info))) == Panic
  {
    hide EncSubject, DecSubject, EncGeneralNames, DecGeneralNames, EncAlgorithm, DecAlgorithm, NormAlgorithm,
      EncPeriod, DecPeriod, EncAttributeSequence, DecAttributeSequence, EncInt, DecInt, Tlv, NormAttribute,
      NormGeneralName, NormIssuerSerial, DecInfo, EncBitsField, MapAll, ValuesPresent, NormSubject;
    var t := TruncatedInfo(info);
    var kids, items := t.kids, ItemsOf(t.kids);
    DecodeNode(t);
    assert forall i :: 0 <= i < 6 ==>
      Fits(kids[i]) && items[i] == ItemOf(kids[i]) && items[i].Encoding() == Der(kids[i]);
    assert kids[0] == EncInt(info.version) && kids[1] == EncSubject(info).value;
    assert kids[2] == EncGeneralNames(info.issuer).value && kids[3] == EncAlgorithm(info.signature).value;
    assert kids[4] == EncInt(info.serial) && kids[5] == EncPeriod(info.notBefore, info.notAfter);
    IntIdentifier(info.version);
    IntRoundTrip(info.version);
    SubjectRoundTrip(info);
    GeneralNamesRoundTrip(info.issuer);
    AlgorithmRoundTrip(info.signature);
    IntRoundTrip(info.serial);
    PeriodRoundTrip(info.notBefore, info.notAfter);
    InfoPanicExact(Der(t));
  }

  const SOME_NAMES: GeneralNamesValue := [GeneralNameValue(2, [0x05, 0x00])]
  const SOME_INFO := InfoValue(1, None, Some(SOME_NAMES), SOME_NAMES, AlgorithmId(SHA1, None, []), 1,
    Fields(2000, 1, 1, 0, 0, 0), Fields(2000, 1, 1, 0, 0, 0), [], None)

  lemma SomeNameFits()
    ensures EncListedName(SOME_NAMES[0]).Ok? && Fits(EncListedName(SOME_NAMES[0]).value)
    ensures |Contents(EncListedName(SOME_NAMES[0]).value)| <= 6
  {
    hide LengthOctets;
    var name := EncGeneralName(SOME_NAMES[0]).value;
    NodeFits(name, 0);
    WrapExact(name);
  }

  lemma SomeNamesFit()
    ensures EncGeneralNames(SOME_NAMES).Ok? && Fits(EncGeneralNames(SOME_NAMES).value)
    ensures |Contents(EncGeneralNames(SOME_NAMES).value)| <= 12
  {
    hide EncListedName, Tlv;
    SomeNameFits();
    assert SOME_NAMES[..0] == [];
    assert EncodeAll(SOME_NAMES, EncListedName).value == [EncListedName(SOME_NAMES[0]).value];
    NodeFits(EncGeneralNames(SOME_NAMES).value, 6);
  }

  lemma SomePartsFit()
    ensures EncAlgorithm(SOME_INFO.signature).Ok? && Fits(EncAlgorithm(SOME_INFO.signature).value)
    ensures |Contents(EncAlgorithm(SOME_INFO.signature).value)| <= 22
    ensures var period := EncPeriod(SOME_INFO.notBefore, SOME_INFO.notAfter); Fits(period) && |Contents(period)| <= 42
  {
    hide TimeString;
    NodeFits(EncAlgorithm(SOME_INFO.signature).value, 5);
    NodeFits(EncPeriod(SOME_INFO.notBefore, SOME_INFO.notAfter), 15);
  }

  lemma SomeTruncatedFits()
    ensures EncInfo(SOME_INFO).Ok? && Fits(TruncatedInfo(SOME_INFO))
  {
    hide Tlv, EncAlgorithm, EncPeriod, EncGeneralNames, ExplicitTag, Contents;
    SomeNamesFit();
    SomePartsFit();
    var names := EncGeneralNames(SOME_NAMES).value;
    assert EncAttributeSequence([]) == Ok(Node(SEQUENCE_ID, []));
    assert EncSubject(SOME_INFO) == Ok(ExplicitTag(names, SUBJECT_NAME_TAG));
    ExplicitFits(names, SUBJECT_NAME_TAG, 12);
    var kids := TruncatedInfo(SOME_INFO).kids;
    assert kids[0] == kids[4] == EncInt(1) && kids[1] == ExplicitTag(names, SUBJECT_NAME_TAG) && kids[2] == names;
    assert kids[3] == EncAlgorithm(SOME_INFO.signature).value
      && kids[5] == EncPeriod(SOME_INFO.notBefore, SOME_INFO.notAfter);
    LeafContents(EncInt(1));
    NodeFits(TruncatedInfo(SOME_INFO), 42);
  }

  /** One such input. */
  lemma InfoThatPanics()
    ensures EncInfo(SOME_INFO).Ok? && DecInfo(Der(TruncatedInfo(SOME_INFO))) == Panic
  {
    hide EncInfo, DecInfo, Tlv, Contents, TruncatedInfo;
    SomeTruncatedFits();
    TruncatedInfoPanics(SOME_INFO);
  }

  lemma UidFieldRoundTrip(uid: Option<bytes>, kids: seq<Enc>, pos: nat)
    requires pos + |EncBitsField(uid)| == |kids| && kids[pos..] == EncBitsField(uid)
    ensures DecBitsAt(ItemsOf(kids), pos) == Ok(uid) <==> uid != Some([])
  {
    if uid.Some? {
      assert kids[pos] == kids[pos..][0] == EncBits(uid.value);
    }
  }

  /** The cursor over the mandatory fields, given what each item decodes to. */
  lemma InfoFieldsDecode(info: InfoValue, items: seq<Item>)
    requires 7 <= |items|
    requires info.baseCertificateId.Some? || info.subjectName.Some?
    requires DecAlgorithm(items[3].Encoding()) == Ok(NormAlgorithm(info.signature))
    requires DecInt(items[4]) == Ok(info.serial)
    requires DecPeriod(items[5].Encoding()) == Ok(Period(info.notBefore, info.notAfter))
    ensures DecInfoFields(items, 1, info.version) == Ok(NormInfo(info)) <==>
      && (info.baseCertificateId.Some? <==> info.subjectName.None?)
      && DecSubject(items[1]) == Ok(NormSubject(info))
      && DecGeneralNames(items[2].Encoding()) == Ok(MapAll(info.issuer, NormGeneralName))
      && DecAttributeSequence(items[6].Encoding()) == Ok(MapAll(info.attributes, NormAttribute))
      && DecBitsAt(items, 7) == Ok(info.issuerUid)
  {
    hide DecSubject, DecGeneralNames, DecAlgorithm, NormAlgorithm, DecPeriod, DecAttributeSequence, DecInt, Tlv,
      NormAttribute, NormGeneralName, NormIssuerSerial, DecBitsAt;
  }

  lemma IntIdentifier(v: TInt)
    ensures ItemOf(EncInt(v)).Tag() == INTEGER_TAG && ItemOf(EncInt(v)).Class() == Universal
  {
  }

  // --------------------------------------------------------- the certificate

  datatype AttributeCertificateValue = AttributeCertificateValue(info: InfoValue, algorithm: AlgorithmId,
    encrypted: bytes)

  function EncAttributeCertificate(c: AttributeCertificateValue): (r: Outcome<Enc>)
    ensures r.Ok? ==> r.value.Node? && r.value.id == SEQUENCE_ID
  {
    var info :- EncInfo(c.info);
    EncSigned(info, c.algorithm, c.encrypted)
  }

  /** DecodeArrayL */
  function DecAttributeCertificateArray(items: seq<Item>): (r: Outcome<AttributeCertificateValue>)
  {
    var signed :- DecSignatureArray(items);
    var info :- DecInfo(signed.toBeSigned.Encoding());
    Ok(AttributeCertificateValue(info, signed.algorithm, signed.encrypted))
  }

  /** DecodeL */
  function DecAttributeCertificate(raw: bytes): (r: Outcome<AttributeCertificateValue>)
  {
    var items :- DecodeBoundedSequence(raw, 3, 3);
    DecAttributeCertificateArray(items)
  }

  /** DecodeImplicitTagL: no check on the number of items. */
  function DecImplicitAttributeCertificate(raw: bytes, tag: nat): (r: Outcome<AttributeCertificateValue>)
  {
    var item :- Head(raw);
    if item.Tag() != tag then Leave(KErrArgument)
    else
      var items :- Children(item);
      DecAttributeCertificateArray(items)
  }

  /** The items that DecodeImplicitTagL passes on unchecked. */
  function ImplicitItems(raw: bytes, tag: nat): (r: Outcome<seq<Item>>)
    ensures r != Panic
  {
    var item :- Head(raw);
    if item.Tag() != tag then Leave(KErrArgument) else Children(item)
  }

  predicate AttributeCertificateEndsThread(raw: bytes) {
    DecSignature(raw).Ok? && InfoEndsThread(DecSignature(raw).value.toBeSigned.Encoding())
  }

  predicate ImplicitCertificateEndsThread(raw: bytes, tag: nat) {
    && ImplicitItems(raw, tag).Ok?
    && var items := ImplicitItems(raw, tag).value;
      || |items| < 2
      || (|items| == 2 && DecAlgorithm(items[1].Encoding()).Ok?)
      || (DecSignatureArray(items).Ok? && InfoEndsThread(items[0].Encoding()))
  }

  /** Under its own tag only the info can end the thread, under an IMPLICIT one also fewer
      than three items: none, one, or two the second of which is a known algorithm. */
  lemma AttributeCertificatePanicExact(raw: bytes, tag: nat)
    ensures DecAttributeCertificate(raw) == Panic <==> AttributeCertificateEndsThread(raw)
    ensures DecImplicitAttributeCertificate(raw, tag) == Panic <==> ImplicitCertificateEndsThread(raw, tag)
  {
    hide DecInfo, InfoEndsThread, DecAlgorithm, DecodeBoundedSequence, Head, Children, DecBits, Tlv;
    if DecSignature(raw).Ok? {
      InfoPanicExact(DecSignature(raw).value.toBeSigned.Encoding());
    }
    if ImplicitItems(raw, tag).Ok? {
      var items := ImplicitItems(raw, tag).value;
      SignatureArrayPanics(items);
      if DecSignatureArray(items).Ok? {
        InfoPanicExact(items[0].Encoding());
      }
    }
  }

  /** An implicitly tagged certificate with no items at all ends the thread. */
  lemma EmptyImplicitCertificatePanics()
    ensures DecImplicitAttributeCertificate(Der(Node(0xA1, [])), 1) == Panic
  {
    DecodeNode(Node(0xA1, []));
  }

  function NormAttributeCertificate(c: AttributeCertificateValue): AttributeCertificateValue {
    AttributeCertificateValue(NormInfo(c.info), NormAlgorithm(c.algorithm), c.encrypted)
  }

  predicate AttributeCertificateReadable(c: AttributeCertificateValue) {
    InfoReadable(c.info) && c.encrypted != []
  }

  /** Read back both under its own tag and under any IMPLICIT one. */
  lemma AttributeCertificateRoundTrip(c: AttributeCertificateValue, tag: ContextTag)
    requires EncAttributeCertificate(c).Ok? && Fits(EncAttributeCertificate(c).value)
    ensures DecAttributeCertificate(Der(EncAttributeCertificate(c).value)) == Ok(NormAttributeCertificate(c))
      <==> AttributeCertificateReadable(c)
    ensures DecImplicitAttributeCertificate(Der(ImplicitTag(EncAttributeCertificate(c).value, tag)), tag)
      == Ok(NormAttributeCertificate(c))
      <==> AttributeCertificateReadable(c)
  {
    hide EncInfo, DecInfo, NormInfo, NormAlgorithm, EncSigned, DecSignatureArray, Tlv;
    var t := EncAttributeCertificate(c).value;
    var info := EncInfo(c.info).value;
    SignedRoundTrip(info, c.algorithm, c.encrypted);
    InfoRoundTrip(c.info);
    DecodeNode(t);
    DecodeNode(ImplicitTag(t, tag));
    assert |t.kids| == 3 by {
      SignedSize(info, c.algorithm, c.encrypted);
    }
    assert Item(ItemOf(info).id, ItemOf(info).contents).Encoding() == Der(info);
  }

  lemma SignedSize(toBeSigned: Enc, algorithm: AlgorithmId, encrypted: bytes)
    requires EncSigned(toBeSigned, algorithm, encrypted).Ok?
    ensures |EncSigned(toBeSigned, algorithm, encrypted).value.kids| == 3
  {
  }

  // ------------------------------------------------------------------- copies

  /** What SetInfoL stores: the constructors it uses leave on an empty list of names, and
      there has to be a subject. A subject name beside a base certificate is not copied. */
  function CopyInfo(info: InfoValue): (r: Outcome<InfoValue>) {
    if info.baseCertificateId.Some? then
      if info.baseCertificateId.value.issuer == [] || info.issuer == [] then Leave(KErrArgument)
      else Ok(info.(subjectName := None))
    else if info.subjectName.None? then Panic
    else if info.subjectName.value == [] || info.issuer == [] then Leave(KErrArgument)
    else Ok(info)
  }

  function CopyAttributeCertificate(c: AttributeCertificateValue): (r: Outcome<AttributeCertificateValue>) {
    var info :- CopyInfo(c.info);
    Ok(c.(info := info))
  }

  /** A copy is equal exactly when there is one subject and no list of names is empty; so
      whatever has been decoded or can be read back is copied exactly. */
  lemma CopyAttributeCertificateExact(c: AttributeCertificateValue)
    ensures CopyAttributeCertificate(c) == Ok(c) <==>
      && (c.info.baseCertificateId.Some? <==> c.info.subjectName.None?)
      && (c.info.baseCertificateId.Some? ==> c.info.baseCertificateId.value.issuer != [])
      && c.info.subjectName != Some([]) && c.info.issuer != []
    ensures InfoReadable(c.info) ==> CopyAttributeCertificate(c) == Ok(c)
  {
    hide ValuesPresent;
  }

  // ------------------------------------------------------------------ objects

  const NO_TIME: Time := Fields(0, 1, 1, 0, 0, 0)

  /** New data, before the setters of ConstructL have run. */
  const NEW_DATA := InfoValue(INFO_DEFAULT_VERSION, None, None, [], AlgorithmId(RSA, None, []), 0, NO_TIME, NO_TIME,
    [], None)

  class AttributeCertificateInfo {
    var iData: InfoValue

    ghost predicate ChoiceHolds()
      reads this
    {
      iData.baseCertificateId.Some? <==> iData.subjectName.None?
    }

    constructor ()
      ensures iData == NEW_DATA
    {
      iData := NEW_DATA;
    }

    /** ConstructL with a base certificate: the setters one after the other. */
    method ConstructFromBaseCertificateL(id: IssuerSerialValue, issuer: GeneralNamesValue, signature: AlgorithmId,
      serial: TInt, notBefore: Time, notAfter: Time, attributes: seq<AttributeValue>) returns (r: Outcome<()>)
      modifies this
      ensures r == if id.issuer == [] || issuer == [] then Leave(KErrArgument) else Ok(())
      ensures r.Ok? ==> ChoiceHolds()
      ensures r.Ok? ==>
        iData == InfoValue(INFO_DEFAULT_VERSION, Some(id), None, issuer, signature, serial, notBefore, notAfter,
          attributes, None)
    {
      iData := NEW_DATA;
      var first :- SetBaseCertificateIDL(id);
      var second :- SetIssuerL(issuer);
      SetSignatureL(signature);
      SetSerialNumber(serial);
      SetNotBeforeTimeL(notBefore);
      SetNotAfterTimeL(notAfter);
      SetAttributesL(attributes);
      r := Ok(());
    }

    /** ConstructL with a subject name. */
    method ConstructFromSubjectNameL(names: GeneralNamesValue, issuer: GeneralNamesValue, signature: AlgorithmId,
      serial: TInt, notBefore: Time, notAfter: Time, attributes: seq<AttributeValue>) returns (r: Outcome<()>)
      modifies this
      ensures r == if names == [] || issuer == [] then Leave(KErrArgument) else Ok(())
      ensures r.Ok? ==> ChoiceHolds()
      ensures r.Ok? ==>
        iData == InfoValue(INFO_DEFAULT_VERSION, None, Some(names), issuer, signature, serial, notBefore, notAfter,
          attributes, None)
    {
      iData := NEW_DATA;
      var first :- SetSubjectNameL(names);
      var second :- SetIssuerL(issuer);
      SetSignatureL(signature);
      SetSerialNumber(serial);
      SetNotBeforeTimeL(notBefore);
      SetNotAfterTimeL(notAfter);
      SetAttributesL(attributes);
      r := Ok(());
    }

    /** Everything is decoded into new data; a failure leaves the object as it was. */
    method DecodeL(raw: bytes) returns (r: Outcome<()>)
      modifies this
      ensures r == Status(DecInfo(raw))
      ensures iData == if r.Ok? then DecInfo(raw).value else old(iData)
      ensures r.Ok? ==> ChoiceHolds()
    {
      hide DecInfoFields, DecodeBoundedSequence, DecInt;
      var itemList :- DecodeBoundedSequence(raw, 6, 9);
      var sequenceCounter := 0;
      var version := INFO_DEFAULT_VERSION;
      if InfoVersionPresent(itemList) {
        version :- DecInt(itemList[0]);
        sequenceCounter := 1;
      }
      var data :- DecInfoFields(itemList, sequenceCounter, version);
      iData := data;
      r := Ok(());
    }

    /** The copy of the issuer's names leaves when there are none; nothing is then changed. */
    method SetBaseCertificateIDL(id: IssuerSerialValue) returns (r: Outcome<()>)
      modifies this
      ensures r == if id.issuer == [] then Leave(KErrArgument) else Ok(())
      ensures iData == if r.Ok? then old(iData).(baseCertificateId := Some(id), subjectName := None) else old(iData)
      ensures r.Ok? ==> ChoiceHolds()
    {
      var names := new GeneralNames();
      var copied :- names.SetGeneralNamesL(id.issuer);
      var copy := IssuerSerialValue(names.iGeneralNames, id.serial, None);
      if id.issuerUid.Some? {
        copy := copy.(issuerUid := Some(id.issuerUid.value));
      }
      iData := iData.(baseCertificateId := Some(copy));
      iData := iData.(subjectName := None);
      r := Ok(());
    }

    method SetSubjectNameL(names: GeneralNamesValue) returns (r: Outcome<()>)
      modifies this
      ensures r == if names == [] then Leave(KErrArgument) else Ok(())
      ensures iData == if r.Ok? then old(iData).(subjectName := Some(names), baseCertificateId := None) else old(iData)
      ensures r.Ok? ==> ChoiceHolds()
    {
      var copy := new GeneralNames();
      var copied :- copy.SetGeneralNamesL(names);
      iData := iData.(subjectName := Some(copy.iGeneralNames));
      iData := iData.(baseCertificateId := None);
      r := Ok(());
    }

    method SetIssuerL(issuer: GeneralNamesValue) returns (r: Outcome<()>)
      modifies this
      ensures r == if issuer == [] then Leave(KErrArgument) else Ok(())
      ensures iData == if r.Ok? then old(iData).(issuer := issuer) else old(iData)
    {
      var copy := new GeneralNames();
      var copied :- copy.SetGeneralNamesL(issuer);
      iData := iData.(issuer := copy.iGeneralNames);
      r := Ok(());
    }

    method SetSignatureL(signature: AlgorithmId)
      modifies this
      ensures iData == old(iData).(signature := signature)
    {
      iData := iData.(signature := signature);
    }

    method SetSerialNumber(serial: TInt)
      modifies this
      ensures iData == old(iData).(serial := serial)
    {
      iData := iData.(serial := serial);
    }

    method SetNotBeforeTimeL(notBefore: Time)
      modifies this
      ensures iData == old(iData).(notBefore := notBefore)
    {
      iData := iData.(notBefore := notBefore);
    }

    method SetNotAfterTimeL(notAfter: Time)
      modifies this
      ensures iData == old(iData).(notAfter := notAfter)
    {
      iData := iData.(notAfter := notAfter);
    }

    /** The deep copy: equal attributes in the same order, none included. */
    method SetAttributesL(attributes: seq<AttributeValue>)
      modifies this
      ensures iData == old(iData).(attributes := attributes)
    {
      var copies: seq<AttributeValue> := [];
      for i := 0 to |attributes|
        invariant iData == old(iData)
        invariant copies == attributes[..i]
      {
        copies := copies + [AttributeValue(attributes[i].oid, attributes[i].values)];
      }
      iData := iData.(attributes := copies);
    }

    method SetVersion(version: TInt)
      modifies this
      ensures iData == old(iData).(version := version)
    {
      iData := iData.(version := version);
    }

    method SetIssuerUniqueIDL(uid: bytes)
      modifies this
      ensures iData == old(iData).(issuerUid := Some(uid))
    {
      iData := iData.(issuerUid := Some(uid));
    }
  }

  class AttributeCertificate {
    var iInfo: InfoValue
    var iAlgorithmIdentifier: AlgorithmId
    var iEncrypted: bytes

    function Value(): AttributeCertificateValue
      reads this
    {
      AttributeCertificateValue(iInfo, iAlgorithmIdentifier, iEncrypted)
    }

    constructor ()
      ensures Value() == AttributeCertificateValue(NEW_DATA, AlgorithmId(RSA, None, []), [])
    {
      iInfo, iAlgorithmIdentifier, iEncrypted := NEW_DATA, AlgorithmId(RSA, None, []), [];
    }

    /** ConstructL: signature algorithm and encrypted part first, then the info. */
    method ConstructL(info: InfoValue, algorithm: AlgorithmId, encrypted: bytes) returns (r: Outcome<()>)
      modifies this
      ensures r == Status(CopyInfo(info))
      ensures r.Ok? ==> Value() == AttributeCertificateValue(CopyInfo(info).value, algorithm, encrypted)
    {
      iAlgorithmIdentifier, iEncrypted := algorithm, encrypted;
      r := SetInfoL(info);
    }

    /** The copy is built through the setters of a new info object. */
    method SetInfoL(info: InfoValue) returns (r: Outcome<()>)
      modifies this
      ensures r == Status(CopyInfo(info))
      ensures iInfo == if r.Ok? then CopyInfo(info).value else old(iInfo)
      ensures iAlgorithmIdentifier == old(iAlgorithmIdentifier) && iEncrypted == old(iEncrypted)
    {
      var copy := new AttributeCertificateInfo();
      if info.baseCertificateId.Some? {
        var built :- copy.ConstructFromBaseCertificateL(info.baseCertificateId.value, info.issuer, info.signature,
          info.serial, info.notBefore, info.notAfter, info.attributes);
      } else {
        if info.subjectName.None? {
          return Panic;
        }
        var built :- copy.ConstructFromSubjectNameL(info.subjectName.value, info.issuer, info.signature,
          info.serial, info.notBefore, info.notAfter, info.attributes);
      }
      copy.SetVersion(info.version);
      if info.issuerUid.Some? {
        copy.SetIssuerUniqueIDL(info.issuerUid.value);
      }
      iInfo := copy.iData;
      r := Ok(());
    }
  }
}
