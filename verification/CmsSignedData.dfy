/** CCMSSignedData: the signed-data content type (section 5.1 of RFC 2630). */
module CmsSignedData {
  import opened Outcomes
  import opened DerCodec
  import opened Asn1
  import opened AlgorithmIdentifier
  import opened CmsEncapsulatedContentInfo
  import opened CmsCertificateChoices
  import opened CmsCertificateList
  import opened CmsSignerInfo

  datatype SignedDataValue = SignedDataValue(
    version: TInt,
    digestAlgorithms: seq<AlgorithmId>,
    contentInfo: ContentInfo,
    certificates: Option<seq<ChoiceValue>>,
    crls: Option<seq<CrlValue>>,
    signerInfos: seq<SignerInfoValue>)

  const CERTIFICATES_TAG: nat := 0
  const CRLS_TAG: nat := 1
  const CERTIFICATES_ID: byte := 0xA0
  const CRLS_ID: byte := 0xA1
  const MAX_ITEMS: nat := 0x7FFF_FFFF

  // ----------------------------------------------------------------- encoding

  /** Nothing is written for an absent list, nor for an empty one. */
  function EncListField<T(==)>(list: Option<seq<T>>, id: byte, enc: T -> Outcome<Enc>): (r: Outcome<seq<Enc>>)
    ensures r.Ok? ==> |r.value| == if NormList(list).Some? then 1 else 0
  {
    match list
    case None => Ok([])
    case Some(vs) =>
      if vs == [] then Ok([])
      else
        var kids :- EncodeAll(vs, enc);
        Ok([Node(id, kids)])
  }

  /** A mandatory SET that must not be empty. */
  function EncSet<T(==)>(vs: seq<T>, enc: T -> Outcome<Enc>): (r: Outcome<Enc>)
  {
    if vs == [] then Leave(KErrArgument)
    else
      var kids :- EncodeAll(vs, enc);
      Ok(Node(SET_ID, kids))
  }

  function EncSignedData(v: SignedDataValue): (r: Outcome<Enc>)
    ensures r.Ok? ==> r.value.Node? && r.value.id == SEQUENCE_ID
  {
    var algorithms :- EncSet(v.digestAlgorithms, EncAlgorithm);
    var certificates :- EncListField(v.certificates, CERTIFICATES_ID, EncChoice);
    var crls :- EncListField(v.crls, CRLS_ID, EncCrl);
    var signers :- EncSet(v.signerInfos, EncSignerInfo);
    Ok(Node(SEQUENCE_ID,
      [EncInt(v.version), algorithms, EncContentInfo(v.contentInfo)] + certificates + crls + [signers]))
  }

  /** An empty list of certificates or of revocation lists is encoded as an absent one. */
  lemma EmptyEncodesAsAbsent(v: SignedDataValue)
    ensures EncSignedData(v) == EncSignedData(v.(certificates := NormList(v.certificates), crls := NormList(v.crls)))
  {
  }

  /** Section 5.1 of RFC 2630: version, SET of algorithms, content info, [0] certificates and
      [1] revocation lists where there are any, SET of signer infos. */
  lemma SignedDataLayout(v: SignedDataValue)
    requires EncSignedData(v).Ok?
    ensures var t := EncSignedData(v).value;
      t.id == 0x30
      && Ids(t.kids) == [0x02, 0x31, 0x30] + (if NormList(v.certificates).Some? then [0xA0] else [])
        + (if NormList(v.crls).Some? then [0xA1] else []) + [0x31]
  {
    hide EncAlgorithm, EncChoice, EncCrl, EncSignerInfo, EncodeAll, EncContentInfo;
    var certificates := EncListField(v.certificates, CERTIFICATES_ID, EncChoice).value;
    var crls := EncListField(v.crls, CRLS_ID, EncCrl).value;
    assert Ids(certificates) == if NormList(v.certificates).Some? then [0xA0] else [];
    assert Ids(crls) == if NormList(v.crls).Some? then [0xA1] else [];
  }

  // ----------------------------------------------------------------- decoding

  function DecListAt<T>(items: seq<Item>, pos: nat, tag: nat, dec: bytes -> Outcome<T>): (r: Outcome<Option<seq<T>>>)
  {
    if !TagAt(items, pos, tag) then Ok(None)
    else
      var list :- DecList(items[pos], dec);
      Ok(Some(list))
  }

  function DecDigestAlgorithms(raw: bytes): (r: Outcome<seq<AlgorithmId>>)
    ensures r != Panic
  {
    var items :- DecodeBoundedSequence(raw, 1, MAX_ITEMS);
    DecodeAllSafe(items, DecAlgorithm);
    DecodeAll(items, DecAlgorithm)
  }

  function DecSignerInfos(raw: bytes): (r: Outcome<seq<SignerInfoValue>>)
  {
    var items :- DecodeSequence(raw);
    DecodeAll(items, DecSignerInfo)
  }

  function DecSignedItems(items: seq<Item>): (r: Outcome<SignedDataValue>)
    requires 4 <= |items|
  {
    var version :- DecInt(items[0]);
    var algorithms :- DecDigestAlgorithms(items[1].Encoding());
    var contentInfo :- DecContentInfo(items[2].Encoding());
    var certificates :- DecListAt(items, 3, CERTIFICATES_TAG, DecChoice);
    var pos := 3 + if TagAt(items, 3, CERTIFICATES_TAG) then 1 else 0;
    var crls :- DecListAt(items, pos, CRLS_TAG, DecCrl);
    var pos := pos + if TagAt(items, pos, CRLS_TAG) then 1 else 0;
    if pos >= |items| then Leave(KErrArgument)
    else
      var signers :- DecSignerInfos(items[pos].Encoding());
      Ok(SignedDataValue(version, algorithms, contentInfo, certificates, crls, signers))
  }

  function DecSignedData(raw: bytes): (r: Outcome<SignedDataValue>)
  {
    var items :- DecodeBoundedSequence(raw, 4, 6);
    DecSignedItems(items)
  }

  // --------------------------------------------------------------- round trip

  function NormOptional<T(==)>(list: Option<seq<T>>, norm: T -> T): Option<seq<T>> {
    match NormList(list)
    case Some(vs) => Some(MapAll(vs, norm))
    case None => None
  }

  function NormSignedData(v: SignedDataValue): SignedDataValue {
    v.(digestAlgorithms := MapAll(v.digestAlgorithms, NormAlgorithm),
       certificates := NormOptional(v.certificates, NormChoice),
       crls := NormOptional(v.crls, NormCrl),
       signerInfos := MapAll(v.signerInfos, NormSignerInfo))
  }

  predicate AllReadable<T>(list: Option<seq<T>>, readable: T -> bool) {
    match list
    case Some(vs) => AllOf(vs, readable)
    case None => true
  }

  predicate CrlReadable(c: CrlValue) {
    c.signature != []
  }

  predicate SignedDataReadable(v: SignedDataValue) {
    && AllReadable(v.certificates, ChoiceReadable)
    && AllReadable(v.crls, CrlReadable)
    && AllOf(v.signerInfos, SignerInfoReadable)
  }

  lemma ListFieldRoundTrip<T>(list: Option<seq<T>>, id: byte, tag: nat, enc: T -> Outcome<Enc>,
    dec: bytes -> Outcome<T>, norm: T -> T, readable: T -> bool, items: seq<Item>, pos: nat)
    requires EncListField(list, id, enc).Ok? && id as nat % 0x20 == tag
    requires NormList(list).Some? ==> forall i :: 0 <= i < |list.value| ==>
      enc(list.value[i]).Ok? && (Fits(enc(list.value[i]).value) ==>
        (dec(Der(enc(list.value[i]).value)) == Ok(norm(list.value[i])) <==> readable(list.value[i])))
    requires var field := EncListField(list, id, enc).value;
      if field == [] then !TagAt(items, pos, tag)
      else pos < |items| && Fits(field[0]) && items[pos] == ItemOf(field[0])
    ensures DecListAt(items, pos, tag, dec) == Ok(NormOptional(list, norm)) <==> AllReadable(list, readable)
    ensures TagAt(items, pos, tag) <==> NormList(list).Some?
  {
    if NormList(list).Some? {
      TaggedListRoundTrip(list.value, id, enc, dec, norm, readable);
    }
  }

  lemma ListKidsOk<T>(list: Option<seq<T>>, id: byte, enc: T -> Outcome<Enc>)
    requires EncListField(list, id, enc).Ok? && NormList(list).Some?
    ensures forall i :: 0 <= i < |list.value| ==> enc(list.value[i]).Ok?
  {
    EncodeAllKids(list.value, enc);
  }

  lemma CertificatesRoundTrip(list: Option<seq<ChoiceValue>>, items: seq<Item>, pos: nat)
    requires EncListField(list, CERTIFICATES_ID, EncChoice).Ok?
    requires var field := EncListField(list, CERTIFICATES_ID, EncChoice).value;
      if field == [] then !TagAt(items, pos, CERTIFICATES_TAG)
      else pos < |items| && Fits(field[0]) && items[pos] == ItemOf(field[0])
    ensures DecListAt(items, pos, CERTIFICATES_TAG, DecChoice) == Ok(NormOptional(list, NormChoice))
      <==> AllReadable(list, ChoiceReadable)
    ensures TagAt(items, pos, CERTIFICATES_TAG) <==> NormList(list).Some?
  {
    hide EncChoice, DecChoice, NormChoice, ChoiceReadable, DecListAt;
    if NormList(list).Some? {
      ListKidsOk(list, CERTIFICATES_ID, EncChoice);
      forall i | 0 <= i < |list.value| && Fits(EncChoice(list.value[i]).value)
        ensures DecChoice(Der(EncChoice(list.value[i]).value)) == Ok(NormChoice(list.value[i]))
          <==> ChoiceReadable(list.value[i])
      {
        ChoiceRoundTrip(list.value[i]);
      }
    }
    ListFieldRoundTrip(list, CERTIFICATES_ID, CERTIFICATES_TAG, EncChoice, DecChoice, NormChoice, ChoiceReadable, items,
      pos);
  }

  lemma CrlsRoundTrip(list: Option<seq<CrlValue>>, items: seq<Item>, pos: nat)
    requires EncListField(list, CRLS_ID, EncCrl).Ok?
    requires var field := EncListField(list, CRLS_ID, EncCrl).value;
      if field == [] then !TagAt(items, pos, CRLS_TAG)
      else pos < |items| && Fits(field[0]) && items[pos] == ItemOf(field[0])
    ensures DecListAt(items, pos, CRLS_TAG, DecCrl) == Ok(NormOptional(list, NormCrl))
      <==> AllReadable(list, CrlReadable)
    ensures TagAt(items, pos, CRLS_TAG) <==> NormList(list).Some?
  {
    hide EncCrl, DecCrl, NormCrl, DecListAt;
    if NormList(list).Some? {
      ListKidsOk(list, CRLS_ID, EncCrl);
      forall i | 0 <= i < |list.value| && Fits(EncCrl(list.value[i]).value)
        ensures DecCrl(Der(EncCrl(list.value[i]).value)) == Ok(NormCrl(list.value[i])) <==> CrlReadable(list.value[i])
      {
        CrlRoundTrip(list.value[i]);
      }
    }
    ListFieldRoundTrip(list, CRLS_ID, CRLS_TAG, EncCrl, DecCrl, NormCrl, CrlReadable, items, pos);
  }

  lemma DigestAlgorithmsRoundTrip(algorithms: seq<AlgorithmId>)
    requires EncSet(algorithms, EncAlgorithm).Ok? && Fits(EncSet(algorithms, EncAlgorithm).value)
    ensures DecDigestAlgorithms(Der(EncSet(algorithms, EncAlgorithm).value)) == Ok(MapAll(algorithms, NormAlgorithm))
  {
    hide EncAlgorithm, DecAlgorithm, NormAlgorithm;
    var t := EncSet(algorithms, EncAlgorithm).value;
    EncodeAllKids(algorithms, EncAlgorithm);
    forall i | 0 <= i < |algorithms| && Fits(EncAlgorithm(algorithms[i]).value)
      ensures DecAlgorithm(Der(EncAlgorithm(algorithms[i]).value)) == Ok(NormAlgorithm(algorithms[i]))
    {
      AlgorithmRoundTrip(algorithms[i]);
    }
    TaggedListRoundTrip(algorithms, SET_ID, EncAlgorithm, DecAlgorithm, NormAlgorithm, Always);
    DecodeNode(t);
    KidCount(t.kids);
  }

  lemma SignerInfosRoundTrip(signers: seq<SignerInfoValue>)
    requires EncSet(signers, EncSignerInfo).Ok? && Fits(EncSet(signers, EncSignerInfo).value)
    ensures DecSignerInfos(Der(EncSet(signers, EncSignerInfo).value)) == Ok(MapAll(signers, NormSignerInfo))
      <==> AllOf(signers, SignerInfoReadable)
  {
    hide EncSignerInfo, DecSignerInfo, NormSignerInfo, SignerInfoReadable;
    var t := EncSet(signers, EncSignerInfo).value;
    EncodeAllKids(signers, EncSignerInfo);
    forall i | 0 <= i < |signers| && Fits(EncSignerInfo(signers[i]).value)
      ensures DecSignerInfo(Der(EncSignerInfo(signers[i]).value)) == Ok(NormSignerInfo(signers[i]))
        <==> SignerInfoReadable(signers[i])
    {
      SignerInfoRoundTrip(signers[i]);
    }
    TaggedListRoundTrip(signers, SET_ID, EncSignerInfo, DecSignerInfo, NormSignerInfo, SignerInfoReadable);
    DecodeNode(t);
  }

  /** Whatever can be encoded, with any combination of the optional lists, is read back
      equal at every nesting level, up to the written form of opaque values, exactly when
      the parts the decoder is stricter about are present. */
  lemma SignedDataRoundTrip(v: SignedDataValue)
    requires EncSignedData(v).Ok? && Fits(EncSignedData(v).value)
    ensures DecSignedData(Der(EncSignedData(v).value)) == Ok(NormSignedData(v)) <==> SignedDataReadable(v)
  {
    hide EncSet, EncListField, DecListAt, DecDigestAlgorithms, DecSignerInfos, EncContentInfo, DecContentInfo,
      EncInt, DecInt, Tlv, NormAlgorithm, NormChoice, NormCrl, NormSignerInfo, NormOptional, AllReadable,
      DecSignedItems, EncAlgorithm, EncChoice, EncCrl, EncSignerInfo, NormSignedData;
    var t := EncSignedData(v).value;
    var kids, items := t.kids, ItemsOf(t.kids);
    var certificates := EncListField(v.certificates, CERTIFICATES_ID, EncChoice).value;
    var crls := EncListField(v.crls, CRLS_ID, EncCrl).value;
    var pos, last := 3 + |certificates|, |kids| - 1;
    DecodeNode(t);
    assert forall i :: 0 <= i < |kids| ==>
      Fits(kids[i]) && items[i] == ItemOf(kids[i]) && items[i].Encoding() == Der(kids[i]);
    assert kids[0] == EncInt(v.version) && kids[1] == EncSet(v.digestAlgorithms, EncAlgorithm).value
      && kids[2] == EncContentInfo(v.contentInfo);
    assert kids[last] == EncSet(v.signerInfos, EncSignerInfo).value && last == pos + |crls|;
    assert certificates != [] ==> kids[3] == certificates[0];
    assert crls != [] ==> kids[pos] == crls[0];
    FieldTags(v);
    IntRoundTrip(v.version);
    DigestAlgorithmsRoundTrip(v.digestAlgorithms);
    ContentInfoRoundTrip(v.contentInfo);
    CertificatesRoundTrip(v.certificates, items, 3);
    CrlsRoundTrip(v.crls, items, pos);
    SignerInfosRoundTrip(v.signerInfos);
    SignedItemsDecode(v, items, pos);
  }

  /** The tags that tell the optional fields and the signer infos apart. */
  lemma FieldTags(v: SignedDataValue)
    requires EncSignedData(v).Ok?
    ensures ItemOf(EncSet(v.signerInfos, EncSignerInfo).value).Tag() == SET_TAG
    ensures var crls := EncListField(v.crls, CRLS_ID, EncCrl).value;
      crls != [] ==> ItemOf(crls[0]).Tag() == CRLS_TAG
    ensures |EncSignedData(v).value.kids| <= 6
  {
    hide EncSignerInfo, EncCrl, EncChoice, EncAlgorithm, EncContentInfo, EncInt;
  }

  lemma SignedItemsDecode(v: SignedDataValue, items: seq<Item>, pos: nat)
    requires 4 <= |items| <= 6
    requires DecInt(items[0]) == Ok(v.version)
    requires DecDigestAlgorithms(items[1].Encoding()) == Ok(MapAll(v.digestAlgorithms, NormAlgorithm))
    requires DecContentInfo(items[2].Encoding()) == Ok(v.contentInfo)
    requires pos == 3 + if TagAt(items, 3, CERTIFICATES_TAG) then 1 else 0
    requires |items| - 1 == pos + if TagAt(items, pos, CRLS_TAG) then 1 else 0
    ensures DecSignedItems(items) == Ok(NormSignedData(v)) <==>
      && DecListAt(items, 3, CERTIFICATES_TAG, DecChoice) == Ok(NormOptional(v.certificates, NormChoice))
      && DecListAt(items, pos, CRLS_TAG, DecCrl) == Ok(NormOptional(v.crls, NormCrl))
      && DecSignerInfos(items[|items| - 1].Encoding()) == Ok(MapAll(v.signerInfos, NormSignerInfo))
  {
    hide DecInt, DecDigestAlgorithms, DecContentInfo, DecListAt, DecSignerInfos, Tlv, NormOptional;
  }

  // ------------------------------------------------------------------- copies

  /** SetSignerInfosL copies each element by encoding it and decoding the encoding. */
  function CopySigner(s: SignerInfoValue): (r: Outcome<SignerInfoValue>)
  {
    var t :- EncSignerInfo(s);
    var encoding :- Encoded(t);
    DecSignerInfo(encoding)
  }

  /** SetRevokedCertificatesL does the same. */
  function CopyCrl(c: CrlValue): (r: Outcome<CrlValue>)
  {
    var t :- EncCrl(c);
    var encoding :- Encoded(t);
    DecCrl(encoding)
  }

  lemma SignerCopy(s: SignerInfoValue)
    requires SignerInfoReadable(s) && EncSignerInfo(s).Ok? && Fits(EncSignerInfo(s).value)
    ensures CopySigner(s) == Ok(NormSignerInfo(s))
  {
    hide EncSignerInfo, DecSignerInfo, NormSignerInfo, Fits;
    SignerInfoRoundTrip(s);
  }

  lemma CrlCopy(c: CrlValue)
    requires CrlReadable(c) && EncCrl(c).Ok? && Fits(EncCrl(c).value)
    ensures CopyCrl(c) == Ok(NormCrl(c))
  {
    hide EncCrl, DecCrl, NormCrl, Fits;
    CrlRoundTrip(c);
  }

  /** The copy of a list is the list itself, element by element in its written form, and
      equal to it where the elements already have that form. */
  lemma SignerCopies(signers: seq<SignerInfoValue>)
    requires forall i :: 0 <= i < |signers| ==>
      SignerInfoReadable(signers[i]) && EncSignerInfo(signers[i]).Ok? && Fits(EncSignerInfo(signers[i]).value)
    ensures CopyAll(signers, CopySigner) == Ok(MapAll(signers, NormSignerInfo))
    ensures (forall i :: 0 <= i < |signers| ==> NormSignerInfo(signers[i]) == signers[i]) ==>
      CopyAll(signers, CopySigner) == Ok(signers)
  {
    hide SignerInfoReadable, EncSignerInfo, CopySigner, NormSignerInfo, Fits;
    forall i | 0 <= i < |signers| ensures CopySigner(signers[i]) == Ok(NormSignerInfo(signers[i])) {
      SignerCopy(signers[i]);
    }
    CopiesAreNormal(signers, CopySigner, NormSignerInfo);
  }

  lemma CrlCopies(crls: seq<CrlValue>)
    requires forall i :: 0 <= i < |crls| ==> CrlReadable(crls[i]) && EncCrl(crls[i]).Ok? && Fits(EncCrl(crls[i]).value)
    ensures CopyAll(crls, CopyCrl) == Ok(MapAll(crls, NormCrl))
    ensures (forall i :: 0 <= i < |crls| ==> NormCrl(crls[i]) == crls[i]) ==> CopyAll(crls, CopyCrl) == Ok(crls)
  {
    hide CrlReadable, EncCrl, CopyCrl, NormCrl, Fits;
    forall i | 0 <= i < |crls| ensures CopyCrl(crls[i]) == Ok(NormCrl(crls[i])) {
      CrlCopy(crls[i]);
    }
    CopiesAreNormal(crls, CopyCrl, NormCrl);
  }

  // ------------------------------------------------------------- the version

  const KDEFAULT_VERSION: TInt := 1
  const KALTERNATIVE_VERSION: TInt := 3

  predicate SomeVersion3(signers: seq<SignerInfoValue>) {
    exists i :: 0 <= i < |signers| && signers[i].version == KALTERNATIVE_VERSION
  }

  predicate SomeAttributeCertificate(certificates: Option<seq<ChoiceValue>>) {
    certificates.Some? && exists i :: 0 <= i < |certificates.value| && certificates.value[i].Attribute?
  }

  /** Section 5.1 of RFC 2630. */
  function VersionFor(contentInfo: Option<ContentInfo>, signers: seq<SignerInfoValue>,
    certificates: Option<seq<ChoiceValue>>): TInt {
    if (contentInfo.Some? && contentInfo.value.contentType != ID_DATA) || SomeVersion3(signers)
      || SomeAttributeCertificate(certificates)
    then KALTERNATIVE_VERSION
    else KDEFAULT_VERSION
  }

  predicate VersionHolds(v: SignedDataValue) {
    v.version == VersionFor(Some(v.contentInfo), v.signerInfos, v.certificates)
  }

  datatype Setter =
    | SetDigestAlgorithms(algorithms: seq<AlgorithmId>)
    | SetContentInfo(contentInfo: ContentInfo)
    | SetSignerInfos(signers: seq<SignerInfoValue>)
    | SetCertificates(certificates: Option<seq<ChoiceValue>>)
    | SetCrls(crls: Option<seq<CrlValue>>)

  function CopyOptional<T>(list: Option<seq<T>>, copy: T -> Outcome<T>): (r: Outcome<Option<seq<T>>>) {
    match list
    case None => Ok(None)
    case Some(vs) =>
      var copies :- CopyAll(vs, copy);
      Ok(Some(copies))
  }

  /** One setter call on a complete object; a call that leaves changes nothing. */
  function AfterSetter(v: SignedDataValue, step: Setter): SignedDataValue {
    match step
    case SetDigestAlgorithms(algorithms) => v.(digestAlgorithms := algorithms)
    case SetContentInfo(contentInfo) =>
      v.(contentInfo := contentInfo, version := VersionFor(Some(contentInfo), v.signerInfos, v.certificates))
    case SetSignerInfos(signers) =>
      (match CopyAll(signers, CopySigner)
       case Ok(copies) => v.(signerInfos := copies, version := VersionFor(Some(v.contentInfo), copies, v.certificates))
       case _ => v)
    case SetCertificates(certificates) =>
      (match CopyOptional(certificates, CopyChoice)
       case Ok(copies) => v.(certificates := copies, version := VersionFor(Some(v.contentInfo), v.signerInfos, copies))
       case _ => v)
    case SetCrls(crls) =>
      (match CopyOptional(crls, CopyCrl)
       case Ok(copies) => v.(crls := copies)
       case _ => v)
  }

  function AfterSetters(v: SignedDataValue, steps: seq<Setter>): SignedDataValue {
    if steps == [] then v else AfterSetter(AfterSetters(v, steps[..|steps| - 1]), steps[|steps| - 1])
  }

  predicate Validates(step: Setter) {
    step.SetContentInfo? || (step.SetSignerInfos? && CopyAll(step.signers, CopySigner).Ok?)
    || (step.SetCertificates? && CopyOptional(step.certificates, CopyChoice).Ok?)
  }

  /** Whatever setters run, in whatever order and whether or not some of them leave, the
      version is right afterwards exactly when it was right before or one of the calls has
      validated it. */
  lemma {:induction false} VersionOverRuns(v: SignedDataValue, steps: seq<Setter>)
    ensures VersionHolds(AfterSetters(v, steps))
      <==> VersionHolds(v) || exists i :: 0 <= i < |steps| && Validates(steps[i])
  {
    hide CopySigner, CopyChoice, CopyCrl, VersionFor;
    if steps != [] {
      var front, last := steps[..|steps| - 1], steps[|steps| - 1];
      VersionOverRuns(v, front);
      assert forall i :: 0 <= i < |front| ==> front[i] == steps[i];
      if Validates(last) {
        assert Validates(steps[|steps| - 1]);
      }
    }
  }

  /** A signed-data has the right version after transport exactly when it had it before. */
  lemma VersionTransported(v: SignedDataValue)
    ensures VersionHolds(NormSignedData(v)) <==> VersionHolds(v)
  {
    hide NormAlgorithm, NormCrl, NormSignerInfo, NormChoice;
    var n := NormSignedData(v);
    forall i | 0 <= i < |v.signerInfos| ensures n.signerInfos[i].version == v.signerInfos[i].version {
      SignerVersionKept(v.signerInfos[i]);
    }
    assert SomeVersion3(n.signerInfos) <==> SomeVersion3(v.signerInfos);
    if NormList(v.certificates).Some? {
      var before, after := v.certificates.value, n.certificates.value;
      forall i | 0 <= i < |before| ensures after[i].Attribute? == before[i].Attribute? {
        ChoiceKindKept(before[i]);
      }
    }
  }

  lemma SignerVersionKept(s: SignerInfoValue)
    ensures NormSignerInfo(s).version == s.version
  {
  }

  lemma ChoiceKindKept(c: ChoiceValue)
    ensures NormChoice(c).Attribute? == c.Attribute?
  {
  }

  // ------------------------------------------------------------------ objects

  class SignedData {
    var iVersion: TInt
    var iDigestAlgorithmIdentifiers: Option<seq<AlgorithmId>>
    var iContentInfo: Option<ContentInfo>
    var iSignerInfos: Option<seq<SignerInfoValue>>
    var iCertificates: Option<seq<ChoiceValue>>
    var iRevokedCertificates: Option<seq<CrlValue>>

    /** The three mandatory pointers are set. */
    ghost predicate Valid()
      reads this
    {
      iDigestAlgorithmIdentifiers.Some? && iContentInfo.Some? && iSignerInfos.Some?
    }

    ghost function Value(): SignedDataValue
      reads this
      requires Valid()
    {
      SignedDataValue(iVersion, iDigestAlgorithmIdentifiers.value, iContentInfo.value, iCertificates,
        iRevokedCertificates, iSignerInfos.value)
    }

    /** The C++ constructor: every pointer is null. */
    constructor ()
      ensures iVersion == 0 && iDigestAlgorithmIdentifiers == None && iContentInfo == None && iSignerInfos == None
      ensures iCertificates == None && iRevokedCertificates == None
    {
      iVersion, iDigestAlgorithmIdentifiers, iContentInfo, iSignerInfos := 0, None, None, None;
      iCertificates, iRevokedCertificates := None, None;
    }

    /** ConstructL without arguments: version 1 beside an empty content type, for which
        section 5.1 of RFC 2630 wants version 3. */
    method ConstructDefaultL()
      modifies this
      ensures Valid() && iCertificates == old(iCertificates) && iRevokedCertificates == old(iRevokedCertificates)
      ensures iVersion == 1 && iDigestAlgorithmIdentifiers == Some([]) && iSignerInfos == Some([])
      ensures iContentInfo == Some(ContentInfo([], None)) && !VersionHolds(Value())
    {
      iVersion := KDEFAULT_VERSION;
      iDigestAlgorithmIdentifiers := Some([]);
      iContentInfo := Some(ContentInfo([], None));
      iSignerInfos := Some([]);
    }

    /** ConstructL with arguments. The signer infos come first, because every later setter
        may look at them. */
    method ConstructL(algorithms: seq<AlgorithmId>, contentInfo: ContentInfo, signers: seq<SignerInfoValue>,
        certificates: Option<seq<ChoiceValue>>, crls: Option<seq<CrlValue>>)
      returns (r: Outcome<()>)
      requires iContentInfo == None && iCertificates == None && iRevokedCertificates == None
      modifies this
      ensures r.Ok? <==>
        && CopyAll(signers, CopySigner).Ok?
        && CopyOptional(certificates, CopyChoice).Ok?
        && CopyOptional(crls, CopyCrl).Ok?
      ensures r.Ok? ==> Valid() && VersionHolds(Value())
      ensures r.Ok? ==> Value().digestAlgorithms == algorithms && Value().contentInfo == contentInfo
      ensures r.Ok? ==> Ok(Value().signerInfos) == CopyAll(signers, CopySigner)
      ensures r.Ok? ==> Ok(Value().certificates) == CopyOptional(certificates, CopyChoice)
      ensures r.Ok? ==> Ok(Value().crls) == CopyOptional(crls, CopyCrl)
    {
      hide CopySigner, CopyChoice, CopyCrl, VersionFor;
      var signersSet :- SetSignerInfosL(signers);
      SetDigestAlgorithmIdentifiersL(algorithms);
      SetEncapsulatedContentInfoL(contentInfo);
      var certificatesSet :- SetCertificatesL(certificates);
      var crlsSet :- SetRevokedCertificatesL(crls);
      r := Ok(());
    }

    method SetDigestAlgorithmIdentifiersL(algorithms: seq<AlgorithmId>)
      modifies this`iDigestAlgorithmIdentifiers
      ensures iDigestAlgorithmIdentifiers == Some(algorithms)
      ensures old(Valid()) ==> Valid() && Value() == AfterSetter(old(Value()), SetDigestAlgorithms(algorithms))
    {
      var tmpAlgs: seq<AlgorithmId> := [];
      for i := 0 to |algorithms|
        invariant tmpAlgs == algorithms[..i]
      {
        tmpAlgs := tmpAlgs + [AlgorithmId(algorithms[i].algorithm, algorithms[i].digest, algorithms[i].params)];
      }
      assert algorithms[..|algorithms|] == algorithms;
      iDigestAlgorithmIdentifiers := Some(tmpAlgs);
    }

    method SetEncapsulatedContentInfoL(contentInfo: ContentInfo)
      requires iSignerInfos.Some?
      modifies this`iContentInfo, this`iVersion
      ensures iContentInfo == Some(contentInfo)
      ensures iVersion == VersionFor(iContentInfo, iSignerInfos.value, iCertificates)
      ensures old(Valid()) ==> Valid() && Value() == AfterSetter(old(Value()), SetContentInfo(contentInfo))
    {
      hide VersionFor;
      iContentInfo := Some(ContentInfo(contentInfo.contentType, contentInfo.content));
      ValidateVersion();
    }

    method SetSignerInfosL(signers: seq<SignerInfoValue>) returns (r: Outcome<()>)
      modifies this`iSignerInfos, this`iVersion
      ensures r == Status(CopyAll(signers, CopySigner))
      ensures r.Ok? ==> iSignerInfos.Some? && Ok(iSignerInfos.value) == CopyAll(signers, CopySigner)
      ensures r.Ok? ==> iVersion == VersionFor(iContentInfo, iSignerInfos.value, iCertificates)
      ensures !r.Ok? ==> iSignerInfos == old(iSignerInfos) && iVersion == old(iVersion)
      ensures old(Valid()) ==> Valid() && Value() == AfterSetter(old(Value()), SetSignerInfos(signers))
    {
      hide CopySigner, VersionFor;
      var tmpSignInfos :- CopyAllL(signers, CopySigner);
      iSignerInfos := Some(tmpSignInfos);
      ValidateVersion();
      r := Ok(());
    }

    method SetCertificatesL(certificates: Option<seq<ChoiceValue>>) returns (r: Outcome<()>)
      requires iSignerInfos.Some?
      modifies this`iCertificates, this`iVersion
      ensures r == Status(CopyOptional(certificates, CopyChoice))
      ensures r.Ok? ==> Ok(iCertificates) == CopyOptional(certificates, CopyChoice)
      ensures r.Ok? ==> iVersion == VersionFor(iContentInfo, iSignerInfos.value, iCertificates)
      ensures !r.Ok? ==> iCertificates == old(iCertificates) && iVersion == old(iVersion)
      ensures old(Valid()) ==> Valid() && Value() == AfterSetter(old(Value()), SetCertificates(certificates))
    {
      hide CopyChoice, VersionFor;
      var tmpCertificates: Option<seq<ChoiceValue>> := None;
      if certificates.Some? {
        var copies :- CopyAllL(certificates.value, CopyChoice);
        tmpCertificates := Some(copies);
      }
      iCertificates := tmpCertificates;
      ValidateVersion();
      r := Ok(());
    }

    method SetRevokedCertificatesL(crls: Option<seq<CrlValue>>) returns (r: Outcome<()>)
      modifies this`iRevokedCertificates
      ensures r == Status(CopyOptional(crls, CopyCrl))
      ensures r.Ok? ==> Ok(iRevokedCertificates) == CopyOptional(crls, CopyCrl)
      ensures !r.Ok? ==> iRevokedCertificates == old(iRevokedCertificates)
      ensures old(Valid()) ==> Valid() && Value() == AfterSetter(old(Value()), SetCrls(crls))
    {
      hide CopyCrl;
      var tmpCerts: Option<seq<CrlValue>> := None;
      if crls.Some? {
        var copies :- CopyAllL(crls.value, CopyCrl);
        tmpCerts := Some(copies);
      }
      iRevokedCertificates := tmpCerts;
      r := Ok(());
    }

    method ValidateVersion()
      requires iSignerInfos.Some?
      modifies this`iVersion
      ensures iVersion == VersionFor(iContentInfo, iSignerInfos.value, iCertificates)
    {
      iVersion := KDEFAULT_VERSION;
      if iContentInfo.Some? && iContentInfo.value.contentType != ID_DATA {
        iVersion := KALTERNATIVE_VERSION;
        return;
      }
      for i := 0 to |iSignerInfos.value|
        invariant forall k :: 0 <= k < i ==> iSignerInfos.value[k].version != KALTERNATIVE_VERSION
        invariant iVersion == KDEFAULT_VERSION
      {
        if iSignerInfos.value[i].version == KALTERNATIVE_VERSION {
          iVersion := KALTERNATIVE_VERSION;
          return;
        }
      }
      if iCertificates.Some? {
        for i := 0 to |iCertificates.value|
          invariant forall k :: 0 <= k < i ==> !iCertificates.value[k].Attribute?
          invariant iVersion == KDEFAULT_VERSION
        {
          if iCertificates.value[i].Attribute? {
            iVersion := KALTERNATIVE_VERSION;
            return;
          }
        }
      }
    }

    /** Everything is decoded before anything is replaced: a failure at any depth leaves
        every field as it was. No item is read beyond the ones that are there. */
    method DecodeL(raw: bytes) returns (r: Outcome<()>)
      requires Valid()
      modifies this
      ensures Valid() && r == Status(DecSignedData(raw))
      ensures Value() == if r.Ok? then DecSignedData(raw).value else old(Value())
    {
      hide DecInt, DecAlgorithm, DecContentInfo, DecChoice, DecCrl, DecSignerInfo, DecodeSequence,
        DecodeBoundedSequence, DecodeAll, Children, Tlv;
      var itemsData :- DecodeBoundedSequence(raw, 4, 6);
      var pos := 0;
      var tmpVersion :- DecInt(itemsData[pos]);
      pos := pos + 1;
      var digestAlgorithms :- DecodeBoundedSequence(itemsData[pos].Encoding(), 1, MAX_ITEMS);
      pos := pos + 1;
      var tmpAlgs :- DecodeAllL(digestAlgorithms, DecAlgorithm);
      var tmpInfo :- DecContentInfo(itemsData[pos].Encoding());
      pos := pos + 1;
      var tmpCerts: Option<seq<ChoiceValue>> := None;
      if itemsData[pos].Tag() == CERTIFICATES_TAG {
        var certs :- Children(itemsData[pos]);
        pos := pos + 1;
        var list :- DecodeAllL(certs, DecChoice);
        tmpCerts := Some(list);
      }
      var tmpRevokedCertificates: Option<seq<CrlValue>> := None;
      if pos < |itemsData| && itemsData[pos].Tag() == CRLS_TAG {
        var certs :- Children(itemsData[pos]);
        pos := pos + 1;
        var list :- DecodeAllL(certs, DecCrl);
        tmpRevokedCertificates := Some(list);
      }
      if pos >= |itemsData| {
        return Leave(KErrArgument);
      }
      var sInfos :- DecodeSequence(itemsData[pos].Encoding());
      var tmpSignerInfos :- DecodeAllL(sInfos, DecSignerInfo);
      iSignerInfos := Some(tmpSignerInfos);
      iRevokedCertificates := tmpRevokedCertificates;
      iCertificates := tmpCerts;
      iContentInfo := Some(tmpInfo);
      iDigestAlgorithmIdentifiers := Some(tmpAlgs);
      iVersion := tmpVersion;
      r := Ok(());
    }

    method EncoderLC() returns (r: Outcome<Enc>)
      requires Valid()
      ensures r == EncSignedData(Value())
    {
      hide EncInt, EncAlgorithm, EncContentInfo, EncChoice, EncCrl, EncSignerInfo, EncodeAll;
      var root := [EncInt(iVersion)];
      if |iDigestAlgorithmIdentifiers.value| == 0 {
        return Leave(KErrArgument);
      }
      var algorithms :- EncodeAllL(iDigestAlgorithmIdentifiers.value, EncAlgorithm);
      root := root + [Node(SET_ID, algorithms)];
      root := root + [EncContentInfo(iContentInfo.value)];
      if iCertificates.Some? && |iCertificates.value| > 0 {
        var certificates :- EncodeAllL(iCertificates.value, EncChoice);
        root := root + [Node(CERTIFICATES_ID, certificates)];
      }
      if iRevokedCertificates.Some? && |iRevokedCertificates.value| > 0 {
        var certificates :- EncodeAllL(iRevokedCertificates.value, EncCrl);
        root := root + [Node(CRLS_ID, certificates)];
      }
      if |iSignerInfos.value| == 0 {
        return Leave(KErrArgument);
      }
      var signerInfos :- EncodeAllL(iSignerInfos.value, EncSignerInfo);
      root := root + [Node(SET_ID, signerInfos)];
      assert root == [EncInt(iVersion), EncSet(iDigestAlgorithmIdentifiers.value, EncAlgorithm).value,
        EncContentInfo(iContentInfo.value)]
        + EncListField(iCertificates, CERTIFICATES_ID, EncChoice).value
        + EncListField(iRevokedCertificates, CRLS_ID, EncCrl).value
        + [EncSet(iSignerInfos.value, EncSignerInfo).value];
      r := Ok(Node(SEQUENCE_ID, root));
    }
  }
}
