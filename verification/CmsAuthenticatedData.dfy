/** CCMSAuthenticatedData: the authenticated-data content type (section 9.1 of RFC 2630). */
module CmsAuthenticatedData {
  import opened Outcomes
  import opened DerCodec
  import opened Asn1
  import opened AlgorithmIdentifier
  import opened CmsAttribute
  import opened CmsSignerInfo
  import opened CmsEncapsulatedContentInfo
  import opened CmsCertificateList
  import opened CmsOriginatorInfo
  import opened CmsRecipientInfo
  import opened CmsKeyAgreeRecipientInfo

  // --------------------------------------------------------------- recipients

  datatype RecipientValue = KeyTrans(trans: KeyTransValue) | KeyAgree(agree: KeyAgreeValue) | Kek(kek: KekValue)

  /** TaggedEncoderLC of the three kinds. */
  function EncRecipient(r: RecipientValue): (t: Outcome<Enc>)
  {
    match r
    case KeyTrans(trans) => EncKeyTrans(trans)
    case KeyAgree(agree) =>
      var t :- EncKeyAgree(agree);
      Ok(ImplicitTag(t, KEY_AGREE_TAG))
    case Kek(kek) =>
      var t :- EncKek(kek);
      Ok(ImplicitTag(t, KEK_TAG))
  }

  /** The tag alone decides which kind is decoded. */
  function DecRecipient(raw: bytes): (r: Outcome<RecipientValue>)
    ensures r != Panic
  {
    var item :- Head(raw);
    if item.Tag() == SEQUENCE_TAG then
      var trans :- DecKeyTrans(raw);
      Ok(KeyTrans(trans))
    else if item.Tag() == KEY_AGREE_TAG then
      var agree :- DecKeyAgree(raw);
      Ok(KeyAgree(agree))
    else if item.Tag() == KEK_TAG then
      var kek :- DecKek(raw);
      Ok(Kek(kek))
    else Leave(KErrArgument)
  }

  function NormRecipient(r: RecipientValue): RecipientValue {
    match r
    case KeyTrans(trans) => KeyTrans(NormKeyTrans(trans))
    case KeyAgree(agree) => KeyAgree(NormKeyAgree(agree))
    case Kek(kek) => Kek(NormKek(kek))
  }

  predicate RecipientReadable(r: RecipientValue) {
    r.KeyTrans? ==> TransChoiceHolds(r.trans)
  }

  lemma RecipientRoundTrip(r: RecipientValue)
    requires EncRecipient(r).Ok? && Fits(EncRecipient(r).value)
    ensures DecRecipient(Der(EncRecipient(r).value)) == Ok(NormRecipient(r)) <==> RecipientReadable(r)
  {
    hide EncKeyTrans, DecKeyTrans, NormKeyTrans, EncKeyAgree, DecKeyAgree, NormKeyAgree, EncKek, DecKek, NormKek,
      TransChoiceHolds, Tlv, Fits;
    var t := EncRecipient(r).value;
    ReadWholeDer(t);
    match r
    case KeyTrans(trans) => KeyTransRoundTrip(trans);
    case KeyAgree(agree) => KeyAgreeRoundTrip(agree, t);
    case Kek(kek) => KekRoundTrip(kek, t);
  }

  function EncRecipients(recipients: seq<RecipientValue>): (r: Outcome<Enc>)
    ensures r.Ok? ==> r.value.Node? && r.value.id == SET_ID
  {
    var kids :- EncodeAll(recipients, EncRecipient);
    Ok(Node(SET_ID, kids))
  }

  /** An empty set ends the thread: the array is created with the number of recipients as
      its granularity. */
  function DecRecipients(raw: bytes): (r: Outcome<seq<RecipientValue>>)
  {
    var items :- DecodeSequence(raw);
    if items == [] then Panic else DecodeAll(items, DecRecipient)
  }

  /** No recipient ends the thread, of whatever kind and whatever it holds: only a SET or a
      SEQUENCE of none does. */
  lemma RecipientsPanicExact(raw: bytes)
    ensures DecRecipients(raw) == Panic <==> DecodeSequence(raw) == Ok([])
  {
    hide DecRecipient, DecodeSequence;
    if DecodeSequence(raw).Ok? {
      DecodeAllSafe(DecodeSequence(raw).value, DecRecipient);
    }
  }

  lemma RecipientsRoundTrip(recipients: seq<RecipientValue>)
    requires EncRecipients(recipients).Ok? && Fits(EncRecipients(recipients).value)
    ensures DecRecipients(Der(EncRecipients(recipients).value)) == Ok(MapAll(recipients, NormRecipient))
      <==> recipients != [] && AllOf(recipients, RecipientReadable)
    ensures DecRecipients(Der(EncRecipients(recipients).value)) == Panic <==> recipients == []
  {
    hide EncRecipient, DecRecipient, NormRecipient, RecipientReadable, Tlv;
    EncodeAllKids(recipients, EncRecipient);
    forall i | 0 <= i < |recipients| && Fits(EncRecipient(recipients[i]).value)
      ensures DecRecipient(Der(EncRecipient(recipients[i]).value)) == Ok(NormRecipient(recipients[i]))
        <==> RecipientReadable(recipients[i])
    {
      RecipientRoundTrip(recipients[i]);
    }
    TaggedListRoundTrip(recipients, SET_ID, EncRecipient, DecRecipient, NormRecipient, RecipientReadable);
    DecodeNode(EncRecipients(recipients).value);
    RecipientsPanicExact(Der(EncRecipients(recipients).value));
  }

  // -------------------------------------------------------------------- value

  datatype AuthenticatedDataValue = AuthenticatedDataValue(
    version: TInt,
    originatorInfo: Option<OriginatorInfoValue>,
    recipients: seq<RecipientValue>,
    macAlgorithm: AlgorithmId,
    digestAlgorithm: Option<AlgorithmId>,
    contentInfo: ContentInfo,
    authenticated: Option<seq<AttributeValue>>,
    mac: bytes,
    unauthenticated: Option<seq<AttributeValue>>)

  const ORIGINATOR_INFO_TAG: nat := 0
  const DIGEST_ALGORITHM_TAG: nat := 1
  const AUTHENTICATED_TAG: nat := 2
  const UNAUTHENTICATED_TAG: nat := 3
  const AUTHENTICATED_ID: byte := 0xA2
  const UNAUTHENTICATED_ID: byte := 0xA3

  // ----------------------------------------------------------------- encoding

  function EncOriginatorField(o: Option<OriginatorInfoValue>): (r: Outcome<seq<Enc>>)
    ensures r.Ok? ==> |r.value| == if o.Some? then 1 else 0
  {
    match o
    case None => Ok([])
    case Some(info) =>
      var t :- EncOriginatorInfo(info);
      Ok([ImplicitTag(t, ORIGINATOR_INFO_TAG)])
  }

  function EncDigestField(a: Option<AlgorithmId>): (r: Outcome<seq<Enc>>)
    ensures r.Ok? ==> |r.value| == if a.Some? then 1 else 0
  {
    match a
    case None => Ok([])
    case Some(algorithm) =>
      var t :- EncAlgorithm(algorithm);
      Ok([ExplicitTag(t, DIGEST_ALGORITHM_TAG)])
  }

  function EncAuthenticatedData(v: AuthenticatedDataValue): (r: Outcome<Enc>)
    ensures r.Ok? ==> r.value.Node? && r.value.id == SEQUENCE_ID
  {
    var originator :- EncOriginatorField(v.originatorInfo);
    var recipients :- EncRecipients(v.recipients);
    var macAlgorithm :- EncAlgorithm(v.macAlgorithm);
    var digest :- EncDigestField(v.digestAlgorithm);
    var authenticated :- EncPresentList(v.authenticated, AUTHENTICATED_ID, EncAttribute);
    var unauthenticated :- EncPresentList(v.unauthenticated, UNAUTHENTICATED_ID, EncAttribute);
    Ok(Node(SEQUENCE_ID, [EncInt(v.version)] + originator + [recipients, macAlgorithm] + digest
      + [EncContentInfo(v.contentInfo)] + authenticated + [EncOctets(v.mac)] + unauthenticated))
  }

  /** Section 9.1 of RFC 2630: version, [0] originator info, SET of recipients, MAC algorithm,
      [1] digest algorithm, content info, [2] authenticated attributes, MAC, [3]
      unauthenticated attributes; except that the digest algorithm has an EXPLICIT tag, with
      the SEQUENCE of the algorithm inside it, where RFC 2630 has an IMPLICIT one. */
  lemma AuthenticatedDataLayout(v: AuthenticatedDataValue)
    requires EncAuthenticatedData(v).Ok?
    ensures var t := EncAuthenticatedData(v).value;
      t.id == 0x30
      && Ids(t.kids) == [0x02] + (if v.originatorInfo.Some? then [0xA0] else []) + [0x31, 0x30]
        + (if v.digestAlgorithm.Some? then [0xA1] else []) + [0x30]
        + (if v.authenticated.Some? then [0xA2] else []) + [0x04]
        + (if v.unauthenticated.Some? then [0xA3] else [])
    ensures v.digestAlgorithm.Some? ==>
      var field := EncAuthenticatedData(v).value.kids[if v.originatorInfo.Some? then 4 else 3];
      Contents(field) == Der(EncAlgorithm(v.digestAlgorithm.value).value) && Contents(field)[0] == 0x30
  {
    hide Ids, EncRecipients, EncAlgorithm, EncContentInfo, EncPresentList, EncOriginatorField, EncDigestField,
      EncInt, EncOctets;
    var originator := EncOriginatorField(v.originatorInfo).value;
    var middle := [EncRecipients(v.recipients).value, EncAlgorithm(v.macAlgorithm).value];
    var digest := EncDigestField(v.digestAlgorithm).value;
    var authenticated := EncPresentList(v.authenticated, AUTHENTICATED_ID, EncAttribute).value;
    var unauthenticated := EncPresentList(v.unauthenticated, UNAUTHENTICATED_ID, EncAttribute).value;
    OptionalFieldIds(v);
    SingleIds(v);
    if v.digestAlgorithm.Some? {
      DigestFieldInside(v.digestAlgorithm);
    }
    FieldsInPlace(v);
    var head := [EncInt(v.version)] + originator + middle + digest;
    IdsOfParts([EncInt(v.version)], originator);
    IdsOfParts([EncInt(v.version)] + originator, middle);
    IdsOfParts([EncInt(v.version)] + originator + middle, digest);
    IdsOfParts(head, [EncContentInfo(v.contentInfo)]);
    IdsOfParts(head + [EncContentInfo(v.contentInfo)], authenticated);
    IdsOfParts(head + [EncContentInfo(v.contentInfo)] + authenticated, [EncOctets(v.mac)]);
    IdsOfParts(head + [EncContentInfo(v.contentInfo)] + authenticated + [EncOctets(v.mac)], unauthenticated);
  }

  lemma DigestFieldInside(a: Option<AlgorithmId>)
    requires a.Some? && EncDigestField(a).Ok?
    ensures var field := EncDigestField(a).value[0];
      Contents(field) == Der(EncAlgorithm(a.value).value) && Contents(field)[0] == 0x30
  {
    hide EncAlgorithm;
  }

  lemma SingleIds(v: AuthenticatedDataValue)
    requires EncRecipients(v.recipients).Ok? && EncAlgorithm(v.macAlgorithm).Ok?
    ensures Ids([EncInt(v.version)]) == [0x02] && Ids([EncContentInfo(v.contentInfo)]) == [0x30]
      && Ids([EncOctets(v.mac)]) == [0x04]
    ensures Ids([EncRecipients(v.recipients).value, EncAlgorithm(v.macAlgorithm).value]) == [0x31, 0x30]
  {
    hide EncRecipients, EncAlgorithm, EncContentInfo;
  }

  lemma OptionalFieldIds(v: AuthenticatedDataValue)
    requires EncOriginatorField(v.originatorInfo).Ok? && EncDigestField(v.digestAlgorithm).Ok?
    requires EncPresentList(v.authenticated, AUTHENTICATED_ID, EncAttribute).Ok?
    requires EncPresentList(v.unauthenticated, UNAUTHENTICATED_ID, EncAttribute).Ok?
    ensures Ids(EncOriginatorField(v.originatorInfo).value) == if v.originatorInfo.Some? then [0xA0] else []
    ensures Ids(EncDigestField(v.digestAlgorithm).value) == if v.digestAlgorithm.Some? then [0xA1] else []
    ensures Ids(EncPresentList(v.authenticated, AUTHENTICATED_ID, EncAttribute).value)
      == if v.authenticated.Some? then [0xA2] else []
    ensures Ids(EncPresentList(v.unauthenticated, UNAUTHENTICATED_ID, EncAttribute).value)
      == if v.unauthenticated.Some? then [0xA3] else []
  {
    hide EncAlgorithm, EncPresentList, EncAttribute, EncOriginatorInfo;
  }

  /** Section 6.2 of RFC 2630: a key transport info is a SEQUENCE, key agreement has the
      IMPLICIT tag [1], key encryption keys have [2]. */
  lemma RecipientTags(r: RecipientValue)
    requires EncRecipient(r).Ok?
    ensures EncRecipient(r).value.id == match r case KeyTrans(_) => 0x30 case KeyAgree(_) => 0xA1 case Kek(_) => 0xA2
  {
    hide EncKeyTrans, EncKeyAgree, EncKek;
  }

  // ----------------------------------------------------------------- decoding

  /** DecodeAttributesL: at least one attribute. */
  function DecSomeAttributes(item: Item): (r: Outcome<seq<AttributeValue>>)
  {
    var items :- Children(item);
    if |items| < 1 then Leave(KErrArgument) else DecodeAll(items, DecAttribute)
  }

  function DecOriginatorAt(items: seq<Item>): (r: Outcome<Option<OriginatorInfoValue>>)
    requires 2 <= |items|
  {
    if items[1].Tag() != ORIGINATOR_INFO_TAG then Ok(None)
    else
      var info :- DecImplicitOriginatorInfo(items[1].Encoding(), ORIGINATOR_INFO_TAG);
      Ok(Some(info))
  }

  function DecDigestAt(items: seq<Item>, pos: nat): (r: Outcome<Option<AlgorithmId>>)
    requires pos < |items|
    ensures r != Panic
  {
    if items[pos].Tag() != DIGEST_ALGORITHM_TAG then Ok(None)
    else
      var algorithm :- DecAlgorithm(items[pos].contents);
      Ok(Some(algorithm))
  }

  datatype AuthHead = AuthHead(version: TInt, originatorInfo: Option<OriginatorInfoValue>,
    recipients: seq<RecipientValue>, macAlgorithm: AlgorithmId, digestAlgorithm: Option<AlgorithmId>, pos: nat)

  /** The fields before the content info; pos is the cursor after them. */
  function DecAuthHead(items: seq<Item>): (r: Outcome<AuthHead>)
    requires 5 <= |items|
    ensures r.Ok? ==> 3 <= r.value.pos <= |items|
  {
    var version :- DecInt(items[0]);
    var originatorInfo :- DecOriginatorAt(items);
    var pos := if originatorInfo.Some? then 2 else 1;
    var recipients :- DecRecipients(items[pos].Encoding());
    var macAlgorithm :- DecAlgorithm(items[pos + 1].Encoding());
    var digestAlgorithm :- DecDigestAt(items, pos + 2);
    var pos := pos + if digestAlgorithm.Some? then 3 else 2;
    Ok(AuthHead(version, originatorInfo, recipients, macAlgorithm, digestAlgorithm, pos))
  }

  function DecAuthenticatedAt(items: seq<Item>, pos: nat): (r: Outcome<Option<seq<AttributeValue>>>)
    requires pos < |items|
  {
    if items[pos].Tag() != AUTHENTICATED_TAG then Ok(None)
    else
      var list :- DecSomeAttributes(items[pos]);
      Ok(Some(list))
  }

  /** An item after the MAC must be the unauthenticated attributes. */
  function DecUnauthenticatedAt(items: seq<Item>, pos: nat): (r: Outcome<Option<seq<AttributeValue>>>)
  {
    if pos >= |items| then Ok(None)
    else if items[pos].Tag() != UNAUTHENTICATED_TAG then Leave(KErrArgument)
    else
      var list :- DecSomeAttributes(items[pos]);
      Ok(Some(list))
  }

  datatype AuthTail = AuthTail(contentInfo: ContentInfo, authenticated: Option<seq<AttributeValue>>, mac: bytes,
    unauthenticated: Option<seq<AttributeValue>>)

  /** The fields from the content info on; running out of items is checked at each step. */
  function DecAuthTail(items: seq<Item>, pos: nat): (r: Outcome<AuthTail>)
  {
    if pos >= |items| then Leave(KErrArgument)
    else
      var contentInfo :- DecContentInfo(items[pos].Encoding());
      if pos + 1 >= |items| then Leave(KErrArgument)
      else
        var authenticated :- DecAuthenticatedAt(items, pos + 1);
        var pos := pos + 1 + if authenticated.Some? then 1 else 0;
        if pos >= |items| then Leave(KErrArgument)
        else
          var unauthenticated :- DecUnauthenticatedAt(items, pos + 1);
          Ok(AuthTail(contentInfo, authenticated, items[pos].contents, unauthenticated))
  }

  function DecAuthItems(items: seq<Item>): (r: Outcome<AuthenticatedDataValue>)
    requires 5 <= |items|
  {
    var head :- DecAuthHead(items);
    var tail :- DecAuthTail(items, head.pos);
    Ok(AuthenticatedDataValue(head.version, head.originatorInfo, head.recipients, head.macAlgorithm,
      head.digestAlgorithm, tail.contentInfo, tail.authenticated, tail.mac, tail.unauthenticated))
  }

  function DecAuthenticatedData(raw: bytes): (r: Outcome<AuthenticatedDataValue>)
  {
    var items :- DecodeBoundedSequence(raw, 5, 9);
    DecAuthItems(items)
  }

  // --------------------------------------------------------------- round trip

  function NormOriginatorField(o: Option<OriginatorInfoValue>): Option<OriginatorInfoValue> {
    match o
    case Some(info) => Some(NormOriginatorInfo(info))
    case None => None
  }

  function NormDigestField(a: Option<AlgorithmId>): Option<AlgorithmId> {
    match a
    case Some(algorithm) => Some(NormAlgorithm(algorithm))
    case None => None
  }

  function NormAuthenticatedData(v: AuthenticatedDataValue): AuthenticatedDataValue {
    v.(originatorInfo := NormOriginatorField(v.originatorInfo),
       recipients := MapAll(v.recipients, NormRecipient),
       macAlgorithm := NormAlgorithm(v.macAlgorithm),
       digestAlgorithm := NormDigestField(v.digestAlgorithm),
       authenticated := MapOptional(v.authenticated, NormAttribute),
       unauthenticated := MapOptional(v.unauthenticated, NormAttribute))
  }

  predicate HeadReadable(v: AuthenticatedDataValue) {
    && (v.originatorInfo.Some? ==> OriginatorInfoReadable(v.originatorInfo.value))
    && v.recipients != []
    && AllOf(v.recipients, RecipientReadable)
  }

  /** At least one recipient, no list present but empty, and readable parts. */
  predicate AuthenticatedDataReadable(v: AuthenticatedDataValue) {
    && HeadReadable(v)
    && ListReadable(v.authenticated, HasValues)
    && ListReadable(v.unauthenticated, HasValues)
  }

  lemma OriginatorFieldDecodes(o: Option<OriginatorInfoValue>, items: seq<Item>)
    requires EncOriginatorField(o).Ok? && 2 <= |items|
    requires var field := EncOriginatorField(o).value;
      if field == [] then items[1].Tag() != ORIGINATOR_INFO_TAG else Fits(field[0]) && items[1] == ItemOf(field[0])
    ensures DecOriginatorAt(items) == Ok(NormOriginatorField(o)) <==> (o.Some? ==> OriginatorInfoReadable(o.value))
    ensures items[1].Tag() == ORIGINATOR_INFO_TAG <==> o.Some?
  {
    hide EncOriginatorInfo, DecImplicitOriginatorInfo, NormOriginatorInfo, OriginatorInfoReadable, Tlv;
    if o.Some? {
      OriginatorInfoRoundTrip(o.value, EncOriginatorField(o).value[0]);
      ItemEncoding(EncOriginatorField(o).value[0]);
    }
  }

  lemma DigestFieldDecodes(a: Option<AlgorithmId>, items: seq<Item>, pos: nat)
    requires EncDigestField(a).Ok? && pos < |items|
    requires var field := EncDigestField(a).value;
      if field == [] then items[pos].Tag() != DIGEST_ALGORITHM_TAG else Fits(field[0]) && items[pos] == ItemOf(field[0])
    ensures DecDigestAt(items, pos) == Ok(NormDigestField(a))
    ensures items[pos].Tag() == DIGEST_ALGORITHM_TAG <==> a.Some?
  {
    hide EncAlgorithm, DecAlgorithm, NormAlgorithm, Tlv;
    if a.Some? {
      AlgorithmRoundTrip(a.value);
    }
  }

  lemma SomeAttributesDecode(attributes: seq<AttributeValue>, id: byte)
    requires EncodeAll(attributes, EncAttribute).Ok?
    requires Fits(Node(id, EncodeAll(attributes, EncAttribute).value))
    ensures DecSomeAttributes(ItemOf(Node(id, EncodeAll(attributes, EncAttribute).value)))
      == Ok(MapAll(attributes, NormAttribute))
      <==> |attributes| > 0 && AllOf(attributes, HasValues)
  {
    hide EncAttribute, DecAttribute, NormAttribute;
    AttributesRoundTrip(attributes, id);
    DecodeNode(Node(id, EncodeAll(attributes, EncAttribute).value));
  }

  lemma AuthenticatedFieldDecodes(list: Option<seq<AttributeValue>>, items: seq<Item>, pos: nat)
    requires EncPresentList(list, AUTHENTICATED_ID, EncAttribute).Ok? && pos < |items|
    requires var field := EncPresentList(list, AUTHENTICATED_ID, EncAttribute).value;
      if field == [] then items[pos].Tag() != AUTHENTICATED_TAG else Fits(field[0]) && items[pos] == ItemOf(field[0])
    ensures DecAuthenticatedAt(items, pos) == Ok(MapOptional(list, NormAttribute)) <==> ListReadable(list, HasValues)
    ensures items[pos].Tag() == AUTHENTICATED_TAG <==> list.Some?
  {
    hide EncAttribute, DecAttribute, NormAttribute, HasValues, DecSomeAttributes, MapAll, AllOf;
    if list.Some? {
      SomeAttributesDecode(list.value, AUTHENTICATED_ID);
    }
  }

  lemma UnauthenticatedFieldDecodes(list: Option<seq<AttributeValue>>, items: seq<Item>, pos: nat)
    requires EncPresentList(list, UNAUTHENTICATED_ID, EncAttribute).Ok?
    requires var field := EncPresentList(list, UNAUTHENTICATED_ID, EncAttribute).value;
      if field == [] then pos >= |items| else pos < |items| && Fits(field[0]) && items[pos] == ItemOf(field[0])
    ensures DecUnauthenticatedAt(items, pos) == Ok(MapOptional(list, NormAttribute)) <==> ListReadable(list, HasValues)
  {
    hide EncAttribute, DecAttribute, NormAttribute, HasValues, DecSomeAttributes, MapAll, AllOf;
    if list.Some? {
      SomeAttributesDecode(list.value, UNAUTHENTICATED_ID);
    }
  }

  /** The positions that depend on which optional fields there are. */
  datatype Layout = Layout(recipients: nat, content: nat, mac: nat)

  function LayoutOf(v: AuthenticatedDataValue): Layout {
    var recipients := if v.originatorInfo.Some? then 2 else 1;
    var content := recipients + 2 + if v.digestAlgorithm.Some? then 1 else 0;
    Layout(recipients, content, content + 1 + if v.authenticated.Some? then 1 else 0)
  }

  /** Where each field lands among the items, for all sixteen combinations of the optional
      ones. */
  lemma FieldsInPlace(v: AuthenticatedDataValue)
    requires EncAuthenticatedData(v).Ok?
    ensures EncOriginatorField(v.originatorInfo).Ok? && EncRecipients(v.recipients).Ok?
      && EncAlgorithm(v.macAlgorithm).Ok?
    ensures EncDigestField(v.digestAlgorithm).Ok?
    ensures EncPresentList(v.authenticated, AUTHENTICATED_ID, EncAttribute).Ok?
    ensures EncPresentList(v.unauthenticated, UNAUTHENTICATED_ID, EncAttribute).Ok?
    ensures var kids, at := EncAuthenticatedData(v).value.kids, LayoutOf(v);
      && |kids| == at.mac + (if v.unauthenticated.Some? then 2 else 1)
      && kids[0] == EncInt(v.version)
      && (v.originatorInfo.Some? ==> kids[1] == EncOriginatorField(v.originatorInfo).value[0])
      && kids[at.recipients] == EncRecipients(v.recipients).value
      && kids[at.recipients + 1] == EncAlgorithm(v.macAlgorithm).value
      && (v.digestAlgorithm.Some? ==> kids[at.recipients + 2] == EncDigestField(v.digestAlgorithm).value[0])
      && kids[at.content] == EncContentInfo(v.contentInfo)
      && (v.authenticated.Some? ==>
        kids[at.content + 1] == EncPresentList(v.authenticated, AUTHENTICATED_ID, EncAttribute).value[0])
      && kids[at.mac] == EncOctets(v.mac)
      && (v.unauthenticated.Some? ==>
        kids[at.mac + 1] == EncPresentList(v.unauthenticated, UNAUTHENTICATED_ID, EncAttribute).value[0])
  {
    hide EncInt, EncOriginatorField, EncRecipients, EncAlgorithm, EncDigestField, EncContentInfo, EncPresentList,
      EncAttribute, EncOctets;
  }

  function NormHead(v: AuthenticatedDataValue): AuthHead {
    AuthHead(v.version, NormOriginatorField(v.originatorInfo), MapAll(v.recipients, NormRecipient),
      NormAlgorithm(v.macAlgorithm), NormDigestField(v.digestAlgorithm), LayoutOf(v).content)
  }

  lemma AuthHeadRoundTrip(v: AuthenticatedDataValue, items: seq<Item>)
    requires EncAuthenticatedData(v).Ok? && Fits(EncAuthenticatedData(v).value)
    requires items == ItemsOf(EncAuthenticatedData(v).value.kids)
    ensures DecAuthHead(items) == Ok(NormHead(v)) <==> HeadReadable(v)
    ensures DecAuthHead(items).Ok? ==> DecAuthHead(items).value.pos == LayoutOf(v).content
  {
    hide EncOriginatorField, EncInt, DecInt, EncRecipients, DecRecipients, EncAlgorithm, DecAlgorithm,
      EncDigestField, EncContentInfo, EncOctets, DecOriginatorAt, DecDigestAt, NormOriginatorField, NormDigestField,
      NormAlgorithm, NormRecipient, RecipientReadable, OriginatorInfoReadable, Tlv, MapAll, AllOf,
      EncAuthenticatedData, DecAuthHead, NormHead;
    var kids, at := EncAuthenticatedData(v).value.kids, LayoutOf(v);
    FieldsInPlace(v);
    assert forall i :: 0 <= i < |kids| ==>
      Fits(kids[i]) && items[i] == ItemOf(kids[i]) && items[i].Encoding() == Der(kids[i]);
    assert ItemOf(kids[at.recipients]).Tag() == SET_TAG && ItemOf(kids[at.recipients + 1]).Tag() == SEQUENCE_TAG
      && ItemOf(kids[at.content]).Tag() == SEQUENCE_TAG;
    IntRoundTrip(v.version);
    OriginatorFieldDecodes(v.originatorInfo, items);
    RecipientsRoundTrip(v.recipients);
    AlgorithmRoundTrip(v.macAlgorithm);
    DigestFieldDecodes(v.digestAlgorithm, items, at.recipients + 2);
    AuthHeadDecodes(v, items);
  }

  /** The cursor up to the content info, given what each item decodes to. */
  lemma AuthHeadDecodes(v: AuthenticatedDataValue, items: seq<Item>)
    requires 5 <= |items| && LayoutOf(v).content < |items|
    requires items[1].Tag() == ORIGINATOR_INFO_TAG <==> v.originatorInfo.Some?
    requires items[LayoutOf(v).recipients + 2].Tag() == DIGEST_ALGORITHM_TAG <==> v.digestAlgorithm.Some?
    requires DecInt(items[0]) == Ok(v.version)
    requires DecAlgorithm(items[LayoutOf(v).recipients + 1].Encoding()) == Ok(NormAlgorithm(v.macAlgorithm))
    requires DecDigestAt(items, LayoutOf(v).recipients + 2) == Ok(NormDigestField(v.digestAlgorithm))
    ensures DecAuthHead(items) == Ok(NormHead(v)) <==>
      && DecOriginatorAt(items) == Ok(NormOriginatorField(v.originatorInfo))
      && DecRecipients(items[LayoutOf(v).recipients].Encoding()) == Ok(MapAll(v.recipients, NormRecipient))
    ensures DecAuthHead(items).Ok? ==> DecAuthHead(items).value.pos == LayoutOf(v).content
  {
    hide DecInt, DecRecipients, DecAlgorithm, DecOriginatorAt, DecDigestAt, NormOriginatorField, NormDigestField,
      NormAlgorithm, Tlv, MapAll;
    PresenceDecodes(items, LayoutOf(v).recipients + 2);
  }

  /** A field decodes to something exactly when its tag is there. */
  lemma PresenceDecodes(items: seq<Item>, pos: nat)
    requires 2 <= |items| && pos < |items|
    ensures DecOriginatorAt(items).Ok? ==>
      (DecOriginatorAt(items).value.Some? <==> items[1].Tag() == ORIGINATOR_INFO_TAG)
    ensures DecDigestAt(items, pos).Ok? ==>
      (DecDigestAt(items, pos).value.Some? <==> items[pos].Tag() == DIGEST_ALGORITHM_TAG)
  {
    hide DecImplicitOriginatorInfo, DecAlgorithm;
  }

  function NormTail(v: AuthenticatedDataValue): AuthTail {
    AuthTail(v.contentInfo, MapOptional(v.authenticated, NormAttribute), v.mac,
      MapOptional(v.unauthenticated, NormAttribute))
  }

  lemma AuthTailRoundTrip(v: AuthenticatedDataValue, items: seq<Item>)
    requires EncAuthenticatedData(v).Ok? && Fits(EncAuthenticatedData(v).value)
    requires items == ItemsOf(EncAuthenticatedData(v).value.kids)
    ensures DecAuthTail(items, LayoutOf(v).content) == Ok(NormTail(v)) <==>
      ListReadable(v.authenticated, HasValues) && ListReadable(v.unauthenticated, HasValues)
  {
    hide EncOriginatorField, EncInt, EncRecipients, EncAlgorithm, EncDigestField, EncContentInfo, DecContentInfo,
      EncPresentList, EncAttribute, DecAuthenticatedAt, DecUnauthenticatedAt, NormAttribute, HasValues, ListReadable,
      MapOptional, Tlv, EncAuthenticatedData, DecAuthTail, NormTail;
    var kids, at := EncAuthenticatedData(v).value.kids, LayoutOf(v);
    FieldsInPlace(v);
    assert forall i :: 0 <= i < |kids| ==>
      Fits(kids[i]) && items[i] == ItemOf(kids[i]) && items[i].Encoding() == Der(kids[i]);
    ContentInfoRoundTrip(v.contentInfo);
    AuthenticatedFieldDecodes(v.authenticated, items, at.content + 1);
    UnauthenticatedFieldDecodes(v.unauthenticated, items, at.mac + 1);
    AuthTailDecodes(v, items);
  }

  /** The cursor from the content info on, given what each item decodes to. */
  lemma AuthTailDecodes(v: AuthenticatedDataValue, items: seq<Item>)
    requires LayoutOf(v).mac < |items|
    requires items[LayoutOf(v).content + 1].Tag() == AUTHENTICATED_TAG <==> v.authenticated.Some?
    requires DecContentInfo(items[LayoutOf(v).content].Encoding()) == Ok(v.contentInfo)
    requires items[LayoutOf(v).mac].contents == v.mac
    ensures DecAuthTail(items, LayoutOf(v).content) == Ok(NormTail(v)) <==>
      && DecAuthenticatedAt(items, LayoutOf(v).content + 1) == Ok(MapOptional(v.authenticated, NormAttribute))
      && DecUnauthenticatedAt(items, LayoutOf(v).mac + 1) == Ok(MapOptional(v.unauthenticated, NormAttribute))
  {
    hide DecContentInfo, DecAuthenticatedAt, DecUnauthenticatedAt, MapOptional, Tlv;
    AuthenticatedPresence(items, LayoutOf(v).content + 1);
  }

  lemma AuthenticatedPresence(items: seq<Item>, pos: nat)
    requires pos < |items|
    ensures DecAuthenticatedAt(items, pos).Ok? ==>
      (DecAuthenticatedAt(items, pos).value.Some? <==> items[pos].Tag() == AUTHENTICATED_TAG)
  {
    hide DecSomeAttributes;
  }

  /** All sixteen combinations of the optional fields, with any mix of the three kinds of
      recipients, are read back equal at every nesting level, up to the written form of
      opaque values, exactly when there is a recipient, no list is present but empty, and
      the parts the decoders are stricter about are there. */
  lemma AuthenticatedDataRoundTrip(v: AuthenticatedDataValue)
    requires EncAuthenticatedData(v).Ok? && Fits(EncAuthenticatedData(v).value)
    ensures DecAuthenticatedData(Der(EncAuthenticatedData(v).value)) == Ok(NormAuthenticatedData(v))
      <==> AuthenticatedDataReadable(v)
  {
    hide EncAuthenticatedData, DecAuthHead, DecAuthTail, HeadReadable, ListReadable, NormOriginatorField,
      NormDigestField, NormAlgorithm, MapAll, MapOptional, Tlv;
    var t := EncAuthenticatedData(v).value;
    DecodeNode(t);
    FieldsInPlace(v);
    AuthHeadRoundTrip(v, ItemsOf(t.kids));
    AuthTailRoundTrip(v, ItemsOf(t.kids));
  }

  // ------------------------------------------------------------------ objects

  class AuthenticatedData {
    var iData: AuthenticatedDataValue

    constructor (recipients: seq<RecipientValue>, macAlgorithm: AlgorithmId, contentInfo: ContentInfo, mac: bytes)
      ensures iData == AuthenticatedDataValue(0, None, recipients, macAlgorithm, None, contentInfo, None, mac, None)
    {
      iData := AuthenticatedDataValue(0, None, recipients, macAlgorithm, None, contentInfo, None, mac, None);
    }

    /** New data replaces the old only after everything has been decoded: a failure at any
        depth leaves the object as it was. */
    method DecodeL(raw: bytes) returns (r: Outcome<()>)
      modifies this
      ensures r == Status(DecAuthenticatedData(raw))
      ensures iData == if r.Ok? then DecAuthenticatedData(raw).value else old(iData)
    {
      hide DecAuthHead, DecAuthTail;
      var items :- DecodeBoundedSequence(raw, 5, 9);
      var head :- DecodeHeadL(items);
      var tail :- DecodeTailL(items, head.pos);
      iData := AuthenticatedDataValue(head.version, head.originatorInfo, head.recipients, head.macAlgorithm,
        head.digestAlgorithm, tail.contentInfo, tail.authenticated, tail.mac, tail.unauthenticated);
      r := Ok(());
    }

    /** The cursor up to the content info: five items cover every access. */
    static method DecodeHeadL(items: seq<Item>) returns (r: Outcome<AuthHead>)
      requires 5 <= |items|
      ensures r == DecAuthHead(items)
    {
      hide DecInt, DecImplicitOriginatorInfo, DecRecipient, DecodeAll, DecodeSequence, DecAlgorithm, Tlv;
      var sequenceCounter := 0;
      var version :- DecInt(items[sequenceCounter]);
      sequenceCounter := sequenceCounter + 1;
      var originatorInfo: Option<OriginatorInfoValue> := None;
      if items[sequenceCounter].Tag() == ORIGINATOR_INFO_TAG {
        var info := new OriginatorInfo();
        var decoded :- info.DecodeImplicitTagL(items[sequenceCounter].Encoding(), ORIGINATOR_INFO_TAG);
        originatorInfo := Some(info.Value());
        sequenceCounter := sequenceCounter + 1;
      }
      var recipientInfos :- DecodeSequence(items[sequenceCounter].Encoding());
      sequenceCounter := sequenceCounter + 1;
      if |recipientInfos| == 0 {
        return Panic;
      }
      var recipients :- DecodeAllL(recipientInfos, DecRecipient);
      var macAlgorithm :- DecAlgorithm(items[sequenceCounter].Encoding());
      sequenceCounter := sequenceCounter + 1;
      var digestAlgorithm: Option<AlgorithmId> := None;
      if items[sequenceCounter].Tag() == DIGEST_ALGORITHM_TAG {
        var algorithm :- DecAlgorithm(items[sequenceCounter].contents);
        digestAlgorithm := Some(algorithm);
        sequenceCounter := sequenceCounter + 1;
      }
      r := Ok(AuthHead(version, originatorInfo, recipients, macAlgorithm, digestAlgorithm, sequenceCounter));
    }

    /** The cursor from the content info on: every access is checked first. */
    static method DecodeTailL(items: seq<Item>, start: nat) returns (r: Outcome<AuthTail>)
      requires start <= |items|
      ensures r == DecAuthTail(items, start)
    {
      hide DecContentInfo, DecSomeAttributes, Tlv;
      var itemCount := |items|;
      var sequenceCounter := start;
      if sequenceCounter == itemCount {
        return Leave(KErrArgument);
      }
      var contentInfo :- DecContentInfo(items[sequenceCounter].Encoding());
      sequenceCounter := sequenceCounter + 1;
      if sequenceCounter == itemCount {
        return Leave(KErrArgument);
      }
      var authenticated: Option<seq<AttributeValue>> := None;
      if items[sequenceCounter].Tag() == AUTHENTICATED_TAG {
        var list :- DecodeSomeAttributesL(items[sequenceCounter]);
        authenticated := Some(list);
        sequenceCounter := sequenceCounter + 1;
      }
      if sequenceCounter == itemCount {
        return Leave(KErrArgument);
      }
      var mac := items[sequenceCounter].contents;
      sequenceCounter := sequenceCounter + 1;
      var unauthenticated: Option<seq<AttributeValue>> := None;
      if itemCount > sequenceCounter {
        if items[sequenceCounter].Tag() != UNAUTHENTICATED_TAG {
          return Leave(KErrArgument);
        }
        var list :- DecodeSomeAttributesL(items[sequenceCounter]);
        unauthenticated := Some(list);
      }
      r := Ok(AuthTail(contentInfo, authenticated, mac, unauthenticated));
    }

    static method DecodeSomeAttributesL(item: Item) returns (r: Outcome<seq<AttributeValue>>)
      ensures r == DecSomeAttributes(item)
    {
      hide DecAttribute, Children, DecodeAll;
      var attributes :- Children(item);
      if |attributes| < 1 {
        return Leave(KErrArgument);
      }
      r := DecodeAllL(attributes, DecAttribute);
    }

    method EncoderLC() returns (r: Outcome<Enc>)
      ensures r == EncAuthenticatedData(iData)
    {
      hide EncInt, EncOriginatorField, EncRecipients, EncAlgorithm, EncDigestField, EncContentInfo, EncPresentList,
        EncOctets;
      var root := [EncInt(iData.version)];
      var originatorInfo :- OriginatorFieldL();
      root := root + originatorInfo;
      var recipientInfos :- EncRecipientsL();
      root := root + [recipientInfos];
      var macAlgorithm :- EncAlgorithm(iData.macAlgorithm);
      root := root + [macAlgorithm];
      var digestAlgorithm :- DigestFieldL();
      root := root + digestAlgorithm;
      root := root + [EncContentInfo(iData.contentInfo)];
      var authenticated :- AttributesFieldL(iData.authenticated, AUTHENTICATED_ID);
      root := root + authenticated;
      root := root + [EncOctets(iData.mac)];
      var unauthenticated :- AttributesFieldL(iData.unauthenticated, UNAUTHENTICATED_ID);
      root := root + unauthenticated;
      assert root == [EncInt(iData.version)] + originatorInfo + [recipientInfos, macAlgorithm] + digestAlgorithm
        + [EncContentInfo(iData.contentInfo)] + authenticated + [EncOctets(iData.mac)] + unauthenticated;
      r := Ok(Node(SEQUENCE_ID, root));
    }

    method OriginatorFieldL() returns (r: Outcome<seq<Enc>>)
      ensures r == EncOriginatorField(iData.originatorInfo)
    {
      hide EncOriginatorInfo;
      if iData.originatorInfo.None? {
        return Ok([]);
      }
      var originatorInfo :- EncOriginatorInfo(iData.originatorInfo.value);
      r := Ok([ImplicitTag(originatorInfo, ORIGINATOR_INFO_TAG)]);
    }

    method EncRecipientsL() returns (r: Outcome<Enc>)
      ensures r == EncRecipients(iData.recipients)
    {
      hide EncRecipient, EncodeAll;
      var kids :- EncodeAllL(iData.recipients, EncRecipient);
      r := Ok(Node(SET_ID, kids));
    }

    method DigestFieldL() returns (r: Outcome<seq<Enc>>)
      ensures r == EncDigestField(iData.digestAlgorithm)
    {
      hide EncAlgorithm;
      if iData.digestAlgorithm.None? {
        return Ok([]);
      }
      var digestAlgorithm :- EncAlgorithm(iData.digestAlgorithm.value);
      r := Ok([ExplicitTag(digestAlgorithm, DIGEST_ALGORITHM_TAG)]);
    }

    static method AttributesFieldL(attributes: Option<seq<AttributeValue>>, id: byte) returns (r: Outcome<seq<Enc>>)
      ensures r == EncPresentList(attributes, id, EncAttribute)
    {
      hide EncAttribute, EncodeAll;
      if attributes.None? {
        return Ok([]);
      }
      var kids :- EncodeAllL(attributes.value, EncAttribute);
      r := Ok([Node(id, kids)]);
    }

    /** An empty list of recipients is refused, so it can only come from the constructor. */
    method SetRecipientInfosL(recipients: seq<RecipientValue>) returns (r: Outcome<()>)
      modifies this
      ensures r == if recipients == [] then Leave(KErrArgument) else Ok(())
      ensures iData == if r.Ok? then old(iData).(recipients := recipients) else old(iData)
    {
      if |recipients| == 0 {
        return Leave(KErrArgument);
      }
      iData := iData.(recipients := recipients);
      r := Ok(());
    }

    /** The attribute setters take any list, also one that is present but empty. */
    method SetAuthenticatedAttributesL(attributes: Option<seq<AttributeValue>>)
      modifies this
      ensures iData == old(iData).(authenticated := attributes)
    {
      iData := iData.(authenticated := attributes);
    }
  }
}
