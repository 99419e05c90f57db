/** CCMSX509CertificateList: a certificate revocation list
    (section 5.1 of RFC 2459). */
module CmsCertificateList {
  import opened Outcomes
  import opened DerCodec
  import opened Asn1
  import opened TimeUtil
  import opened AlgorithmIdentifier

  // --------------------------------------------------------------- extensions

  /** The data of an extension is the encoding of an OCTET STRING. */
  datatype Extension = Extension(oid: bytes, critical: bool, data: bytes)

  function EncExtension(e: Extension): (r: Outcome<Enc>)
  {
    var data :- DecFirst(e.data);
    Ok(Node(SEQUENCE_ID, [EncOid(e.oid)] + (if e.critical then [Leaf(BOOLEAN_ID, [0xFF])] else []) + [EncOctets(data)]))
  }

  function DecExtension(raw: bytes): (r: Outcome<Extension>)
    ensures r != Panic
  {
    var items :- DecodeBoundedSequence(raw, 2, 3);
    Ok(Extension(items[0].contents, |items| == 3 && items[1].contents != [0], items[|items| - 1].Encoding()))
  }

  function NormExtension(e: Extension): Extension {
    match DecFirst(e.data)
    case Ok(data) => e.(data := Der(EncOctets(data)))
    case _ => e
  }

  lemma ExtensionRoundTrip(e: Extension)
    requires EncExtension(e).Ok? && Fits(EncExtension(e).value)
    ensures DecExtension(Der(EncExtension(e).value)) == Ok(NormExtension(e))
  {
    DecodeNode(EncExtension(e).value);
  }

  lemma ExtensionStable(e: Extension)
    requires EncExtension(e).Ok?
    ensures EncExtension(NormExtension(e)) == EncExtension(e)
  {
    ReadTlvSound(e.data);
    ReadWholeDer(EncOctets(DecFirst(e.data).value));
  }

  /** EncodeExtensionsLC: nothing for absent and for empty extensions. */
  function EncExtensions(extensions: Option<seq<Extension>>): (r: Outcome<seq<Enc>>)
    ensures r.Ok? ==> |r.value| == if NormList(extensions).Some? then 1 else 0
  {
    match extensions
    case None => Ok([])
    case Some(list) =>
      if list == [] then Ok([])
      else
        var kids :- EncodeAll(list, EncExtension);
        Ok([Node(SEQUENCE_ID, kids)])
  }

  function DecExtensions(raw: bytes): (r: Outcome<seq<Extension>>)
    ensures r != Panic
  {
    var items :- DecodeSequence(raw);
    DecodeAllSafe(items, DecExtension);
    DecodeAll(items, DecExtension)
  }

  /** An empty list is encoded like an absent one. */
  function NormList<T>(list: Option<seq<T>>): Option<seq<T>> {
    if list == Some([]) then None else list
  }

  function NormExtensions(extensions: Option<seq<Extension>>): Option<seq<Extension>> {
    match NormList(extensions)
    case Some(list) => Some(MapAll(list, NormExtension))
    case None => None
  }

  lemma ExtensionsRoundTrip(list: seq<Extension>)
    requires list != [] && EncExtensions(Some(list)).Ok? && Fits(EncExtensions(Some(list)).value[0])
    ensures DecExtensions(Der(EncExtensions(Some(list)).value[0])) == Ok(MapAll(list, NormExtension))
  {
    hide EncExtension, DecExtension, NormExtension;
    var kids := EncodeAll(list, EncExtension).value;
    DecodeNode(Node(SEQUENCE_ID, kids));
    EncodeAllKids(list, EncExtension);
    forall i | 0 <= i < |list|
      ensures EncExtension(list[i]).Ok? && DecExtension(Der(EncExtension(list[i]).value)) == Ok(NormExtension(list[i]))
    {
      assert EncExtension(list[i]) == Ok(kids[i]) && Fits(kids[i]);
      ExtensionRoundTrip(list[i]);
    }
    ListRoundTrip(list, EncExtension, DecExtension, NormExtension);
  }

  lemma ExtensionsStable(extensions: Option<seq<Extension>>)
    requires EncExtensions(extensions).Ok?
    ensures EncExtensions(NormExtensions(extensions)) == EncExtensions(extensions)
  {
    hide EncExtension, NormExtension;
    if NormList(extensions).Some? {
      var list := extensions.value;
      EncodeAllKids(list, EncExtension);
      forall i | 0 <= i < |list| ensures EncExtension(MapAll(list, NormExtension)[i]) == EncExtension(list[i]) {
        ExtensionStable(list[i]);
      }
      EncodeAllSame(MapAll(list, NormExtension), list, EncExtension);
    }
  }

  // ------------------------------------------------------ revoked certificates

  datatype Revoked = Revoked(serial: TInt, date: Time, extensions: Option<seq<Extension>>)

  function EncRevoked(c: Revoked): (r: Outcome<Enc>)
  {
    var extensions :- EncExtensions(c.extensions);
    Ok(Node(SEQUENCE_ID, [EncInt(c.serial), EncTime(c.date)] + extensions))
  }

  function DecRevokedExtensions(items: seq<Item>): (r: Outcome<Option<seq<Extension>>>)
    ensures r != Panic
  {
    if |items| != 3 then Ok(None)
    else
      var list :- DecExtensions(items[2].Encoding());
      Ok(Some(list))
  }

  function DecRevoked(raw: bytes): (r: Outcome<Revoked>)
    ensures r != Panic
  {
    var items :- DecodeBoundedSequence(raw, 2, 3);
    var serial :- DecInt(items[0]);
    var date :- DecTime(items[1].Encoding());
    var extensions :- DecRevokedExtensions(items);
    Ok(Revoked(serial, date, extensions))
  }

  function NormRevoked(c: Revoked): Revoked {
    c.(extensions := NormExtensions(c.extensions))
  }

  lemma RevokedRoundTrip(c: Revoked)
    requires EncRevoked(c).Ok? && Fits(EncRevoked(c).value)
    ensures DecRevoked(Der(EncRevoked(c).value)) == Ok(NormRevoked(c))
  {
    hide EncExtensions, DecExtensions, DecTime, EncTime, DecInt, EncInt, Tlv;
    var t := EncRevoked(c).value;
    DecodeNode(t);
    IntRoundTrip(c.serial);
    TimeRoundTrip(c.date);
    if NormList(c.extensions).Some? {
      assert t.kids[2] == EncExtensions(c.extensions).value[0] && Fits(t.kids[2]);
      ExtensionsRoundTrip(c.extensions.value);
    }
  }

  lemma RevokedStable(c: Revoked)
    requires EncRevoked(c).Ok?
    ensures EncRevoked(NormRevoked(c)) == EncRevoked(c)
  {
    ExtensionsStable(c.extensions);
  }

  // ------------------------------------------------------------------ the list

  datatype CrlValue = CrlValue(
    version: TInt,
    signatureAlgorithm: AlgorithmId,
    issuer: Name,
    thisUpdate: Time,
    nextUpdate: Time,
    revoked: Option<seq<Revoked>>,
    extensions: Option<seq<Extension>>,
    signature: bytes)

  const DEFAULT_VERSION: TInt := 1
  const EXTENSIONS_TAG: nat := 0

  /** A zero TTime: the value of a time field that was never set. */
  const NIL_TIME: Time := Fields(0, 1, 1, 0, 0, 0)

  function EncRevokedField(revoked: Option<seq<Revoked>>): (r: Outcome<seq<Enc>>)
    ensures r.Ok? ==> |r.value| == if NormList(revoked).Some? then 1 else 0
  {
    match revoked
    case None => Ok([])
    case Some(list) =>
      if list == [] then Ok([])
      else
        var kids :- EncodeAll(list, EncRevoked);
        Ok([Node(SEQUENCE_ID, kids)])
  }

  function EncExtensionsField(extensions: Option<seq<Extension>>): (r: Outcome<seq<Enc>>)
    ensures r.Ok? ==> |r.value| == if NormList(extensions).Some? then 1 else 0
  {
    var inner :- EncExtensions(extensions);
    Ok(if inner == [] then [] else [ExplicitTag(inner[0], EXTENSIONS_TAG)])
  }

  /** The version written is always 1, and the next update is always written. */
  function EncTbs(c: CrlValue, algorithm: Enc): (r: Outcome<Enc>)
    ensures r.Ok? ==> r.value.Node? && r.value.id == SEQUENCE_ID
  {
    var revoked :- EncRevokedField(c.revoked);
    var extensions :- EncExtensionsField(c.extensions);
    Ok(Node(SEQUENCE_ID,
      [EncInt(DEFAULT_VERSION), algorithm, EncName(c.issuer), EncTime(c.thisUpdate), EncTime(c.nextUpdate)]
      + revoked + extensions))
  }

  function EncCrl(c: CrlValue): (r: Outcome<Enc>)
    ensures r.Ok? ==> r.value.Node? && r.value.id == SEQUENCE_ID
  {
    var inner :- EncAlgorithm(c.signatureAlgorithm);
    var algorithm :- Wrap(inner);
    var tbs :- EncTbs(c, algorithm);
    Ok(Node(SEQUENCE_ID, [tbs, algorithm, EncBits(c.signature)]))
  }

  /** Section 5.1 of RFC 2459: version, algorithm, issuer, both updates, the revoked
      certificates and the EXPLICIT [0] extensions where there are any. */
  lemma CrlLayout(c: CrlValue, algorithm: Enc)
    requires EncTbs(c, algorithm).Ok? && algorithm.id == SEQUENCE_ID
    ensures Ids(EncTbs(c, algorithm).value.kids) == [0x02, 0x30, 0x30, TimeId(c.thisUpdate), TimeId(c.nextUpdate)]
      + (if NormList(c.revoked).Some? then [0x30] else []) + (if NormList(c.extensions).Some? then [0xA0] else [])
    ensures var kids := EncTbs(c, algorithm).value.kids;
      kids[0] == EncInt(1) && kids[2] == EncName(c.issuer) && kids[3] == EncTime(c.thisUpdate)
        && kids[4] == EncTime(c.nextUpdate)
  {
    hide EncRevoked, EncExtension, EncodeAll;
    var revoked := EncRevokedField(c.revoked).value;
    var extensions := EncExtensionsField(c.extensions).value;
    assert Ids(revoked) == if NormList(c.revoked).Some? then [0x30] else [];
    assert Ids(extensions) == if NormList(c.extensions).Some? then [0xA0] else [];
  }

  function TimeId(t: Time): byte {
    if 1950 <= t.year <= 2049 then 0x17 else 0x18
  }

  datatype TbsHead = TbsHead(version: TInt, algorithm: AlgorithmId, issuer: Name, thisUpdate: Time, pos: nat)

  /** The mandatory fields; pos is the cursor after them. */
  function DecTbsHead(items: seq<Item>): (r: Outcome<TbsHead>)
    requires 3 <= |items|
    ensures r.Ok? ==> 3 <= r.value.pos <= |items|
    ensures r != Panic
  {
    var version :- if items[0].Tag() == INTEGER_TAG then DecInt(items[0]) else Ok(DEFAULT_VERSION);
    var pos := if items[0].Tag() == INTEGER_TAG then 1 else 0;
    var algorithm :- DecAlgorithm(items[pos].Encoding());
    var issuer :- DecName(items[pos + 1].Encoding());
    if |items| <= pos + 2 then Leave(KErrArgument)
    else
      var thisUpdate :- DecTime(items[pos + 2].Encoding());
      Ok(TbsHead(version, algorithm, issuer, thisUpdate, pos + 3))
  }

  predicate TagAt(items: seq<Item>, pos: nat, tag: nat) {
    pos < |items| && items[pos].Tag() == tag
  }

  predicate TimeAt(items: seq<Item>, pos: nat) {
    TagAt(items, pos, UTC_TIME_TAG) || TagAt(items, pos, GENERALIZED_TIME_TAG)
  }

  datatype TbsTail = TbsTail(nextUpdate: Time, revoked: Option<seq<Revoked>>, extensions: Option<seq<Extension>>)

  function DecRevokedAt(items: seq<Item>, pos: nat): (r: Outcome<Option<seq<Revoked>>>)
    ensures r != Panic
  {
    if !TagAt(items, pos, SEQUENCE_TAG) then Ok(None)
    else
      var certs :- DecodeSequence(items[pos].Encoding());
      DecodeAllSafe(certs, DecRevoked);
      var list :- DecodeAll(certs, DecRevoked);
      Ok(Some(list))
  }

  function DecExtensionsAt(items: seq<Item>, pos: nat): (r: Outcome<Option<seq<Extension>>>)
    ensures r != Panic
  {
    if !TagAt(items, pos, EXTENSIONS_TAG) then Ok(None)
    else
      var inner :- Head(items[pos].contents);
      var list :- DecExtensions(inner.Encoding());
      Ok(Some(list))
  }

  /** The three optional fields, recognised by tag. */
  function DecTbsTail(items: seq<Item>, pos: nat): (r: Outcome<TbsTail>)
    ensures r != Panic
  {
    var nextUpdate :- if TimeAt(items, pos) then DecTime(items[pos].Encoding()) else Ok(NIL_TIME);
    var pos := pos + if TimeAt(items, pos) then 1 else 0;
    var revoked :- DecRevokedAt(items, pos);
    var pos := pos + if TagAt(items, pos, SEQUENCE_TAG) then 1 else 0;
    var extensions :- DecExtensionsAt(items, pos);
    Ok(TbsTail(nextUpdate, revoked, extensions))
  }

  predicate SameIdentifier(a: AlgorithmId, b: AlgorithmId) {
    a.algorithm == b.algorithm && a.params == b.params
  }

  function DecCrl(raw: bytes): (r: Outcome<CrlValue>)
    ensures r != Panic
  {
    var outer :- DecodeBoundedSequence(raw, 3, 3);
    var tbs :- DecodeBoundedSequence(outer[0].Encoding(), 3, 7);
    var head :- DecTbsHead(tbs);
    var tail :- DecTbsTail(tbs, head.pos);
    DecCrlSignature(outer, head, tail)
  }

  /** The algorithm outside the signed part must be the one inside it. */
  function DecCrlSignature(outer: seq<Item>, head: TbsHead, tail: TbsTail): (r: Outcome<CrlValue>)
    requires |outer| == 3
    ensures r != Panic
  {
    var algorithm :- DecAlgorithm(outer[1].Encoding());
    if !SameIdentifier(algorithm, head.algorithm) then Leave(KErrArgument)
    else
      var signature :- DecBits(outer[2]);
      Ok(CrlValue(head.version, head.algorithm, head.issuer, head.thisUpdate,
        tail.nextUpdate, tail.revoked, tail.extensions, signature))
  }

  function NormRevokedList(revoked: Option<seq<Revoked>>): Option<seq<Revoked>> {
    match NormList(revoked)
    case Some(list) => Some(MapAll(list, NormRevoked))
    case None => None
  }

  function NormCrl(c: CrlValue): CrlValue {
    c.(version := DEFAULT_VERSION,
       signatureAlgorithm := NormAlgorithm(c.signatureAlgorithm),
       revoked := NormRevokedList(c.revoked),
       extensions := NormExtensions(c.extensions))
  }

  // --------------------------------------------------------------- round trip

  lemma RevokedFieldRoundTrip(revoked: Option<seq<Revoked>>, items: seq<Item>, pos: nat)
    requires EncRevokedField(revoked).Ok?
    requires var field := EncRevokedField(revoked).value;
      if field == [] then !TagAt(items, pos, SEQUENCE_TAG)
      else pos < |items| && Fits(field[0]) && items[pos] == ItemOf(field[0])
    ensures DecRevokedAt(items, pos) == Ok(NormRevokedList(revoked))
    ensures TagAt(items, pos, SEQUENCE_TAG) <==> NormList(revoked).Some?
  {
    hide EncRevoked, DecRevoked, NormRevoked, Tlv;
    if NormList(revoked).Some? {
      var list := revoked.value;
      var kids := EncodeAll(list, EncRevoked).value;
      DecodeNode(Node(SEQUENCE_ID, kids));
      EncodeAllKids(list, EncRevoked);
      forall i | 0 <= i < |list|
        ensures EncRevoked(list[i]).Ok? && DecRevoked(Der(EncRevoked(list[i]).value)) == Ok(NormRevoked(list[i]))
      {
        assert EncRevoked(list[i]) == Ok(kids[i]) && Fits(kids[i]);
        RevokedRoundTrip(list[i]);
      }
      ListRoundTrip(list, EncRevoked, DecRevoked, NormRevoked);
    }
  }

  lemma ExtensionsFieldRoundTrip(extensions: Option<seq<Extension>>, items: seq<Item>, pos: nat)
    requires EncExtensionsField(extensions).Ok?
    requires var field := EncExtensionsField(extensions).value;
      if field == [] then pos >= |items|
      else pos < |items| && Fits(field[0]) && items[pos] == ItemOf(field[0])
    ensures DecExtensionsAt(items, pos) == Ok(NormExtensions(extensions))
  {
    hide EncExtension, DecExtension, NormExtension;
    if NormList(extensions).Some? {
      var inner := EncExtensions(extensions).value[0];
      assert Fits(inner);
      ReadWholeDer(inner);
      ExtensionsRoundTrip(extensions.value);
    }
  }

  /** The four mandatory fields, whatever stands behind them. */
  predicate StartsWithHead(c: CrlValue, algorithm: Enc, t: Enc) {
    && t.Node? && t.id == SEQUENCE_ID && 4 <= |t.kids| <= 7
    && t.kids[0] == EncInt(DEFAULT_VERSION) && t.kids[1] == algorithm
    && t.kids[2] == EncName(c.issuer) && t.kids[3] == EncTime(c.thisUpdate)
  }

  lemma HeadDecodes(c: CrlValue, algorithm: Enc, t: Enc)
    requires StartsWithHead(c, algorithm, t) && Fits(t)
    requires DecAlgorithm(Der(algorithm)) == Ok(NormAlgorithm(c.signatureAlgorithm))
    ensures var items := ItemsOf(t.kids);
      && DecodeBoundedSequence(Der(t), 3, 7) == Ok(items)
      && items[0].Tag() == INTEGER_TAG
      && DecTbsHead(items) == Ok(TbsHead(DEFAULT_VERSION, NormAlgorithm(c.signatureAlgorithm), c.issuer,
        c.thisUpdate, 4))
  {
    hide EncAlgorithm, DecAlgorithm, NormAlgorithm, EncTime, DecTime, DecName, TwosComplement, DecInt, Tlv;
    var kids, items := t.kids, ItemsOf(t.kids);
    DecodeNode(t);
    assert forall i :: 0 <= i < 4 ==> items[i] == ItemOf(kids[i]) && items[i].Encoding() == Der(kids[i]);
    assert Fits(kids[2]);
    IntRoundTrip(DEFAULT_VERSION);
    NameRoundTrip(c.issuer);
    TimeRoundTrip(c.thisUpdate);
  }

  lemma TbsHeadRoundTrip(c: CrlValue, algorithm: Enc)
    requires EncTbs(c, algorithm).Ok? && Fits(EncTbs(c, algorithm).value)
    requires DecAlgorithm(Der(algorithm)) == Ok(NormAlgorithm(c.signatureAlgorithm))
    ensures var items := ItemsOf(EncTbs(c, algorithm).value.kids);
      && DecodeBoundedSequence(Der(EncTbs(c, algorithm).value), 3, 7) == Ok(items)
      && DecTbsHead(items) == Ok(TbsHead(DEFAULT_VERSION, NormAlgorithm(c.signatureAlgorithm), c.issuer,
        c.thisUpdate, 4))
  {
    hide EncTime, EncRevokedField, EncExtensionsField, EncInt, EncName, DecAlgorithm, DecTbsHead, DecodeBoundedSequence;
    HeadDecodes(c, algorithm, EncTbs(c, algorithm).value);
  }

  lemma TbsTailRoundTrip(c: CrlValue, algorithm: Enc)
    requires EncTbs(c, algorithm).Ok? && Fits(EncTbs(c, algorithm).value)
    ensures DecTbsTail(ItemsOf(EncTbs(c, algorithm).value.kids), 4)
      == Ok(TbsTail(c.nextUpdate, NormRevokedList(c.revoked), NormExtensions(c.extensions)))
  {
    hide EncTime, DecTime, EncName, EncRevokedField, DecRevokedAt, EncExtensionsField, DecExtensionsAt,
      TwosComplement, Tlv;
    var t := EncTbs(c, algorithm).value;
    var kids, items := t.kids, ItemsOf(t.kids);
    var revoked := EncRevokedField(c.revoked).value;
    var extensions := EncExtensionsField(c.extensions).value;
    var pos := 5 + |revoked|;
    assert kids[4] == EncTime(c.nextUpdate);
    TimeRoundTrip(c.nextUpdate);
    if revoked != [] {
      assert kids[5] == revoked[0] && Fits(kids[5]);
    }
    if extensions != [] {
      assert kids[pos] == extensions[0] && Fits(kids[pos]);
      ExplicitItem(c.extensions);
    }
    RevokedFieldRoundTrip(c.revoked, items, 5);
    ExtensionsFieldRoundTrip(c.extensions, items, pos);
  }

  lemma ExplicitItem(extensions: Option<seq<Extension>>)
    requires EncExtensionsField(extensions).Ok? && EncExtensionsField(extensions).value != []
    ensures ItemOf(EncExtensionsField(extensions).value[0]).Tag() == EXTENSIONS_TAG
  {
  }

  /** A list is read back at every nesting level, with version 1; an empty signature
      is encoded but cannot be extracted again. */
  lemma CrlRoundTrip(c: CrlValue)
    requires EncCrl(c).Ok? && Fits(EncCrl(c).value)
    ensures DecCrl(Der(EncCrl(c).value)) == if c.signature == [] then Leave(KErrLibrary) else Ok(NormCrl(c))
  {
    hide EncAlgorithm, DecAlgorithm, NormAlgorithm, EncTbs, DecTbsHead, DecTbsTail, Tlv, Wrap;
    var t := EncCrl(c).value;
    var inner := EncAlgorithm(c.signatureAlgorithm).value;
    var algorithm := Wrap(inner).value;
    WrapExact(inner);
    AlgorithmRoundTrip(c.signatureAlgorithm);
    DecodeNode(t);
    assert Fits(t.kids[0]);
    TbsHeadRoundTrip(c, algorithm);
    TbsTailRoundTrip(c, algorithm);
    BitsRoundTrip(c.signature, BIT_STRING_ID);
  }

  lemma RevokedFieldStable(revoked: Option<seq<Revoked>>)
    requires EncRevokedField(revoked).Ok?
    ensures EncRevokedField(NormRevokedList(revoked)) == EncRevokedField(revoked)
  {
    hide EncRevoked, NormRevoked;
    if NormList(revoked).Some? {
      var list := revoked.value;
      EncodeAllKids(list, EncRevoked);
      forall i | 0 <= i < |list| ensures EncRevoked(MapAll(list, NormRevoked)[i]) == EncRevoked(list[i]) {
        RevokedStable(list[i]);
      }
      EncodeAllSame(MapAll(list, NormRevoked), list, EncRevoked);
    }
  }

  /** Encoding again gives the same octets exactly when the algorithm's parameters were
      not left empty. */
  lemma CrlStable(c: CrlValue)
    requires EncCrl(c).Ok?
    ensures EncCrl(NormCrl(c)).Ok?
    ensures Der(EncCrl(NormCrl(c)).value) == Der(EncCrl(c).value) <==> c.signatureAlgorithm.params != []
  {
    hide Der, EncCrl, NormCrl;
    CrlReencoded(c);
    DerOfAlike(EncCrl(NormCrl(c)).value, EncCrl(c).value);
  }

  lemma CrlReencoded(c: CrlValue)
    requires EncCrl(c).Ok?
    ensures EncCrl(NormCrl(c)).Ok?
    ensures Alike(EncCrl(NormCrl(c)).value, EncCrl(c).value)
    ensures EncCrl(NormCrl(c)) == EncCrl(c) <==> c.signatureAlgorithm.params != []
  {
    hide EncAlgorithm, NormAlgorithm, EncInt, EncTime, EncRevokedField, EncExtensions, NormRevokedList,
      NormExtensions, Wrap;
    RevokedFieldStable(c.revoked);
    ExtensionsStable(c.extensions);
    WrappedAlgorithmStable(c.signatureAlgorithm);
    var t, u := EncCrl(c).value, EncCrl(NormCrl(c)).value;
    assert t.kids[1] == Wrap(EncAlgorithm(c.signatureAlgorithm).value).value;
    assert u.kids[1] == Wrap(EncAlgorithm(NormAlgorithm(c.signatureAlgorithm)).value).value;
    NodesAlike(u.kids[0], t.kids[0]);
    NodesAlike(u, t);
  }

  // ---------------------------------------------------------- the next update

  /** The items of what is signed. */
  function TbsItems(raw: bytes): (r: Outcome<seq<Item>>)
    ensures r.Ok? ==> 3 <= |r.value| <= 7
  {
    var outer :- DecodeBoundedSequence(raw, 3, 3);
    DecodeBoundedSequence(outer[0].Encoding(), 3, 7)
  }

  /** The time behind the mandatory fields, of which there are four with a version and
      three without. */
  function NextUpdateItem(raw: bytes): Option<Item> {
    match TbsItems(raw)
    case Ok(items) =>
      var pos := if items[0].Tag() == INTEGER_TAG then 4 else 3;
      if TimeAt(items, pos) then Some(items[pos]) else None
    case _ => None
  }

  lemma HeadCursor(items: seq<Item>)
    requires 3 <= |items| && DecTbsHead(items).Ok?
    ensures DecTbsHead(items).value.pos == if items[0].Tag() == INTEGER_TAG then 4 else 3
  {
    hide DecAlgorithm, DecName, DecTime, DecInt;
  }

  /** A list that has been decoded and is encoded again always has a next update, so the
      presence of one is kept exactly when it was there. The one that is added is the time
      zero as a GeneralizedTime, and the octets are then different. */
  lemma NextUpdateAdded(raw: bytes)
    requires DecCrl(raw).Ok? && EncCrl(DecCrl(raw).value).Ok? && Fits(EncCrl(DecCrl(raw).value).value)
    ensures var written := Der(EncCrl(DecCrl(raw).value).value);
      && NextUpdateItem(written) == Some(ItemOf(EncTime(DecCrl(raw).value.nextUpdate)))
      && (NextUpdateItem(written).Some? == NextUpdateItem(raw).Some? <==> NextUpdateItem(raw).Some?)
      && (NextUpdateItem(raw).None? ==> written != raw)
    ensures NextUpdateItem(raw).None? ==>
      DecCrl(raw).value.nextUpdate == NIL_TIME && EncTime(DecCrl(raw).value.nextUpdate).id == 0x18
  {
    hide EncCrl, DecCrl, NextUpdateItem, EncTime, Tlv;
    DecodedNextUpdate(raw);
    WrittenNextUpdate(DecCrl(raw).value);
    TimeIdentifier(NIL_TIME);
  }

  /** Where there is no next update, the time is zero. */
  lemma DecodedNextUpdate(raw: bytes)
    requires DecCrl(raw).Ok?
    ensures NextUpdateItem(raw).None? ==> DecCrl(raw).value.nextUpdate == NIL_TIME
  {
    hide DecTbsHead, DecAlgorithm, DecBits, DecRevokedAt, DecExtensionsAt, DecTime, DecodeBoundedSequence, TimeAt;
    HeadCursor(TbsItems(raw).value);
  }

  lemma WrittenNextUpdate(c: CrlValue)
    requires EncCrl(c).Ok? && Fits(EncCrl(c).value)
    ensures NextUpdateItem(Der(EncCrl(c).value)) == Some(ItemOf(EncTime(c.nextUpdate)))
  {
    hide EncAlgorithm, DecAlgorithm, NormAlgorithm, EncTbs, DecTbsHead, Tlv, Wrap, EncTime, TimeAt;
    var t := EncCrl(c).value;
    var inner := EncAlgorithm(c.signatureAlgorithm).value;
    var algorithm := Wrap(inner).value;
    WrapExact(inner);
    AlgorithmRoundTrip(c.signatureAlgorithm);
    ItemEncoding(inner);
    DecodeNode(t);
    assert Fits(t.kids[0]);
    TbsHeadRoundTrip(c, algorithm);
    TbsPlaces(c, algorithm);
  }

  lemma TbsPlaces(c: CrlValue, algorithm: Enc)
    requires EncTbs(c, algorithm).Ok?
    ensures var items := ItemsOf(EncTbs(c, algorithm).value.kids);
      && items[0].Tag() == INTEGER_TAG && TimeAt(items, 4) && items[4] == ItemOf(EncTime(c.nextUpdate))
  {
    hide EncTime, EncRevokedField, EncExtensionsField, TwosComplement;
    TimeRoundTrip(c.nextUpdate);
    assert EncTbs(c, algorithm).value.kids[4] == EncTime(c.nextUpdate);
    assert EncTbs(c, algorithm).value.kids[0] == EncInt(DEFAULT_VERSION);
  }

  /** What EncCrl writes, without the next update. */
  function EncWithoutNextUpdate(c: CrlValue): (r: Outcome<Enc>)
    ensures r.Ok? ==> r.value.Node? && r.value.id == SEQUENCE_ID
  {
    var inner :- EncAlgorithm(c.signatureAlgorithm);
    var algorithm :- Wrap(inner);
    var tbs :- EncTbs(c, algorithm);
    Ok(Node(SEQUENCE_ID, [Node(SEQUENCE_ID, tbs.kids[..4] + tbs.kids[5..]), algorithm, EncBits(c.signature)]))
  }

  lemma BareHead(c: CrlValue, algorithm: Enc, t: Enc)
    requires EncTbs(c, algorithm).Ok?
    requires t == Node(SEQUENCE_ID, EncTbs(c, algorithm).value.kids[..4] + EncTbs(c, algorithm).value.kids[5..])
    ensures StartsWithHead(c, algorithm, t)
  {
    hide EncTime, EncRevokedField, EncExtensionsField, EncInt, EncName;
  }

  lemma BareTail(c: CrlValue, algorithm: Enc, t: Enc)
    requires EncTbs(c, algorithm).Ok? && Fits(t)
    requires t == Node(SEQUENCE_ID, EncTbs(c, algorithm).value.kids[..4] + EncTbs(c, algorithm).value.kids[5..])
    ensures var items := ItemsOf(t.kids);
      && !TimeAt(items, 4)
      && DecTbsTail(items, 4) == Ok(TbsTail(NIL_TIME, NormRevokedList(c.revoked), NormExtensions(c.extensions)))
  {
    hide EncTime, DecTime, EncName, EncRevokedField, DecRevokedAt, EncExtensionsField, DecExtensionsAt,
      TwosComplement, Tlv;
    var kids, items := t.kids, ItemsOf(t.kids);
    var revoked := EncRevokedField(c.revoked).value;
    var extensions := EncExtensionsField(c.extensions).value;
    var pos := 4 + |revoked|;
    if revoked != [] {
      assert kids[4] == revoked[0] && Fits(kids[4]);
      RevokedFieldTag(c.revoked);
    }
    if extensions != [] {
      assert kids[pos] == extensions[0] && Fits(kids[pos]);
      ExplicitItem(c.extensions);
    }
    RevokedFieldRoundTrip(c.revoked, items, 4);
    ExtensionsFieldRoundTrip(c.extensions, items, pos);
  }

  lemma RevokedFieldTag(revoked: Option<seq<Revoked>>)
    requires EncRevokedField(revoked).Ok? && EncRevokedField(revoked).value != []
    ensures ItemOf(EncRevokedField(revoked).value[0]).Tag() == SEQUENCE_TAG
  {
  }

  /** Every list is accepted without its next update. */
  lemma AcceptedWithoutNextUpdate(c: CrlValue)
    requires EncWithoutNextUpdate(c).Ok? && Fits(EncWithoutNextUpdate(c).value) && c.signature != []
    ensures var raw := Der(EncWithoutNextUpdate(c).value);
      DecCrl(raw) == Ok(NormCrl(c).(nextUpdate := NIL_TIME)) && NextUpdateItem(raw) == None
  {
    hide EncAlgorithm, DecAlgorithm, NormAlgorithm, EncTbs, DecTbsHead, DecTbsTail, Tlv, Wrap;
    var t := EncWithoutNextUpdate(c).value;
    var inner := EncAlgorithm(c.signatureAlgorithm).value;
    var algorithm := Wrap(inner).value;
    WrapExact(inner);
    AlgorithmRoundTrip(c.signatureAlgorithm);
    DecodeNode(t);
    assert Fits(t.kids[0]);
    BareHead(c, algorithm, t.kids[0]);
    HeadDecodes(c, algorithm, t.kids[0]);
    BareTail(c, algorithm, t.kids[0]);
    BitsRoundTrip(c.signature, BIT_STRING_ID);
  }

  const SOME_TIME: Time := Fields(2000, 1, 1, 0, 0, 0)
  const SOME_ALGORITHM := AlgorithmId(SHA1, None, [0x30, 0x00])
  const SOME_LIST := CrlValue(DEFAULT_VERSION, SOME_ALGORITHM, [], SOME_TIME, NIL_TIME, None, None, [1])

  lemma SomeAlgorithmFits()
    ensures EncAlgorithm(SOME_ALGORITHM).Ok? && NormAlgorithm(SOME_ALGORITHM) == SOME_ALGORITHM
    ensures var w := Wrap(EncAlgorithm(SOME_ALGORITHM).value);
      w.Ok? && Fits(w.value) && |Contents(w.value)| <= 22
  {
    hide LengthOctets, Wrap;
    var s := SOME_ALGORITHM.params;
    assert s[2..2] == [] && s[2..] == [];
    assert ReadTlv(s) == Some(Parsed(Item(0x30, []), []));
    RewrittenExact(SOME_ALGORITHM.params);
    var t := EncAlgorithm(SOME_ALGORITHM).value;
    NodeFits(t, 5);
    WrapExact(t);
  }

  lemma TimeFits(t: Time)
    ensures Fits(EncTime(t)) && |Contents(EncTime(t))| <= 15
  {
    hide TimeString;
  }

  lemma SomeListFits()
    ensures EncCrl(SOME_LIST).Ok? && Fits(EncCrl(SOME_LIST).value)
    ensures EncWithoutNextUpdate(SOME_LIST).Ok? && Fits(EncWithoutNextUpdate(SOME_LIST).value)
  {
    hide EncAlgorithm, Wrap, EncTime, Tlv, Contents;
    SomeAlgorithmFits();
    TimeFits(SOME_TIME);
    TimeFits(NIL_TIME);
    var algorithm := Wrap(EncAlgorithm(SOME_ALGORITHM).value).value;
    var tbs := EncTbs(SOME_LIST, algorithm).value;
    var kids := [EncInt(1), algorithm, EncName([]), EncTime(SOME_TIME), EncTime(NIL_TIME)];
    assert tbs.kids == kids;
    LeafContents(EncInt(1));
    LeafContents(EncName([]));
    LeafContents(EncBits([1]));
    var bare := Node(SEQUENCE_ID, kids[..4] + kids[5..]);
    NodeFits(tbs, 22);
    NodeFits(bare, 22);
    NodeFits(Node(SEQUENCE_ID, [tbs, algorithm, EncBits([1])]), 140);
    NodeFits(Node(SEQUENCE_ID, [bare, algorithm, EncBits([1])]), 140);
  }

  /** Octets that are accepted without a next update, and that get one. */
  lemma ListWithoutNextUpdate()
    ensures EncWithoutNextUpdate(SOME_LIST).Ok?
    ensures var raw := Der(EncWithoutNextUpdate(SOME_LIST).value);
      && DecCrl(raw) == Ok(SOME_LIST) && NextUpdateItem(raw) == None
      && EncCrl(SOME_LIST).Ok? && NextUpdateItem(Der(EncCrl(SOME_LIST).value)).Some?
  {
    hide EncAlgorithm, NormAlgorithm, EncCrl, EncWithoutNextUpdate, DecCrl, NextUpdateItem, Wrap;
    SomeAlgorithmFits();
    SomeListFits();
    AcceptedWithoutNextUpdate(SOME_LIST);
    WrittenNextUpdate(SOME_LIST);
  }

  lemma TimeIdentifier(t: Time)
    ensures EncTime(t).id == TimeId(t)
  {
    hide TimeString;
  }

  // ------------------------------------------------------- the serial number

  /** What a 32-bit register holds of an integer. */
  function Wrapped(v: int): TInt {
    (v + INT_BOUND) % (2 * INT_BOUND) - INT_BOUND
  }

  lemma WrappedShift(v: int, b: nat)
    requires b < 0x100
    ensures Wrapped(Wrapped(Wrapped(v) * 0x100) + b) == Wrapped(v * 0x100 + b)
  {
    var q := (v + INT_BOUND) / (2 * INT_BOUND);
    assert Wrapped(v) == v - 2 * INT_BOUND * q;
    var w := Wrapped(v) * 0x100;
    var p := (w + INT_BOUND) / (2 * INT_BOUND);
    assert Wrapped(w) == w - 2 * INT_BOUND * p;
    WrappedPeriod(v * 0x100 + b, -0x100 * q - p);
    assert Wrapped(w) + b == v * 0x100 + b + 2 * INT_BOUND * (-0x100 * q - p);
  }

  lemma WrappedPeriod(v: int, k: int)
    ensures Wrapped(v + 2 * INT_BOUND * k) == Wrapped(v)
  {
  }

  /** The signed value of the first j octets; of none, the sign of the first. */
  function PrefixValue(octets: bytes, j: nat): int
    requires octets != [] && j <= |octets|
  {
    if j == 0 then (if octets[0] >= 0x80 then -1 else 0) else Signed(octets[..j])
  }

  lemma PrefixStep(octets: bytes, j: nat)
    requires j < |octets|
    ensures PrefixValue(octets, j + 1) == PrefixValue(octets, j) * 0x100 + octets[j] as int
  {
    assert octets[..j + 1][..j] == octets[..j];
  }

  /** The loop of ConstructL that turns the serial number octets of a revoked certificate
      into a TInt: the signed value modulo 2^32, whatever the length. */
  method SerialNumber(octets: bytes) returns (serial: TInt)
    requires octets != []
    ensures serial == Wrapped(Signed(octets))
  {
    hide Wrapped, PrefixValue;
    serial := if octets[0] >= 0x80 then -1 else 0;
    var j := 0;
    SmallUnwrapped(octets);
    while j < |octets|
      invariant 0 <= j <= |octets|
      invariant serial == Wrapped(PrefixValue(octets, j))
    {
      PrefixStep(octets, j);
      WrappedShift(PrefixValue(octets, j), octets[j] as nat);
      serial := Wrapped(serial * 0x100);
      serial := Wrapped(serial + octets[j] as int);
      j := j + 1;
    }
    WholePrefix(octets);
  }

  lemma SmallUnwrapped(octets: bytes)
    requires octets != []
    ensures Wrapped(PrefixValue(octets, 0)) == (if octets[0] >= 0x80 then -1 else 0)
  {
  }

  lemma WholePrefix(octets: bytes)
    requires octets != []
    ensures PrefixValue(octets, |octets|) == Signed(octets)
  {
    assert octets[..|octets|] == octets;
  }

  /** A serial number is taken exactly when 32 bits hold it, however many octets it has;
      four octets are always held. */
  lemma SerialExact(octets: bytes)
    requires octets != []
    ensures Wrapped(Signed(octets)) == Signed(octets) <==> -INT_BOUND <= Signed(octets) < INT_BOUND
    ensures |octets| <= 4 ==> Wrapped(Signed(octets)) == Signed(octets)
  {
    hide Signed;
    if |octets| <= 4 {
      SignedRange(octets);
      Pow256Monotone(|octets|, 4);
      assert Pow256(4) == 2 * INT_BOUND;
    }
  }

  lemma WrappedCongruent(v: int, w: int)
    ensures Wrapped(v) == Wrapped(w) <==> (v - w) % (2 * INT_BOUND) == 0
  {
    var p, q := (v + INT_BOUND) / (2 * INT_BOUND), (w + INT_BOUND) / (2 * INT_BOUND);
    assert Wrapped(v) - Wrapped(w) == v - w - 2 * INT_BOUND * (p - q);
    if Wrapped(v) == Wrapped(w) {
      assert v - w == 2 * INT_BOUND * (p - q);
    }
  }

  /** Two serial numbers fall together exactly when they differ by a multiple of 2^32. */
  lemma SerialsFallTogether(a: bytes, b: bytes)
    requires a != [] && b != []
    ensures Wrapped(Signed(a)) == Wrapped(Signed(b)) <==> (Signed(a) - Signed(b)) % (2 * INT_BOUND) == 0
  {
    WrappedCongruent(Signed(a), Signed(b));
  }

  /** Two that do. */
  lemma SerialCollision()
    ensures Wrapped(Signed([0x01, 0, 0, 0, 0x07])) == Wrapped(Signed([0x07]))
  {
    var s: bytes := [0x01, 0, 0, 0, 0x07];
    assert s[..4][..3] == s[..3] && s[..3][..2] == s[..2] && s[..2][..1] == s[..1];
    assert Signed(s[..1]) == 1 && Signed(s[..2]) == 0x100 && Signed(s[..3]) == 0x1_0000 && Signed(s[..4]) == 0x100_0000;
    assert Signed(s) - Signed([0x07]) == 2 * INT_BOUND;
    SerialsFallTogether(s, [0x07]);
  }

  /** The value taken from a certificate survives the minimal INTEGER encoding of a
      revoked entry and its short decoding. */
  lemma SerialSurvives(octets: bytes)
    requires octets != []
    ensures DecInt(ItemOf(EncInt(Wrapped(Signed(octets))))) == Ok(Wrapped(Signed(octets)))
    ensures |octets| <= 4 ==> DecInt(ItemOf(EncInt(Wrapped(Signed(octets))))) == Ok(Signed(octets))
  {
    IntRoundTrip(Wrapped(Signed(octets)));
    if |octets| <= 4 {
      SerialExact(octets);
    }
  }

  // ------------------------------------------------------------------ objects

  /** Parameters as a caller hands them over: three of them may still be missing. */
  datatype CrlParameters = CrlParameters(version: TInt, signatureAlgorithm: Option<AlgorithmId>, issuer: Option<Name>,
    thisUpdate: Time, nextUpdate: Time, revoked: Option<seq<Revoked>>, extensions: Option<seq<Extension>>,
    signature: Option<bytes>)

  function Parameters(c: CrlValue): CrlParameters {
    CrlParameters(c.version, Some(c.signatureAlgorithm), Some(c.issuer), c.thisUpdate, c.nextUpdate, c.revoked,
      c.extensions, Some(c.signature))
  }

  class CertificateList {
    var iParams: CrlValue

    /** The constructor that takes complete parameters: version 1 only. */
    constructor (params: CrlValue)
      requires params.version == DEFAULT_VERSION
      ensures iParams == params
    {
      iParams := params;
    }

    /** Takes parameters that are complete and of the default version, and no others. */
    method SetParametersL(params: CrlParameters) returns (r: Outcome<()>)
      modifies this
      ensures r.Ok? <==>
        params.issuer.Some? && params.signature.Some? && params.signatureAlgorithm.Some?
          && params.version == DEFAULT_VERSION
      ensures !r.Ok? ==> r == Leave(KErrArgument) && iParams == old(iParams)
      ensures r.Ok? ==> params == Parameters(iParams)
    {
      if params.issuer.None? || params.signature.None? || params.signatureAlgorithm.None?
        || params.version != DEFAULT_VERSION {
        return Leave(KErrArgument);
      }
      iParams := CrlValue(params.version, params.signatureAlgorithm.value, params.issuer.value, params.thisUpdate,
        params.nextUpdate, params.revoked, params.extensions, params.signature.value);
      r := Ok(());
    }

    /** A failure at any depth leaves the parameters as they were. */
    method DecodeL(raw: bytes) returns (r: Outcome<()>)
      modifies this
      ensures r == Status(DecCrl(raw))
      ensures iParams == if r.Ok? then DecCrl(raw).value else old(iParams)
    {
      hide DecTbsHead, DecTbsTail;
      var certificateList :- DecodeBoundedSequence(raw, 3, 3);
      var tbsCertList :- DecodeBoundedSequence(certificateList[0].Encoding(), 3, 7);
      var head :- DecodeMandatoryFields(tbsCertList);
      var tail :- DecodeOptionalFields(tbsCertList, head.pos);
      var signAlg :- DecAlgorithm(certificateList[1].Encoding());
      if !SameIdentifier(signAlg, head.algorithm) {
        return Leave(KErrArgument);
      }
      var signature :- DecBits(certificateList[2]);
      iParams := CrlValue(head.version, head.algorithm, head.issuer, head.thisUpdate,
        tail.nextUpdate, tail.revoked, tail.extensions, signature);
      r := Ok(());
    }

    /** The cursor never runs past the items: the bounds on their number and the check
        before the first update cover every access. */
    static method DecodeMandatoryFields(tbsCertList: seq<Item>) returns (r: Outcome<TbsHead>)
      requires 3 <= |tbsCertList|
      ensures r == DecTbsHead(tbsCertList)
      ensures r.Ok? ==> r.value.pos <= |tbsCertList|
    {
      hide DecAlgorithm, DecName, DecTime, DecInt, Tlv;
      var pos := 0;
      var version := DEFAULT_VERSION;
      if tbsCertList[pos].Tag() == INTEGER_TAG {
        version :- DecInt(tbsCertList[pos]);
        pos := pos + 1;
      }
      var signAlg :- DecAlgorithm(tbsCertList[pos].Encoding());
      pos := pos + 1;
      var issuer :- DecName(tbsCertList[pos].Encoding());
      pos := pos + 1;
      if |tbsCertList| <= pos {
        return Leave(KErrArgument);
      }
      var thisUpdate :- DecTime(tbsCertList[pos].Encoding());
      pos := pos + 1;
      r := Ok(TbsHead(version, signAlg, issuer, thisUpdate, pos));
    }

    static method DecodeOptionalFields(tbsCertList: seq<Item>, start: nat) returns (r: Outcome<TbsTail>)
      ensures r == DecTbsTail(tbsCertList, start)
    {
      hide DecTime, DecRevoked, DecExtensions, DecodeSequence, DecodeAll, Head, Tlv;
      var pos := start;
      var nextUpdate := NIL_TIME;
      if |tbsCertList| > pos
        && (tbsCertList[pos].Tag() == UTC_TIME_TAG || tbsCertList[pos].Tag() == GENERALIZED_TIME_TAG) {
        nextUpdate :- DecTime(tbsCertList[pos].Encoding());
        pos := pos + 1;
      }
      var revoked: Option<seq<Revoked>> := None;
      if |tbsCertList| > pos && tbsCertList[pos].Tag() == SEQUENCE_TAG {
        var certs :- DecodeSequence(tbsCertList[pos].Encoding());
        var list :- DecodeRevokedL(certs);
        revoked := Some(list);
        pos := pos + 1;
      }
      var extensions: Option<seq<Extension>> := None;
      if |tbsCertList| > pos && tbsCertList[pos].Tag() == EXTENSIONS_TAG {
        var inner :- Head(tbsCertList[pos].contents);
        var list :- DecodeExtensionsL(inner);
        extensions := Some(list);
      }
      r := Ok(TbsTail(nextUpdate, revoked, extensions));
    }

    method EncoderLC() returns (r: Outcome<Enc>)
      ensures r == EncCrl(iParams)
    {
      hide EncAlgorithm, Wrap, EncRevoked, EncExtension, EncodeAll, EncInt, EncTime;
      var signDes :- EncAlgorithm(iParams.signatureAlgorithm);
      var signature :- Wrap(signDes);
      var tbsCertList := [EncInt(DEFAULT_VERSION), signature, EncName(iParams.issuer), EncTime(iParams.thisUpdate),
        EncTime(iParams.nextUpdate)];
      if iParams.revoked.Some? && |iParams.revoked.value| > 0 {
        var revokedCerts :- EncodeAllL(iParams.revoked.value, EncRevoked);
        tbsCertList := tbsCertList + [Node(SEQUENCE_ID, revokedCerts)];
      }
      if iParams.extensions.Some? && |iParams.extensions.value| > 0 {
        var extensions :- EncodeAllL(iParams.extensions.value, EncExtension);
        tbsCertList := tbsCertList + [ExplicitTag(Node(SEQUENCE_ID, extensions), EXTENSIONS_TAG)];
      }
      assert tbsCertList
        == [EncInt(DEFAULT_VERSION), signature, EncName(iParams.issuer), EncTime(iParams.thisUpdate),
          EncTime(iParams.nextUpdate)]
        + EncRevokedField(iParams.revoked).value + EncExtensionsField(iParams.extensions).value;
      r := Ok(Node(SEQUENCE_ID, [Node(SEQUENCE_ID, tbsCertList), signature, EncBits(iParams.signature)]));
    }

    static method DecodeRevokedL(certs: seq<Item>) returns (r: Outcome<seq<Revoked>>)
      ensures r == DecodeAll(certs, DecRevoked)
    {
      hide DecTime, DecInt, DecodeBoundedSequence, Tlv;
      var list: seq<Revoked> := [];
      for i := 0 to |certs|
        invariant DecodeAll(certs[..i], DecRevoked) == Ok(list)
      {
        assert certs[..i + 1][..i] == certs[..i];
        var cert := DecodeOneRevokedL(certs[i].Encoding());
        if cert.IsFailure() {
          DecodeAllFails(certs, DecRevoked, i + 1);
          return cert.PropagateFailure();
        }
        list := list + [cert.value];
      }
      assert certs[..|certs|] == certs;
      r := Ok(list);
    }

    static method DecodeOneRevokedL(raw: bytes) returns (r: Outcome<Revoked>)
      ensures r == DecRevoked(raw)
    {
      var rCert :- DecodeBoundedSequence(raw, 2, 3);
      var serial :- DecInt(rCert[0]);
      var date :- DecTime(rCert[1].Encoding());
      var extensions: Option<seq<Extension>> := None;
      if |rCert| == 3 {
        var list :- DecodeExtensionsL(rCert[2]);
        extensions := Some(list);
      }
      r := Ok(Revoked(serial, date, extensions));
    }

    static method DecodeExtensionsL(item: Item) returns (r: Outcome<seq<Extension>>)
      ensures r == DecExtensions(item.Encoding())
    {
      hide DecExtension, Tlv;
      var extens :- DecodeSequence(item.Encoding());
      r := DecodeAllL(extens, DecExtension);
    }
  }
}
