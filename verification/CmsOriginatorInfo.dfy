/** CCMSOriginatorInfo: the originator's certificates and revocation lists
    (section 9.1 of RFC 2630). */
module CmsOriginatorInfo {
  import opened Outcomes
  import opened DerCodec
  import opened Asn1
  import opened CmsCertificateChoices
  import opened CmsCertificateList
  import opened CmsSignedData

  datatype OriginatorInfoValue = OriginatorInfoValue(certs: Option<seq<ChoiceValue>>, crls: Option<seq<CrlValue>>)

  // ----------------------------------------------------------------- encoding

  /** Unlike in signed-data, a list that is present is written even when it is empty. */
  function EncPresentList<T>(list: Option<seq<T>>, id: byte, enc: T -> Outcome<Enc>): (r: Outcome<seq<Enc>>)
    ensures r.Ok? ==> |r.value| == if list.Some? then 1 else 0
    ensures r.Ok? && list.Some? ==> r.value[0].id == id
  {
    match list
    case None => Ok([])
    case Some(vs) =>
      var kids :- EncodeAll(vs, enc);
      Ok([Node(id, kids)])
  }

  function EncOriginatorInfo(v: OriginatorInfoValue): (r: Outcome<Enc>)
    ensures r.Ok? ==> r.value.Node? && r.value.id == SEQUENCE_ID
  {
    var certs :- EncPresentList(v.certs, CERTIFICATES_ID, EncChoice);
    var crls :- EncPresentList(v.crls, CRLS_ID, EncCrl);
    Ok(Node(SEQUENCE_ID, certs + crls))
  }

  // ----------------------------------------------------------------- decoding

  /** The array is created with the number of items as its granularity, which may not
      be zero. */
  function DecCountedList<T>(item: Item, dec: bytes -> Outcome<T>): (r: Outcome<seq<T>>)
  {
    var items :- Children(item);
    if items == [] then Panic else DecodeAll(items, dec)
  }

  function DecCertsAt(items: seq<Item>): (r: Outcome<Option<seq<ChoiceValue>>>)
  {
    if !TagAt(items, 0, CERTIFICATES_TAG) then Ok(None)
    else
      var list :- DecCountedList(items[0], DecChoice);
      Ok(Some(list))
  }

  /** An item after the certificates must be the revocation lists. */
  function DecCrlsAt(items: seq<Item>, pos: nat): (r: Outcome<Option<seq<CrlValue>>>)
  {
    if pos >= |items| then Ok(None)
    else if items[pos].Tag() != CRLS_TAG then Leave(KErrArgument)
    else
      var list :- DecCountedList(items[pos], DecCrl);
      Ok(Some(list))
  }

  /** DecodeArrayL */
  function DecOriginatorArray(items: seq<Item>): (r: Outcome<OriginatorInfoValue>)
  {
    var certs :- DecCertsAt(items);
    var crls :- DecCrlsAt(items, if certs.Some? then 1 else 0);
    Ok(OriginatorInfoValue(certs, crls))
  }

  /** DecodeL */
  function DecOriginatorInfo(raw: bytes): (r: Outcome<OriginatorInfoValue>)
  {
    var items :- DecodeBoundedSequence(raw, 0, 2);
    DecOriginatorArray(items)
  }

  /** DecodeImplicitTagL */
  function DecImplicitOriginatorInfo(raw: bytes, tag: nat): (r: Outcome<OriginatorInfoValue>)
  {
    var item :- Head(raw);
    if item.Tag() != tag then Leave(KErrArgument)
    else
      var items :- Children(item);
      if |items| > 2 then Leave(KErrArgument) else DecOriginatorArray(items)
  }

  // -------------------------------------------------------- what ends the thread

  /** A list without elements, or one whose first element that is not decoded ends it. */
  predicate CountedListEndsThread<T>(item: Item, dec: bytes -> Outcome<T>, ends: bytes -> bool) {
    && Children(item).Ok?
    && (Children(item).value == [] || FirstEnds(Children(item).value, dec, ends))
  }

  lemma CountedListPanicExact<T>(item: Item, dec: bytes -> Outcome<T>, ends: bytes -> bool)
    requires forall s: bytes :: dec(s) == Panic <==> ends(s)
    ensures DecCountedList(item, dec) == Panic <==> CountedListEndsThread(item, dec, ends)
  {
    hide DecodeAll, FirstEnds, Children;
    if Children(item).Ok? {
      DecodeAllEnds(Children(item).value, dec, ends);
    }
  }

  lemma CertsPanicExact(item: Item)
    ensures DecCountedList(item, DecChoice) == Panic <==> CountedListEndsThread(item, DecChoice, ChoiceEndsThread)
  {
    hide DecChoice, ChoiceEndsThread, DecCountedList, CountedListEndsThread;
    forall s: bytes ensures DecChoice(s) == Panic <==> ChoiceEndsThread(s) {
      ChoicePanicExact(s);
    }
    CountedListPanicExact(item, DecChoice, ChoiceEndsThread);
  }

  /** Revocation lists end the thread only when there are none. */
  lemma CountedCrlsPanicExact(item: Item)
    ensures DecCountedList(item, DecCrl) == Panic <==> Children(item) == Ok([])
  {
    hide DecCrl, Children;
    if Children(item).Ok? {
      DecodeAllSafe(Children(item).value, DecCrl);
    }
  }

  /** The certificates end the thread, or they can be read and the revocation lists behind
      them are empty. */
  predicate OriginatorArrayEndsThread(items: seq<Item>) {
    || (TagAt(items, 0, CERTIFICATES_TAG) && CountedListEndsThread(items[0], DecChoice, ChoiceEndsThread))
    || (DecCertsAt(items).Ok?
      && var pos := if TagAt(items, 0, CERTIFICATES_TAG) then 1 else 0;
        TagAt(items, pos, CRLS_TAG) && Children(items[pos]) == Ok([]))
  }

  lemma OriginatorArrayPanicExact(items: seq<Item>)
    ensures DecOriginatorArray(items) == Panic <==> OriginatorArrayEndsThread(items)
  {
    hide DecCountedList, CountedListEndsThread, Children;
    if items != [] {
      CertsPanicExact(items[0]);
    }
    var pos := if TagAt(items, 0, CERTIFICATES_TAG) then 1 else 0;
    if pos < |items| {
      CountedCrlsPanicExact(items[pos]);
    }
  }

  predicate OriginatorInfoEndsThread(raw: bytes) {
    DecodeBoundedSequence(raw, 0, 2).Ok? && OriginatorArrayEndsThread(DecodeBoundedSequence(raw, 0, 2).value)
  }

  predicate ImplicitOriginatorEndsThread(raw: bytes, tag: nat) {
    && Head(raw).Ok? && Head(raw).value.Tag() == tag
    && Children(Head(raw).value).Ok?
    && var items := Children(Head(raw).value).value;
      |items| <= 2 && OriginatorArrayEndsThread(items)
  }

  /** Which octets make an originator info end the thread. */
  lemma OriginatorInfoPanicExact(raw: bytes, tag: nat)
    ensures DecOriginatorInfo(raw) == Panic <==> OriginatorInfoEndsThread(raw)
    ensures DecImplicitOriginatorInfo(raw, tag) == Panic <==> ImplicitOriginatorEndsThread(raw, tag)
  {
    hide DecodeBoundedSequence, DecOriginatorArray, OriginatorArrayEndsThread, Head, Children;
    if DecodeBoundedSequence(raw, 0, 2).Ok? {
      OriginatorArrayPanicExact(DecodeBoundedSequence(raw, 0, 2).value);
    }
    if Head(raw).Ok? && Children(Head(raw).value).Ok? {
      OriginatorArrayPanicExact(Children(Head(raw).value).value);
    }
  }

  // --------------------------------------------------------------- round trip

  function MapOptional<T>(list: Option<seq<T>>, norm: T -> T): Option<seq<T>> {
    match list
    case Some(vs) => Some(MapAll(vs, norm))
    case None => None
  }

  function NormOriginatorInfo(v: OriginatorInfoValue): OriginatorInfoValue {
    OriginatorInfoValue(MapOptional(v.certs, NormChoice), MapOptional(v.crls, NormCrl))
  }

  /** Absent, or not empty and with readable elements. */
  predicate ListReadable<T>(list: Option<seq<T>>, readable: T -> bool) {
    list.Some? ==> |list.value| > 0 && AllOf(list.value, readable)
  }

  predicate OriginatorInfoReadable(v: OriginatorInfoValue) {
    ListReadable(v.certs, ChoiceReadable) && ListReadable(v.crls, CrlReadable)
  }

  /** A list written under its tag is read back exactly when it is not empty and its
      elements are readable; an empty one ends the thread. */
  lemma CountedListRoundTrip<T>(vs: seq<T>, id: byte, enc: T -> Outcome<Enc>, dec: bytes -> Outcome<T>, norm: T -> T,
    readable: T -> bool)
    requires EncodeAll(vs, enc).Ok? && Fits(Node(id, EncodeAll(vs, enc).value))
    requires forall i :: 0 <= i < |vs| ==>
      enc(vs[i]).Ok? && (Fits(enc(vs[i]).value) ==>
        (dec(Der(enc(vs[i]).value)) == Ok(norm(vs[i])) <==> readable(vs[i])))
    ensures var t := Node(id, EncodeAll(vs, enc).value);
      && (DecCountedList(ItemOf(t), dec) == Ok(MapAll(vs, norm)) <==> |vs| > 0 && AllOf(vs, readable))
      && (vs == [] ==> DecCountedList(ItemOf(t), dec) == Panic)
  {
    DecodeNode(Node(id, EncodeAll(vs, enc).value));
    TaggedListRoundTrip(vs, id, enc, dec, norm, readable);
  }

  lemma CertsRoundTrip(vs: seq<ChoiceValue>, id: byte)
    requires EncodeAll(vs, EncChoice).Ok? && Fits(Node(id, EncodeAll(vs, EncChoice).value))
    ensures var t := Node(id, EncodeAll(vs, EncChoice).value);
      && (DecCountedList(ItemOf(t), DecChoice) == Ok(MapAll(vs, NormChoice)) <==> |vs| > 0 && AllOf(vs, ChoiceReadable))
      && (vs == [] ==> DecCountedList(ItemOf(t), DecChoice) == Panic)
  {
    hide EncChoice, DecChoice, NormChoice, ChoiceReadable;
    EncodeAllKids(vs, EncChoice);
    forall i | 0 <= i < |vs| && Fits(EncChoice(vs[i]).value)
      ensures DecChoice(Der(EncChoice(vs[i]).value)) == Ok(NormChoice(vs[i])) <==> ChoiceReadable(vs[i])
    {
      ChoiceRoundTrip(vs[i]);
    }
    CountedListRoundTrip(vs, id, EncChoice, DecChoice, NormChoice, ChoiceReadable);
  }

  lemma CountedCrlsRoundTrip(vs: seq<CrlValue>, id: byte)
    requires EncodeAll(vs, EncCrl).Ok? && Fits(Node(id, EncodeAll(vs, EncCrl).value))
    ensures var t := Node(id, EncodeAll(vs, EncCrl).value);
      && (DecCountedList(ItemOf(t), DecCrl) == Ok(MapAll(vs, NormCrl)) <==> |vs| > 0 && AllOf(vs, CrlReadable))
      && (vs == [] ==> DecCountedList(ItemOf(t), DecCrl) == Panic)
  {
    hide EncCrl, DecCrl, NormCrl;
    EncodeAllKids(vs, EncCrl);
    forall i | 0 <= i < |vs| && Fits(EncCrl(vs[i]).value)
      ensures DecCrl(Der(EncCrl(vs[i]).value)) == Ok(NormCrl(vs[i])) <==> CrlReadable(vs[i])
    {
      CrlRoundTrip(vs[i]);
    }
    CountedListRoundTrip(vs, id, EncCrl, DecCrl, NormCrl, CrlReadable);
  }

  lemma CertsFieldDecodes(list: Option<seq<ChoiceValue>>, items: seq<Item>)
    requires EncPresentList(list, CERTIFICATES_ID, EncChoice).Ok?
    requires var field := EncPresentList(list, CERTIFICATES_ID, EncChoice).value;
      if field == [] then !TagAt(items, 0, CERTIFICATES_TAG)
      else items != [] && Fits(field[0]) && items[0] == ItemOf(field[0])
    ensures DecCertsAt(items) == Ok(MapOptional(list, NormChoice)) <==> ListReadable(list, ChoiceReadable)
    ensures DecCertsAt(items).Ok? ==> (DecCertsAt(items).value.Some? <==> list.Some?)
    ensures list == Some([]) ==> DecCertsAt(items) == Panic
  {
    hide EncChoice, DecChoice, NormChoice, ChoiceReadable, DecCountedList, MapAll, AllOf;
    if list.Some? {
      CertsRoundTrip(list.value, CERTIFICATES_ID);
    }
  }

  lemma CrlsFieldDecodes(list: Option<seq<CrlValue>>, items: seq<Item>, pos: nat)
    requires EncPresentList(list, CRLS_ID, EncCrl).Ok?
    requires var field := EncPresentList(list, CRLS_ID, EncCrl).value;
      if field == [] then pos >= |items| else pos < |items| && Fits(field[0]) && items[pos] == ItemOf(field[0])
    ensures DecCrlsAt(items, pos) == Ok(MapOptional(list, NormCrl)) <==> ListReadable(list, CrlReadable)
    ensures list == Some([]) ==> DecCrlsAt(items, pos) == Panic
  {
    hide EncCrl, DecCrl, NormCrl, CrlReadable, DecCountedList, MapAll, AllOf;
    if list.Some? {
      CountedCrlsRoundTrip(list.value, CRLS_ID);
    }
  }

  /** Both optional fields are told apart by tag alone. */
  lemma OriginatorArrayRoundTrip(v: OriginatorInfoValue, kids: seq<Enc>)
    requires EncOriginatorInfo(v).Ok? && kids == EncOriginatorInfo(v).value.kids
    requires forall i :: 0 <= i < |kids| ==> Fits(kids[i])
    ensures DecOriginatorArray(ItemsOf(kids)) == Ok(NormOriginatorInfo(v)) <==> OriginatorInfoReadable(v)
    ensures v.certs == Some([]) || (v.crls == Some([]) && ListReadable(v.certs, ChoiceReadable)) ==>
      DecOriginatorArray(ItemsOf(kids)) == Panic
    ensures |kids| <= 2
  {
    hide EncPresentList, DecCertsAt, DecCrlsAt, MapOptional, ListReadable, EncChoice, EncCrl;
    var items := ItemsOf(kids);
    var certs := EncPresentList(v.certs, CERTIFICATES_ID, EncChoice).value;
    var crls := EncPresentList(v.crls, CRLS_ID, EncCrl).value;
    assert certs != [] ==> kids[0] == certs[0];
    assert crls != [] ==> kids[|certs|] == crls[0];
    CertsFieldDecodes(v.certs, items);
    CrlsFieldDecodes(v.crls, items, |certs|);
  }

  /** Read back under its own tag and under any IMPLICIT one, exactly when no list that is
      present is empty and every element is readable. Empty certificates end the thread,
      and so do empty revocation lists behind readable certificates. */
  lemma OriginatorInfoRoundTrip(v: OriginatorInfoValue, t: Enc)
    requires EncOriginatorInfo(v).Ok? && t.Node? && t.kids == EncOriginatorInfo(v).value.kids && Fits(t)
    ensures DecImplicitOriginatorInfo(Der(t), ItemOf(t).Tag()) == Ok(NormOriginatorInfo(v))
      <==> OriginatorInfoReadable(v)
    ensures t.id == SEQUENCE_ID ==>
      (DecOriginatorInfo(Der(t)) == Ok(NormOriginatorInfo(v)) <==> OriginatorInfoReadable(v))
    ensures v.certs == Some([]) || (v.crls == Some([]) && ListReadable(v.certs, ChoiceReadable)) ==>
      DecImplicitOriginatorInfo(Der(t), ItemOf(t).Tag()) == Panic
  {
    hide EncOriginatorInfo, DecOriginatorArray, NormOriginatorInfo, OriginatorInfoReadable, Tlv;
    OriginatorArrayRoundTrip(v, t.kids);
    DecodeNode(t);
  }

  // ------------------------------------------------------------------ objects

  class OriginatorInfo {
    var iCerts: Option<seq<ChoiceValue>>
    var iCrls: Option<seq<CrlValue>>

    function Value(): OriginatorInfoValue
      reads this
    {
      OriginatorInfoValue(iCerts, iCrls)
    }

    constructor ()
      ensures Value() == OriginatorInfoValue(None, None)
    {
      iCerts, iCrls := None, None;
    }

    /** Both lists are decoded before either is replaced. */
    method DecodeArrayL(items: seq<Item>) returns (r: Outcome<()>)
      modifies this
      ensures r == Status(DecOriginatorArray(items))
      ensures Value() == if r.Ok? then DecOriginatorArray(items).value else old(Value())
    {
      hide DecChoice, DecCrl, DecodeAll, Children;
      var sequenceCounter := 0;
      var certs: Option<seq<ChoiceValue>> := None;
      if sequenceCounter < |items| {
        if items[sequenceCounter].Tag() == CERTIFICATES_TAG {
          var certList :- Children(items[sequenceCounter]);
          if |certList| == 0 {
            return Panic;
          }
          var list :- DecodeAllL(certList, DecChoice);
          certs := Some(list);
          sequenceCounter := sequenceCounter + 1;
        }
      }
      var crls: Option<seq<CrlValue>> := None;
      if sequenceCounter < |items| {
        if items[sequenceCounter].Tag() != CRLS_TAG {
          return Leave(KErrArgument);
        }
        var crlList :- Children(items[sequenceCounter]);
        if |crlList| == 0 {
          return Panic;
        }
        var list :- DecodeAllL(crlList, DecCrl);
        crls := Some(list);
      }
      iCerts := certs;
      iCrls := crls;
      r := Ok(());
    }

    method DecodeImplicitTagL(raw: bytes, tag: nat) returns (r: Outcome<()>)
      modifies this
      ensures r == Status(DecImplicitOriginatorInfo(raw, tag))
      ensures Value() == if r.Ok? then DecImplicitOriginatorInfo(raw, tag).value else old(Value())
    {
      hide DecOriginatorArray;
      var decGen :- Head(raw);
      if decGen.Tag() != tag {
        return Leave(KErrArgument);
      }
      var items :- Children(decGen);
      if |items| > 2 {
        return Leave(KErrArgument);
      }
      r := DecodeArrayL(items);
    }

    method EncoderLC() returns (r: Outcome<Enc>)
      ensures r == EncOriginatorInfo(Value())
    {
      hide EncChoice, EncCrl, EncodeAll;
      var root: seq<Enc> := [];
      if iCerts.Some? {
        var certs :- EncodeAllL(iCerts.value, EncChoice);
        root := root + [Node(CERTIFICATES_ID, certs)];
      }
      if iCrls.Some? {
        var crls :- EncodeAllL(iCrls.value, EncCrl);
        root := root + [Node(CRLS_ID, crls)];
      }
      assert root == EncPresentList(iCerts, CERTIFICATES_ID, EncChoice).value
        + EncPresentList(iCrls, CRLS_ID, EncCrl).value;
      r := Ok(Node(SEQUENCE_ID, root));
    }
  }
}
