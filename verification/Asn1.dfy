/** The primitive encoders and decoders of the ASN.1 library as the repository uses
    them, and CCMSSequence's sequence decoding. The content decoders look only at the
    contents octets: the repository applies them to implicitly tagged values. */
module Asn1 {
  import opened Outcomes
  import opened DerCodec

  const BOOLEAN_ID: byte := 0x01
  const INTEGER_ID: byte := 0x02
  const BIT_STRING_ID: byte := 0x03
  const OCTET_STRING_ID: byte := 0x04
  const NULL_ID: byte := 0x05
  const OID_ID: byte := 0x06
  const SEQUENCE_ID: byte := 0x30
  const SET_ID: byte := 0x31
  const IA5_STRING_TAG: nat := 22

  const INTEGER_TAG: nat := 2
  const SEQUENCE_TAG: nat := 16
  const SET_TAG: nat := 17
  const UTC_TIME_TAG: nat := 23
  const GENERALIZED_TIME_TAG: nat := 24

  type ContextTag = n: nat | n < 0x1F

  // -------------------------------------------------------------------- tags

  /** SetTag with the default class: context-specific, constructed bit kept. */
  function ImplicitTag(t: Enc, n: ContextTag): (r: Enc)
    ensures r.id % 0x20 == n as byte && r.id / 0x40 == 2 && Constructed(r.id) == Constructed(t.id)
    ensures Contents(r) == Contents(t) && (Fits(t) ==> Fits(r)) && (Fits(r) && LowTag(t.id) ==> Fits(t))
  {
    t.(id := (0x80 + (if Constructed(t.id) then 0x20 else 0) + n) as byte)
  }

  /** SetTag with both a tag and a class; the constructed bit is kept. */
  function SetTag(t: Enc, tag: ContextTag, cls: TagClass): (r: Enc)
    ensures ItemOf(r).Tag() == tag && ItemOf(r).Class() == cls && Constructed(r.id) == Constructed(t.id)
    ensures Contents(r) == Contents(t)
  {
    var bits: byte := match cls
      case Universal => 0
      case Application => 0x40
      case ContextSpecific => 0x80
      case Private => 0xC0;
    t.(id := bits + (if Constructed(t.id) then 0x20 else 0) + tag as byte)
  }

  /** The identifier octet consists of exactly these three parts. */
  lemma IdentifierParts(t: Enc, id: byte)
    requires LowTag(id)
    requires Constructed(t.id) == Constructed(id)
    ensures SetTag(t, Item(id, []).Tag(), Item(id, []).Class()).id == id
  {
  }

  /** An EXPLICIT tag: a constructed context-specific value around the encoding. */
  function ExplicitTag(t: Enc, n: ContextTag): (r: Enc)
    ensures r.id % 0x20 == n as byte && r.id / 0x40 == 2
    ensures Contents(r) == Der(t) && (Fits(r) ==> Fits(t))
  {
    var r := Node((0xA0 + n) as byte, [t]);
    DerAllSingle(t);
    r
  }

  lemma ExplicitFits(t: Enc, n: ContextTag, bound: nat)
    requires Fits(t) && |Contents(t)| <= bound < 0x100
    ensures Fits(ExplicitTag(t, n)) && |Contents(ExplicitTag(t, n))| <= bound + 6
  {
    NodeFits(ExplicitTag(t, n), bound);
  }

  lemma DerAllSingle(t: Enc)
    ensures DerAll([t]) == Der(t)
  {
    assert [t][1..] == [];
    assert Der(t) + [] == Der(t);
  }

  // ------------------------------------------------------------ CASN1EncEncoding

  /** Wraps an existing encoding; the constructed bit of its identifier is forced on. */
  function Reencode(s: bytes): (r: Outcome<Enc>)
    ensures r.Ok? <==> ReadTlv(s).Some?
    ensures r.Ok? ==> Constructed(r.value.id) && Fits(r.value) && r.value.Leaf?
  {
    match ReadTlv(s)
    case None => Leave(KErrLibrary)
    case Some(p) =>
      ReadTlvSound(s);
      Ok(Leaf(ForceConstructed(p.item.id), p.item.contents))
  }

  lemma ReencodeDer(t: Enc)
    requires Fits(t)
    ensures Reencode(Der(t)) == Ok(Leaf(ForceConstructed(t.id), Contents(t)))
    ensures Constructed(t.id) ==> Der(Reencode(Der(t)).value) == Der(t)
  {
    ReadWholeDer(t);
  }

  /** The octets an existing encoding has after being wrapped and written again. */
  function Rewritten(s: bytes): bytes {
    match Reencode(s)
    case Ok(t) => Der(t)
    case _ => s
  }

  /** Wrapping a second time changes nothing. */
  lemma RewrittenStable(s: bytes)
    requires Reencode(s).Ok?
    ensures Reencode(Rewritten(s)) == Reencode(s)
    ensures Rewritten(Rewritten(s)) == Rewritten(s)
  {
    ReencodeDer(Reencode(s).value);
  }

  /** Wrapping is exact on one constructed value and changes every other input. */
  lemma RewrittenExact(s: bytes)
    requires Reencode(s).Ok?
    ensures Rewritten(s) == s <==> Constructed(s[0]) && ReadTlv(s).value.rest == []
  {
    ReadTlvSound(s);
    var p := ReadTlv(s).value;
    assert s == p.item.Encoding() + p.rest;
    if p.rest == [] {
      assert s == p.item.Encoding();
    } else {
      assert |Rewritten(s)| < |s|;
    }
    assert Rewritten(s)[0] == ForceConstructed(s[0]);
  }

  /** EncodeL: leaves when no descriptor can hold the encoding. */
  function Encoded(t: Enc): (r: Outcome<bytes>) {
    if Fits(t) then Ok(Der(t)) else Leave(KErrNoMemory)
  }

  /** An encoder built from the finished encoding of another one. */
  function Wrap(t: Enc): (r: Outcome<Enc>)
    ensures r.Ok? ==> Fits(t) && Fits(r.value)
  {
    var encoding :- Encoded(t);
    Reencode(encoding)
  }

  lemma WrapExact(t: Enc)
    requires Fits(t) && Constructed(t.id)
    ensures Wrap(t).Ok? && Der(Wrap(t).value) == Der(t) && ItemOf(Wrap(t).value) == ItemOf(t)
  {
    ReencodeDer(t);
  }

  // ----------------------------------------------------------------- integers

  const INT_BOUND: int := 0x8000_0000

  /** TInt: a signed 32-bit integer. */
  type TInt = v: int | -INT_BOUND <= v < INT_BOUND

  /** Two's complement contents octets without redundant leading octets. */
  function TwosComplement(v: int): (s: bytes)
    ensures s != []
    decreases if v < 0 then -v else v
  {
    if -0x80 <= v < 0x80 then [(v % 0x100) as byte]
    else TwosComplement(v / 0x100) + [(v % 0x100) as byte]
  }

  /** The signed big-endian value of non-empty contents octets. */
  function Signed(s: bytes): int
    requires s != []
  {
    if |s| == 1 then (if s[0] >= 0x80 then s[0] as int - 0x100 else s[0] as int)
    else Signed(s[..|s| - 1]) * 0x100 + s[|s| - 1] as int
  }

  lemma {:induction false} SignedTwosComplement(v: int)
    ensures Signed(TwosComplement(v)) == v
    decreases if v < 0 then -v else v
  {
    if !(-0x80 <= v < 0x80) {
      SignedTwosComplement(v / 0x100);
      assert TwosComplement(v)[..|TwosComplement(v)| - 1] == TwosComplement(v / 0x100);
    }
  }

  lemma {:induction false} TwosComplementSize(v: int, k: nat)
    requires 1 <= k && -(Pow256(k) as int) <= 2 * v < Pow256(k)
    ensures |TwosComplement(v)| <= k
    decreases k
  {
    if !(-0x80 <= v < 0x80) {
      assert k > 1;
      var q, p := v / 0x100, Pow256(k - 2);
      assert Pow256(k - 1) == 0x100 * p && Pow256(k) == 0x1_0000 * p;
      assert 0x100 * q <= v <= 0x100 * q + 0xFF;
      assert -0x80 * p <= q < 0x80 * p;
      TwosComplementSize(q, k - 1);
    }
  }

  /** Section 8.3.2 of X.690: the first nine bits are never all equal. */
  lemma {:induction false} TwosComplementMinimal(v: int)
    ensures var s := TwosComplement(v);
      |s| > 1 ==> !(s[0] == 0 && s[1] < 0x80) && !(s[0] == 0xFF && s[1] >= 0x80)
    decreases if v < 0 then -v else v
  {
    if !(-0x80 <= v < 0x80) {
      var q := v / 0x100;
      TwosComplementMinimal(q);
      if -0x80 <= q < 0x80 {
        assert TwosComplement(v) == [(q % 0x100) as byte, (v % 0x100) as byte];
      } else {
        assert TwosComplement(v)[..2] == TwosComplement(q)[..2] by {
          assert |TwosComplement(q)| >= 2;
        }
      }
    }
  }

  lemma {:induction false} SignedRange(s: bytes)
    requires s != []
    ensures -(Pow256(|s|) as int) <= 2 * Signed(s) < Pow256(|s|)
  {
    if |s| == 1 {
      assert Pow256(1) == 0x100;
    } else {
      SignedRange(s[..|s| - 1]);
      var v, p := Signed(s[..|s| - 1]), Pow256(|s| - 2);
      assert Pow256(|s| - 1) == 0x100 * p && Pow256(|s|) == 0x1_0000 * p;
      assert -0x80 * p <= v < 0x80 * p;
    }
  }

  function EncInt(v: TInt): Enc {
    Leaf(INTEGER_ID, TwosComplement(v))
  }

  /** DecodeDERShortL: one to four contents octets. */
  function DecInt(item: Item): (r: Outcome<TInt>)
    ensures r != Panic
  {
    if 1 <= |item.contents| <= 4 then
      SignedRange(item.contents);
      Pow256Monotone(|item.contents|, 4);
      assert Pow256(4) == 2 * INT_BOUND;
      Ok(Signed(item.contents))
    else Leave(KErrLibrary)
  }

  lemma {:induction false} Pow256Monotone(a: nat, b: nat)
    requires a <= b
    ensures 1 <= Pow256(a) <= Pow256(b)
    decreases b
  {
    if a < b {
      Pow256Monotone(a, b - 1);
    } else if 0 < b {
      Pow256Monotone(b - 1, b - 1);
    }
  }

  lemma IntRoundTrip(v: TInt)
    ensures DecInt(ItemOf(EncInt(v))) == Ok(v)
    ensures Fits(EncInt(v))
  {
    SignedTwosComplement(v);
    assert Pow256(1) == 0x100 && Pow256(2) == 0x1_0000 && Pow256(3) == 0x100_0000 && Pow256(4) == 2 * INT_BOUND;
    TwosComplementSize(v, 4);
  }

  // ------------------------------------------------------------ string types

  function EncOctets(s: bytes): Enc {
    Leaf(OCTET_STRING_ID, s)
  }

  function EncOid(oid: bytes): Enc {
    Leaf(OID_ID, oid)
  }

  /** A bit string of whole octets: the first contents octet counts no unused bits. */
  function EncBits(s: bytes): Enc {
    Leaf(BIT_STRING_ID, [0] + s)
  }

  /** ExtractOctetStringL leaves on a bit string that holds no octet. */
  function DecBits(item: Item): (r: Outcome<bytes>)
    ensures r != Panic
  {
    if |item.contents| <= 1 || item.contents[0] != 0 then Leave(KErrLibrary)
    else Ok(item.contents[1..])
  }

  lemma BitsRoundTrip(s: bytes, id: byte)
    ensures DecBits(Item(id, Contents(EncBits(s)))) == (if s == [] then Leave(KErrLibrary) else Ok(s))
  {
  }

  /** DecodeDERL( descriptor, pos ) of a string type: contents of the first value. */
  function DecFirst(s: bytes): (r: Outcome<bytes>)
    ensures r != Panic
  {
    match ReadTlv(s)
    case Some(p) => Ok(p.item.contents)
    case None => Leave(KErrLibrary)
  }

  /** A distinguished name, kept as the contents octets of its RDNSequence. */
  type Name = bytes

  function EncName(name: Name): Enc {
    Leaf(SEQUENCE_ID, name)
  }

  function DecName(raw: bytes): (r: Outcome<Name>)
    ensures r != Panic
  {
    match ReadTlv(raw)
    case Some(p) => if p.item.Tag() == SEQUENCE_TAG then Ok(p.item.contents) else Leave(KErrLibrary)
    case None => Leave(KErrLibrary)
  }

  lemma NameRoundTrip(name: Name)
    requires Fits(EncName(name))
    ensures DecName(Der(EncName(name))) == Ok(name)
  {
    ReadWholeDer(EncName(name));
  }

  // ------------------------------------------------------------- CCMSSequence

  /** InitL on raw data: the leading value. */
  function Head(raw: bytes): (r: Outcome<Item>)
    ensures r != Panic
  {
    match ReadTlv(raw)
    case Some(p) => Ok(p.item)
    case None => Leave(KErrLibrary)
  }

  /** TASN1DecSequence and TASN1DecSet: split the contents, whatever the tag. */
  function Children(item: Item): (r: Outcome<seq<Item>>)
    ensures r != Panic
  {
    LibraryValue(Items(item.contents))
  }

  /** CArrayPtr::At where no check precedes it. */
  function At(items: seq<Item>, pos: nat): (r: Outcome<Item>) {
    if pos < |items| then Ok(items[pos]) else Panic
  }

  /** DecodeSequenceLC: a SEQUENCE or a SET, split into its items. */
  function DecodeSequence(raw: bytes): (r: Outcome<seq<Item>>)
    ensures r != Panic
  {
    var item :- Head(raw);
    if item.Tag() != SEQUENCE_TAG && item.Tag() != SET_TAG then Leave(KErrArgument)
    else Children(item)
  }

  /** DecodeSequenceLC with bounds on the number of items. */
  function DecodeBoundedSequence(raw: bytes, min: nat, max: nat): (r: Outcome<seq<Item>>)
    ensures r.Ok? ==> min <= |r.value| <= max
    ensures r != Panic
  {
    var items :- DecodeSequence(raw);
    if |items| < min || |items| > max then Leave(KErrArgument) else Ok(items)
  }

  lemma DecodeNode(t: Enc)
    requires t.Node? && Fits(t)
    ensures Head(Der(t)) == Ok(ItemOf(t))
    ensures Children(ItemOf(t)) == Ok(ItemsOf(t.kids))
    ensures t.id == SEQUENCE_ID || t.id == SET_ID ==> DecodeSequence(Der(t)) == Ok(ItemsOf(t.kids))
  {
    assert Head(Der(t)) == Ok(ItemOf(t)) by {
      ReadWholeDer(t);
    }
    assert Items(ItemOf(t).contents) == Some(ItemsOf(t.kids)) by {
      ItemsOfNode(t);
    }
  }

  // -------------------------------------------------------------------- lists

  /** A loop that appends one child encoder per element, leaving at the first that leaves. */
  function EncodeAll<T>(vs: seq<T>, enc: T -> Outcome<Enc>): (r: Outcome<seq<Enc>>)
    ensures r.Ok? ==> |r.value| == |vs|
  {
    if vs == [] then Ok([])
    else
      var front :- EncodeAll(vs[..|vs| - 1], enc);
      var last :- enc(vs[|vs| - 1]);
      Ok(front + [last])
  }

  /** A loop that decodes the encoding of one item after the other. */
  function DecodeAll<T>(items: seq<Item>, dec: bytes -> Outcome<T>): (r: Outcome<seq<T>>)
    ensures r.Ok? ==> |r.value| == |items|
  {
    if items == [] then Ok([])
    else
      var front :- DecodeAll(items[..|items| - 1], dec);
      var last :- dec(items[|items| - 1].Encoding());
      Ok(front + [last])
  }

  function MapAll<T, U>(vs: seq<T>, f: T -> U): (r: seq<U>)
    ensures |r| == |vs|
  {
    seq(|vs|, i requires 0 <= i < |vs| => f(vs[i]))
  }

  lemma {:induction false} EncodeAllKids<T>(vs: seq<T>, enc: T -> Outcome<Enc>)
    requires EncodeAll(vs, enc).Ok?
    ensures forall i :: 0 <= i < |vs| ==> enc(vs[i]) == Ok(EncodeAll(vs, enc).value[i])
  {
    if vs != [] {
      EncodeAllKids(vs[..|vs| - 1], enc);
    }
  }

  /** Once a prefix has failed the whole loop has failed in the same way. */
  lemma {:induction false} DecodeAllFails<T>(items: seq<Item>, dec: bytes -> Outcome<T>, k: nat)
    requires k <= |items| && DecodeAll(items[..k], dec).IsFailure()
    ensures DecodeAll(items, dec) == DecodeAll(items[..k], dec)
    decreases |items|
  {
    if k == |items| {
      assert items[..k] == items;
    } else {
      var front := items[..|items| - 1];
      assert front[..k] == items[..k];
      DecodeAllFails(front, dec, k);
    }
  }

  /** The items before k are decoded, and item k ends the thread. */
  predicate PanicsAt<T>(items: seq<Item>, dec: bytes -> Outcome<T>, k: int) {
    0 <= k < |items| && DecodeAll(items[..k], dec).Ok? && dec(items[k].Encoding()) == Panic
  }

  /** A loop ends the thread exactly when the first item that is not decoded does. */
  lemma {:induction false} DecodeAllPanics<T>(items: seq<Item>, dec: bytes -> Outcome<T>)
    ensures DecodeAll(items, dec) == Panic <==> exists k :: PanicsAt(items, dec, k)
  {
    hide Tlv;
    if items != [] {
      var n := |items| - 1;
      var front := items[..n];
      DecodeAllPanics(front, dec);
      if k :| PanicsAt(front, dec, k) {
        assert front[..k] == items[..k];
        assert PanicsAt(items, dec, k);
      } else if DecodeAll(items, dec) == Panic {
        assert PanicsAt(items, dec, n);
      }
      if k :| PanicsAt(items, dec, k) {
        assert items[..k + 1][..k] == items[..k];
        DecodeAllFails(items, dec, k + 1);
      }
    }
  }

  /** Some item makes its decoder end the thread, and all items before it are decoded. */
  predicate FirstEnds<T>(items: seq<Item>, dec: bytes -> Outcome<T>, ends: bytes -> bool) {
    exists k :: 0 <= k < |items| && EndsAt(items, dec, ends, k)
  }

  predicate EndsAt<T>(items: seq<Item>, dec: bytes -> Outcome<T>, ends: bytes -> bool, k: int) {
    0 <= k < |items| && DecodeAll(items[..k], dec).Ok? && ends(items[k].Encoding())
  }

  lemma DecodeAllEnds<T>(items: seq<Item>, dec: bytes -> Outcome<T>, ends: bytes -> bool)
    requires forall i :: 0 <= i < |items| ==> (dec(items[i].Encoding()) == Panic <==> ends(items[i].Encoding()))
    ensures DecodeAll(items, dec) == Panic <==> FirstEnds(items, dec, ends)
  {
    hide DecodeAll;
    DecodeAllPanics(items, dec);
    if k :| PanicsAt(items, dec, k) {
      assert EndsAt(items, dec, ends, k);
    }
    if k :| EndsAt(items, dec, ends, k) {
      assert PanicsAt(items, dec, k);
    }
  }

  lemma DecodeAllSafe<T>(items: seq<Item>, dec: bytes -> Outcome<T>)
    requires forall i :: 0 <= i < |items| ==> dec(items[i].Encoding()) != Panic
    ensures DecodeAll(items, dec) != Panic
  {
    DecodeAllPanics(items, dec);
  }

  lemma {:induction false} EncodeAllFails<T>(vs: seq<T>, enc: T -> Outcome<Enc>, k: nat)
    requires k <= |vs| && EncodeAll(vs[..k], enc).IsFailure()
    ensures EncodeAll(vs, enc) == EncodeAll(vs[..k], enc)
    decreases |vs|
  {
    if k == |vs| {
      assert vs[..k] == vs;
    } else {
      var front := vs[..|vs| - 1];
      assert front[..k] == vs[..k];
      EncodeAllFails(front, enc, k);
    }
  }

  predicate AllOf<T>(vs: seq<T>, p: T -> bool) {
    forall i :: 0 <= i < |vs| ==> p(vs[i])
  }

  /** Element by element round trips lift to lists of any length, and a list is read
      back exactly when each of its elements is. */
  lemma {:induction false} ListRoundTripExact<T>(vs: seq<T>, enc: T -> Outcome<Enc>, dec: bytes -> Outcome<T>,
    norm: T -> T, readable: T -> bool)
    requires EncodeAll(vs, enc).Ok?
    requires forall i :: 0 <= i < |vs| ==>
      enc(vs[i]).Ok? && (dec(Der(enc(vs[i]).value)) == Ok(norm(vs[i])) <==> readable(vs[i]))
    ensures DecodeAll(ItemsOf(EncodeAll(vs, enc).value), dec) == Ok(MapAll(vs, norm)) <==> AllOf(vs, readable)
  {
    hide Der, Tlv;
    if vs == [] {
      assert MapAll(vs, norm) == [];
    } else {
      var front, last := vs[..|vs| - 1], vs[|vs| - 1];
      ListRoundTripExact(front, enc, dec, norm, readable);
      var kids := EncodeAll(vs, enc).value;
      var items := ItemsOf(kids);
      assert kids[..|vs| - 1] == EncodeAll(front, enc).value;
      assert items[..|vs| - 1] == ItemsOf(kids[..|vs| - 1]);
      assert items[|vs| - 1].Encoding() == Der(enc(last).value) by { ItemEncoding(kids[|vs| - 1]); }
      assert MapAll(vs, norm) == MapAll(front, norm) + [norm(last)];
      assert AllOf(vs, readable) <==> AllOf(front, readable) && readable(last) by {
        assert vs == front + [last];
      }
      AppendsDecode(DecodeAll(items[..|vs| - 1], dec), MapAll(front, norm), dec(Der(enc(last).value)), norm(last));
    }
  }

  lemma ItemEncoding(t: Enc)
    ensures ItemOf(t).Encoding() == Der(t)
  {
  }

  function Appended<T>(front: Outcome<seq<T>>, last: Outcome<T>): Outcome<seq<T>> {
    var f :- front;
    var l :- last;
    Ok(f + [l])
  }

  lemma AppendsDecode<T>(front: Outcome<seq<T>>, f: seq<T>, last: Outcome<T>, l: T)
    ensures Appended(front, last) == Ok(f + [l]) <==> front == Ok(f) && last == Ok(l)
  {
    if Appended(front, last) == Ok(f + [l]) {
      var g, m := front.value, last.value;
      assert (g + [m])[..|g + [m]| - 1] == g && (f + [l])[..|f + [l]| - 1] == f;
      assert (g + [m])[|g + [m]| - 1] == m && (f + [l])[|f + [l]| - 1] == l;
    }
  }

  predicate Always<T>(v: T) {
    true
  }

  lemma ListRoundTrip<T>(vs: seq<T>, enc: T -> Outcome<Enc>, dec: bytes -> Outcome<T>, norm: T -> T)
    requires EncodeAll(vs, enc).Ok?
    requires forall i :: 0 <= i < |vs| ==> enc(vs[i]).Ok? && dec(Der(enc(vs[i]).value)) == Ok(norm(vs[i]))
    ensures DecodeAll(ItemsOf(EncodeAll(vs, enc).value), dec) == Ok(MapAll(vs, norm))
  {
    ListRoundTripExact(vs, enc, dec, norm, Always);
  }

  /** A loop that copies one element after the other. */
  function CopyAll<T>(vs: seq<T>, copy: T -> Outcome<T>): (r: Outcome<seq<T>>)
    ensures r.Ok? ==> |r.value| == |vs|
  {
    if vs == [] then Ok([])
    else
      var front :- CopyAll(vs[..|vs| - 1], copy);
      var last :- copy(vs[|vs| - 1]);
      Ok(front + [last])
  }

  lemma {:induction false} CopyAllFails<T>(vs: seq<T>, copy: T -> Outcome<T>, k: nat)
    requires k <= |vs| && CopyAll(vs[..k], copy).IsFailure()
    ensures CopyAll(vs, copy) == CopyAll(vs[..k], copy)
    decreases |vs|
  {
    if k == |vs| {
      assert vs[..k] == vs;
    } else {
      var front := vs[..|vs| - 1];
      assert front[..k] == vs[..k];
      CopyAllFails(front, copy, k);
    }
  }

  /** Copies that equal the elements up to a written form give the written form of the list,
      and the list itself where the elements already have that form. */
  lemma {:induction false} CopiesAreNormal<T>(vs: seq<T>, copy: T -> Outcome<T>, norm: T -> T)
    requires forall i :: 0 <= i < |vs| ==> copy(vs[i]) == Ok(norm(vs[i]))
    ensures CopyAll(vs, copy) == Ok(MapAll(vs, norm))
    ensures (forall i :: 0 <= i < |vs| ==> norm(vs[i]) == vs[i]) ==> CopyAll(vs, copy) == Ok(vs)
  {
    if vs == [] {
      assert MapAll(vs, norm) == [];
    } else {
      var front, last := vs[..|vs| - 1], vs[|vs| - 1];
      CopiesAreNormal(front, copy, norm);
      assert MapAll(vs, norm) == MapAll(front, norm) + [norm(last)];
      assert vs == front + [last];
    }
  }

  /** The loop that decodes every item into a new array. */
  method DecodeAllL<T>(items: seq<Item>, dec: bytes -> Outcome<T>) returns (r: Outcome<seq<T>>)
    ensures r == DecodeAll(items, dec)
  {
    var decoded: seq<T> := [];
    for i := 0 to |items|
      invariant DecodeAll(items[..i], dec) == Ok(decoded)
    {
      assert items[..i + 1][..i] == items[..i];
      var element := dec(items[i].Encoding());
      if element.IsFailure() {
        DecodeAllFails(items, dec, i + 1);
        return element.PropagateFailure();
      }
      decoded := decoded + [element.value];
    }
    assert items[..|items|] == items;
    r := Ok(decoded);
  }

  /** The loop that adds one child encoder per element. */
  method EncodeAllL<T>(vs: seq<T>, enc: T -> Outcome<Enc>) returns (r: Outcome<seq<Enc>>)
    ensures r == EncodeAll(vs, enc)
  {
    var kids: seq<Enc> := [];
    for i := 0 to |vs|
      invariant EncodeAll(vs[..i], enc) == Ok(kids)
    {
      assert vs[..i + 1][..i] == vs[..i];
      var kid := enc(vs[i]);
      if kid.IsFailure() {
        EncodeAllFails(vs, enc, i + 1);
        return kid.PropagateFailure();
      }
      kids := kids + [kid.value];
    }
    assert vs[..|vs|] == vs;
    r := Ok(kids);
  }

  /** The loop that copies every element into a new array. */
  method CopyAllL<T>(vs: seq<T>, copy: T -> Outcome<T>) returns (r: Outcome<seq<T>>)
    ensures r == CopyAll(vs, copy)
  {
    var copies: seq<T> := [];
    for i := 0 to |vs|
      invariant CopyAll(vs[..i], copy) == Ok(copies)
    {
      assert vs[..i + 1][..i] == vs[..i];
      var element := copy(vs[i]);
      if element.IsFailure() {
        CopyAllFails(vs, copy, i + 1);
        return element.PropagateFailure();
      }
      copies := copies + [element.value];
    }
    assert vs[..|vs|] == vs;
    r := Ok(copies);
  }

  // ------------------------------------------------------------ tagged lists

  /** The elements of a tagged list, whatever the tag. */
  function DecList<T>(item: Item, dec: bytes -> Outcome<T>): (r: Outcome<seq<T>>)
  {
    var items :- Children(item);
    DecodeAll(items, dec)
  }

  lemma TaggedListRoundTrip<T>(vs: seq<T>, id: byte, enc: T -> Outcome<Enc>, dec: bytes -> Outcome<T>, norm: T -> T,
    readable: T -> bool)
    requires EncodeAll(vs, enc).Ok? && Fits(Node(id, EncodeAll(vs, enc).value))
    requires forall i :: 0 <= i < |vs| ==>
      enc(vs[i]).Ok? && (Fits(enc(vs[i]).value) ==>
        (dec(Der(enc(vs[i]).value)) == Ok(norm(vs[i])) <==> readable(vs[i])))
    ensures DecList(ItemOf(Node(id, EncodeAll(vs, enc).value)), dec) == Ok(MapAll(vs, norm)) <==> AllOf(vs, readable)
  {
    hide Der, Tlv;
    var t := Node(id, EncodeAll(vs, enc).value);
    DecodeNode(t);
    EncodeAllKids(vs, enc);
    forall i | 0 <= i < |vs| ensures dec(Der(enc(vs[i]).value)) == Ok(norm(vs[i])) <==> readable(vs[i]) {
      assert enc(vs[i]) == Ok(t.kids[i]) && Fits(t.kids[i]);
    }
    ListRoundTripExact(vs, enc, dec, norm, readable);
  }

  /** Each value takes at least two octets, so there are fewer than 2^31 of them. */
  lemma {:induction false} KidCount(kids: seq<Enc>)
    ensures 2 * |kids| <= |DerAll(kids)|
  {
    if kids != [] {
      KidCount(kids[1..]);
    }
  }

  /** Elements with equal encoders give equal lists of encoders. */
  lemma {:induction false} EncodeAllSame<T>(vs: seq<T>, ws: seq<T>, enc: T -> Outcome<Enc>)
    requires |vs| == |ws| && forall i :: 0 <= i < |vs| ==> enc(vs[i]) == enc(ws[i])
    ensures EncodeAll(vs, enc) == EncodeAll(ws, enc)
  {
    if vs != [] {
      EncodeAllSame(vs[..|vs| - 1], ws[..|ws| - 1], enc);
    }
  }
}
