/** The DER substrate: low-tag identifier octets, minimal definite lengths
    (sections 8.1 and 10.1 of X.690), encoder trees and the one-level parser that
    the decoders use lazily. */
module DerCodec {
  import opened Outcomes

  newtype byte = x: int | 0 <= x < 0x100
  type bytes = seq<byte>

  /** Lengths are unsigned 32-bit quantities in the encoder. */
  const LENGTH_LIMIT: nat := 0x1_0000_0000

  // ---------------------------------------------------------------- lengths

  /** Base-256 digits, most significant first, without leading zeros. */
  function BigEndian(n: nat): (s: bytes)
  {
    if n == 0 then [] else BigEndian(n / 0x100) + [(n % 0x100) as byte]
  }

  function Unsigned(s: bytes): nat
  {
    if s == [] then 0 else Unsigned(s[..|s| - 1]) * 0x100 + s[|s| - 1] as nat
  }

  function LengthOctets(n: nat): (s: bytes)
    ensures 1 <= |s|
  {
    if n < 0x80 then [n as byte]
    else
      var digits := BigEndian(n % LENGTH_LIMIT);
      BigEndianSize(n % LENGTH_LIMIT, 4);
      [(0x80 + |digits|) as byte] + digits
  }

  function Pow256(k: nat): nat {
    if k == 0 then 1 else 0x100 * Pow256(k - 1)
  }

  lemma {:induction false} BigEndianSize(n: nat, k: nat)
    requires n < Pow256(k)
    ensures |BigEndian(n)| <= k
  {
    if n != 0 {
      BigEndianSize(n / 0x100, k - 1);
    }
  }

  lemma {:induction false} UnsignedBigEndian(n: nat)
    ensures Unsigned(BigEndian(n)) == n
  {
    if n != 0 {
      UnsignedBigEndian(n / 0x100);
      assert BigEndian(n)[..|BigEndian(n)| - 1] == BigEndian(n / 0x100);
    }
  }

  // ------------------------------------------------------ one encoded value

  /** One decoded value: its identifier octet and its contents, not yet interpreted. */
  datatype Item = Item(id: byte, contents: bytes) {

    function Tag(): nat {
      (id % 0x20) as nat
    }

    function Class(): TagClass {
      match id / 0x40
      case 0 => Universal
      case 1 => Application
      case 2 => ContextSpecific
      case _ => Private
    }

    function Encoding(): bytes {
      Tlv(id, contents)
    }

    predicate Fits() {
      LowTag(id) && |contents| < LENGTH_LIMIT
    }
  }

  datatype TagClass = Universal | Application | ContextSpecific | Private

  predicate LowTag(id: byte) {
    id % 0x20 != 0x1F
  }

  predicate Constructed(id: byte) {
    (id / 0x20) % 2 == 1
  }

  /** The identifier octet with its constructed bit set. */
  function ForceConstructed(id: byte): (r: byte)
    ensures Constructed(r) && r % 0x20 == id % 0x20 && r / 0x40 == id / 0x40
    ensures Constructed(id) ==> r == id
  {
    if Constructed(id) then id else id + 0x20
  }

  function Tlv(id: byte, contents: bytes): bytes {
    [id] + LengthOctets(|contents|) + contents
  }

  datatype Parsed = Parsed(item: Item, rest: bytes)

  /** Reads one value off the front of s; None where the octets are not DER. */
  function ReadTlv(s: bytes): (r: Option<Parsed>)
  {
    if |s| < 2 || !LowTag(s[0]) then None
    else if s[1] < 0x80 then
      var n := s[1] as nat;
      if |s| < 2 + n then None else Some(Parsed(Item(s[0], s[2..2 + n]), s[2 + n..]))
    else
      var k := s[1] as nat - 0x80;
      if k > 4 || |s| < 2 + k then None
      else
        var n := Unsigned(s[2..2 + k]);
        if LengthOctets(n) != s[1..2 + k] || |s| < 2 + k + n then None
        else Some(Parsed(Item(s[0], s[2 + k..2 + k + n]), s[2 + k + n..]))
  }

  /** A value is read back, whatever follows it. */
  lemma ReadTlvEncoding(item: Item, rest: bytes)
    requires item.Fits()
    ensures ReadTlv(item.Encoding() + rest) == Some(Parsed(item, rest))
  {
    var n := |item.contents|;
    var len := LengthOctets(n);
    var s := item.Encoding() + rest;
    assert s[0] == item.id;
    assert s[1..1 + |len|] == len;
    if n < 0x80 {
      assert s[1] == n as byte;
      assert s[2..2 + n] == item.contents;
      assert s[2 + n..] == rest;
    } else {
      BigEndianSize(n, 4);
      UnsignedBigEndian(n);
      var k := |len| - 1;
      assert s[1] == len[0] == (0x80 + k) as byte;
      assert s[2..2 + k] == len[1..] == BigEndian(n);
      assert s[2 + k..2 + k + n] == item.contents;
      assert s[2 + k + n..] == rest;
    }
  }

  /** Whatever is read is the unique value whose encoding starts the input. */
  lemma ReadTlvSound(s: bytes)
    requires ReadTlv(s).Some?
    ensures ReadTlv(s).value.item.Fits()
    ensures s == ReadTlv(s).value.item.Encoding() + ReadTlv(s).value.rest
  {
    if s[1] < 0x80 {
      Rejoin(s, 2, 2 + s[1] as nat);
      assert s[1..2] == LengthOctets(s[1] as nat);
    } else {
      var k := s[1] as nat - 0x80;
      UnsignedBound(s[2..2 + k], 4);
      Rejoin(s, 2 + k, 2 + k + Unsigned(s[2..2 + k]));
    }
  }

  /** Cutting s after its identifier and length octets and after its contents. */
  lemma Rejoin(s: bytes, a: nat, b: nat)
    requires 1 <= a <= b <= |s|
    ensures s == [s[0]] + s[1..a] + s[a..b] + s[b..]
  {
  }

  lemma {:induction false} UnsignedBound(s: bytes, k: nat)
    requires |s| <= k
    ensures Unsigned(s) < Pow256(k)
  {
    if k == 0 {
    } else if s == [] {
      UnsignedBound(s, k - 1);
    } else {
      UnsignedBound(s[..|s| - 1], k - 1);
    }
  }

  // ------------------------------------------------- sequences of encodings

  function Concat(items: seq<Item>): bytes {
    if items == [] then [] else items[0].Encoding() + Concat(items[1..])
  }

  predicate AllFit(items: seq<Item>) {
    forall i :: 0 <= i < |items| ==> items[i].Fits()
  }

  /** Splits contents octets into the values they consist of. */
  function Items(s: bytes): (r: Option<seq<Item>>)
    decreases |s|
  {
    if s == [] then Some([])
    else match ReadTlv(s)
      case None => None
      case Some(p) =>
        ReadTlvSound(s);
        match Items(p.rest)
        case None => None
        case Some(items) => Some([p.item] + items)
  }

  /** A concatenation of encodings splits back into exactly its parts. */
  lemma {:induction false} ItemsConcat(items: seq<Item>)
    requires AllFit(items)
    ensures Items(Concat(items)) == Some(items)
  {
    if items != [] {
      ItemsConcat(items[1..]);
      ReadTlvEncoding(items[0], Concat(items[1..]));
      assert [items[0]] + items[1..] == items;
    }
  }

  /** The split is unique: nothing else concatenates to the same octets. */
  lemma {:induction false} ItemsSound(s: bytes)
    requires Items(s).Some?
    ensures AllFit(Items(s).value) && Concat(Items(s).value) == s
    decreases |s|
  {
    if s != [] {
      ReadTlvSound(s);
      ItemsSound(ReadTlv(s).value.rest);
    }
  }

  lemma ConcatInjective(a: seq<Item>, b: seq<Item>)
    requires AllFit(a) && AllFit(b) && Concat(a) == Concat(b)
    ensures a == b
  {
    ItemsConcat(a);
    ItemsConcat(b);
  }

  // ------------------------------------------------------------ encoder trees

  /** An encoder: a leaf holds its contents octets, a node its child encoders. */
  datatype Enc = Leaf(id: byte, contents: bytes) | Node(id: byte, kids: seq<Enc>)

  function Contents(t: Enc): bytes
    decreases t, 0
  {
    match t
    case Leaf(_, contents) => contents
    case Node(_, kids) => DerAll(kids)
  }

  function Der(t: Enc): bytes
    decreases t, 1
  {
    Tlv(t.id, Contents(t))
  }

  function DerAll(kids: seq<Enc>): bytes
    decreases kids
  {
    if kids == [] then [] else Der(kids[0]) + DerAll(kids[1..])
  }

  /** The identifier octets of a list of encoders, in order. */
  function Ids(kids: seq<Enc>): (r: bytes)
    ensures |r| == |kids|
  {
    seq(|kids|, i requires 0 <= i < |kids| => kids[i].id)
  }

  lemma IdsOfParts(a: seq<Enc>, b: seq<Enc>)
    ensures Ids(a + b) == Ids(a) + Ids(b)
  {
  }

  function ItemOf(t: Enc): Item {
    Item(t.id, Contents(t))
  }

  function ItemsOf(kids: seq<Enc>): (r: seq<Item>)
    ensures |r| == |kids|
  {
    seq(|kids|, i requires 0 <= i < |kids| => ItemOf(kids[i]))
  }

  /** Every tag is a low tag and every length is representable. */
  predicate Fits(t: Enc) {
    && LowTag(t.id)
    && |Contents(t)| < LENGTH_LIMIT
    && (t.Node? ==> forall i :: 0 <= i < |t.kids| ==> Fits(t.kids[i]))
  }

  lemma {:induction false} DerAllIsConcat(kids: seq<Enc>)
    ensures DerAll(kids) == Concat(ItemsOf(kids))
  {
    if kids != [] {
      DerAllIsConcat(kids[1..]);
      assert ItemsOf(kids)[1..] == ItemsOf(kids[1..]);
    }
  }

  /** The contents of a node split into one item per child, in order. */
  lemma ItemsOfNode(t: Enc)
    requires t.Node? && Fits(t)
    ensures Items(Contents(t)) == Some(ItemsOf(t.kids))
  {
    DerAllIsConcat(t.kids);
    ItemsConcat(ItemsOf(t.kids));
  }

  lemma ReadDer(t: Enc, rest: bytes)
    requires Fits(t)
    ensures ReadTlv(Der(t) + rest) == Some(Parsed(ItemOf(t), rest))
  {
    ReadTlvEncoding(ItemOf(t), rest);
  }

  lemma ReadWholeDer(t: Enc)
    requires Fits(t)
    ensures ReadTlv(Der(t)) == Some(Parsed(ItemOf(t), []))
  {
    ReadDer(t, []);
    assert Der(t) + [] == Der(t);
  }

  predicate LowTags(t: Enc) {
    LowTag(t.id) && (t.Node? ==> forall i :: 0 <= i < |t.kids| ==> LowTags(t.kids[i]))
  }

  lemma {:induction false} KidShorter(kids: seq<Enc>, i: nat)
    requires i < |kids|
    ensures |Contents(kids[i])| < |Der(kids[i])| <= |DerAll(kids)|
  {
    if i != 0 {
      KidShorter(kids[1..], i - 1);
    }
  }

  /** An encoding that fits a descriptor has only representable lengths inside it. */
  lemma {:induction false} FitsBySize(t: Enc)
    requires LowTags(t) && |Der(t)| < LENGTH_LIMIT
    ensures Fits(t)
  {
    if t.Node? {
      forall i | 0 <= i < |t.kids| ensures Fits(t.kids[i]) {
        KidShorter(t.kids, i);
        FitsBySize(t.kids[i]);
      }
    }
  }

  lemma {:induction false} DerAllSmall(kids: seq<Enc>, bound: nat)
    requires forall i :: 0 <= i < |kids| ==> |Contents(kids[i])| <= bound
    ensures |DerAll(kids)| <= |kids| * (bound + 6)
  {
    hide LengthOctets, Contents;
    if kids != [] {
      LengthOctetsSmall(|Contents(kids[0])|);
      DerAllSmall(kids[1..], bound);
      assert |kids| * (bound + 6) == (bound + 6) + |kids[1..]| * (bound + 6);
    }
  }

  lemma LengthOctetsSmall(n: nat)
    ensures |LengthOctets(n)| <= 5
  {
    if 0x80 <= n {
      BigEndianSize(n % LENGTH_LIMIT, 4);
    }
  }

  /** A node of few small children fits. */
  lemma NodeFits(t: Enc, bound: nat)
    requires t.Node? && LowTag(t.id) && |t.kids| * (bound + 6) < LENGTH_LIMIT
    requires forall i :: 0 <= i < |t.kids| ==> Fits(t.kids[i]) && |Contents(t.kids[i])| <= bound
    ensures Fits(t) && |Contents(t)| <= |t.kids| * (bound + 6)
  {
    DerAllSmall(t.kids, bound);
  }

  lemma LeafContents(t: Enc)
    requires t.Leaf?
    ensures Contents(t) == t.contents
  {
  }

  // ------------------------------------------------------------ trees alike

  /** The same tree but for identifiers and for leaves of the same size. */
  predicate Alike(t: Enc, u: Enc)
    decreases t
  {
    if t.Node? then u.Node? && |t.kids| == |u.kids| && forall i :: 0 <= i < |t.kids| ==> Alike(t.kids[i], u.kids[i])
    else u.Leaf? && |t.contents| == |u.contents|
  }

  predicate AllAlike(a: seq<Enc>, b: seq<Enc>) {
    |a| == |b| && forall i :: 0 <= i < |a| ==> Alike(a[i], b[i])
  }

  lemma {:induction false} AlikeSelf(t: Enc)
    ensures Alike(t, t)
  {
    if t.Node? {
      forall i | 0 <= i < |t.kids| ensures Alike(t.kids[i], t.kids[i]) {
        AlikeSelf(t.kids[i]);
      }
    }
  }

  /** Children that are equal or alike make nodes that are alike. */
  lemma NodesAlike(t: Enc, u: Enc)
    requires t.Node? && u.Node? && |t.kids| == |u.kids|
    requires forall i :: 0 <= i < |t.kids| ==> t.kids[i] == u.kids[i] || Alike(t.kids[i], u.kids[i])
    ensures Alike(t, u)
  {
    forall i | 0 <= i < |t.kids| && t.kids[i] == u.kids[i] ensures Alike(t.kids[i], u.kids[i]) {
      AlikeSelf(t.kids[i]);
    }
  }

  /** Trees that are alike have encodings of the same size. */
  lemma {:induction false} AlikeSize(t: Enc, u: Enc)
    requires Alike(t, u)
    ensures |Contents(t)| == |Contents(u)| && |Der(t)| == |Der(u)|
    decreases t, 1
  {
    if t.Node? {
      AllAlikeSize(t.kids, u.kids);
    }
  }

  lemma {:induction false} AllAlikeSize(a: seq<Enc>, b: seq<Enc>)
    requires AllAlike(a, b)
    ensures |DerAll(a)| == |DerAll(b)|
    decreases a
  {
    if a != [] {
      AlikeSize(a[0], b[0]);
      AllAlikeSize(a[1..], b[1..]);
    }
  }

  /** Trees that are alike are equal exactly when their octets are. */
  lemma {:induction false} DerOfAlike(t: Enc, u: Enc)
    requires Alike(t, u)
    ensures Der(t) == Der(u) <==> t == u
    decreases t, 1
  {
    AlikeSize(t, u);
    if Der(t) == Der(u) {
      var n := 1 + |LengthOctets(|Contents(t)|)|;
      assert t.id == Der(t)[0] == Der(u)[0] == u.id;
      assert Contents(t) == Der(t)[n..] && Contents(u) == Der(u)[n..];
      if t.Node? {
        DerOfAllAlike(t.kids, u.kids);
      }
    }
  }

  lemma {:induction false} DerOfAllAlike(a: seq<Enc>, b: seq<Enc>)
    requires AllAlike(a, b)
    ensures DerAll(a) == DerAll(b) <==> a == b
    decreases a
  {
    if a != [] && DerAll(a) == DerAll(b) {
      AlikeSize(a[0], b[0]);
      var n := |Der(a[0])|;
      assert Der(a[0]) == DerAll(a)[..n] && Der(b[0]) == DerAll(b)[..n];
      assert DerAll(a[1..]) == DerAll(a)[n..] && DerAll(b[1..]) == DerAll(b)[n..];
      DerOfAlike(a[0], b[0]);
      DerOfAllAlike(a[1..], b[1..]);
      assert a == [a[0]] + a[1..] && b == [b[0]] + b[1..];
    }
  }

  // ------------------------------------------------------- received and written

  /** A received value is written again only with the contents it came with. */
  lemma TlvInjective(id: byte, a: bytes, item: Item)
    requires item.Fits()
    ensures Tlv(id, a) == item.Encoding() <==> id == item.id && a == item.contents
  {
    if Tlv(id, a) == item.Encoding() {
      var s, n, k := item.Encoding(), |LengthOctets(|a|)|, |LengthOctets(|item.contents|)|;
      assert s[1..1 + n] == LengthOctets(|a|) && s[1..1 + k] == LengthOctets(|item.contents|);
      assert s[1] == LengthOctets(|a|)[0] == LengthOctets(|item.contents|)[0];
      BigEndianSize(|item.contents|, 4);
      BigEndianSize(|a| % LENGTH_LIMIT, 4);
      assert n == k;
      assert a == s[1 + n..] && item.contents == s[1 + k..];
    }
  }

  /** Children are written as the contents that were received exactly when each of them is
      written as the item in its place was. */
  lemma KidsReproduced(kids: seq<Enc>, item: Item)
    requires item.Fits() && Items(item.contents).Some?
    requires forall i :: 0 <= i < |kids| ==> LowTag(kids[i].id)
    ensures DerAll(kids) == item.contents <==> WrittenAs(kids, Items(item.contents).value)
  {
    hide Tlv, Items, WrittenAs;
    var items := Items(item.contents).value;
    ItemsSound(item.contents);
    DerAllIsConcat(kids);
    WrittenAsItems(kids, items);
    if DerAll(kids) == item.contents {
      forall i | 0 <= i < |kids| ensures ItemsOf(kids)[i].Fits() {
        KidShorter(kids, i);
      }
      ConcatInjective(ItemsOf(kids), items);
    }
  }

  predicate WrittenAs(kids: seq<Enc>, items: seq<Item>) {
    |kids| == |items| && forall i :: 0 <= i < |kids| ==> Der(kids[i]) == items[i].Encoding()
  }

  lemma WrittenAsItems(kids: seq<Enc>, items: seq<Item>)
    requires AllFit(items)
    ensures WrittenAs(kids, items) <==> ItemsOf(kids) == items
  {
    hide Tlv, Contents;
    if |kids| == |items| {
      forall i | 0 <= i < |kids| ensures Der(kids[i]) == items[i].Encoding() <==> ItemsOf(kids)[i] == items[i] {
        TlvInjective(kids[i].id, Contents(kids[i]), items[i]);
      }
    }
  }

  lemma DerOfNode(id: byte, kids: seq<Enc>)
    ensures Der(Node(id, kids)) == Tlv(id, DerAll(kids))
  {
  }

  // ------------------------------------------------------------------- sizing

  /** LengthDER: the size computed before anything is written. */
  function LengthDer(t: Enc): nat
    decreases t, 1
  {
    var n := ContentsLength(t);
    1 + LengthOctetCount(n) + n
  }

  function ContentsLength(t: Enc): nat
    decreases t, 0
  {
    match t
    case Leaf(_, contents) => |contents|
    case Node(_, kids) => LengthDerAll(kids)
  }

  function LengthDerAll(kids: seq<Enc>): nat
    decreases kids
  {
    if kids == [] then 0 else LengthDer(kids[0]) + LengthDerAll(kids[1..])
  }

  function LengthOctetCount(n: nat): nat {
    if n < 0x80 then 1
    else if n < 0x100 then 2
    else if n < 0x1_0000 then 3
    else if n < 0x100_0000 then 4
    else 5
  }

  lemma {:induction false} BigEndianSizeExact(n: nat, k: nat)
    requires 0 < k && Pow256(k - 1) <= n < Pow256(k)
    ensures |BigEndian(n)| == k
  {
    if k > 1 {
      BigEndianSizeExact(n / 0x100, k - 1);
    } else {
      assert BigEndian(n / 0x100) == [];
    }
  }

  lemma LengthOctetCountExact(n: nat)
    requires n < LENGTH_LIMIT
    ensures |LengthOctets(n)| == LengthOctetCount(n)
  {
    if 0x80 <= n {
      var k := LengthOctetCount(n) - 1;
      assert Pow256(1) == 0x100 && Pow256(2) == 0x1_0000 && Pow256(3) == 0x100_0000 && Pow256(4) == LENGTH_LIMIT;
      BigEndianSizeExact(n, k);
    }
  }

  /** The computed length is the number of octets written, at every nesting level. */
  lemma {:induction false} LengthDerExact(t: Enc)
    requires Fits(t)
    ensures ContentsLength(t) == |Contents(t)| && LengthDer(t) == |Der(t)|
    decreases t, 1
  {
    if t.Node? {
      LengthDerAllExact(t.kids);
    }
    LengthOctetCountExact(|Contents(t)|);
  }

  lemma {:induction false} LengthDerAllExact(kids: seq<Enc>)
    requires forall i :: 0 <= i < |kids| ==> Fits(kids[i])
    ensures LengthDerAll(kids) == |DerAll(kids)|
    decreases kids
  {
    if kids != [] {
      LengthDerExact(kids[0]);
      LengthDerAllExact(kids[1..]);
    }
  }
}
