/** CCMSSequence: writing an encoder tree into a buffer of the computed size. */
module CmsSequence {
  import opened DerCodec

  /** WriteDERL: writes the encoding at pos and returns the position after it. */
  method WriteDer(t: Enc, buffer: array<byte>, pos: nat) returns (end: nat)
    requires Fits(t) && pos + LengthDer(t) <= buffer.Length
    modifies buffer
    ensures end == pos + LengthDer(t)
    ensures buffer[pos..end] == Der(t)
    ensures buffer[..pos] == old(buffer[..pos]) && buffer[end..] == old(buffer[end..])
    decreases t, 1
  {
    hide LengthOctets, LengthOctetCount;
    LengthDerExact(t);
    var len := LengthOctets(ContentsLength(t));
    ghost var start := pos + 1 + |len|;
    ghost var last := start + |Contents(t)|;
    assert pos + LengthDer(t) == last;
    end := WriteOctets([t.id] + len, buffer, pos);
    ghost var header := buffer[..];
    end := WriteContents(t, buffer, end);
    KeptBefore(header, buffer[..], pos, start);
    Joined(buffer[..], pos, start, last);
  }

  method WriteContents(t: Enc, buffer: array<byte>, pos: nat) returns (end: nat)
    requires Fits(t) && pos + ContentsLength(t) <= buffer.Length
    modifies buffer
    ensures end == pos + ContentsLength(t)
    ensures buffer[pos..end] == Contents(t)
    ensures buffer[..pos] == old(buffer[..pos]) && buffer[end..] == old(buffer[end..])
    decreases t, 0
  {
    hide Der, LengthDer;
    LengthDerExact(t);
    ghost var last := pos + ContentsLength(t);
    match t
    case Leaf(_, contents) =>
      end := WriteOctets(contents, buffer, pos);
    case Node(_, kids) =>
      end := pos;
      var i := 0;
      DerAllSplit(kids, 0);
      while i < |kids|
        invariant 0 <= i <= |kids|
        invariant end == pos + |DerAll(kids[..i])|
        invariant |DerAll(kids[..i])| + |DerAll(kids[i..])| == |DerAll(kids)|
        invariant buffer[pos..end] == DerAll(kids[..i])
        invariant buffer[..pos] == old(buffer[..pos])
        invariant buffer[last..] == old(buffer[last..])
      {
        LengthDerExact(kids[i]);
        DerAllSplit(kids, i + 1);
        DerAllAppend(kids[..i], kids[i]);
        assert kids[..i + 1] == kids[..i] + [kids[i]];
        ghost var before, from := buffer[..], end;
        end := WriteDer(kids[i], buffer, end);
        KeptBefore(before, buffer[..], pos, from);
        KeptAfter(before, buffer[..], end, last);
        Joined(buffer[..], pos, from, end);
        i := i + 1;
      }
      assert kids[..i] == kids && DerAll(kids[i..]) == [];
  }

  method WriteOctets(s: bytes, buffer: array<byte>, pos: nat) returns (end: nat)
    requires pos + |s| <= buffer.Length
    modifies buffer
    ensures end == pos + |s|
    ensures buffer[pos..end] == s
    ensures buffer[..pos] == old(buffer[..pos]) && buffer[end..] == old(buffer[end..])
  {
    forall i | 0 <= i < |s| {
      buffer[pos + i] := s[i];
    }
    end := pos + |s|;
  }

  /** EncodeL and CreateDerEncodingL: the buffer has the computed size and is filled
      exactly by the encoding. */
  method CreateDerEncoding(t: Enc) returns (der: bytes)
    requires Fits(t)
    ensures der == Der(t)
  {
    var buffer := new byte[LengthDer(t)](_ => 0);
    var end := WriteDer(t, buffer, 0);
    assert end == buffer.Length;
    der := buffer[..];
    assert der == buffer[0..end];
  }

  lemma KeptBefore(before: bytes, after: bytes, a: nat, b: nat)
    requires |before| == |after| && a <= b <= |before| && after[..b] == before[..b]
    ensures after[..a] == before[..a] && after[a..b] == before[a..b]
  {
    assert after[..a] == after[..b][..a] && before[..a] == before[..b][..a];
    assert after[a..b] == after[..b][a..] && before[a..b] == before[..b][a..];
  }

  lemma KeptAfter(before: bytes, after: bytes, a: nat, b: nat)
    requires |before| == |after| && a <= b <= |before| && after[a..] == before[a..]
    ensures after[b..] == before[b..]
  {
    assert after[b..] == after[a..][b - a..] && before[b..] == before[a..][b - a..];
  }

  lemma Joined(s: bytes, a: nat, b: nat, c: nat)
    requires a <= b <= c <= |s|
    ensures s[a..c] == s[a..b] + s[b..c]
  {
  }

  lemma {:induction false} DerAllAppend(kids: seq<Enc>, t: Enc)
    ensures DerAll(kids + [t]) == DerAll(kids) + Der(t)
  {
    hide Der;
    if kids == [] {
      assert ([] + [t])[1..] == [];
      assert Der(t) + [] == Der(t) == [] + Der(t);
    } else {
      DerAllAppend(kids[1..], t);
      assert (kids + [t])[1..] == kids[1..] + [t];
    }
  }

  lemma {:induction false} DerAllSplit(kids: seq<Enc>, i: nat)
    requires i <= |kids|
    ensures |DerAll(kids[..i])| + |DerAll(kids[i..])| == |DerAll(kids)|
  {
    if i == 0 {
      assert kids[0..] == kids;
    } else {
      DerAllSplit(kids, i - 1);
      DerAllAppend(kids[..i - 1], kids[i - 1]);
      assert kids[..i] == kids[..i - 1] + [kids[i - 1]];
      assert kids[i - 1..][1..] == kids[i..];
    }
  }
}
