/**
  * `BufferList` (bl): a byte string kept as a list of fragments. Every read is proved to be the
  * same read on the concatenation of the fragments.
  */
module BufferList {
  import opened Basics

  /** `Buffer.slice(start, end)`: negative ends count from the back, then everything is clamped. */
  function NodeSlice(buf: seq<Byte>, start: int, end: int): seq<Byte> {
    var lo := Clamp(start, |buf|);
    var hi := Clamp(end, |buf|);
    if lo <= hi then buf[lo..hi] else []
  }

  function Clamp(i: int, n: nat): (r: nat)
    ensures r <= n
  {
    var j := if i < 0 then i + n else i;
    if j < 0 then 0 else if j > n then n else j
  }

  lemma {:induction false} FlattenSplit(bufs: seq<seq<Byte>>, i: nat)
    requires i < |bufs|
    ensures Flatten(bufs) == Flatten(bufs[..i]) + (bufs[i] + Flatten(bufs[i + 1..]))
    ensures |Flatten(bufs[..i + 1])| == |Flatten(bufs[..i])| + |bufs[i]|
  {
    assert bufs == bufs[..i] + bufs[i..] && bufs[i..][1..] == bufs[i + 1..];
    FlattenConcat(bufs[..i], bufs[i..]);
    assert bufs[..i + 1] == bufs[..i] + [bufs[i]];
    FlattenConcat(bufs[..i], [bufs[i]]);
    assert Flatten([bufs[i]]) == bufs[i] + [];
  }

  /** The bytes in front of fragment `i`. */
  ghost function Before(bufs: seq<seq<Byte>>, i: nat): nat
    requires i <= |bufs|
  {
    if i == 0 then 0 else Before(bufs, i - 1) + |bufs[i - 1]|
  }

  lemma {:induction false} BeforeIs(bufs: seq<seq<Byte>>, i: nat)
    requires i <= |bufs|
    ensures Before(bufs, i) == |Flatten(bufs[..i])|
  {
    if i > 0 {
      BeforeIs(bufs, i - 1);
      FlattenSplit(bufs, i - 1);
    }
  }

  lemma BeforeAll(bufs: seq<seq<Byte>>)
    ensures Before(bufs, |bufs|) == |Flatten(bufs)|
  {
    BeforeIs(bufs, |bufs|);
    assert bufs[..|bufs|] == bufs;
  }

  /** The fragment of an offset, and the place in it; past the end, a place in the last fragment. */
  ghost function Place(bufs: seq<seq<Byte>>, offset: nat): (p: (nat, nat))
    requires |bufs| > 0
    ensures p.0 < |bufs| && Before(bufs, p.0) + p.1 == offset
    ensures offset < Before(bufs, |bufs|) ==> p.1 < |bufs[p.0]|
    ensures offset >= Before(bufs, |bufs|) ==> p.0 == |bufs| - 1
  {
    PlaceFrom(bufs, offset, 0)
  }

  ghost function PlaceFrom(bufs: seq<seq<Byte>>, offset: nat, i: nat): (p: (nat, nat))
    requires i < |bufs| && Before(bufs, i) <= offset
    ensures p.0 < |bufs| && Before(bufs, p.0) + p.1 == offset
    ensures offset < Before(bufs, |bufs|) ==> p.1 < |bufs[p.0]|
    ensures offset >= Before(bufs, |bufs|) ==> p.0 == |bufs| - 1
    decreases |bufs| - i
  {
    BeforeGrows(bufs, i + 1, |bufs|);
    if offset < Before(bufs, i) + |bufs[i]| || i == |bufs| - 1 then (i, offset - Before(bufs, i))
    else PlaceFrom(bufs, offset, i + 1)
  }

  lemma {:induction false} BeforeGrows(bufs: seq<seq<Byte>>, i: nat, j: nat)
    requires i <= j <= |bufs|
    ensures Before(bufs, i) <= Before(bufs, j)
    decreases j
  {
    if i < j { BeforeGrows(bufs, i, j - 1); }
  }

  /**
    * A range that ends before it starts is cut from the fragment of its start, where the end has
    * become negative and counts from the back.
    */
  ghost predicate Strays(bufs: seq<seq<Byte>>, lo: nat, hi: nat) {
    0 < hi < lo < Before(bufs, |bufs|)
    && var (i, off) := Place(bufs, lo);
    off < lo - hi < |bufs[i]|
  }

  lemma StraysPossible(a: Byte, b: Byte, c: Byte, d: Byte, e: Byte)
    ensures Strays([[a, b], [c, d, e]], 2, 1)
  {
    var bufs := [[a, b], [c, d, e]];
    assert Before(bufs, 1) == 2 && Before(bufs, 2) == 5;
    assert PlaceFrom(bufs, 2, 1) == (1, 0);
  }

  /** A range inside one fragment is that range of the whole. */
  lemma InsideFragment(bufs: seq<seq<Byte>>, i: nat, off: nat, n: nat)
    requires i < |bufs| && off + n <= |bufs[i]|
    ensures |Flatten(bufs[..i])| + off + n <= |Flatten(bufs)|
    ensures var base := |Flatten(bufs[..i])|; Flatten(bufs)[base + off..base + off + n] == bufs[i][off..off + n]
  {
    FlattenSplit(bufs, i);
  }

  class List {
    var bufs: seq<seq<Byte>>
    var length: nat

    ghost predicate Valid()
      reads this
    {
      length == |Contents()|
    }

    ghost function Contents(): seq<Byte>
      reads this
    {
      Flatten(bufs)
    }

    constructor ()
      ensures Valid() && Contents() == []
    {
      bufs, length := [], 0;
    }

    method Append(buf: seq<Byte>)
      requires Valid()
      modifies this
      ensures Valid() && Contents() == old(Contents()) + buf
    {
      FlattenConcat(bufs, [buf]);
      assert Flatten([buf]) == buf + [];
      bufs := bufs + [buf];
      length := length + |buf|;
    }

    /** `_offset`: the fragment that holds `offset`, and the place in it. */
    method Offset(offset: nat) returns (r: Option<(nat, nat)>)
      ensures r == if offset == 0 then Some((0, 0)) else if bufs == [] then None else Some(Place(bufs, offset))
    {
      if offset == 0 { return Some((0, 0)); }
      var tot, i := 0, 0;
      while i < |bufs|
        invariant i <= |bufs| && (i == |bufs| ==> bufs == [])
        invariant i < |bufs| ==> tot == Before(bufs, i) <= offset && PlaceFrom(bufs, offset, i) == Place(bufs, offset)
      {
        var t := tot + |bufs[i]|;
        if offset < t || i == |bufs| - 1 {
          return Some((i, offset - tot));
        }
        tot := t;
        i := i + 1;
      }
      r := None;
    }

    /** `slice` and `copy(null, 0, start, end)`. */
    method Slice(start: int, end: int) returns (r: seq<Byte>)
      requires Valid()
      ensures r == NodeSlice(Contents(), start, end) <==> !Strays(bufs, Clamp(start, length), Clamp(end, length))
    {
      BeforeAll(bufs);
      var srcStart := if start < 0 then start + length else start;
      var srcEnd := if end < 0 then end + length else end;
      if srcStart < 0 { srcStart := 0; }
      if srcEnd > length { srcEnd := length; }
      if srcStart >= length { return []; }
      if srcEnd <= 0 { return []; }
      r := Copy(srcStart, srcEnd);
    }

    method Copy(srcStart: nat, srcEnd: nat) returns (r: seq<Byte>)
      requires Valid() && srcStart < length && srcEnd <= length
      ensures srcStart <= srcEnd ==> r == Contents()[srcStart..srcEnd]
      ensures 0 < srcEnd < srcStart ==> (r == [] <==> !Strays(bufs, srcStart, srcEnd))
    {
      assert bufs != [];
      BeforeAll(bufs);
      var place := Offset(srcStart);
      var i, off := place.value.0, place.value.1;
      BeforeIs(bufs, i);
      var len := srcEnd - srcStart;
      if srcStart == 0 && srcEnd == length {
        if |bufs| == 1 {
          assert Flatten(bufs) == bufs[0] + [] == bufs[0];
          return bufs[0];
        }
        return Flatten(bufs);
      }
      if len <= |bufs[i]| - off {
        if len >= 0 { InsideFragment(bufs, i, off, len); }
        return NodeSlice(bufs[i], off, off + len);
      }
      r := Gather(i, off, len);
    }

    /** The copying loop of `copy`, over all fragments from `first` on. */
    method Gather(first: nat, off: nat, len: nat) returns (r: seq<Byte>)
      requires Valid() && first < |bufs| && off <= |bufs[first]| && |Flatten(bufs[..first])| + off + len <= length
      ensures var at := |Flatten(bufs[..first])| + off; r == Contents()[at..at + len]
    {
      BeforeIs(bufs, first);
      ghost var at, flat := Before(bufs, first) + off, Flatten(bufs);
      var dst := new Byte[len](_ => 0);
      var i, start, bufoff, bytes := first, off, 0, len;
      while i < |bufs|
        invariant first <= i <= |bufs| && 0 <= bufoff && bufoff + bytes == len && 0 <= bytes
        invariant i < |bufs| ==> start <= |bufs[i]|
        invariant i == |bufs| ==> start == 0
        invariant Before(bufs, i) + start == at + bufoff && 0 <= start
        invariant at + len <= |flat|
        invariant dst[..bufoff] == flat[at..at + bufoff]
      {
        var l := |bufs[i]| - start;
        if bytes <= l {
          CopyFragment(dst, i, start, bytes, bufoff, at);
          assert dst[..] == dst[..len];
          return dst[..];
        }
        CopyFragment(dst, i, start, l, bufoff, at);
        bufoff := bufoff + l;
        bytes := bytes - l;
        start := 0;
        i := i + 1;
      }
      BeforeAll(bufs);
      assert dst[..] == dst[..len];
      r := dst[..];
    }

    /** `this._bufs[i].copy(dst, bufoff, start, start + n)`, after everything up to `bufoff`. */
    method CopyFragment(dst: array<Byte>, i: nat, start: nat, n: nat, bufoff: nat, ghost at: nat)
      requires i < |bufs| && start + n <= |bufs[i]| && bufoff + n <= dst.Length
      requires Before(bufs, i) + start == at + bufoff && at + bufoff <= |Flatten(bufs)|
      requires dst[..bufoff] == Flatten(bufs)[at..at + bufoff]
      modifies dst
      ensures at + bufoff + n <= |Flatten(bufs)| && dst[..bufoff + n] == Flatten(bufs)[at..at + (bufoff + n)]
    {
      BeforeIs(bufs, i);
      InsideFragment(bufs, i, start, n);
      CopyInto(dst, bufoff, bufs[i][start..start + n]);
      JoinRanges(Flatten(bufs), at, bufoff, n);
      assert dst[..bufoff + n] == dst[..bufoff] + dst[bufoff..bufoff + n];
    }

    method ReadUInt8(offset: nat) returns (b: Byte)
      requires Valid() && offset < length
      ensures b == Contents()[offset]
    {
      var s := Slice(offset, offset + 1);
      b := s[0];
    }

    method ReadUInt16BE(offset: nat) returns (n: nat)
      requires Valid() && offset + 2 <= length
      ensures n == (Contents()[offset] as int) * 0x100 + Contents()[offset + 1]
    {
      var s := Slice(offset, offset + 2);
      n := (s[0] as int) * 0x100 + s[1];
    }

    method Consume(count: nat)
      requires Valid()
      modifies this
      ensures Valid()
      ensures Contents() == if count <= |old(Contents())| then old(Contents())[count..] else []
    {
      var bytes := count;
      ghost var flat := Flatten(bufs);
      while |bufs| > 0
        invariant length == |Flatten(bufs)| && 0 <= bytes
        invariant count <= |flat| ==> bytes <= |Flatten(bufs)| && Flatten(bufs)[bytes..] == flat[count..]
        invariant count > |flat| ==> bytes > |Flatten(bufs)|
        decreases |bufs|
      {
        ghost var rest := Flatten(bufs[1..]);
        assert Flatten(bufs) == bufs[0] + rest;
        if bytes >= |bufs[0]| {
          assert bytes <= |Flatten(bufs)| ==> Flatten(bufs)[bytes..] == rest[bytes - |bufs[0]|..];
          bytes := bytes - |bufs[0]|;
          length := length - |bufs[0]|;
          bufs := bufs[1..];
        } else {
          assert Flatten(bufs)[bytes..] == bufs[0][bytes..] + rest;
          length := length - bytes;
          bufs := [bufs[0][bytes..]] + bufs[1..];
          return;
        }
      }
    }
  }

  method CopyInto(dst: array<Byte>, at: nat, src: seq<Byte>)
    requires at + |src| <= dst.Length
    modifies dst
    ensures dst[at..at + |src|] == src && dst[..at] == old(dst[..at])
  {
    forall k | 0 <= k < |src| {
      dst[at + k] := src[k];
    }
  }

  lemma JoinRanges(s: seq<Byte>, at: nat, m: nat, n: nat)
    requires at + m + n <= |s|
    ensures s[at..at + m] + s[at + m..at + m + n] == s[at..at + (m + n)]
  {
  }
}
