/**
  * `StringDecoder` for UTF-8: buffers arrive in pieces, and a character cut by a piece's end is
  * held back until its last byte is there.
  */
module StringDecoder {
  import opened Basics
  import opened Utf8

  /** 0 for ASCII, 2..4 for a lead byte, -1 for a continuation byte, -2 for an invalid byte. */
  function CheckByte(b: Byte): int {
    if b <= 0x7F then 0
    else if b / 0x20 == 0x06 then 2
    else if b / 0x10 == 0x0E then 3
    else if b / 0x08 == 0x1E then 4
    else if b / 0x40 == 0x02 then -1 else -2
  }

  predicate Continues(b: Byte) { b / 0x40 == 2 }

  /** Bytes of an unfinished character, and how many more it needs; `lastTotal` is their sum. */
  datatype State = State(pending: seq<Byte>, need: nat) {
    ghost predicate Ok() { need <= 3 && |pending| <= 3 && (need == 0 <==> pending == []) && |pending| + need <= 4 }
  }

  const START := State([], 0)

  /** `utf8CheckIncomplete`: bytes missing and total length of a character cut by the end of `x`. */
  function Incomplete(x: seq<Byte>): (r: (nat, nat))
    ensures r.0 > 0 ==> r.0 <= 3 && r.1 <= 4 && 1 <= r.1 - r.0 <= 3 && r.1 - r.0 <= |x|
  {
    var len := |x|;
    if len == 0 then (0, 0)
    else
      var n1 := CheckByte(x[len - 1]);
      if n1 >= 0 then (if n1 > 0 then n1 - 1 else 0, n1)
      else if len < 2 || n1 == -2 then (0, 0)
      else
        var n2 := CheckByte(x[len - 2]);
        if n2 >= 0 then (if n2 > 0 then n2 - 2 else 0, n2)
        else if len < 3 || n2 == -2 then (0, 0)
        else
          var n3 := CheckByte(x[len - 3]);
          if n3 > 2 then (n3 - 3, n3) else (0, 0)
  }

  /** `utf8Text`: the complete characters of `x`, and what is held back. */
  function Text(x: seq<Byte>): (State, seq<Unit>) {
    var (need, total) := Incomplete(x);
    if need == 0 then (START, Slice(x))
    else
      var end := |x| - (total - need);
      (State(x[end..], need), Slice(x[..end]))
  }

  /** `utf8CheckExtraBytes`: the first byte of `buf` that should continue the character and does not. */
  function FirstBad(need: nat, buf: seq<Byte>): (r: Option<nat>)
    requires |buf| > 0
    ensures r.Some? ==> r.value < |buf| && !Continues(buf[r.value])
  {
    if !Continues(buf[0]) then Some(0)
    else if need > 1 && |buf| > 1 then
      if !Continues(buf[1]) then Some(1)
      else if need > 2 && |buf| > 2 && !Continues(buf[2]) then Some(2)
      else None
    else None
  }

  function AndText(r: seq<Unit>, x: seq<Byte>): (State, seq<Unit>) { (Text(x).0, r + Text(x).1) }

  function WriteChunk(st: State, buf: seq<Byte>): (State, seq<Unit>) {
    if |buf| == 0 then (st, [])
    else if st.need == 0 then Text(buf)
    else if FirstBad(st.need, buf).Some? then AndText([REPLACEMENT], buf[FirstBad(st.need, buf).value..])
    else if st.need <= |buf| then AndText(Slice(st.pending + buf[..st.need]), buf[st.need..])
    else (State(st.pending + buf, st.need - |buf|), [])
  }

  /** A sequence of `write` calls: the final state and all results, concatenated. */
  function Run(st: State, chunks: seq<seq<Byte>>): (State, seq<Unit>)
    decreases |chunks|
  {
    if |chunks| == 0 then (st, [])
    else
      var (st', out) := WriteChunk(st, chunks[0]);
      (Run(st', chunks[1..]).0, out + Run(st', chunks[1..]).1)
  }

  /** All `write` results and then `end`. */
  function Stream(chunks: seq<seq<Byte>>): seq<Unit> {
    Run(START, chunks).1 + (if Run(START, chunks).0.need > 0 then [REPLACEMENT] else [])
  }

  // --------------------------------------------------------------- lemmas

  lemma FirstByte(c: Scalar)
    ensures CheckByte(BytesOf(c)[0]) == if |BytesOf(c)| == 1 then 0 else |BytesOf(c)|
    ensures forall i :: 1 <= i < |BytesOf(c)| ==> CheckByte(BytesOf(c)[i]) == -1 && Continues(BytesOf(c)[i])
  {
    var b := BytesOf(c);
    if |b| == 2 {
      assert b[1] / 0x40 == 2 && b[0] / 0x20 == 6;
    } else if |b| == 3 {
      assert b[1] / 0x40 == 2 && b[2] / 0x40 == 2 && b[0] / 0x10 == 0x0E;
    } else if |b| == 4 {
      assert b[1] / 0x40 == 2 && b[2] / 0x40 == 2 && b[3] / 0x40 == 2 && b[0] / 8 == 0x1E;
    }
  }

  /** A cut character is seen as such, whatever comes before it. */
  lemma CutCharacter(x: seq<Byte>, p: seq<Byte>, c: Scalar)
    requires 0 < |p| < |BytesOf(c)| && p == BytesOf(c)[..|p|]
    ensures Incomplete(x + p) == (|BytesOf(c)| - |p|, |BytesOf(c)|)
  {
    FirstByte(c);
    var y := x + p;
    assert forall i :: 0 <= i < |p| ==> y[|x| + i] == BytesOf(c)[i];
    if |p| == 2 {
      assert y[|y| - 1] == BytesOf(c)[1] && y[|y| - 2] == BytesOf(c)[0];
    } else if |p| == 3 {
      assert y[|y| - 1] == BytesOf(c)[2] && y[|y| - 2] == BytesOf(c)[1] && y[|y| - 3] == BytesOf(c)[0];
    }
  }

  /** A complete last character leaves nothing to hold back. */
  lemma WholeCharacter(x: seq<Byte>, c: Scalar)
    ensures Incomplete(x + BytesOf(c)).0 == 0
  {
    FirstByte(c);
    var y, p := x + BytesOf(c), BytesOf(c);
    assert forall i :: 0 <= i < |p| ==> y[|x| + i] == p[i];
    if |p| == 2 {
      assert y[|y| - 1] == p[1] && y[|y| - 2] == p[0];
    } else if |p| == 3 {
      assert y[|y| - 1] == p[2] && y[|y| - 2] == p[1] && y[|y| - 3] == p[0];
    } else if |p| == 4 {
      assert y[|y| - 1] == p[3] && y[|y| - 2] == p[2] && y[|y| - 3] == p[1];
    }
  }

  lemma {:induction false} BytesConcat(a: seq<Scalar>, b: seq<Scalar>)
    ensures Bytes(a + b) == Bytes(a) + Bytes(b)
  {
    if |a| == 0 {
      assert a + b == b;
    } else {
      assert (a + b)[1..] == a[1..] + b;
      BytesConcat(a[1..], b);
      Associative(BytesOf(a[0]), Bytes(a[1..]), Bytes(b));
    }
  }

  lemma {:induction false} UnitsConcat(a: seq<Scalar>, b: seq<Scalar>)
    ensures Units(a + b) == Units(a) + Units(b)
  {
    if |a| == 0 {
      assert a + b == b;
    } else {
      assert (a + b)[1..] == a[1..] + b;
      UnitsConcat(a[1..], b);
      Associative(UnitsOf(a[0]), Units(a[1..]), Units(b));
    }
  }

  /** The state is in the middle of the first character of `cs`, or before it. */
  ghost predicate Inside(st: State, cs: seq<Scalar>) {
    if st.need == 0 then st.pending == []
    else |cs| > 0 && 0 < |st.pending| == |BytesOf(cs[0])| - st.need && st.pending == BytesOf(cs[0])[..|st.pending|]
  }

  lemma BytesSnoc(a: seq<Scalar>, c: Scalar)
    ensures Bytes(a + [c]) == Bytes(a) + BytesOf(c)
  {
    BytesConcat(a, [c]);
    BytesCons(c, []);
    assert [c] + [] == [c] && BytesOf(c) + [] == BytesOf(c);
  }

  lemma TextWhole(a: seq<Scalar>)
    ensures Text(Bytes(a)) == (START, Units(a))
  {
    ReadsBytes(a);
    if |a| > 0 {
      var m := |a| - 1;
      assert a == a[..m] + [a[m]];
      BytesSnoc(a[..m], a[m]);
      WholeCharacter(Bytes(a[..m]), a[m]);
    }
  }

  lemma TextCut(a: seq<Scalar>, p: seq<Byte>, c: Scalar)
    requires 0 < |p| < |BytesOf(c)| && p == BytesOf(c)[..|p|]
    ensures Text(Bytes(a) + p) == (State(p, |BytesOf(c)| - |p|), Units(a))
  {
    ReadsBytes(a);
    CutCharacter(Bytes(a), p, c);
    var x := Bytes(a) + p;
    assert x[|Bytes(a)|..] == p && x[..|Bytes(a)|] == Bytes(a);
  }

  /** How many whole characters of `cs` fit into the first `n` bytes. */
  lemma {:induction false} Whole(cs: seq<Scalar>, n: nat) returns (k: nat)
    requires n <= |Bytes(cs)|
    ensures k <= |cs| && |Bytes(cs[..k])| <= n
    ensures if k == |cs| then n == |Bytes(cs)| else n < |Bytes(cs[..k])| + |BytesOf(cs[k])|
  {
    if n == |Bytes(cs)| {
      k := |cs|;
      assert cs[..k] == cs;
    } else {
      var m := |cs| - 1;
      assert cs == cs[..m] + [cs[m]];
      BytesSnoc(cs[..m], cs[m]);
      if |Bytes(cs[..m])| <= n {
        k := m;
      } else {
        k := Whole(cs[..m], n);
        assert cs[..m][..k] == cs[..k];
      }
    }
  }

  /** A piece of encoded text is whole characters and then a cut one, and `Text` finds the cut. */
  lemma TextSplits(x: seq<Byte>, cs: seq<Scalar>, future: seq<Byte>) returns (k: nat)
    requires Bytes(cs) == x + future
    ensures k <= |cs| && Inside(Text(x).0, cs[k..])
    ensures Text(x).1 == Units(cs[..k]) && Bytes(cs[k..]) == Text(x).0.pending + future
  {
    k := Whole(cs, |x|);
    var w := |Bytes(cs[..k])|;
    assert cs == cs[..k] + cs[k..];
    BytesConcat(cs[..k], cs[k..]);
    var p := x[w..];
    assert Bytes(cs[..k]) == (x + future)[..w] && Bytes(cs[k..]) == (x + future)[w..];
    assert x == Bytes(cs[..k]) + p && Bytes(cs[k..]) == p + future;
    if |p| == 0 {
      TextWhole(cs[..k]);
      assert x == Bytes(cs[..k]);
    } else {
      assert p == Bytes(cs[k..])[..|p|] == BytesOf(cs[k..][0])[..|p|];
      TextCut(cs[..k], p, cs[k]);
    }
  }

  lemma WriteMiddle(st: State, buf: seq<Byte>, c: Scalar)
    requires st.need > 0 && 0 < |st.pending| && 0 < |buf| < st.need && |st.pending| + st.need == |BytesOf(c)|
    requires st.pending + buf == BytesOf(c)[..|st.pending| + |buf|]
    ensures WriteChunk(st, buf) == (State(st.pending + buf, st.need - |buf|), [])
  {
    FirstByte(c);
    assert forall i :: 0 <= i < |buf| ==> buf[i] == (st.pending + buf)[|st.pending| + i] == BytesOf(c)[|st.pending| + i];
  }

  lemma WriteLast(st: State, buf: seq<Byte>, c: Scalar)
    requires st.need > 0 && st.need <= |buf| && 0 < |st.pending| && st.pending + buf[..st.need] == BytesOf(c)
    ensures WriteChunk(st, buf) == AndText(UnitsOf(c), buf[st.need..])
  {
    FirstByte(c);
    assert forall i :: 0 <= i < st.need ==> buf[i] == (st.pending + buf[..st.need])[|st.pending| + i];
    ReadsBytes([c]);
    BytesCons(c, []);
    UnitsCons(c, []);
    assert [c] + [] == [c] && BytesOf(c) + [] == BytesOf(c) && UnitsOf(c) + [] == UnitsOf(c);
  }

  /** `write` keeps in step with the characters of the text, wherever the pieces are cut. */
  lemma WriteStep(st: State, buf: seq<Byte>, cs: seq<Scalar>, future: seq<Byte>) returns (k: nat)
    requires Inside(st, cs) && Bytes(cs) == st.pending + buf + future
    ensures k <= |cs| && Inside(WriteChunk(st, buf).0, cs[k..])
    ensures WriteChunk(st, buf).1 == Units(cs[..k]) && Bytes(cs[k..]) == WriteChunk(st, buf).0.pending + future
  {
    if |buf| == 0 {
      k := 0;
      assert cs[0..] == cs && st.pending + buf == st.pending;
    } else if st.need == 0 {
      assert st.pending + buf == buf;
      k := TextSplits(buf, cs, future);
    } else if |buf| < st.need {
      k := 0;
      StillCut(st, buf, cs, future);
      assert cs[0..] == cs;
    } else {
      k := CompletesFirst(st, buf, cs, future);
    }
  }

  lemma StillCut(st: State, buf: seq<Byte>, cs: seq<Scalar>, future: seq<Byte>)
    requires Inside(st, cs) && Bytes(cs) == st.pending + buf + future && 0 < |buf| < st.need
    ensures Inside(WriteChunk(st, buf).0, cs) && WriteChunk(st, buf).1 == []
    ensures WriteChunk(st, buf).0.pending == st.pending + buf
  {
    var e, p := BytesOf(cs[0]), st.pending;
    var n := |p| + |buf|;
    assert p + buf == (p + buf + future)[..n];
    assert Bytes(cs)[..n] == e[..n];
    WriteMiddle(st, buf, cs[0]);
  }

  lemma CompletesFirst(st: State, buf: seq<Byte>, cs: seq<Scalar>, future: seq<Byte>) returns (k: nat)
    requires Inside(st, cs) && Bytes(cs) == st.pending + buf + future && 0 < st.need <= |buf|
    ensures k <= |cs| && Inside(WriteChunk(st, buf).0, cs[k..])
    ensures WriteChunk(st, buf).1 == Units(cs[..k]) && Bytes(cs[k..]) == WriteChunk(st, buf).0.pending + future
  {
    var c, tail := cs[0], cs[1..];
    CutInside(st.pending, buf, future, st.need, BytesOf(c), Bytes(tail));
    WriteLast(st, buf, c);
    k := SplitsAfter(WriteChunk(st, buf), c, buf[st.need..], cs, future);
  }

  lemma SplitsAfter(w: (State, seq<Unit>), c: Scalar, x: seq<Byte>, cs: seq<Scalar>, future: seq<Byte>) returns (k: nat)
    requires |cs| > 0 && c == cs[0] && w == AndText(UnitsOf(c), x) && Bytes(cs[1..]) == x + future
    ensures k <= |cs| && Inside(w.0, cs[k..]) && w.1 == Units(cs[..k]) && Bytes(cs[k..]) == w.0.pending + future
  {
    var tail := cs[1..];
    var k' := TextSplits(x, tail, future);
    k := k' + 1;
    assert cs[..k] == [c] + tail[..k'] && cs[k..] == tail[k'..];
    UnitsCons(c, tail[..k']);
  }

  lemma {:induction false} RunStep(st: State, chunks: seq<seq<Byte>>, cs: seq<Scalar>, future: seq<Byte>)
      returns (k: nat)
    requires Inside(st, cs) && Bytes(cs) == st.pending + (Flatten(chunks) + future)
    ensures k <= |cs| && Inside(Run(st, chunks).0, cs[k..])
    ensures Run(st, chunks).1 == Units(cs[..k]) && Bytes(cs[k..]) == Run(st, chunks).0.pending + future
    decreases |chunks|, 1
  {
    if |chunks| == 0 {
      k := 0;
      assert cs[0..] == cs && [] + future == future;
    } else {
      var later := Flatten(chunks[1..]) + future;
      Associative(chunks[0], Flatten(chunks[1..]), future);
      Associative(st.pending, chunks[0], later);
      var j := WriteStep(st, chunks[0], cs, later);
      k := RunRest(WriteChunk(st, chunks[0]), chunks[1..], cs, j, future);
    }
  }

  /** The chunks after the one that returned `w`. */
  lemma {:induction false} RunRest(w: (State, seq<Unit>), rest: seq<seq<Byte>>, cs: seq<Scalar>, j: nat, future: seq<Byte>)
      returns (k: nat)
    requires j <= |cs| && Inside(w.0, cs[j..]) && w.1 == Units(cs[..j])
    requires Bytes(cs[j..]) == w.0.pending + (Flatten(rest) + future)
    ensures k <= |cs| && Inside(Run(w.0, rest).0, cs[k..])
    ensures w.1 + Run(w.0, rest).1 == Units(cs[..k]) && Bytes(cs[k..]) == Run(w.0, rest).0.pending + future
    decreases |rest|, 2
  {
    var k' := RunStep(w.0, rest, cs[j..], future);
    k := j + k';
    JoinRuns(w, Run(w.0, rest), cs, j, k', future);
  }

  /** Two stretches of the stream are one. */
  lemma JoinRuns(w: (State, seq<Unit>), r: (State, seq<Unit>), cs: seq<Scalar>, j: nat, k: nat, future: seq<Byte>)
    requires j + k <= |cs| && w.1 == Units(cs[..j]) && r.1 == Units(cs[j..][..k])
    requires Inside(r.0, cs[j..][k..]) && Bytes(cs[j..][k..]) == r.0.pending + future
    ensures Inside(r.0, cs[j + k..]) && w.1 + r.1 == Units(cs[..j + k]) && Bytes(cs[j + k..]) == r.0.pending + future
  {
    assert cs[..j + k] == cs[..j] + cs[j..][..k] && cs[j + k..] == cs[j..][k..];
    UnitsConcat(cs[..j], cs[j..][..k]);
  }

  /** Valid UTF-8 in any pieces: what `write` and `end` return is the whole text, decoded at once. */
  lemma StreamIsSlice(chunks: seq<seq<Byte>>)
    requires Utf8.Valid(Flatten(chunks))
    ensures Stream(chunks) == Slice(Flatten(chunks))
  {
    var flat := Flatten(chunks);
    ReadsValid(flat);
    var k := StreamOfPrefix(chunks, ReadAll(flat), []);
    assert ReadAll(flat)[..k] == ReadAll(flat);
  }

  /** Text cut off anywhere: its whole characters, all of them, then one U+FFFD if a character was cut. */
  lemma StreamOfPrefix(chunks: seq<seq<Byte>>, cs: seq<Scalar>, future: seq<Byte>) returns (k: nat)
    requires Bytes(cs) == Flatten(chunks) + future
    ensures k <= |cs| && (future == [] ==> k == |cs|)
    ensures |Bytes(cs[k..])| >= |future| && (k < |cs| ==> |Bytes(cs[k..])| - |future| < |BytesOf(cs[k])|)
    ensures Stream(chunks) == Units(cs[..k]) + (if |Bytes(cs[k..])| > |future| then [REPLACEMENT] else [])
  {
    assert START.pending + (Flatten(chunks) + future) == Flatten(chunks) + future;
    k := RunStep(START, chunks, cs, future);
    AtLeastFirst(cs[k..]);
  }

  lemma AtLeastFirst(cs: seq<Scalar>)
    ensures |cs| > 0 ==> |Bytes(cs)| >= |BytesOf(cs[0])|
  {
  }

  /** No more than three bytes are ever pending. */
  lemma {:induction false} AtMostThreePending(st: State, chunks: seq<seq<Byte>>)
    requires st.Ok()
    ensures Run(st, chunks).0.Ok()
    decreases |chunks|
  {
    if |chunks| > 0 {
      AtMostThreePending(WriteChunk(st, chunks[0]).0, chunks[1..]);
    }
  }

  // --------------------------------------------------------- the class itself

  class Decoder {
    var lastNeed: nat
    var lastTotal: nat
    const lastChar: array<Byte>

    ghost predicate Valid()
      reads this, lastChar
    {
      && lastChar.Length == 4 && lastNeed <= 3 && lastTotal <= 4
      && (lastNeed > 0 ==> 1 <= lastTotal - lastNeed <= 3)
    }

    ghost function Abs(): State
      requires Valid()
      reads this, lastChar
    {
      if lastNeed == 0 then START else State(lastChar[..lastTotal - lastNeed], lastNeed)
    }

    constructor ()
      ensures Valid() && Abs() == START && fresh(lastChar)
    {
      lastNeed, lastTotal := 0, 0;
      lastChar := new Byte[4](_ => 0);
    }

    /** `buf.copy(this.lastChar, p, 0, n)` */
    method Copy(buf: seq<Byte>, p: nat, n: nat)
      requires lastChar.Length == 4 && n <= |buf| && p + n <= 4
      modifies lastChar
      ensures lastChar[..p + n] == old(lastChar[..p]) + buf[..n]
    {
      forall i | 0 <= i < n {
        lastChar[p + i] := buf[i];
      }
    }

    /** `utf8Text` */
    method TextOf(x: seq<Byte>) returns (r: seq<Unit>)
      requires Valid() && lastNeed == 0
      modifies this, lastChar
      ensures Valid() && (Abs(), r) == Text(x)
    {
      var (need, total) := Incomplete(x);
      lastNeed := need;
      if lastNeed == 0 { return Slice(x); }
      lastTotal := total;
      var end := |x| - (total - lastNeed);
      Copy(x[end..], 0, total - lastNeed);
      assert [] + x[end..][..total - lastNeed] == x[end..];
      r := Slice(x[..end]);
    }

    method Write(buf: seq<Byte>) returns (r: seq<Unit>)
      requires Valid()
      modifies this, lastChar
      ensures Valid() && (Abs(), r) == WriteChunk(old(Abs()), buf)
    {
      if |buf| == 0 { return []; }
      if lastNeed == 0 {
        r := TextOf(buf);
        return;
      }
      var i := lastNeed;
      var bad := FirstBad(lastNeed, buf);
      var p := lastTotal - lastNeed;
      if bad.Some? {
        r, i := [REPLACEMENT], bad.value;
      } else if lastNeed <= |buf| {
        Copy(buf, p, lastNeed);
        r := Slice(lastChar[..lastTotal]);
      } else {
        Copy(buf, p, |buf|);
        assert buf[..|buf|] == buf;
        lastNeed := lastNeed - |buf|;
        return [];
      }
      lastNeed := 0;
      var more := TextOf(buf[i..]);
      r := r + more;
    }

    method End(buf: seq<Byte>) returns (r: seq<Unit>)
      requires Valid()
      modifies this, lastChar
      ensures Valid() && Abs() == WriteChunk(old(Abs()), buf).0
      ensures r == WriteChunk(old(Abs()), buf).1 + (if Abs().need > 0 then [REPLACEMENT] else [])
    {
      r := Write(buf);
      if lastNeed > 0 { r := r + [REPLACEMENT]; }
    }
  }
}
