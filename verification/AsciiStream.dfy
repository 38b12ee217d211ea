/**
  * What the streaming decoder does to bytes that are not UTF-8: whatever else it makes of them and
  * wherever they are cut, the ASCII characters come through, each once and in order.
  */
module AsciiStream {
  import opened Basics
  import opened Utf8
  import opened StringDecoder

  /** The ASCII characters of bytes or of code units. */
  function Plain(s: seq<int>): seq<int> {
    if |s| == 0 then [] else Plain(s[..|s| - 1]) + (if 0 <= s[|s| - 1] < 0x80 then [s[|s| - 1]] else [])
  }

  ghost predicate High(s: seq<int>) { forall i :: 0 <= i < |s| ==> s[i] >= 0x80 }

  lemma {:induction false} PlainConcat(a: seq<int>, b: seq<int>)
    ensures Plain(a + b) == Plain(a) + Plain(b)
    decreases |b|
  {
    if |b| == 0 {
      assert a + b == a;
    } else {
      assert (a + b)[..|a + b| - 1] == a + b[..|b| - 1];
      PlainConcat(a, b[..|b| - 1]);
    }
  }

  lemma {:induction false} PlainHigh(s: seq<int>)
    requires High(s)
    ensures Plain(s) == []
  {
    if |s| > 0 { PlainHigh(s[..|s| - 1]); }
  }

  /** A character read is the ASCII byte it was read from, or neither it nor its bytes are ASCII. */
  lemma CharPlain(b: seq<Byte>)
    requires |b| > 0
    ensures var (c, n) := ReadChar(b);
      if b[0] < 0x80 then n == 1 && c == b[0] && UnitsOf(c) == [b[0]] else High(UnitsOf(c)) && High(b[..n])
  {
  }

  lemma {:induction false} SlicePlain(b: seq<Byte>)
    ensures Plain(Slice(b)) == Plain(b)
    decreases |b|
  {
    if |b| > 0 {
      var (c, n) := ReadChar(b);
      var front, rest := b[..n], b[n..];
      CharPlain(b);
      SlicePlain(rest);
      UnitsCons(c, ReadAll(rest));
      PlainConcat(UnitsOf(c), Units(ReadAll(rest)));
      assert b == front + rest;
      PlainConcat(front, rest);
      if b[0] < 0x80 {
        assert front == [b[0]];
      } else {
        PlainHigh(front);
        PlainHigh(UnitsOf(c));
      }
    }
  }

  /** What is held back is not ASCII. */
  lemma HeldHigh(x: seq<Byte>)
    ensures var (need, total) := Incomplete(x); need > 0 ==> High(x[|x| - (total - need)..])
  {
  }

  lemma TextPlain(x: seq<Byte>)
    ensures Plain(Text(x).1) == Plain(x) && High(Text(x).0.pending)
  {
    var (need, total) := Incomplete(x);
    HeldHigh(x);
    if need == 0 {
      SlicePlain(x);
    } else {
      var end := |x| - (total - need);
      SlicePlain(x[..end]);
      PlainHigh(x[end..]);
      PlainConcat(x[..end], x[end..]);
      assert x[..end] + x[end..] == x;
    }
  }

  /** The bytes in front of the first one that does not fit are not ASCII. */
  lemma TakenHigh(need: nat, buf: seq<Byte>)
    requires |buf| > 0 && 0 < need <= 3
    ensures var bad := FirstBad(need, buf);
      if bad.Some? then High(buf[..bad.value]) else High(buf[..if need <= |buf| then need else |buf|])
  {
  }

  lemma RestPlain(r: seq<Unit>, buf: seq<Byte>, n: nat)
    requires n <= |buf| && High(buf[..n]) && Plain(r) == []
    ensures Plain(AndText(r, buf[n..]).1) == Plain(buf) && High(AndText(r, buf[n..]).0.pending)
  {
    TextPlain(buf[n..]);
    PlainConcat(r, Text(buf[n..]).1);
    BehindHigh(buf, n);
  }

  lemma BehindHigh(buf: seq<Byte>, n: nat)
    requires n <= |buf| && High(buf[..n])
    ensures Plain(buf[n..]) == Plain(buf)
  {
    PlainHigh(buf[..n]);
    PlainConcat(buf[..n], buf[n..]);
    assert buf[..n] + buf[n..] == buf;
  }

  lemma ChunkPlain(st: State, buf: seq<Byte>)
    requires st.Ok() && High(st.pending)
    ensures Plain(WriteChunk(st, buf).1) == Plain(buf) && High(WriteChunk(st, buf).0.pending)
  {
    if |buf| > 0 {
      if st.need == 0 {
        TextPlain(buf);
      } else {
        TakenHigh(st.need, buf);
        var bad := FirstBad(st.need, buf);
        if bad.Some? {
          RestPlain([REPLACEMENT], buf, bad.value);
        } else if st.need <= |buf| {
          var whole := st.pending + buf[..st.need];
          SlicePlain(whole);
          PlainHigh(whole);
          RestPlain(Slice(whole), buf, st.need);
        } else {
          assert buf[..|buf|] == buf;
          PlainHigh(buf);
        }
      }
    }
  }

  lemma {:induction false} RunPlain(st: State, chunks: seq<seq<Byte>>)
    requires st.Ok() && High(st.pending)
    ensures Plain(Run(st, chunks).1) == Plain(Flatten(chunks))
    decreases |chunks|
  {
    if |chunks| > 0 {
      var (st', out) := WriteChunk(st, chunks[0]);
      ChunkPlain(st, chunks[0]);
      AtMostThreePending(st, [chunks[0]]);
      OneChunk(st, chunks[0]);
      RunPlain(st', chunks[1..]);
      PlainConcat(out, Run(st', chunks[1..]).1);
      PlainConcat(chunks[0], Flatten(chunks[1..]));
    }
  }

  lemma OneChunk(st: State, buf: seq<Byte>)
    ensures Run(st, [buf]).0 == WriteChunk(st, buf).0
  {
    assert [buf][1..] == [];
  }

  /** For all bytes, valid or not, in any chunks. */
  lemma AsciiKept(chunks: seq<seq<Byte>>)
    ensures Plain(Stream(chunks)) == Plain(Flatten(chunks))
  {
    RunPlain(START, chunks);
    PlainConcat(Run(START, chunks).1, if Run(START, chunks).0.need > 0 then [REPLACEMENT] else []);
  }
}
