/**
  * The checksum as a remainder: long division of the message by x^8 + x^5 + x^4 + 1, as one would
  * do it on paper.
  */
module CrcDivision {
  import opened Crc8

  /** x^8 + x^5 + x^4 + 1, the highest power first. */
  const GENERATOR := [true, false, false, true, true, false, false, false, true]

  /** The highest power goes, by subtracting the divisor if it is there. */
  function Reduce(s: seq<bool>): (r: seq<bool>)
    requires |s| > 8
    ensures |r| == |s| - 1
  {
    seq(|s| - 1, i requires 0 <= i < |s| - 1 => s[i + 1] != (s[0] && i < 8 && GENERATOR[i + 1]))
  }

  /** What is left below x^8. */
  function Remainder(s: seq<bool>): (r: seq<bool>)
    requires |s| >= 8
    ensures |r| == 8
    decreases |s|
  {
    if |s| == 8 then s else Remainder(Reduce(s))
  }

  function BitsOf(r: Bits): (s: seq<bool>)
    ensures |s| == 8
  {
    [r.b7, r.b6, r.b5, r.b4, r.b3, r.b2, r.b1, r.b0]
  }

  const EIGHT_ZEROS := [false, false, false, false, false, false, false, false]

  /** `e` times x^8, with `r` added to its highest eight powers. */
  function Mixed(r: Bits, e: seq<bool>): (s: seq<bool>)
    ensures |s| == |e| + 8
  {
    var t := e + EIGHT_ZEROS;
    seq(|t|, i requires 0 <= i < |t| => t[i] != (i < 8 && BitsOf(r)[i]))
  }

  lemma MixedAt(r: Bits, e: seq<bool>, i: nat, x: bool)
    requires i < |e| + 8 && x == (e + EIGHT_ZEROS)[i]
    ensures Mixed(r, e)[i] == if i < 8 then x != BitsOf(r)[i] else x
  {
  }

  lemma EntersTop(r: Bits, b: bool)
    ensures Enter(r, b).b7 == (b != r.b7) && forall i :: 1 <= i < 8 ==> BitsOf(Enter(r, b))[i] == BitsOf(r)[i]
  {
    if b { } else { }
  }

  /** A bit fed into the register is one step of the division. */
  lemma FeedReduces(r: Bits, b: bool, e: seq<bool>, s: seq<bool>)
    requires s == Mixed(r, [b] + e)
    ensures Reduce(s) == Mixed(Times(Enter(r, b)), e)
  {
    var t, top := e + EIGHT_ZEROS, Enter(r, b);
    var all := [b] + e + EIGHT_ZEROS;
    assert all[0] == b && forall i :: 0 <= i < |t| ==> all[i + 1] == t[i];
    EntersTop(r, b);
    MixedAt(r, [b] + e, 0, b);
    forall i | 0 <= i < |t| ensures Reduce(s)[i] == Mixed(Times(top), e)[i] {
      MixedAt(r, [b] + e, i + 1, t[i]);
      MixedAt(Times(top), e, i, t[i]);
      if i < 8 { StepBit(top, i, t[i], s[i + 1]); }
    }
  }

  lemma StepBit(r: Bits, i: nat, x: bool, y: bool)
    requires i < 8 && y == if i < 7 then x != BitsOf(r)[i + 1] else x
    ensures (y != (r.b7 && GENERATOR[i + 1])) == (x != BitsOf(Times(r))[i])
  {
    TimesBit(r, i);
    Regroup(x, i + 1 < 8 && BitsOf(r)[i + 1], r.b7 && GENERATOR[i + 1]);
  }

  lemma TimesBit(r: Bits, i: nat)
    requires i < 8
    ensures BitsOf(Times(r))[i] == ((i + 1 < 8 && BitsOf(r)[i + 1]) != (r.b7 && GENERATOR[i + 1]))
  {
    if r.b7 {
    } else {
    }
  }

  lemma Regroup(x: bool, y: bool, z: bool)
    ensures ((x != y) != z) == (x != (y != z))
  {
  }

  lemma {:induction false} FeedDivides(r: Bits, e: seq<bool>)
    ensures BitsOf(Feed(r, e)) == Remainder(Mixed(r, e))
    decreases |e|
  {
    if |e| == 0 {
      assert Mixed(r, e) == BitsOf(r);
    } else {
      FeedDivides(Times(Enter(r, e[0])), e[1..]);
      assert [e[0]] + e[1..] == e;
      FeedReduces(r, e[0], e[1..], Mixed(r, e));
    }
  }

  /** The first eight bits turned round. */
  function Inverted(e: seq<bool>): seq<bool> { seq(|e|, i requires 0 <= i < |e| => e[i] != (i < 8)) }

  /** The checksum of a message is what remains of it, its first byte inverted and eight zeros behind it. */
  lemma CrcIsRemainder(m: seq<bv8>, bits: nat)
    requires |m| > 0 && bits == 8
    ensures BitsOf(Of(Crc(m))) == Remainder(Inverted(Message(m, bits)) + EIGHT_ZEROS)
  {
    var e := Message(m, bits);
    RegisterIsFeed(0xFF, m, bits);
    FeedDivides(Of(0xFF), e);
    StartsInverted(Of(0xFF), e);
  }

  lemma StartsInverted(ones: Bits, e: seq<bool>)
    requires |e| >= 8 && ones == Bits(true, true, true, true, true, true, true, true)
    ensures Mixed(ones, e) == Inverted(e) + EIGHT_ZEROS
  {
    var t := e + EIGHT_ZEROS;
    forall i | 0 <= i < |t| ensures Mixed(ones, e)[i] == (Inverted(e) + EIGHT_ZEROS)[i] {
      assert i < 8 ==> BitsOf(ones)[i];
      assert i >= |e| ==> t[i] == EIGHT_ZEROS[i - |e|];
    }
  }

  lemma CrcOfNothing()
    ensures Crc([]) == 0xFF
  {
  }

  /** The check value of the sensor's data sheet. */
  lemma CheckValue(m: seq<bv8>, bits: nat)
    requires m == [0xBE, 0xEF] && bits == 8
    ensures Crc(m) == 0x92
  {
    FirstByte(bits);
    SecondByte(bits);
    assert m[1..] == [0xEF] && m[1..][1..] == [];
    assert Register(0xFF, m, bits) == Register(0x0C, m[1..], bits) == Register(0x92, [], bits);
  }

  lemma FirstByte(bits: nat)
    requires bits == 8
    ensures Shifts(0xFF ^ 0xBE, bits) == 0x0C
  {
    assert 0xFF ^ 0xBE == 0x41 as bv8;
    assert Shifts(0x41, bits - 0) == Shifts(0x82, bits - 1);
    assert Shifts(0x82, bits - 1) == Shifts(0x35, bits - 2);
    assert Shifts(0x35, bits - 2) == Shifts(0x6A, bits - 3);
    assert Shifts(0x6A, bits - 3) == Shifts(0xD4, bits - 4);
    assert Shifts(0xD4, bits - 4) == Shifts(0x99, bits - 5);
    assert Shifts(0x99, bits - 5) == Shifts(0x03, bits - 6);
    assert Shifts(0x03, bits - 6) == Shifts(0x06, bits - 7);
    assert Shifts(0x06, bits - 7) == Shifts(0x0C, bits - 8);
  }

  lemma SecondByte(bits: nat)
    requires bits == 8
    ensures Shifts(0x0C ^ 0xEF, bits) == 0x92
  {
    assert 0x0C ^ 0xEF == 0xE3 as bv8;
    assert Shifts(0xE3, bits - 0) == Shifts(0xF7, bits - 1);
    assert Shifts(0xF7, bits - 1) == Shifts(0xDF, bits - 2);
    assert Shifts(0xDF, bits - 2) == Shifts(0x8F, bits - 3);
    assert Shifts(0x8F, bits - 3) == Shifts(0x2F, bits - 4);
    assert Shifts(0x2F, bits - 4) == Shifts(0x5E, bits - 5);
    assert Shifts(0x5E, bits - 5) == Shifts(0xBC, bits - 6);
    assert Shifts(0xBC, bits - 6) == Shifts(0x49, bits - 7);
    assert Shifts(0x49, bits - 7) == Shifts(0x92, bits - 8);
  }
}
