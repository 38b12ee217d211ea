/**
  * UTF-8 and UTF-16 by the numbers of RFC 3629 and RFC 2781, for all bytes, valid or not.
  */
module Utf8Standard {
  import opened Basics
  import opened Utf8

  /** Section 3 of RFC 3629: what the bits of a character of `n` bytes add up to. */
  function ScalarAt(b: seq<Byte>, n: nat): int
    requires 1 <= n <= 4 && n <= |b|
  {
    match n
    case 1 => b[0]
    case 2 => (b[0] as int - 0xC0) * 64 + (b[1] as int - 0x80)
    case 3 => (b[0] as int - 0xE0) * 4096 + (b[1] as int - 0x80) * 64 + (b[2] as int - 0x80)
    case _ =>
      (b[0] as int - 0xF0) * 262144 + (b[1] as int - 0x80) * 4096 + (b[2] as int - 0x80) * 64 + (b[3] as int - 0x80)
  }

  /** What bytes stand for: characters, and U+FFFD for every byte that begins none. */
  function Decoded(b: seq<Byte>): seq<int> {
    if |b| == 0 then []
    else if CharLength(b) > 0 then [ScalarAt(b, CharLength(b))] + Decoded(b[CharLength(b)..])
    else [0xFFFD] + Decoded(b[1..])
  }

  // ------------------------------------------------------ what is no character

  lemma NoTwo(b0: int, b1: int)
    requires 0xC0 <= b0 <= 0xDF && 0 <= b1 <= 0xFF && !(b0 >= 0xC2 && 0x80 <= b1 <= 0xBF)
    ensures Read2(b0, b1) == None
  {
  }

  lemma NoThree(b0: int, b1: int, b2: int)
    requires 0xE0 <= b0 <= 0xEF && 0 <= b1 <= 0xFF && 0 <= b2 <= 0xFF
    requires !(0x80 <= b2 <= 0xBF && 0x80 <= b1 <= 0xBF && (b0 == 0xE0 ==> b1 >= 0xA0) && (b0 == 0xED ==> b1 <= 0x9F))
    ensures Read3(b0, b1, b2) == None
  {
    if 0x80 <= b1 <= 0xBF && 0x80 <= b2 <= 0xBF {
      assert b0 % 0x10 == b0 - 0xE0 && b1 % 0x40 == b1 - 0x80 && b2 % 0x40 == b2 - 0x80;
    }
  }

  lemma NoFour(b0: int, b1: int, b2: int, b3: int)
    requires 0xF0 <= b0 <= 0xFF && 0 <= b1 <= 0xFF && 0 <= b2 <= 0xFF && 0 <= b3 <= 0xFF
    requires !(0x80 <= b1 <= 0xBF && 0x80 <= b2 <= 0xBF && 0x80 <= b3 <= 0xBF && b0 <= 0xF4
               && (b0 == 0xF0 ==> b1 >= 0x90) && (b0 == 0xF4 ==> b1 <= 0x8F))
    ensures Read4(b0, b1, b2, b3) == None
  {
    if 0x80 <= b1 <= 0xBF && 0x80 <= b2 <= 0xBF && 0x80 <= b3 <= 0xBF {
      assert b0 % 0x10 == b0 - 0xF0 && b1 % 0x40 == b1 - 0x80 && b2 % 0x40 == b2 - 0x80 && b3 % 0x40 == b3 - 0x80;
    }
  }

  lemma ReadsNoChar(b: seq<Byte>)
    requires |b| > 0 && CharLength(b) == 0
    ensures ReadChar(b) == (0xFFFD, 1)
  {
    var n := SequenceLength(b[0]);
    if n <= |b| {
      if n == 2 {
        NoTwo(b[0], b[1]);
      } else if n == 3 {
        NoThree(b[0], b[1], b[2]);
      } else if n == 4 {
        NoFour(b[0], b[1], b[2], b[3]);
      }
    }
  }

  lemma ReadsChar(b: seq<Byte>)
    requires |b| > 0 && CharLength(b) > 0
    ensures ReadChar(b) == (ScalarAt(b, CharLength(b)), CharLength(b))
  {
    var n := CharLength(b);
    if n == 2 {
      assert b[0] % 0x20 == b[0] - 0xC0 && b[1] % 0x40 == b[1] - 0x80;
    } else if n == 3 {
      Join3Value(b[0], b[1], b[2]);
    } else if n == 4 {
      Join4Value(b[0], b[1], b[2], b[3]);
    }
  }

  /** All bytes, valid or not, are decoded as they stand: one U+FFFD for each byte that begins no character. */
  lemma {:induction false} ReadsAllBytes(b: seq<Byte>)
    ensures ReadAll(b) == Decoded(b)
    decreases |b|
  {
    if |b| > 0 {
      if CharLength(b) > 0 {
        ReadsChar(b);
        ReadsAllBytes(b[CharLength(b)..]);
      } else {
        ReadsNoChar(b);
        ReadsAllBytes(b[1..]);
      }
    }
  }

  /** A character is written in the fewest bytes, and they are its bits. */
  lemma WritesBits(c: Scalar)
    ensures var b := BytesOf(c);
      && |b| == (if c < 0x80 then 1 else if c < 0x800 then 2 else if c < 0x1_0000 then 3 else 4)
      && CharLength(b) == |b| && ScalarAt(b, |b|) == c
  {
    ReadsBytesOf(c, []);
    assert BytesOf(c) + [] == BytesOf(c);
    if CharLength(BytesOf(c)) > 0 {
      ReadsChar(BytesOf(c));
    } else {
      ReadsNoChar(BytesOf(c));
    }
  }

  /** RFC 2781: above 0xFFFF two surrogates, the high ten bits first. */
  lemma WritesPair(c: Scalar)
    ensures c <= 0xFFFF ==> UnitsOf(c) == [c]
    ensures c > 0xFFFF ==>
      var u := UnitsOf(c);
      |u| == 2 && IsLead(u[0]) && IsTrail(u[1]) && 0x10000 + (u[0] as int - 0xD800) * 1024 + (u[1] as int - 0xDC00) == c
  {
  }
}
