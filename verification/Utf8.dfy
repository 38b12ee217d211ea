/**
  * The UTF-8 codec of the bundled Buffer (`utf8ToBytes`, `utf8Slice`), between JavaScript strings
  * (UTF-16 code units) and bytes. Bit masks and shifts of the source are written as / and %.
  */
module Utf8 {
  import opened Basics

  const REPLACEMENT: Scalar := 0xFFFD

  /** A Unicode scalar value: a code point that is not a surrogate. */
  type Scalar = c: int | 0 <= c < 0xD800 || 0xE000 <= c < 0x11_0000

  predicate IsSurrogate(u: Unit) { 0xD800 <= u <= 0xDFFF }

  function PairScalar(lead: Unit, trail: Unit): Scalar
    requires IsLead(lead) && IsTrail(trail)
  {
    (lead - 0xD800) * 0x400 + (trail - 0xDC00) + 0x1_0000
  }

  // ------------------------------------------------ the reference: scalar values

  /** UTF-16 to scalar values, each unpaired surrogate read as U+FFFD. */
  function Scalars(s: seq<Unit>): seq<Scalar> {
    if |s| == 0 then []
    else if |s| > 1 && IsLead(s[0]) && IsTrail(s[1]) then [PairScalar(s[0], s[1])] + Scalars(s[2..])
    else [if IsSurrogate(s[0]) then REPLACEMENT else s[0]] + Scalars(s[1..])
  }

  function UnitsOf(c: Scalar): (us: seq<Unit>)
    ensures 1 <= |us| <= 2
  {
    if c > 0xFFFF then [0xD800 + (c - 0x1_0000) / 0x400, 0xDC00 + (c - 0x1_0000) % 0x400] else [c]
  }

  /** Scalar values to UTF-16. */
  function Units(cs: seq<Scalar>): seq<Unit> {
    if |cs| == 0 then [] else UnitsOf(cs[0]) + Units(cs[1..])
  }

  ghost predicate WellFormed(s: seq<Unit>) {
    |s| == 0
    || (!IsSurrogate(s[0]) && WellFormed(s[1..]))
    || (|s| > 1 && IsLead(s[0]) && IsTrail(s[1]) && WellFormed(s[2..]))
  }

  /** One scalar value in UTF-8 (section 3 of RFC 3629). */
  function BytesOf(c: Scalar): (bs: seq<Byte>)
    ensures 1 <= |bs| <= 4
  {
    if c < 0x80 then [c]
    else if c < 0x800 then [0xC0 + c / 0x40, 0x80 + c % 0x40]
    else if c < 0x1_0000 then [0xE0 + c / 0x1000, 0x80 + c / 0x40 % 0x40, 0x80 + c % 0x40]
    else [0xF0 + c / 0x4_0000, 0x80 + c / 0x1000 % 0x40, 0x80 + c / 0x40 % 0x40, 0x80 + c % 0x40]
  }

  function Bytes(cs: seq<Scalar>): seq<Byte> {
    if |cs| == 0 then [] else BytesOf(cs[0]) + Bytes(cs[1..])
  }

  /** The grammar of section 4 of RFC 3629: the length of the character at the front, or 0. */
  predicate Tail(b: Byte) { 0x80 <= b <= 0xBF }

  function CharLength(b: seq<Byte>): (n: nat)
    ensures n <= 4 && n <= |b|
  {
    if |b| >= 1 && b[0] <= 0x7F then 1
    else if |b| >= 2 && 0xC2 <= b[0] <= 0xDF && Tail(b[1]) then 2
    else if |b| >= 3 && Tail(b[2])
            && ((b[0] == 0xE0 && 0xA0 <= b[1] <= 0xBF) || (0xE1 <= b[0] <= 0xEC && Tail(b[1]))
                || (b[0] == 0xED && 0x80 <= b[1] <= 0x9F) || (0xEE <= b[0] <= 0xEF && Tail(b[1]))) then 3
    else if |b| >= 4 && Tail(b[2]) && Tail(b[3])
            && ((b[0] == 0xF0 && 0x90 <= b[1] <= 0xBF) || (0xF1 <= b[0] <= 0xF3 && Tail(b[1]))
                || (b[0] == 0xF4 && 0x80 <= b[1] <= 0x8F)) then 4
    else 0
  }

  ghost predicate Valid(b: seq<Byte>)
    decreases |b|
  {
    |b| == 0 || (CharLength(b) > 0 && Valid(b[CharLength(b)..]))
  }

  // ------------------------------------------------------------- utf8Slice

  // A sequence of two, three or four bytes, when the source accepts it as a character.

  function Read2(b0: int, b1: int): Option<Scalar> {
    var c := b0 % 0x20 * 0x40 + b1 % 0x40;
    if b1 / 0x40 == 2 && c > 0x7F then Some(c) else None
  }

  function Read3(b0: int, b1: int, b2: int): Option<Scalar> {
    var c := b0 % 0x10 * 0x1000 + b1 % 0x40 * 0x40 + b2 % 0x40;
    if b1 / 0x40 == 2 && b2 / 0x40 == 2 && c > 0x7FF && (c < 0xD800 || c > 0xDFFF) then Some(c) else None
  }

  function Read4(b0: int, b1: int, b2: int, b3: int): Option<Scalar> {
    var c := b0 % 0x10 * 0x4_0000 + b1 % 0x40 * 0x1000 + b2 % 0x40 * 0x40 + b3 % 0x40;
    if b1 / 0x40 == 2 && b2 / 0x40 == 2 && b3 / 0x40 == 2 && 0xFFFF < c < 0x11_0000 then Some(c) else None
  }

  function SequenceLength(b0: int): (n: nat)
    ensures 1 <= n <= 4
  {
    if b0 > 0xEF then 4 else if b0 > 0xDF then 3 else if b0 > 0xBF then 2 else 1
  }

  /** The character `utf8Slice` reads at the front: its value and length, or U+FFFD and 1. */
  function ReadChar(b: seq<Byte>): (r: (Scalar, nat))
    requires |b| > 0
    ensures 1 <= r.1 <= |b|
  {
    var n := SequenceLength(b[0]);
    var c: Option<Scalar> :=
      if n > |b| then None
      else if n == 1 then if b[0] < 0x80 then Some(b[0]) else None
      else if n == 2 then Read2(b[0], b[1])
      else if n == 3 then Read3(b[0], b[1], b[2])
      else Read4(b[0], b[1], b[2], b[3]);
    if c.Some? then (c.value, n) else (REPLACEMENT, 1)
  }

  function ReadAll(b: seq<Byte>): seq<Scalar>
    decreases |b|
  {
    if |b| == 0 then [] else [ReadChar(b).0] + ReadAll(b[ReadChar(b).1..])
  }

  function Slice(b: seq<Byte>): seq<Unit> { Units(ReadAll(b)) }

  // ----------------------------------------------------------- utf8ToBytes

  const FFFD: seq<Byte> := [0xEF, 0xBF, 0xBD]

  /** One code unit of `utf8ToBytes`: the bytes pushed, and the lead surrogate remembered. */
  function EncodeUnit(c: Unit, last: bool, lead: Option<Unit>): (r: (seq<Byte>, Option<Unit>))
    requires lead.Some? ==> IsLead(lead.value)
    ensures r.1.Some? ==> IsLead(r.1.value)
  {
    if IsSurrogate(c) then
      if lead.None? then if !IsLead(c) || last then (FFFD, None) else ([], Some(c))
      else if IsLead(c) then (FFFD, Some(c))
      else (BytesOf(PairScalar(lead.value, c)), None)
    else ((if lead.Some? then FFFD else []) + BytesOf(c), None)
  }

  /** `utf8ToBytes` from here on; a lead surrogate still remembered at the end is lost. */
  function EncodeFrom(s: seq<Unit>, lead: Option<Unit>): seq<Byte>
    requires lead.Some? ==> IsLead(lead.value)
  {
    if |s| == 0 then []
    else
      var (pushed, lead') := EncodeUnit(s[0], |s| == 1, lead);
      pushed + EncodeFrom(s[1..], lead')
  }

  function ToBytes(s: seq<Unit>): seq<Byte> { EncodeFrom(s, None) }

  // --------------------------------------------------------------- lemmas

  lemma Split2(c: int)
    requires 0x80 <= c < 0x800
    ensures Read2(0xC0 + c / 0x40, 0x80 + c % 0x40) == Some(c)
  {
  }

  lemma Split3(c: int)
    requires 0x800 <= c < 0xD800 || 0xE000 <= c < 0x1_0000
    ensures Read3(0xE0 + c / 0x1000, 0x80 + c / 0x40 % 0x40, 0x80 + c % 0x40) == Some(c)
  {
    assert c == c / 0x1000 * 0x1000 + c / 0x40 % 0x40 * 0x40 + c % 0x40;
  }

  lemma Split4(c: int)
    requires 0x1_0000 <= c < 0x11_0000
    ensures Read4(0xF0 + c / 0x4_0000, 0x80 + c / 0x1000 % 0x40, 0x80 + c / 0x40 % 0x40, 0x80 + c % 0x40) == Some(c)
  {
    assert c == c / 0x4_0000 * 0x4_0000 + c / 0x1000 % 0x40 * 0x1000 + c / 0x40 % 0x40 * 0x40 + c % 0x40;
  }

  lemma ReadsBytesOf(c: Scalar, rest: seq<Byte>)
    ensures ReadChar(BytesOf(c) + rest) == (c, |BytesOf(c)|)
  {
    var b := BytesOf(c) + rest;
    assert forall i :: 0 <= i < |BytesOf(c)| ==> b[i] == BytesOf(c)[i];
    if 0x80 <= c < 0x800 {
      Split2(c);
    } else if 0x800 <= c < 0x1_0000 {
      Split3(c);
    } else if 0x1_0000 <= c {
      Split4(c);
    }
  }

  lemma BytesCons(c: Scalar, cs: seq<Scalar>)
    ensures Bytes([c] + cs) == BytesOf(c) + Bytes(cs)
  {
    assert ([c] + cs)[1..] == cs;
  }

  lemma {:induction false} ReadsBytes(cs: seq<Scalar>)
    ensures ReadAll(Bytes(cs)) == cs
  {
    if |cs| > 0 {
      ReadsBytesOf(cs[0], Bytes(cs[1..]));
      assert Bytes(cs)[|BytesOf(cs[0])|..] == Bytes(cs[1..]);
      ReadsBytes(cs[1..]);
    }
  }

  lemma Join2(b0: int, b1: int)
    requires 0xC2 <= b0 <= 0xDF && 0x80 <= b1 <= 0xBF
    ensures Read2(b0, b1).Some? && BytesOf(Read2(b0, b1).value) == [b0, b1]
  {
    var c := (b0 - 0xC0) * 0x40 + (b1 - 0x80);
    assert b0 % 0x20 == b0 - 0xC0 && b1 % 0x40 == b1 - 0x80;
    assert c / 0x40 == b0 - 0xC0 && c % 0x40 == b1 - 0x80;
  }

  lemma Join3(b0: int, b1: int, b2: int)
    requires 0xE0 <= b0 <= 0xEF && 0x80 <= b1 <= 0xBF && 0x80 <= b2 <= 0xBF
    requires b0 == 0xE0 ==> b1 >= 0xA0
    requires b0 == 0xED ==> b1 <= 0x9F
    ensures Read3(b0, b1, b2).Some? && BytesOf(Read3(b0, b1, b2).value) == [b0, b1, b2]
  {
    Join3Value(b0, b1, b2);
    SixBits(0, b0 - 0xE0, b1 - 0x80, b2 - 0x80);
  }

  lemma Join3Value(b0: int, b1: int, b2: int)
    requires 0xE0 <= b0 <= 0xEF && 0x80 <= b1 <= 0xBF && 0x80 <= b2 <= 0xBF
    requires b0 == 0xE0 ==> b1 >= 0xA0
    requires b0 == 0xED ==> b1 <= 0x9F
    ensures Read3(b0, b1, b2) == Some((b0 - 0xE0) * 0x1000 + (b1 - 0x80) * 0x40 + (b2 - 0x80))
  {
    assert b0 % 0x10 == b0 - 0xE0;
    assert b1 % 0x40 == b1 - 0x80;
    assert b2 % 0x40 == b2 - 0x80;
  }

  lemma Join4(b0: int, b1: int, b2: int, b3: int)
    requires 0xF0 <= b0 <= 0xF4 && 0x80 <= b1 <= 0xBF && 0x80 <= b2 <= 0xBF && 0x80 <= b3 <= 0xBF
    requires b0 == 0xF0 ==> b1 >= 0x90
    requires b0 == 0xF4 ==> b1 <= 0x8F
    ensures Read4(b0, b1, b2, b3).Some? && BytesOf(Read4(b0, b1, b2, b3).value) == [b0, b1, b2, b3]
  {
    Join4Value(b0, b1, b2, b3);
    SixBits(b0 - 0xF0, b1 - 0x80, b2 - 0x80, b3 - 0x80);
  }

  lemma Join4Value(b0: int, b1: int, b2: int, b3: int)
    requires 0xF0 <= b0 <= 0xF4 && 0x80 <= b1 <= 0xBF && 0x80 <= b2 <= 0xBF && 0x80 <= b3 <= 0xBF
    requires b0 == 0xF0 ==> b1 >= 0x90
    requires b0 == 0xF4 ==> b1 <= 0x8F
    ensures Read4(b0, b1, b2, b3)
         == Some((b0 - 0xF0) * 0x4_0000 + (b1 - 0x80) * 0x1000 + (b2 - 0x80) * 0x40 + (b3 - 0x80))
  {
    assert b0 % 0x10 == b0 - 0xF0;
    assert b1 % 0x40 == b1 - 0x80;
    assert b2 % 0x40 == b2 - 0x80;
    assert b3 % 0x40 == b3 - 0x80;
  }

  lemma SixBits(x: int, y: int, z: int, w: int)
    requires 0 <= y < 0x40 && 0 <= z < 0x40 && 0 <= w < 0x40
    ensures var c := x * 0x4_0000 + y * 0x1000 + z * 0x40 + w;
      c / 0x4_0000 == x && c / 0x1000 % 0x40 == y && c / 0x40 % 0x40 == z && c % 0x40 == w
  {
    var c := x * 0x4_0000 + y * 0x1000 + z * 0x40 + w;
    assert c / 0x40 == x * 0x1000 + y * 0x40 + z;
    assert c / 0x1000 == x * 0x40 + y;
  }

  lemma ReadsValidValue(b: seq<Byte>)
    requires CharLength(b) > 0
    ensures ReadChar(b).1 == CharLength(b) && |BytesOf(ReadChar(b).0)| == CharLength(b)
    ensures forall i :: 0 <= i < CharLength(b) ==> BytesOf(ReadChar(b).0)[i] == b[i]
  {
    var n := CharLength(b);
    if n == 2 {
      Join2(b[0], b[1]);
    } else if n == 3 {
      Join3(b[0], b[1], b[2]);
    } else if n == 4 {
      Join4(b[0], b[1], b[2], b[3]);
    }
  }

  lemma ReadsValidChar(b: seq<Byte>) returns (c: Scalar, rest: seq<Byte>)
    requires CharLength(b) > 0
    ensures rest == b[CharLength(b)..] && b == BytesOf(c) + rest && |rest| < |b|
    ensures ReadAll(b) == [c] + ReadAll(rest)
  {
    ReadsValidValue(b);
    c, rest := ReadChar(b).0, b[CharLength(b)..];
  }

  lemma {:induction false} ReadsValid(b: seq<Byte>)
    requires Valid(b)
    ensures Bytes(ReadAll(b)) == b
    decreases |b|
  {
    if |b| > 0 {
      var c, rest := ReadsValidChar(b);
      ReadsValid(rest);
      BytesCons(c, ReadAll(rest));
    }
  }

  lemma ScalarsOfUnits(c: Scalar, s: seq<Unit>)
    ensures Scalars(UnitsOf(c) + s) == [c] + Scalars(s)
  {
    var us := UnitsOf(c) + s;
    if c > 0xFFFF {
      assert us[2..] == s;
    } else {
      assert us[1..] == s;
    }
  }

  /** UTF-16 of scalar values reads back, and is well-formed. */
  lemma {:induction false} ScalarsUnits(cs: seq<Scalar>)
    ensures Scalars(Units(cs)) == cs && WellFormed(Units(cs))
  {
    if |cs| > 0 {
      ScalarsUnits(cs[1..]);
      ScalarsOfUnits(cs[0], Units(cs[1..]));
      WellFormedCons(cs[0], Units(cs[1..]));
    }
  }

  lemma WellFormedCons(c: Scalar, s: seq<Unit>)
    requires WellFormed(s)
    ensures WellFormed(UnitsOf(c) + s)
  {
    var us := UnitsOf(c) + s;
    if c > 0xFFFF {
      assert us[2..] == s;
    } else {
      assert us[1..] == s;
    }
  }

  lemma UnitsOfPair(lead: Unit, trail: Unit)
    requires IsLead(lead) && IsTrail(trail)
    ensures UnitsOf(PairScalar(lead, trail)) == [lead, trail]
  {
  }

  lemma UnitsCons(c: Scalar, cs: seq<Scalar>)
    ensures Units([c] + cs) == UnitsOf(c) + Units(cs)
  {
    assert ([c] + cs)[1..] == cs;
  }

  lemma {:induction false} UnitsScalars(s: seq<Unit>)
    requires WellFormed(s)
    ensures Units(Scalars(s)) == s
  {
    if |s| == 0 {
    } else if IsLead(s[0]) {
      UnitsScalars(s[2..]);
      UnitsOfPair(s[0], s[1]);
      UnitsCons(PairScalar(s[0], s[1]), Scalars(s[2..]));
      assert s == [s[0], s[1]] + s[2..];
    } else {
      UnitsScalars(s[1..]);
      UnitsCons(s[0], Scalars(s[1..]));
      assert s == [s[0]] + s[1..];
    }
  }

  /** The one case where the source loses a replacement character. */
  predicate TwoLeadsAtEnd(s: seq<Unit>) {
    |s| >= 2 && IsLead(s[|s| - 1]) && IsLead(s[|s| - 2])
  }

  function Trimmed(s: seq<Unit>): seq<Unit> {
    if TwoLeadsAtEnd(s) then s[..|s| - 1] else s
  }

  lemma TrimmedCons(c: Unit, t: seq<Unit>)
    requires !(IsLead(c) && |t| == 1 && IsLead(t[0]))
    ensures Trimmed([c] + t) == [c] + Trimmed(t)
  {
    var s := [c] + t;
    if |t| >= 2 {
      assert s[|s| - 1] == t[|t| - 1] && s[|s| - 2] == t[|t| - 2];
      assert s[..|s| - 1] == [c] + t[..|t| - 1];
    }
  }

  /** A unit that does not start a pair contributes one scalar value. */
  lemma ScalarsCons(c: Unit, t: seq<Unit>)
    requires !(IsLead(c) && |t| > 0 && IsTrail(t[0]))
    ensures Scalars([c] + t) == [if IsSurrogate(c) then REPLACEMENT else c] + Scalars(t)
  {
    assert ([c] + t)[1..] == t;
  }

  lemma EncodesUnit(c: Unit, t: seq<Unit>)
    requires !IsLead(c) && EncodeFrom(t, None) == Bytes(Scalars(Trimmed(t)))
    ensures (if IsSurrogate(c) then FFFD else BytesOf(c)) + EncodeFrom(t, None) == Bytes(Scalars(Trimmed([c] + t)))
  {
    TrimmedCons(c, t);
    ScalarsCons(c, Trimmed(t));
    var u: Scalar := if IsSurrogate(c) then REPLACEMENT else c;
    ReplacementBytes();
    BytesCons(u, Scalars(Trimmed(t)));
  }

  lemma ReplacementBytes()
    ensures BytesOf(REPLACEMENT) == FFFD
  {
  }

  lemma EncodesLostLead(lead: Unit, t: seq<Unit>)
    requires IsLead(lead) && |Trimmed(t)| > 0 && !IsTrail(Trimmed(t)[0]) && !(|t| == 1 && IsLead(t[0]))
    ensures FFFD + Bytes(Scalars(Trimmed(t))) == Bytes(Scalars(Trimmed([lead] + t)))
  {
    TrimmedCons(lead, t);
    ScalarsCons(lead, Trimmed(t));
    ReplacementBytes();
    BytesCons(REPLACEMENT, Scalars(Trimmed(t)));
  }

  lemma EncodesPair(lead: Unit, trail: Unit, u: seq<Unit>)
    requires IsLead(lead) && IsTrail(trail)
    ensures BytesOf(PairScalar(lead, trail)) + Bytes(Scalars(Trimmed(u)))
         == Bytes(Scalars(Trimmed([lead] + ([trail] + u))))
  {
    TrimmedCons(trail, u);
    TrimmedCons(lead, [trail] + u);
    var v := [lead] + ([trail] + Trimmed(u));
    assert v[2..] == Trimmed(u);
    BytesCons(PairScalar(lead, trail), Scalars(Trimmed(u)));
  }

  lemma OneReplacement(lead: Unit)
    requires IsLead(lead)
    ensures Bytes(Scalars([lead])) == FFFD
  {
    assert Scalars([lead]) == [REPLACEMENT];
    BytesCons(REPLACEMENT, []);
    assert [REPLACEMENT] + [] == [REPLACEMENT] && FFFD + [] == FFFD;
  }

  /** `utf8ToBytes` is UTF-8 of the scalar values, up to one lead surrogate lost at the end. */
  lemma {:induction false} EncodesScalars(s: seq<Unit>)
    ensures ToBytes(s) == Bytes(Scalars(Trimmed(s)))
    decreases |s|, 1
  {
    if |s| > 0 {
      var c, t := s[0], s[1..];
      assert s == [c] + t;
      if IsLead(c) && |t| > 0 {
        EncodesAfterLead(t, c);
      } else if !IsLead(c) {
        EncodesScalars(t);
        EncodesUnit(c, t);
      } else {
        OneReplacement(c);
        assert s == [c] && EncodeFrom(t, None) == [];
        assert FFFD + EncodeFrom(t, None) == FFFD;
      }
    }
  }

  /** One unit after a remembered lead surrogate. */
  lemma EncodesNext(c: Unit, u: seq<Unit>, lead: Unit, t: seq<Unit>)
    requires IsLead(lead) && t == [c] + u
    ensures EncodeFrom(t, Some(lead))
         == if IsLead(c) then FFFD + EncodeFrom(u, Some(c))
            else if IsTrail(c) then BytesOf(PairScalar(lead, c)) + EncodeFrom(u, None)
            else FFFD + (BytesOf(c) + EncodeFrom(u, None))
  {
    assert t[1..] == u;
    if !IsSurrogate(c) { Associative(FFFD, BytesOf(c), EncodeFrom(u, None)); }
  }

  lemma TwoLeads(c: Unit, u: seq<Unit>, lead: Unit, t: seq<Unit>)
    requires IsLead(lead) && IsLead(c) && t == [c] + u && |u| > 0
    requires EncodeFrom(u, Some(c)) == Bytes(Scalars(Trimmed(t)))
    ensures EncodeFrom(t, Some(lead)) == Bytes(Scalars(Trimmed([lead] + t)))
  {
    EncodesNext(c, u, lead, t);
    EncodesLostLead(lead, t);
  }

  lemma LeadThenPlain(c: Unit, u: seq<Unit>, lead: Unit, t: seq<Unit>)
    requires IsLead(lead) && !IsSurrogate(c) && t == [c] + u && EncodeFrom(u, None) == Bytes(Scalars(Trimmed(u)))
    ensures EncodeFrom(t, Some(lead)) == Bytes(Scalars(Trimmed([lead] + t)))
  {
    EncodesNext(c, u, lead, t);
    EncodesUnit(c, u);
    TrimmedCons(c, u);
    EncodesLostLead(lead, t);
  }

  lemma {:induction false} EncodesAfterLead(t: seq<Unit>, lead: Unit)
    requires IsLead(lead) && |t| > 0
    ensures EncodeFrom(t, Some(lead)) == Bytes(Scalars(Trimmed([lead] + t)))
    decreases |t|, 0
  {
    var c, u := t[0], t[1..];
    assert t == [c] + u;
    if IsLead(c) && |u| == 0 {
      assert Trimmed([lead] + t) == [lead] && FFFD + [] == FFFD;
      OneReplacement(lead);
    } else if IsLead(c) {
      EncodesAfterLead(u, c);
      TwoLeads(c, u, lead, t);
    } else {
      EncodesScalars(u);
      if IsTrail(c) {
        EncodesNext(c, u, lead, t);
        EncodesPair(lead, c, u);
      } else {
        LeadThenPlain(c, u, lead, t);
      }
    }
  }

  // -------------------------------------------------------------- theorems

  /** Every string: its bytes are read back as its scalar values, less the lead that is lost. */
  lemma SliceAfterToBytes(s: seq<Unit>)
    ensures Slice(ToBytes(s)) == Units(Scalars(Trimmed(s)))
    ensures WellFormed(s) ==> Slice(ToBytes(s)) == s
  {
    EncodesScalars(s);
    ReadsBytes(Scalars(Trimmed(s)));
    if WellFormed(s) {
      WellFormedEnd(s);
      UnitsScalars(s);
    }
  }

  lemma {:induction false} WellFormedEnd(s: seq<Unit>)
    requires WellFormed(s)
    ensures !(|s| > 0 && IsLead(s[|s| - 1]))
  {
    if |s| > 0 {
      WellFormedEnd(if IsLead(s[0]) then s[2..] else s[1..]);
    }
  }

  /** Exactly when `utf8ToBytes` keeps one character for every scalar value. */
  lemma LosesOnlyTwoLeads(s: seq<Unit>)
    ensures ReadAll(ToBytes(s)) == Scalars(s) <==> !TwoLeadsAtEnd(s)
    ensures TwoLeadsAtEnd(s) ==> ReadAll(ToBytes(s)) + [REPLACEMENT] == Scalars(s)
  {
    EncodesScalars(s);
    ReadsBytes(Scalars(Trimmed(s)));
    if TwoLeadsAtEnd(s) {
      LastLead(s);
    }
  }

  lemma {:induction false} LastLead(s: seq<Unit>)
    requires |s| > 0 && IsLead(s[|s| - 1])
    ensures Scalars(s) == Scalars(s[..|s| - 1]) + [REPLACEMENT]
  {
    var t := s[..|s| - 1];
    if |s| == 1 {
      assert Scalars(s) == [REPLACEMENT];
    } else if IsLead(s[0]) && IsTrail(s[1]) {
      LastLead(s[2..]);
      assert s[2..][..|s| - 3] == t[2..];
    } else {
      LastLead(s[1..]);
      assert s[1..][..|s| - 2] == t[1..];
    }
  }

  /** Every valid UTF-8 byte string is what its decoded string encodes to. */
  lemma ToBytesAfterSlice(b: seq<Byte>)
    requires Valid(b)
    ensures ToBytes(Slice(b)) == b
  {
    var cs := ReadAll(b);
    ReadsValid(b);
    ScalarsUnits(cs);
    WellFormedEnd(Units(cs));
    EncodesScalars(Units(cs));
  }

  /** Any bytes at all are read as well-formed UTF-16. */
  lemma SliceWellFormed(b: seq<Byte>)
    ensures WellFormed(Slice(b))
  {
    ScalarsUnits(ReadAll(b));
  }

  // ------------------------------------------------- the loops of the source

  lemma UnitsStep(res: seq<Unit>, b: seq<Byte>)
    requires |b| > 0
    ensures res + Slice(b) == res + UnitsOf(ReadChar(b).0) + Slice(b[ReadChar(b).1..])
  {
    var (c, n) := ReadChar(b);
    UnitsCons(c, ReadAll(b[n..]));
  }

  method Utf8Slice(buf: seq<Byte>, start: nat, end: nat) returns (res: seq<Unit>)
    requires start <= |buf|
    ensures var stop := if end < |buf| then end else |buf|;
      res == if start < stop then Slice(buf[start..stop]) else []
  {
    var stop := if end < |buf| then end else |buf|;
    res := [];
    var i := start;
    while i < stop
      invariant start <= i && (i <= stop || i == start)
      invariant start < stop ==> res + Slice(buf[i..stop]) == Slice(buf[start..stop])
      invariant start >= stop ==> res == []
    {
      ghost var rest := buf[i..stop];
      UnitsStep(res, rest);
      var (codePoint, bytesPerSequence) := ReadChar(buf[i..stop]);
      res := res + UnitsOf(codePoint);
      i := i + bytesPerSequence;
      assert rest[bytesPerSequence..] == buf[i..stop];
    }
  }

  method Utf8ToBytes(s: seq<Unit>) returns (bytes: seq<Byte>)
    ensures bytes == ToBytes(s)
  {
    bytes := [];
    var leadSurrogate: Option<Unit> := None;
    for i := 0 to |s|
      invariant leadSurrogate.Some? ==> IsLead(leadSurrogate.value)
      invariant bytes + EncodeFrom(s[i..], leadSurrogate) == ToBytes(s)
    {
      assert s[i..][1..] == s[i + 1..];
      var pushed: seq<Byte>;
      pushed, leadSurrogate := PushUnit(s[i], i + 1 == |s|, leadSurrogate);
      assert bytes + (pushed + EncodeFrom(s[i + 1..], leadSurrogate))
          == bytes + pushed + EncodeFrom(s[i + 1..], leadSurrogate);
      bytes := bytes + pushed;
    }
  }

  /** The body of the loop, branch by branch. */
  method PushUnit(codePoint: Unit, last: bool, lead: Option<Unit>) returns (pushed: seq<Byte>, lead': Option<Unit>)
    requires lead.Some? ==> IsLead(lead.value)
    ensures (pushed, lead') == EncodeUnit(codePoint, last, lead)
  {
    pushed := [];
    if 0xD7FF < codePoint < 0xE000 {
      if lead.None? {
        if codePoint > 0xDBFF { return FFFD, None; }
        if last { return FFFD, None; }
        return [], Some(codePoint);
      }
      if codePoint < 0xDC00 { return FFFD, Some(codePoint); }
      return BytesOf(PairScalar(lead.value, codePoint)), None;
    } else if lead.Some? {
      pushed := FFFD;
    }
    return pushed + BytesOf(codePoint), None;
  }
}
