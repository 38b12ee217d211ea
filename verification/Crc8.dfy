/**
  * The checksum of the SHT3x sensor (polynomial x^8 + x^5 + x^4 + 1, start value 0xFF), which
  * errors it detects, and the readout that relies on it.
  */
module Crc8 {
  const POLY: bv8 := 0x31

  /** One round of the inner loop. */
  function Shift(crc: bv8): bv8 { if crc & 0x80 != 0 then (crc << 1) ^ POLY else crc << 1 }

  function Shifts(crc: bv8, n: nat): bv8
    decreases n
  {
    if n == 0 then crc else Shifts(Shift(crc), n - 1)
  }

  /** The checksum register after the bytes of `m`, each shifted through in `bits` rounds. */
  function Register(crc: bv8, m: seq<bv8>, bits: nat): bv8
    decreases |m|
  {
    if |m| == 0 then crc else Register(Shifts(crc ^ m[0], bits), m[1..], bits)
  }

  function Crc(m: seq<bv8>): bv8 { Register(0xFF, m, 8) }

  // ------------------------------------------------------ the loops

  method ComputeCrc(buf: array<bv8>, start: nat, len: nat) returns (crc: bv8)
    requires start + len <= buf.Length
    ensures crc == Crc(buf[start..start + len])
  {
    crc := Compute(buf, start, len, 8);
  }

  method Compute(buf: array<bv8>, start: nat, len: nat, bits: nat) returns (crc: bv8)
    requires start + len <= buf.Length
    ensures crc == Register(0xFF, buf[start..start + len], bits)
  {
    crc := 0xFF;
    var at, j := start, len;
    while j > 0
      invariant start <= at && 0 <= j && at + j == start + len
      invariant Register(crc, buf[at..at + j], bits) == Register(0xFF, buf[start..start + len], bits)
    {
      assert buf[at..at + j][1..] == buf[at + 1..at + j];
      crc := crc ^ buf[at];
      at := at + 1;
      ghost var goal := Shifts(crc, bits);
      var i := bits;
      while i > 0
        invariant Shifts(crc, i) == goal
      {
        crc := if crc & 0x80 != 0 then (crc << 1) ^ POLY else crc << 1;
        i := i - 1;
      }
      j := j - 1;
    }
  }

  // ------------------------------------------------------ bit by bit

  // The errors are studied on the bits of the register, the independent form of the algorithm: a
  // message is fed in bit by bit.

  datatype Bits = Bits(b7: bool, b6: bool, b5: bool, b4: bool, b3: bool, b2: bool, b1: bool, b0: bool)

  const ZERO := Bits(false, false, false, false, false, false, false, false)

  function Of(x: bv8): Bits {
    Bits(x & 0x80 != 0, x & 0x40 != 0, x & 0x20 != 0, x & 0x10 != 0, x & 8 != 0, x & 4 != 0, x & 2 != 0, x & 1 != 0)
  }

  function Xor(x: Bits, y: Bits): Bits {
    Bits(x.b7 != y.b7, x.b6 != y.b6, x.b5 != y.b5, x.b4 != y.b4, x.b3 != y.b3, x.b2 != y.b2, x.b1 != y.b1, x.b0 != y.b0)
  }

  /** Multiplication by x, modulo the polynomial. */
  function Times(r: Bits): Bits { Bits(r.b6, r.b5, r.b4 != r.b7, r.b3 != r.b7, r.b2, r.b1, r.b0, r.b7) }

  function TimesN(r: Bits, n: nat): Bits
    decreases n
  {
    if n == 0 then r else TimesN(Times(r), n - 1)
  }

  const TOP := Bits(true, false, false, false, false, false, false, false)

  /** A message bit enters at the top. */
  function Enter(r: Bits, b: bool): Bits { if b then Flip(r) else r }

  function Flip(r: Bits): Bits { r.(b7 := !r.b7) }

  function Feed(r: Bits, e: seq<bool>): Bits
    decreases |e|
  {
    if |e| == 0 then r else Feed(Times(Enter(r, e[0])), e[1..])
  }

  function Double(r: Bits): Bits { Bits(r.b6, r.b5, r.b4, r.b3, r.b2, r.b1, r.b0, false) }

  function Left(r: Bits, n: nat): Bits
    decreases n
  {
    if n == 0 then r else Left(Double(r), n - 1)
  }

  function Serial(r: Bits, n: nat): (e: seq<bool>)
    ensures |e| == n
    decreases n
  {
    if n == 0 then [] else [r.b7] + Serial(Double(r), n - 1)
  }

  /** The bits of a message, the highest bit of the first byte first. */
  function Message(m: seq<bv8>, bits: nat): seq<bool> {
    if |m| == 0 then [] else Serial(Of(m[0]), bits) + Message(m[1..], bits)
  }

  predicate OneBit(m: bv8) { m != 0 && m & (m - 1) == 0 }

  lemma BitXor(x: bv8, y: bv8, m: bv8)
    requires OneBit(m)
    ensures ((x ^ y) & m != 0) == ((x & m != 0) != (y & m != 0))
  {
    assert x & m == 0 || x & m == m;
    assert y & m == 0 || y & m == m;
    assert (x ^ y) & m == (x & m) ^ (y & m);
  }

  lemma OfXor(x: bv8, y: bv8)
    ensures Of(x ^ y) == Xor(Of(x), Of(y))
  {
    BitXor(x, y, 0x80);
    BitXor(x, y, 0x40);
    BitXor(x, y, 0x20);
    BitXor(x, y, 0x10);
    BitXor(x, y, 8);
    BitXor(x, y, 4);
    BitXor(x, y, 2);
    BitXor(x, y, 1);
  }

  lemma OfShift(x: bv8)
    ensures Of(Shift(x)) == Times(Of(x))
  {
  }

  lemma OfInjective(x: bv8, y: bv8)
    ensures Of(x) == Of(y) <==> x == y
  {
  }

  lemma {:induction false} OfShifts(x: bv8, n: nat)
    ensures Of(Shifts(x, n)) == TimesN(Of(x), n)
    decreases n
  {
    if n > 0 {
      OfShift(x);
      OfShifts(Shift(x), n - 1);
    }
  }

  lemma TimesTop(p: Bits, b: Bits)
    ensures Times(Xor(p, b)) == Xor(Times(Enter(p, b.b7)), Double(b))
  {
  }

  /** Exclusive-or with a byte and then shift, or shift in the byte's bits: what is left of it differs. */
  lemma {:induction false} FeedsByte(p: Bits, b: Bits, n: nat)
    ensures TimesN(Xor(p, b), n) == Xor(Feed(p, Serial(b, n)), Left(b, n))
    decreases n
  {
    if n > 0 {
      TimesTop(p, b);
      assert Serial(b, n)[1..] == Serial(Double(b), n - 1);
      FeedsByte(Times(Enter(p, b.b7)), Double(b), n - 1);
    }
  }

  lemma LeftEight(b: Bits)
    ensures Left(b, 8) == ZERO
  {
  }

  lemma {:induction false} FeedConcat(p: Bits, a: seq<bool>, b: seq<bool>)
    ensures Feed(p, a + b) == Feed(Feed(p, a), b)
    decreases |a|
  {
    if |a| == 0 {
      assert a + b == b;
    } else {
      assert (a + b)[1..] == a[1..] + b;
      FeedConcat(Times(Enter(p, a[0])), a[1..], b);
    }
  }

  lemma ByteIsFeed(p: bv8, b: bv8, bits: nat)
    requires bits == 8
    ensures Of(Shifts(p ^ b, bits)) == Feed(Of(p), Serial(Of(b), bits))
  {
    OfShifts(p ^ b, bits);
    OfXor(p, b);
    FeedsWhole(Of(p), Of(b), bits);
  }

  lemma FeedsWhole(p: Bits, b: Bits, bits: nat)
    requires bits == 8
    ensures TimesN(Xor(p, b), bits) == Feed(p, Serial(b, bits))
  {
    FeedsByte(p, b, bits);
    LeftEight(b);
    XorZero(Feed(p, Serial(b, bits)));
  }

  lemma XorZero(r: Bits)
    ensures Xor(r, ZERO) == r
  {
  }

  lemma {:induction false} RegisterIsFeed(p: bv8, m: seq<bv8>, bits: nat)
    requires bits == 8
    ensures Of(Register(p, m, bits)) == Feed(Of(p), Message(m, bits))
    decreases |m|
  {
    if |m| > 0 {
      ByteIsFeed(p, m[0], bits);
      RegisterIsFeed(Shifts(p ^ m[0], bits), m[1..], bits);
      FeedConcat(Of(p), Serial(Of(m[0]), bits), Message(m[1..], bits));
    }
  }

  // ------------------------------------------------------ linear and injective

  lemma StepLinear(p: Bits, x: bool, q: Bits, y: bool)
    ensures Xor(Times(Enter(p, x)), Times(Enter(q, y))) == Times(Enter(Xor(p, q), x != y))
  {
    TimesLinear(Enter(p, x), Enter(q, y));
    EnterLinear(p, x, q, y);
  }

  lemma TimesLinear(a: Bits, b: Bits)
    ensures Times(Xor(a, b)) == Xor(Times(a), Times(b))
  {
  }

  lemma EnterLinear(p: Bits, x: bool, q: Bits, y: bool)
    ensures Xor(Enter(p, x), Enter(q, y)) == Enter(Xor(p, q), x != y)
  {
    FlipLeft(p, Enter(q, y));
    FlipRight(p, q);
    FlipTwice(Xor(p, q));
  }

  lemma FlipLeft(p: Bits, q: Bits)
    ensures Xor(Flip(p), q) == Flip(Xor(p, q))
  {
  }

  lemma FlipRight(p: Bits, q: Bits)
    ensures Xor(p, Flip(q)) == Flip(Xor(p, q))
  {
  }

  lemma FlipTwice(p: Bits)
    ensures Flip(Flip(p)) == p
  {
  }

  lemma {:induction false} TimesInjective(a: Bits, n: nat)
    ensures TimesN(a, n) == ZERO <==> a == ZERO
    decreases n
  {
    if n > 0 {
      assert Times(a) == ZERO <==> a == ZERO;
      TimesInjective(Times(a), n - 1);
    }
  }

  function Difference(a: seq<bool>, b: seq<bool>): (d: seq<bool>)
    requires |a| == |b|
    ensures |d| == |a|
  {
    if |a| == 0 then [] else [a[0] != b[0]] + Difference(a[1..], b[1..])
  }

  /** Registers of two messages differ by the register of their difference. */
  lemma {:induction false} Linear(p: Bits, a: seq<bool>, q: Bits, b: seq<bool>)
    requires |a| == |b|
    ensures Xor(Feed(p, a), Feed(q, b)) == Feed(Xor(p, q), Difference(a, b))
    decreases |a|
  {
    if |a| > 0 {
      assert Difference(a, b)[1..] == Difference(a[1..], b[1..]);
      StepLinear(p, a[0], q, b[0]);
      Linear(Times(Enter(p, a[0])), a[1..], Times(Enter(q, b[0])), b[1..]);
    }
  }

  // ------------------------------------------------------ residue

  /** A message followed by its checksum leaves zero, and nothing else does. */
  lemma Residue(m: seq<bv8>, x: bv8)
    ensures Crc(m + [x]) == 0 <==> x == Crc(m)
  {
    ResidueBits(m, x, 8);
  }

  lemma {:induction false} RegisterConcat(p: bv8, a: seq<bv8>, b: seq<bv8>, bits: nat)
    ensures Register(p, a + b, bits) == Register(Register(p, a, bits), b, bits)
    decreases |a|
  {
    if |a| == 0 {
      assert a + b == b;
    } else {
      assert (a + b)[1..] == a[1..] + b;
      RegisterConcat(Shifts(p ^ a[0], bits), a[1..], b, bits);
    }
  }

  lemma ResidueBits(m: seq<bv8>, x: bv8, bits: nat)
    ensures Register(0xFF, m + [x], bits) == 0 <==> x == Register(0xFF, m, bits)
  {
    var c := Register(0xFF, m, bits);
    RegisterConcat(0xFF, m, [x], bits);
    assert Register(c, [x], bits) == Shifts(c ^ x, bits);
    OfShifts(c ^ x, bits);
    TimesInjective(Of(c ^ x), bits);
    OfXor(c, x);
    OfInjective(c, x);
    OfInjective(Shifts(c ^ x, bits), 0);
  }

  // ------------------------------------------------------ what a difference does

  lemma {:induction false} MessageLength(a: seq<bv8>, b: seq<bv8>, bits: nat)
    requires |a| == |b|
    ensures |Message(a, bits)| == |Message(b, bits)|
  {
    if |a| > 0 { MessageLength(a[1..], b[1..], bits); }
  }

  /** The bits in which two messages of the same length differ. */
  function Errors(a: seq<bv8>, b: seq<bv8>, bits: nat): seq<bool>
    requires |a| == |b|
  {
    MessageLength(a, b, bits);
    Difference(Message(a, bits), Message(b, bits))
  }

  /** Two messages have the same checksum exactly when their difference feeds through to zero. */
  lemma SameCrc(a: seq<bv8>, b: seq<bv8>, bits: nat)
    requires |a| == |b| && bits == 8
    ensures Register(0xFF, a, bits) == Register(0xFF, b, bits) <==> Feed(ZERO, Errors(a, b, bits)) == ZERO
  {
    var x, y := Register(0xFF, a, bits), Register(0xFF, b, bits);
    MessageLength(a, b, bits);
    RegisterIsFeed(0xFF, a, bits);
    RegisterIsFeed(0xFF, b, bits);
    Linear(Of(0xFF), Message(a, bits), Of(0xFF), Message(b, bits));
    XorSame(Of(0xFF), Of(0xFF));
    XorSame(Of(x), Of(y));
    OfInjective(x, y);
  }

  lemma XorSame(x: Bits, y: Bits)
    ensures Xor(x, y) == ZERO <==> x == y
  {
  }

  ghost predicate Zeros(e: seq<bool>) { forall i | 0 <= i < |e| :: !e[i] }

  lemma {:induction false} FeedZeros(r: Bits, e: seq<bool>)
    requires Zeros(e)
    ensures Feed(r, e) == TimesN(r, |e|)
    decreases |e|
  {
    if |e| > 0 {
      assert Enter(r, false) == r;
      FeedZeros(Times(r), e[1..]);
    }
  }

  /** Zeros before and after an error do not hide it. */
  lemma Surrounded(d: seq<bool>, i: nat, n: nat)
    requires i + n <= |d| && Zeros(d[..i]) && Zeros(d[i + n..])
    ensures Feed(ZERO, d) == ZERO <==> Feed(ZERO, d[i..i + n]) == ZERO
  {
    var w, rest := d[i..i + n], d[i + n..];
    assert d == d[..i] + (w + rest);
    FeedConcat(ZERO, d[..i], w + rest);
    FeedConcat(ZERO, w, rest);
    FeedZeros(ZERO, d[..i]);
    TimesInjective(ZERO, i);
    FeedZeros(Feed(ZERO, w), rest);
    TimesInjective(Feed(ZERO, w), |rest|);
  }

  // ------------------------------------------------------ bursts

  /** All differing bits lie among the eight from `i` on. */
  ghost predicate Burst(d: seq<bool>, i: nat) {
    i + 8 <= |d| && !Zeros(d) && forall k | 0 <= k < |d| && !(i <= k < i + 8) :: !d[k]
  }

  function ByteOf(e: seq<bool>): Bits
    requires |e| == 8
  {
    Bits(e[0], e[1], e[2], e[3], e[4], e[5], e[6], e[7])
  }

  lemma SerialByte(e: seq<bool>)
    requires |e| == 8
    ensures Serial(ByteOf(e), 8) == e
  {
  }

  lemma WindowPasses(w: seq<bool>, bits: nat)
    requires |w| == 8 == bits && !Zeros(w)
    ensures Feed(ZERO, w) != ZERO
  {
    var b := ByteOf(w);
    SerialByte(w);
    FeedsWhole(ZERO, b, bits);
    XorSame(ZERO, b);
    TimesInjective(Xor(ZERO, b), bits);
  }

  /** Messages of any length that differ only within eight consecutive bits have different checksums. */
  lemma BurstDetected(a: seq<bv8>, b: seq<bv8>, i: nat)
    requires |a| == |b| && Burst(Errors(a, b, 8), i)
    ensures Crc(a) != Crc(b)
  {
    var d := Errors(a, b, 8);
    var w := d[i..i + 8];
    assert !Zeros(w) by {
      var k :| 0 <= k < |d| && d[k];
      assert w[k - i];
    }
    Surrounded(d, i, 8);
    WindowPasses(w, 8);
    SameCrc(a, b, 8);
  }

  // ------------------------------------------------------ odd numbers of errors

  function Odd(r: Bits): bool { r.b7 != (r.b6 != (r.b5 != (r.b4 != (r.b3 != (r.b2 != (r.b1 != r.b0)))))) }

  /** The number of differing bits. */
  function Weight(e: seq<bool>): nat {
    if |e| == 0 then 0 else (if e[0] then 1 else 0) + Weight(e[1..])
  }

  lemma OddStep(r: Bits, x: bool)
    ensures Odd(Times(Enter(r, x))) == (Odd(r) != x)
  {
    assert Odd(Enter(r, x)) == (Odd(r) != x);
    OddTimes(Enter(r, x));
  }

  lemma OddTimes(r: Bits)
    ensures Odd(Times(r)) == Odd(r)
  {
  }

  lemma {:induction false} FeedOdd(r: Bits, e: seq<bool>)
    ensures Odd(Feed(r, e)) == (Odd(r) != (Weight(e) % 2 == 1))
    decreases |e|
  {
    if |e| > 0 {
      OddStep(r, e[0]);
      FeedOdd(Times(Enter(r, e[0])), e[1..]);
    }
  }

  /** An odd number of wrong bits is detected, in messages of any length. */
  lemma OddDetected(a: seq<bv8>, b: seq<bv8>)
    requires |a| == |b| && Weight(Errors(a, b, 8)) % 2 == 1
    ensures Crc(a) != Crc(b)
  {
    FeedOdd(ZERO, Errors(a, b, 8));
    SameCrc(a, b, 8);
  }

  // ------------------------------------------------------ two errors

  /** x^(1 + 7 * i), and x^7 in the end. */
  function Power(i: nat): Bits {
    match i
    case 0 => Bits(false, false, true, true, false, false, false, true)
    case 1 => Bits(false, true, true, true, true, false, true, false)
    case 2 => Bits(true, false, false, false, true, false, false, true)
    case 3 => Bits(false, true, true, true, true, false, false, true)
    case 4 => Bits(false, false, true, true, true, false, false, false)
    case 5 => Bits(false, false, true, true, true, true, true, false)
    case 6 => Bits(false, true, true, false, true, true, false, true)
    case 7 => Bits(true, true, true, false, false, false, true, true)
    case 8 => Bits(false, true, false, false, true, false, false, true)
    case 9 => Bits(true, true, false, false, false, false, true, false)
    case 10 => Bits(true, false, false, false, true, false, true, false)
    case 11 => Bits(true, true, false, false, true, false, false, false)
    case 12 => Bits(false, true, true, true, true, true, true, true)
    case 13 => Bits(false, true, true, false, true, false, true, true)
    case 14 => Bits(true, false, true, true, false, false, false, false)
    case 15 => Bits(true, true, false, false, false, true, true, true)
    case 16 => Bits(false, true, true, false, true, false, false, false)
    case 17 => Bits(false, false, false, false, false, false, false, true)
    case _ => TOP
  }

  lemma {:induction false} TimesAdd(r: Bits, m: nat, n: nat)
    ensures TimesN(r, m + n) == TimesN(TimesN(r, m), n)
    decreases m
  {
    if m > 0 { TimesAdd(Times(r), m - 1, n); }
  }

  lemma PowerNext(i: nat)
    requires i < 18
    ensures TimesN(Power(i), 7) == Power(i + 1)
  {
    match i
    case 0 =>
    case 1 =>
    case 2 =>
    case 3 =>
    case 4 =>
    case 5 =>
    case 6 =>
    case 7 =>
    case 8 =>
    case 9 =>
    case 10 =>
    case 11 =>
    case 12 =>
    case 13 =>
    case 14 =>
    case 15 =>
    case 16 =>
    case 17 =>
  }

  lemma {:induction false} FromPower(i: nat, m: nat, n: nat)
    requires i <= 18 && m == 7 * (18 - i) && n == 7
    ensures TimesN(Power(i), m) == TOP
    decreases 18 - i
  {
    if i < 18 {
      PowerNext(i);
      FromPower(i + 1, m - n, n);
      TimesAdd(Power(i), n, m - n);
    }
  }

  /** Multiplying by x that often changes nothing. */
  ghost predicate Round(d: nat) { TimesN(TOP, d) == TOP }

  lemma RoundAt127(n: nat)
    requires n == 126
    ensures Round(n + 1)
  {
    assert Times(TOP) == Power(0);
    FromPower(0, n, 7);
  }

  /** Times is injective, so the difference of two rounds is a round. */
  lemma RoundLess(a: nat, b: nat)
    requires Round(a) && Round(b) && b <= a
    ensures Round(a - b)
  {
    TimesAdd(TOP, a - b, b);
    SameTimes(TimesN(TOP, a - b), TOP, b);
  }

  lemma {:induction false} SameTimes(x: Bits, y: Bits, n: nat)
    requires TimesN(x, n) == TimesN(y, n)
    ensures x == y
    decreases n
  {
    if n > 0 {
      SameTimes(Times(x), Times(y), n - 1);
      assert Times(x) == Times(y) ==> x == y;
    }
  }

  /** Euclid by subtraction: the greatest common divisor of two rounds is a round. */
  lemma {:induction false} RoundDivisor(a: nat, b: nat) returns (g: nat, i: nat, j: nat)
    requires 0 < a && 0 < b && Round(a) && Round(b)
    ensures g > 0 && Round(g) && a == i * g && b == j * g
    decreases a + b
  {
    if a == b {
      g, i, j := a, 1, 1;
    } else if a > b {
      RoundLess(a, b);
      var i';
      g, i', j := RoundDivisor(a - b, b);
      i := i' + j;
    } else {
      RoundLess(b, a);
      var j';
      g, i, j' := RoundDivisor(a, b - a);
      j := i + j';
    }
  }

  lemma Prime127(i: nat, g: nat)
    requires 127 == i * g
    ensures i == 1 || g == 1
  {
    if 1 < i && 1 < g {
      if i <= g { SmallFactor(i, g); } else { SmallFactor(g, i); }
    }
  }

  lemma SmallFactor(i: nat, g: nat)
    requires 1 < i <= g
    ensures i * g != 127
  {
    if i >= 12 {
      assert i * g >= 12 * g;
    } else {
      match i
      case 2 =>
      case 3 =>
      case 4 =>
      case 5 =>
      case 6 =>
      case 7 =>
      case 8 =>
      case 9 =>
      case 10 =>
      case 11 =>
    }
  }

  /** `x^7 * x^d` is x^7 if and only if 127 divides d. */
  lemma {:induction false} ComesRound(d: nat, n: nat)
    requires n == 127
    ensures Round(d) <==> d % 127 == 0
    decreases d
  {
    RoundAt127(n - 1);
    if d >= 127 {
      ComesRound(d - 127, n);
      TimesAdd(TOP, n, d - n);
    } else if 0 < d && Round(d) {
      var g, i, j := RoundDivisor(n, d);
      Prime127(i, g);
      FirstRound(g, i, d, j);
    }
  }

  lemma ProductAtLeast(j: nat, g: nat)
    requires j >= 1
    ensures j * g >= g
  {
  }

  /** 127 is prime and d is smaller: the common divisor would be 1, and x^8 is not x^7. */
  lemma FirstRound(g: nat, i: nat, d: nat, j: nat)
    requires 127 == i * g && (i == 1 || g == 1) && d == j * g && 0 < d < 127
    ensures !Round(g)
  {
    if i == 1 && j >= 1 { ProductAtLeast(j, g); }
    assert TimesN(TOP, 1) == Times(TOP);
  }

  /** Two wrong bits cancel if and only if their distance is a multiple of 127. */
  lemma PairPasses(d: seq<bool>, i: nat, j: nat)
    requires i < j < |d| && d[i] && d[j] && forall k | 0 <= k < |d| && k != i && k != j :: !d[k]
    ensures Feed(ZERO, d) == ZERO <==> (j - i) % 127 == 0
  {
    var w, gap := d[i..j + 1], d[i + 1..j];
    assert w == [true] + (gap + [true]);
    Surrounded(d, i, j + 1 - i);
    forall k | 0 <= k < |gap| ensures !gap[k] { assert gap[k] == d[i + 1 + k]; }
    PairWindow(gap);
    ComesRound(j - i, 127);
  }

  lemma PairWindow(gap: seq<bool>)
    requires Zeros(gap)
    ensures Feed(ZERO, [true] + (gap + [true])) == ZERO <==> Round(|gap| + 1)
  {
    var x := Times(TOP);
    FeedConcat(ZERO, [true], gap + [true]);
    FeedOne(ZERO);
    FeedConcat(x, gap, [true]);
    FeedZeros(x, gap);
    FeedOne(TimesN(x, |gap|));
  }

  lemma FeedOne(r: Bits)
    ensures Feed(r, [true]) == Times(Enter(r, true)) && Enter(ZERO, true) == TOP
    ensures Feed(r, [true]) == ZERO <==> r == TOP
  {
    assert Feed(Times(Enter(r, true)), []) == Times(Enter(r, true));
  }

  lemma {:induction false} NoWeight(e: seq<bool>)
    requires Weight(e) == 0
    ensures Zeros(e)
  {
    if |e| > 0 {
      NoWeight(e[1..]);
      assert forall k | 0 < k < |e| :: e[k] == e[1..][k - 1];
    }
  }

  lemma {:induction false} WeightOne(e: seq<bool>) returns (i: nat)
    requires Weight(e) == 1
    ensures i < |e| && e[i] && forall k | 0 <= k < |e| && k != i :: !e[k]
  {
    if e[0] {
      i := 0;
      NoWeight(e[1..]);
      assert forall k | 0 < k < |e| :: e[k] == e[1..][k - 1];
    } else {
      var i' := WeightOne(e[1..]);
      i := i' + 1;
      assert forall k | 0 < k < |e| :: e[k] == e[1..][k - 1];
    }
  }

  lemma {:induction false} WeightTwo(e: seq<bool>) returns (i: nat, j: nat)
    requires Weight(e) == 2
    ensures i < j < |e| && e[i] && e[j] && forall k | 0 <= k < |e| && k != i && k != j :: !e[k]
  {
    if e[0] {
      var j' := WeightOne(e[1..]);
      i, j := 0, j' + 1;
    } else {
      var i', j' := WeightTwo(e[1..]);
      i, j := i' + 1, j' + 1;
    }
    assert forall k | 0 < k < |e| :: e[k] == e[1..][k - 1];
  }

  lemma {:induction false} MessageBits(m: seq<bv8>, bits: nat)
    requires bits == 8
    ensures |Message(m, bits)| == 8 * |m|
  {
    if |m| > 0 { MessageBits(m[1..], bits); }
  }

  /** Messages of any length that differ in two bits have the same checksum if and only if 127 divides the distance. */
  lemma TwoErrors(a: seq<bv8>, b: seq<bv8>) returns (i: nat, j: nat)
    requires |a| == |b| && Weight(Errors(a, b, 8)) == 2
    ensures i < j < |Errors(a, b, 8)| && Errors(a, b, 8)[i] && Errors(a, b, 8)[j]
    ensures Crc(a) == Crc(b) <==> (j - i) % 127 == 0
  {
    i, j := WeightTwo(Errors(a, b, 8));
    PairPasses(Errors(a, b, 8), i, j);
    SameCrc(a, b, 8);
  }

  /** One, two or three wrong bits in up to fifteen bytes, checksum included, are detected. */
  lemma FewErrorsDetected(a: seq<bv8>, b: seq<bv8>)
    requires |a| == |b| <= 15 && 1 <= Weight(Errors(a, b, 8)) <= 3
    ensures Crc(a) != Crc(b)
  {
    if Weight(Errors(a, b, 8)) == 2 {
      TwoDetected(a, b);
    } else {
      OddDetected(a, b);
    }
  }

  lemma TwoDetected(a: seq<bv8>, b: seq<bv8>)
    requires |a| == |b| <= 15 && Weight(Errors(a, b, 8)) == 2
    ensures Crc(a) != Crc(b)
  {
    var i, j := TwoErrors(a, b);
    ErrorBits(a, b, 8);
    assert 0 < j - i < 120;
  }

  lemma ErrorBits(a: seq<bv8>, b: seq<bv8>, bits: nat)
    requires |a| == |b| && bits == 8
    ensures |Errors(a, b, bits)| == 8 * |a|
  {
    MessageBits(a, bits);
    MessageLength(a, b, bits);
  }

  // ------------------------------------------------------ the readout

  /** The three bytes pass the test of `sht3x_read_singleshot`. */
  predicate Accepted(frame: seq<bv8>)
    requires |frame| == 3
  {
    Crc(frame[..2]) == frame[2]
  }

  /**
    * A frame that passes the test does not pass it any more after one, two or three bits, or any
    * bits among eight consecutive ones, were changed.
    */
  lemma CorruptionRejected(sent: seq<bv8>, received: seq<bv8>, i: nat)
    requires |sent| == |received| == 3 && Accepted(sent)
    requires 1 <= Weight(Errors(sent, received, 8)) <= 3 || Burst(Errors(sent, received, 8), i)
    ensures !Accepted(received)
  {
    assert sent == sent[..2] + [sent[2]] && received == received[..2] + [received[2]];
    Residue(sent[..2], sent[2]);
    Residue(received[..2], received[2]);
    if Burst(Errors(sent, received, 8), i) {
      BurstDetected(sent, received, i);
    } else {
      FewErrorsDetected(sent, received);
    }
  }

  method CheckFrame(temp: array<bv8>, start: nat) returns (ok: bool)
    requires start + 3 <= temp.Length
    ensures ok == Accepted(temp[start..start + 3])
  {
    var crc := ComputeCrc(temp, start, 2);
    assert temp[start..start + 3][..2] == temp[start..start + 2];
    ok := crc == temp[start + 2];
  }

  function Word(high: bv8, low: bv8): int { (high as int) * 0x100 + low as int }

  /** Degrees Celsius for a raw reading; the driver divides by 65534. */
  function Temperature(raw: int): real { -45.0 + raw as real * 175.0 / (0xFFFF - 1) as real }

  /** Percent relative humidity for a raw reading. */
  function Humidity(raw: int): real { raw as real * 0.0015259022 }

  class Sensor {
    var temperature: real
    var humidity: real

    /**
      * `sht3x_read_singleshot`; the mutex and the two bus transfers succeed or fail from outside.
      * A value is stored when its own checksum is right, whatever the other one says.
      */
    method ReadSingleShot(taken: bool, commanded: bool, transferred: bool, temp: array<bv8>) returns (ok: bool)
      requires temp.Length == 6
      modifies this
      ensures var read := taken && commanded && transferred;
        var t, h := read && Accepted(temp[0..3]), read && Accepted(temp[3..6]);
        && ok == (t && h)
        && temperature == (if t then Temperature(Word(temp[0], temp[1])) else old(temperature))
        && humidity == (if h then Humidity(Word(temp[3], temp[4])) else old(humidity))
    {
      ok := false;
      if !taken || !commanded || !transferred { return; }
      var first := CheckFrame(temp, 0);
      if first {
        temperature := Temperature(Word(temp[0], temp[1]));
        ok := true;
      }
      var second := CheckFrame(temp, 3);
      if second {
        humidity := Humidity(Word(temp[3], temp[4]));
      } else {
        ok := false;
      }
    }
  }
}
