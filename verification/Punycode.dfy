/**
  * Punycode (RFC 3492) as bundled in mqtt.js: an encoder that scans its input by increasing
  * code point, and a decoder that inserts code points at positions it computes. Both keep a
  * state <n, i, bias> that must stay in step.
  */
module Punycode {
  import opened Basics

  const MAX_INT := 2147483647
  const BASE := 36
  const T_MIN := 1
  const T_MAX := 26
  const SKEW := 38
  const DAMP := 700
  const INITIAL_BIAS := 72
  const INITIAL_N := 128
  const DELIMITER := 0x2D
  const MAX_POINT := 0x10FFFF

  type CodePoint = c: int | 0 <= c <= MAX_POINT

  /** The three errors the source throws; `ControlDigit` is where this model stops (see README). */
  datatype Error = Overflow | NotBasic | InvalidInput | ControlDigit

  datatype Result<+T> = Ok(value: T) | Err(error: Error)

  // `floor(x / d)` and `x % d`, by repeated subtraction: this keeps division by a variable, and
  // with it nonlinear arithmetic, out of every proof but the few that need it.

  function Quotient(x: int, d: nat): (q: int)
    requires d > 0
    ensures x >= 0 ==> q >= 0
    decreases x < 0, if x < 0 then -x else x
  {
    if x < 0 then Quotient(x + d, d) - 1 else if x < d then 0 else Quotient(x - d, d) + 1
  }

  function Remainder(x: nat, d: nat): (r: nat)
    requires d > 0
    ensures r < d
  {
    if x < d then x else Remainder(x - d, d)
  }

  lemma {:induction false} QuotientIsFloor(x: int, d: nat)
    requires d > 0
    ensures Quotient(x, d) * d <= x < Quotient(x, d) * d + d
    decreases x < 0, if x < 0 then -x else x
  {
    if x < 0 {
      QuotientIsFloor(x + d, d);
      Distribute(Quotient(x + d, d), -1, d);
    } else if x >= d {
      QuotientIsFloor(x - d, d);
      Distribute(Quotient(x - d, d), 1, d);
    }
  }

  lemma {:induction false} QuotientRemainder(gap: nat, d: nat, place: nat)
    requires place < d
    ensures Quotient(Laps(gap, d) + place, d) == gap && Laps(gap, d) >= 0
    ensures Remainder(Laps(gap, d) + place, d) == place
  {
    LapsAdd(1, gap - 1, d);
    if gap > 0 {
      QuotientRemainder(gap - 1, d, place);
    }
  }

  // ---------------------------------------------------------------- UCS-2

  /** `((value & 0x3FF) << 10) + (extra & 0x3FF) + 0x10000` */
  function PairPoint(lead: int, trail: int): CodePoint {
    (lead % 0x400) * 0x400 + trail % 0x400 + 0x10000
  }

  function Ucs2Decode(s: seq<Unit>): seq<CodePoint> {
    if |s| == 0 then []
    else if IsLead(s[0]) && |s| > 1 && IsTrail(s[1]) then
      [PairPoint(s[0], s[1])] + Ucs2Decode(s[2..])
    else [s[0]] + Ucs2Decode(s[1..])
  }

  /** `value >>> 10 & 0x3FF | 0xD800` and `0xDC00 | value & 0x3FF`, for any non-negative value. */
  function Ucs2EncodePoint(c: nat): seq<Unit> {
    if c > 0xFFFF then
      var v := c - 0x10000;
      [v / 0x400 % 0x400 + 0xD800, 0xDC00 + v % 0x400]
    else [c]
  }

  function Ucs2Encode(cps: seq<nat>): seq<Unit> {
    if |cps| == 0 then [] else Ucs2EncodePoint(cps[0]) + Ucs2Encode(cps[1..])
  }

  lemma SurrogatePair(lead: Unit, trail: Unit)
    requires IsLead(lead) && IsTrail(trail)
    ensures Ucs2EncodePoint(PairPoint(lead, trail)) == [lead, trail]
  {
    var a, b := lead - 0xD800, trail - 0xDC00;
    assert PairPoint(lead, trail) == a * 0x400 + b + 0x10000;
  }

  /** Lone surrogates survive: the identity holds on every string, well-formed or not. */
  lemma {:induction false} Ucs2RoundTrip(s: seq<Unit>)
    ensures Ucs2Encode(Ucs2Decode(s)) == s
    ensures |Ucs2Decode(s)| <= |s|
  {
    if |s| == 0 {
    } else if IsLead(s[0]) && |s| > 1 && IsTrail(s[1]) {
      SurrogatePair(s[0], s[1]);
      Ucs2RoundTrip(s[2..]);
      assert Ucs2Decode(s)[1..] == Ucs2Decode(s[2..]);
      assert s == s[..2] + s[2..];
    } else {
      Ucs2RoundTrip(s[1..]);
      assert Ucs2Decode(s)[1..] == Ucs2Decode(s[1..]);
      assert s == [s[0]] + s[1..];
    }
  }

  /** `output.push(c)`, with what the rest of the input will add. */
  method Extend(output: seq<CodePoint>, c: CodePoint, ghost rest: seq<CodePoint>) returns (r: seq<CodePoint>)
    ensures r == output + [c] && r + rest == output + ([c] + rest)
  {
    r := output + [c];
  }

  method ComputeUcs2Decode(s: seq<Unit>) returns (output: seq<CodePoint>)
    ensures output == Ucs2Decode(s)
  {
    output := [];
    var counter := 0;
    while counter < |s|
      invariant counter <= |s|
      invariant output + Ucs2Decode(s[counter..]) == Ucs2Decode(s)
    {
      ghost var rest := s[counter..];
      var value := s[counter];
      counter := counter + 1;
      if 0xD800 <= value <= 0xDBFF && counter < |s| {
        var extra := s[counter];
        counter := counter + 1;
        if extra / 0x400 == 0x37 {
          assert s[counter..] == rest[2..];
          output := Extend(output, PairPoint(value, extra), Ucs2Decode(rest[2..]));
        } else {
          counter := counter - 1;
          assert s[counter..] == rest[1..];
          output := Extend(output, value, Ucs2Decode(rest[1..]));
        }
      } else {
        assert s[counter..] == rest[1..];
        output := Extend(output, value, Ucs2Decode(rest[1..]));
      }
    }
  }

  // ------------------------------------------------- variable-length integers

  /** `codePoint - 48 < 10` also accepts everything below '0', down to a negative digit. */
  function BasicToDigit(c: Unit): int {
    if c - 48 < 10 then c - 22
    else if c - 65 < 26 then c - 65
    else if c - 97 < 26 then c - 97
    else BASE
  }

  function DigitToBasic(digit: nat): (c: Unit)
    requires digit < BASE
    ensures 0x61 <= c <= 0x7A || 0x30 <= c <= 0x39
    ensures BasicToDigit(c) == digit
  {
    digit + 22 + (if digit < 26 then 75 else 0)
  }

  function Threshold(k: nat, bias: nat): (t: nat)
    ensures T_MIN <= t <= T_MAX
  {
    if k <= bias then T_MIN else if k >= bias + T_MAX then T_MAX else k - bias
  }

  /** What one digit leaves of `q`: the digit written, and the quotient that goes on. */
  function Low(q: nat, t: nat): (digit: nat)
    requires T_MIN <= t <= T_MAX && t <= q
    ensures t <= digit < BASE
  {
    t + (q - t) % (BASE - t)
  }

  function High(q: nat, t: nat): (q': nat)
    requires T_MIN <= t <= T_MAX && t <= q
    ensures q' < q && q == Low(q, t) + q' * (BASE - t)
  {
    (q - t) / (BASE - t)
  }

  function Digits(q: nat, k: nat, bias: nat): (ds: seq<Unit>)
    ensures |ds| > 0
    ensures forall c <- ds :: c != DELIMITER && c < 0x80
    decreases q
  {
    var t := Threshold(k, bias);
    if q < t then [DigitToBasic(q)]
    else [DigitToBasic(Low(q, t))] + Digits(High(q, t), k + BASE, bias)
  }

  /** The inner loop of `decode`: reads one integer from the front of `x` and adds it to `i`. */
  function ReadInt(x: seq<Unit>, i: nat, w: nat, k: nat, bias: nat): (r: Result<(nat, seq<Unit>)>)
    requires w > 0
    ensures r.Ok? ==> r.value.0 >= i && |r.value.1| < |x|
  {
    if |x| == 0 then Err(InvalidInput)
    else
      var digit := BasicToDigit(x[0]);
      if digit < 0 then Err(ControlDigit)
      else if digit >= BASE || digit > Quotient(MAX_INT - i, w) then Err(Overflow)
      else
        var t := Threshold(k, bias);
        if digit < t then Product(digit, w); Ok((i + digit * w, x[1..]))
        else if w > Quotient(MAX_INT, BASE - t) then Err(Overflow)
        else Product(digit, w); Product(w, BASE - t); ReadInt(x[1..], i + digit * w, w * (BASE - t), k + BASE, bias)
  }

  /** The largest weight `ReadInt` can carry at `k`, as long as it is below the last threshold. */
  function MaxWeight(k: nat): nat {
    if k <= 36 then 1 else if k <= 72 then 35 else if k <= 108 then 1225 else if k <= 144 then 42875
    else if k <= 180 then 1500625 else 52521875
  }

  lemma DigitSplit(q: nat, t: nat, w: nat)
    requires t <= q && T_MIN <= t <= T_MAX
    ensures Low(q, t) * w + High(q, t) * (w * (BASE - t)) == q * w
  {
    var low, high, m := Low(q, t), High(q, t), BASE - t;
    calc {
      q * w;
      (low + high * m) * w;
      low * w + (high * m) * w;
      low * w + high * (w * m);
    }
  }

  lemma ProductGrows(a: int, b: int, w: nat)
    requires a <= b
    ensures a * w <= b * w
  {
  }

  lemma FitsQuotient(digit: nat, room: int, w: nat)
    requires w > 0
    ensures digit > Quotient(room, w) <==> digit * w > room
  {
    var d := Quotient(room, w);
    QuotientIsFloor(room, w);
    if digit > d {
      ProductGrows(d + 1, digit, w);
      Distribute(d, 1, w);
    } else {
      ProductGrows(digit, d, w);
    }
  }

  lemma ReadLast(digit: nat, y: seq<Unit>, i: nat, w: nat, k: nat, bias: nat)
    requires w > 0 && digit < Threshold(k, bias)
    ensures ReadInt([DigitToBasic(digit)] + y, i, w, k, bias)
         == if i + digit * w <= MAX_INT then Ok((i + digit * w, y)) else Err(Overflow)
  {
    FitsQuotient(digit, MAX_INT - i, w);
    assert ([DigitToBasic(digit)] + y)[1..] == y;
  }

  lemma ReadMore(digit: nat, y: seq<Unit>, i: nat, w: nat, k: nat, bias: nat)
    requires w > 0 && k % BASE == 0 && k > 0 && bias <= 213
    requires k <= 216 ==> w <= MaxWeight(k)
    requires Threshold(k, bias) <= digit < BASE
    ensures w * (BASE - Threshold(k, bias)) > 0
    ensures ReadInt([DigitToBasic(digit)] + y, i, w, k, bias)
         == if i + digit * w <= MAX_INT then
              ReadInt(y, i + digit * w, w * (BASE - Threshold(k, bias)), k + BASE, bias)
            else Err(Overflow)
  {
    FitsQuotient(digit, MAX_INT - i, w);
    Product(w, BASE - Threshold(k, bias));
    assert ([DigitToBasic(digit)] + y)[1..] == y;
    if i + digit * w <= MAX_INT {
      WeightFits(digit, w, k, bias);
    }
  }

  /**
    * Reading back what `Digits` wrote. The weight never overflows on its own: below the last
    * threshold it is at most 35^6, and from there on it grows slower than the value itself.
    */
  lemma {:induction false} ReadDigits(q: nat, rest: seq<Unit>, i: nat, w: nat, k: nat, bias: nat, value: nat)
    requires w > 0 && k % BASE == 0 && k > 0 && bias <= 213 && value == i + q * w
    requires k <= 216 ==> w <= MaxWeight(k)
    ensures ReadInt(Digits(q, k, bias) + rest, i, w, k, bias)
         == if value <= MAX_INT then Ok((value, rest)) else Err(Overflow)
    decreases q
  {
    var t := Threshold(k, bias);
    if q < t {
      ReadLast(q, rest, i, w, k, bias);
    } else {
      var low, high := Low(q, t), High(q, t);
      var i': nat, w': nat := SplitValue(q, t, i, w, value);
      NextWeight(w, k, t, high);
      var y := Digits(high, k + BASE, bias) + rest;
      ReadDigits(high, rest, i', w', k + BASE, bias, value);
      assert Digits(q, k, bias) + rest == [DigitToBasic(low)] + y;
      ReadStep(low, y, i, w, k, bias, i', w', value, rest, Digits(q, k, bias) + rest);
    }
  }

  /** The value and the weight after the first digit. */
  lemma SplitValue(q: nat, t: nat, i: nat, w: nat, value: nat) returns (i': nat, w': nat)
    requires t <= q && T_MIN <= t <= T_MAX && value == i + q * w && w > 0
    ensures i' == i + Low(q, t) * w && w' == w * (BASE - t) > 0 && value == i' + High(q, t) * w' && value >= i'
  {
    DigitSplit(q, t, w);
    Product(Low(q, t), w);
    Product(w, BASE - t);
    i', w' := i + Low(q, t) * w, w * (BASE - t);
    Product(High(q, t), w');
  }

  lemma ReadStep(digit: nat, y: seq<Unit>, i: nat, w: nat, k: nat, bias: nat,
                 i': nat, w': nat, value: nat, rest: seq<Unit>, x: seq<Unit>)
    requires w > 0 && k % BASE == 0 && k > 0 && bias <= 213 && Threshold(k, bias) <= digit < BASE
    requires k <= 216 ==> w <= MaxWeight(k)
    requires i' == i + digit * w && w' == w * (BASE - Threshold(k, bias)) > 0 && value >= i'
    requires ReadInt(y, i', w', k + BASE, bias) == if value <= MAX_INT then Ok((value, rest)) else Err(Overflow)
    requires x == [DigitToBasic(digit)] + y
    ensures ReadInt(x, i, w, k, bias) == if value <= MAX_INT then Ok((value, rest)) else Err(Overflow)
  {
    ReadMore(digit, y, i, w, k, bias);
  }

  lemma NextWeight(w: nat, k: nat, t: nat, high: nat)
    requires w > 0 && T_MIN <= t <= T_MAX && k % BASE == 0 && k > 0
    requires k <= 216 ==> w <= MaxWeight(k)
    ensures w * (BASE - t) > 0 && high * (w * (BASE - t)) >= 0
    ensures k + BASE <= 216 ==> w * (BASE - t) <= MaxWeight(k + BASE)
  {
    assert w * (BASE - t) <= w * 35;
  }

  lemma WeightFits(digit: nat, w: nat, k: nat, bias: nat)
    requires w > 0 && k % BASE == 0 && k > 0 && bias <= 213
    requires k <= 216 ==> w <= MaxWeight(k)
    requires digit >= Threshold(k, bias) && digit * w <= MAX_INT
    ensures w <= Quotient(MAX_INT, BASE - Threshold(k, bias))
  {
    var t := Threshold(k, bias);
    FitsQuotient(w, MAX_INT, BASE - t);
    if k <= 216 {
      ProductBound(w, BASE - t, 52521875, 35);
    } else {
      assert t == T_MAX;
      ProductGrows(T_MAX, digit, w);
    }
  }

  method WriteInt(delta: nat, bias: nat) returns (output: seq<Unit>)
    ensures output == Digits(delta, BASE, bias)
  {
    output := [];
    var q: nat, k: nat := delta, BASE;
    var t := Threshold(k, bias);
    while q >= t
      invariant t == Threshold(k, bias)
      invariant output + Digits(q, k, bias) == Digits(delta, BASE, bias)
      decreases q
    {
      assert output + ([DigitToBasic(Low(q, t))] + Digits(High(q, t), k + BASE, bias))
          == output + [DigitToBasic(Low(q, t))] + Digits(High(q, t), k + BASE, bias);
      output := output + [DigitToBasic(Low(q, t))];
      q := High(q, t);
      k := k + BASE;
      t := Threshold(k, bias);
    }
    output := output + [DigitToBasic(q)];
  }

  // ------------------------------------------------------ bias adaptation

  function FinalBias(delta: nat, k: nat): nat { k + BASE * delta / (delta + SKEW) }

  function AdaptLoop(delta: nat, k: nat): nat
    decreases delta
  {
    if delta > 455 then AdaptLoop(delta / 35, k + BASE) else FinalBias(delta, k)
  }

  function Adapt(delta: nat, numPoints: nat, firstTime: bool): nat
    requires numPoints > 0
  {
    var d := if firstTime then delta / DAMP else delta / 2;
    AdaptLoop(d + Quotient(d, numPoints), 0)
  }

  method ComputeAdapt(delta: nat, numPoints: nat, firstTime: bool) returns (bias: nat)
    requires numPoints > 0
    ensures bias == Adapt(delta, numPoints, firstTime)
  {
    var k: nat := 0;
    var d: nat := if firstTime then delta / DAMP else delta / 2;
    d := d + Quotient(d, numPoints);
    while d > 455
      invariant AdaptLoop(d, k) == Adapt(delta, numPoints, firstTime)
      decreases d
    {
      d := d / 35;
      k := k + BASE;
    }
    bias := FinalBias(d, k);
  }

  lemma AdaptLoopBound(delta: nat, k: nat, steps: nat)
    requires steps <= 5 && delta <= 455 * Pow35(steps) + (Pow35(steps) - 1)
    ensures AdaptLoop(delta, k) <= k + BASE * steps + 33
    decreases steps
  {
    if delta > 455 {
      AdaptLoopBound(delta / 35, k + BASE, steps - 1);
    } else {
      FitsQuotient(34, BASE * delta, delta + SKEW);
    }
  }

  function Pow35(e: nat): nat
    requires e <= 5
  {
    if e == 0 then 1 else if e == 1 then 35 else if e == 2 then 1225 else if e == 3 then 42875
    else if e == 4 then 1500625 else 52521875
  }

  lemma QuotientAtMost(d: nat, n: nat)
    requires n > 0
    ensures Quotient(d, n) <= d
  {
    FitsQuotient(d + 1, d, n);
    ProductBound(d + 1, 1, d + 1, n);
  }

  /** Five divisions by 35 bring any 31-bit delta below the loop's limit. */
  lemma AdaptBound(delta: nat, numPoints: nat, firstTime: bool)
    requires numPoints > 0 && delta <= MAX_INT
    ensures Adapt(delta, numPoints, firstTime) <= 213
  {
    var d := if firstTime then delta / DAMP else delta / 2;
    QuotientAtMost(d, numPoints);
    AdaptLoopBound(d + Quotient(d, numPoints), 0, 5);
  }

  // -------------------------------------------------------------- decoder

  /** The decoder's state: output so far, and <n, i, bias>. */
  datatype Decoder = Decoder(out: seq<nat>, n: nat, i: nat, bias: nat)

  /** After an integer moved `i` to `i'`: wrap `i`, advance `n`, adapt, insert. */
  function Insert(d: Decoder, i': nat): Result<Decoder>
    requires i' >= d.i
  {
    var len := |d.out| + 1;
    if Quotient(i', len) > MAX_INT - d.n then Err(Overflow)
    else
      var n, i := d.n + Quotient(i', len), Remainder(i', len);
      Ok(Decoder(d.out[..i] + [n] + d.out[i..], n, i + 1, Adapt(i' - d.i, len, d.i == 0)))
  }

  function DecodeRest(x: seq<Unit>, d: Decoder): Result<seq<nat>>
    decreases |x|
  {
    if |x| == 0 then Ok(d.out)
    else match ReadInt(x, d.i, 1, BASE, d.bias)
      case Err(e) => Err(e)
      case Ok((i, rest)) =>
        match Insert(d, i)
        case Err(e) => Err(e)
        case Ok(d') => DecodeRest(rest, d')
  }

  function LastIndexOf(x: seq<Unit>, c: Unit): (i: int)
    ensures -1 <= i < |x|
    ensures i >= 0 ==> x[i] == c
    ensures forall j :: i < j < |x| ==> x[j] != c
  {
    if |x| == 0 then -1 else if x[|x| - 1] == c then |x| - 1 else LastIndexOf(x[..|x| - 1], c)
  }

  function DecodePoints(x: seq<Unit>): Result<seq<nat>> {
    var last := LastIndexOf(x, DELIMITER);
    var basic := if last < 0 then 0 else last;
    if exists j :: 0 <= j < basic && x[j] >= 0x80 then Err(NotBasic)
    else DecodeRest(x[if basic > 0 then basic + 1 else 0..], Decoder(x[..basic], INITIAL_N, 0, INITIAL_BIAS))
  }

  function DecodeString(x: seq<Unit>): Result<seq<Unit>> {
    match DecodePoints(x)
    case Err(e) => Err(e)
    case Ok(cps) => Ok(Ucs2Encode(cps))
  }

  // -------------------------------------------------------------- encoder

  /** Code points are handled by increasing value, and from left to right within one value. */
  predicate Handled(s: seq<CodePoint>, n: int, j: int, q: nat)
    requires q < |s|
  {
    s[q] < n || (s[q] == n && q < j)
  }

  /** The handled ones among the first `k`, in input order: what the decoder has rebuilt. */
  function Kept(s: seq<CodePoint>, n: int, j: int, k: nat): (r: seq<CodePoint>)
    requires k <= |s|
    ensures |r| <= k
  {
    if k == 0 then []
    else if Handled(s, n, j, k - 1) then Kept(s, n, j, k - 1) + [s[k - 1]]
    else Kept(s, n, j, k - 1)
  }

  /** The largest handled code point, or 128 when only basic ones are handled: the decoder's `n`. */
  function Latest(s: seq<CodePoint>, n: int, j: int, k: nat): (m: nat)
    requires k <= |s|
    ensures m >= INITIAL_N && (n >= INITIAL_N ==> m <= n)
  {
    if k == 0 then INITIAL_N
    else
      var m := Latest(s, n, j, k - 1);
      if Handled(s, n, j, k - 1) && s[k - 1] > m then s[k - 1] else m
  }

  /** The smallest code point from `n` up among the first `k`, or MAX_INT. */
  function SmallestFrom(s: seq<CodePoint>, n: int, k: nat): (m: int)
    requires k <= |s|
    ensures m == MAX_INT || (n <= m <= MAX_POINT && m in s[..k])
    ensures forall q :: 0 <= q < k && s[q] >= n ==> m <= s[q]
  {
    if k == 0 then MAX_INT
    else
      var m := SmallestFrom(s, n, k - 1);
      assert m != MAX_INT ==> m in s[..k] by { assert s[..k][..k - 1] == s[..k - 1]; }
      if n <= s[k - 1] < m then s[k - 1] else m
  }

  function BasicPoints(s: seq<CodePoint>): (r: seq<Unit>)
    ensures r == Kept(s, INITIAL_N, 0, |s|)
    ensures forall c <- r :: c < 0x80
  {
    KeptBasic(s, |s|);
    var basic := Kept(s, INITIAL_N, 0, |s|);
    assert forall q :: 0 <= q < |basic| ==> basic[q] in basic;
    basic
  }

  lemma {:induction false} KeptBasic(s: seq<CodePoint>, k: nat)
    requires k <= |s|
    ensures forall c <- Kept(s, INITIAL_N, 0, k) :: c < 0x80
  {
    if k > 0 { KeptBasic(s, k - 1); }
  }

  /** Where `s[p]` goes among the code points handled before it. */
  function Place(s: seq<CodePoint>, p: nat): nat
    requires p < |s|
  {
    |Kept(s, s[p], p, p)|
  }

  /** `gap * len`: `gap` laps over `len` positions. A sum, to keep products out of the proofs. */
  function Laps(gap: int, len: nat): int {
    if len == 0 then 0 else gap + Laps(gap, len - 1)
  }

  lemma {:induction false} LapsProduct(gap: int, len: nat)
    ensures Laps(gap, len) == gap * len
  {
    if len > 0 { LapsProduct(gap, len - 1); }
  }

  lemma {:induction false} LapsAdd(a: int, b: int, len: nat)
    ensures Laps(a + b, len) == Laps(a, len) + Laps(b, len)
    ensures Laps(0, len) == 0 && Laps(1, len) == len && (b >= 0 ==> Laps(b, len) >= 0)
  {
    if len > 0 { LapsAdd(a, b, len - 1); }
  }

  /** The value the decoder's `i` has to reach to insert `s[p]` at its place. */
  function StepIndex(s: seq<CodePoint>, p: nat): int
    requires p < |s|
  {
    Laps(s[p] - Latest(s, s[p], p, |s|), |Kept(s, s[p], p, |s|)| + 1) + Place(s, p)
  }

  /** The scan is at <n, j> and the decoder's `i` is `i`: the next delta will not be negative. */
  ghost predicate InStep(s: seq<CodePoint>, n: int, j: nat, i: nat) {
    && INITIAL_N <= n <= MAX_POINT && j <= |s|
    && i <= |Kept(s, n, j, |s|)| + 1
    && (Latest(s, n, j, |s|) == n ==> i <= |Kept(s, n, j, j)|)
    && |Kept(s, n, j, j)| <= |Kept(s, n, 0, j)| + i
  }

  lemma {:induction false} KeptSame(s: seq<CodePoint>, n: int, j: int, n': int, j': int, k: nat)
    requires k <= |s| && forall q :: 0 <= q < k ==> Handled(s, n, j, q) == Handled(s, n', j', q)
    ensures Kept(s, n, j, k) == Kept(s, n', j', k)
    ensures Latest(s, n, j, k) == Latest(s, n', j', k)
  {
    if k > 0 {
      assert Handled(s, n, j, k - 1) == Handled(s, n', j', k - 1);
      KeptSame(s, n, j, n', j', k - 1);
    }
  }

  lemma {:induction false} KeptGrows(s: seq<CodePoint>, n: int, j: int, k: nat, k': nat)
    requires k <= k' <= |s|
    ensures |Kept(s, n, j, k)| <= |Kept(s, n, j, k')|
    ensures |Kept(s, n, j, k')| - |Kept(s, n, j, k)| <= k' - k
    decreases k'
  {
    if k < k' { KeptGrows(s, n, j, k, k' - 1); }
  }

  lemma {:induction false} KeptAll(s: seq<CodePoint>, n: int, j: int, k: nat)
    requires k <= |s|
    ensures |Kept(s, n, j, k)| == k ==> Kept(s, n, j, k) == s[..k]
    ensures |Kept(s, n, j, k)| == k <==> forall q :: 0 <= q < k ==> Handled(s, n, j, q)
  {
    if k > 0 {
      KeptAll(s, n, j, k - 1);
      assert s[..k] == s[..k - 1] + [s[k - 1]];
    }
  }

  lemma {:induction false} KeptCount(s: seq<CodePoint>, j: nat, k: nat)
    requires j < k <= |s| && s[j] >= INITIAL_N
    ensures |Kept(s, s[j], j + 1, k)| == |Kept(s, s[j], j, k)| + 1
    ensures Place(s, j) <= |Kept(s, s[j], j, k)| && Latest(s, s[j], j + 1, k) == s[j]
    decreases k
  {
    if k == j + 1 {
      KeptSame(s, s[j], j, s[j], j + 1, j);
    } else {
      KeptCount(s, j, k - 1);
    }
  }

  function InsertAt(s: seq<CodePoint>, place: nat, c: CodePoint): seq<CodePoint>
    requires place <= |s|
  {
    s[..place] + [c] + s[place..]
  }

  lemma InsertAtSnoc(s: seq<CodePoint>, place: nat, c: CodePoint, last: CodePoint)
    requires place <= |s|
    ensures InsertAt(s + [last], place, c) == InsertAt(s, place, c) + [last]
  {
  }

  /** Handling one more code point inserts it into what was kept, at its place. */
  lemma {:induction false} KeptInsert(s: seq<CodePoint>, j: nat, k: nat)
    requires j < k <= |s| && s[j] >= INITIAL_N && Place(s, j) <= |Kept(s, s[j], j, k)|
    ensures Kept(s, s[j], j + 1, k) == InsertAt(Kept(s, s[j], j, k), Place(s, j), s[j])
    decreases k
  {
    if k == j + 1 {
      KeptSame(s, s[j], j, s[j], j + 1, j);
    } else {
      KeptCount(s, j, k - 1);
      KeptInsert(s, j, k - 1);
      InsertAtSnoc(Kept(s, s[j], j, k - 1), Place(s, j), s[j], s[k - 1]);
    }
  }

  lemma Pass(s: seq<CodePoint>, n: int, j: nat, i: nat)
    requires InStep(s, n, j, i) && j < |s| && s[j] != n
    ensures InStep(s, n, j + 1, i)
    ensures Kept(s, n, j + 1, |s|) == Kept(s, n, j, |s|)
    ensures Latest(s, n, j + 1, |s|) == Latest(s, n, j, |s|)
  {
    KeptSame(s, n, j, n, j + 1, |s|);
    KeptSame(s, n, j, n, j + 1, j);
  }

  lemma GapReaches(gap: nat, h: nat, place: nat, i: nat)
    requires i <= h + 1 && (gap == 0 ==> i <= place)
    ensures Laps(gap, h + 1) + place >= i
  {
    LapsAdd(1, gap - 1, h + 1);
  }

  lemma Emit(s: seq<CodePoint>, j: nat, i: nat)
    requires j < |s| && InStep(s, s[j], j, i)
    ensures StepIndex(s, j) >= i && Place(s, j) <= |Kept(s, s[j], j, |s|)| < |s|
    ensures InStep(s, s[j], j + 1, Place(s, j) + 1)
  {
    GapReaches(s[j] - Latest(s, s[j], j, |s|), |Kept(s, s[j], j, |s|)|, Place(s, j), i);
    EmitPlace(s, j);
  }

  lemma EmitPlace(s: seq<CodePoint>, j: nat)
    requires j < |s| && s[j] >= INITIAL_N
    ensures Place(s, j) <= |Kept(s, s[j], j, |s|)| < |s|
    ensures InStep(s, s[j], j + 1, Place(s, j) + 1)
  {
    var n := s[j];
    KeptCount(s, j, |s|);
    KeptAll(s, n, j, |s|);
    assert !Handled(s, n, j, j);
    KeptSame(s, n, j, n, j + 1, j);
  }

  lemma Skip(s: seq<CodePoint>, n: int, i: nat)
    requires InStep(s, n, |s|, i) && |Kept(s, n, |s|, |s|)| < |s|
    ensures n < SmallestFrom(s, n + 1, |s|) <= MAX_POINT
    ensures InStep(s, SmallestFrom(s, n + 1, |s|), 0, i)
    ensures Kept(s, SmallestFrom(s, n + 1, |s|), 0, |s|) == Kept(s, n, |s|, |s|)
    ensures Latest(s, SmallestFrom(s, n + 1, |s|), 0, |s|) == Latest(s, n, |s|, |s|)
  {
    var m := SmallestFrom(s, n + 1, |s|);
    KeptAll(s, n, |s|, |s|);
    KeptSame(s, n, |s|, m, 0, |s|);
  }

  // --------------------------------------- the count `adapt` is called with

  /**
    * `handledCPCountPlusOne`: one more than the code points handled when the pass for `n` began. The
    * source keeps this value through the pass, while the decoder counts every repeat of `n`.
    */
  function PassCount(s: seq<CodePoint>, n: int): (c: nat)
    ensures c > 0
  {
    |Kept(s, n, 0, |s|)| + 1
  }

  /** The count does not matter to `adapt` once it is above delta. */
  lemma AdaptSame(delta: nat, m: nat, m': nat, firstTime: bool)
    requires delta < m <= m'
    ensures Adapt(delta, m, firstTime) == Adapt(delta, m', firstTime)
  {
    var d := if firstTime then delta / DAMP else delta / 2;
    QuotientSmall(d, m);
    QuotientSmall(d, m');
  }

  lemma QuotientSmall(d: nat, m: nat)
    requires d < m
    ensures Quotient(d, m) == 0
  {
  }

  /** Before the first code point `n` is handled, the pass has the count it began with. */
  lemma {:induction false} KeptFirst(s: seq<CodePoint>, n: int, j: nat, k: nat)
    requires k <= |s| && n > INITIAL_N && Latest(s, n, j, k) != n
    ensures Kept(s, n, j, k) == Kept(s, n, 0, k)
  {
    if k > 0 { KeptFirst(s, n, j, k - 1); }
  }

  lemma {:induction false} KeptMore(s: seq<CodePoint>, n: int, j: nat, k: nat)
    requires k <= |s|
    ensures |Kept(s, n, 0, k)| <= |Kept(s, n, j, k)|
  {
    if k > 0 { KeptMore(s, n, j, k - 1); }
  }

  /** The delta of a repeat counts smaller code points only, so it is below the count of its pass. */
  lemma RepeatDelta(s: seq<CodePoint>, j: nat, i: nat)
    requires j < |s| && InStep(s, s[j], j, i) && Latest(s, s[j], j, |s|) == s[j]
    ensures 0 <= StepIndex(s, j) - i < PassCount(s, s[j])
  {
    LapsAdd(0, 0, |Kept(s, s[j], j, |s|)| + 1);
    KeptGrows(s, s[j], 0, j, |s|);
  }

  /** The encoder's stale count and the decoder's own give the same bias. */
  lemma SameBias(s: seq<CodePoint>, j: nat, i: nat, firstTime: bool)
    requires j < |s| && InStep(s, s[j], j, i) && StepIndex(s, j) >= i
    ensures Adapt(StepIndex(s, j) - i, PassCount(s, s[j]), firstTime)
         == Adapt(StepIndex(s, j) - i, |Kept(s, s[j], j, |s|)| + 1, firstTime)
  {
    if Latest(s, s[j], j, |s|) == s[j] {
      RepeatDelta(s, j, i);
      KeptMore(s, s[j], j, |s|);
      AdaptSame(StepIndex(s, j) - i, PassCount(s, s[j]), |Kept(s, s[j], j, |s|)| + 1, firstTime);
    } else {
      KeptFirst(s, s[j], j, |s|);
    }
  }

  function Prepend(ds: seq<Unit>, r: Result<seq<Unit>>): Result<seq<Unit>> {
    match r case Ok(v) => Ok(ds + v) case Err(e) => Err(e)
  }

  /**
    * What `encode` still has to emit when its scan for `n` stands at index `j`. Each code point
    * found is written as the distance the decoder's `i` has to travel. The last branch is the
    * trailing `++delta` of the scan that handles the last code point.
    */
  function EncodeRest(s: seq<CodePoint>, n: int, j: nat, i: nat, bias: nat): Result<seq<Unit>>
    requires InStep(s, n, j, i)
    decreases MAX_POINT - n, |s| - j
  {
    var h := |Kept(s, n, j, |s|)|;
    if j < |s| then
      if s[j] != n then Pass(s, n, j, i); EncodeRest(s, n, j + 1, i, bias)
      else
        Emit(s, j, i);
        var delta := StepIndex(s, j) - i;
        if delta > MAX_INT then Err(Overflow)
        else
          var bias' := Adapt(delta, PassCount(s, n), h == |BasicPoints(s)|);
          Prepend(Digits(delta, BASE, bias), EncodeRest(s, n, j + 1, Place(s, j) + 1, bias'))
    else if h == |s| then
      if h > |BasicPoints(s)| && h - i > MAX_INT then Err(Overflow) else Ok([])
    else
      Skip(s, n, i);
      EncodeRest(s, SmallestFrom(s, n + 1, |s|), 0, i, bias)
  }

  function EncodePoints(s: seq<CodePoint>): Result<seq<Unit>> {
    var basic := BasicPoints(s);
    Prepend(if |basic| > 0 then basic + [DELIMITER] else [], EncodeRest(s, INITIAL_N, 0, 0, INITIAL_BIAS))
  }

  function EncodeString(input: seq<Unit>): Result<seq<Unit>> { EncodePoints(Ucs2Decode(input)) }

  // ----------------------------------------------------------- round trip

  /** The decoder's own limit: every code point above 127 is reached with `i` below 2^31. */
  ghost predicate Fits(s: seq<CodePoint>) {
    forall p :: 0 <= p < |s| && s[p] >= INITIAL_N ==> StepIndex(s, p) <= MAX_INT
  }

  ghost predicate FitsFrom(s: seq<CodePoint>, n: int, j: int) {
    forall p :: 0 <= p < |s| && !Handled(s, n, j, p) ==> StepIndex(s, p) <= MAX_INT
  }

  lemma FitsSame(s: seq<CodePoint>, n: int, j: int, n': int, j': int)
    requires forall p :: 0 <= p < |s| ==> Handled(s, n, j, p) == Handled(s, n', j', p)
    ensures FitsFrom(s, n, j) == FitsFrom(s, n', j')
  {
  }

  lemma {:induction false} BasicFirst(s: seq<CodePoint>, n: int, j: int, k: nat)
    requires k <= |s| && n >= INITIAL_N
    ensures |Kept(s, INITIAL_N, 0, k)| <= |Kept(s, n, j, k)|
  {
    if k > 0 { BasicFirst(s, n, j, k - 1); }
  }

  lemma InsertsAt(d: Decoder, target: int, gap: nat, place: nat, c: CodePoint, out: seq<nat>)
    requires place <= |d.out| && c == d.n + gap && target == Laps(gap, |d.out| + 1) + place && target >= d.i
    requires out == d.out[..place] + [c] + d.out[place..]
    ensures Insert(d, target) == Ok(Decoder(out, c, place + 1, Adapt(target - d.i, |d.out| + 1, d.i == 0)))
  {
    QuotientRemainder(gap, |d.out| + 1, place);
  }

  /** One delta read back puts the code point where the input has it. */
  lemma InsertsNext(s: seq<CodePoint>, j: nat, i: nat, bias: nat)
    requires j < |s| && InStep(s, s[j], j, i) && StepIndex(s, j) <= MAX_INT
    ensures StepIndex(s, j) >= i
    ensures Insert(Decoder(Kept(s, s[j], j, |s|), Latest(s, s[j], j, |s|), i, bias), StepIndex(s, j))
         == Ok(Decoder(Kept(s, s[j], j + 1, |s|), s[j], Place(s, j) + 1,
                       Adapt(StepIndex(s, j) - i, |Kept(s, s[j], j, |s|)| + 1, i == 0)))
  {
    KeptCount(s, j, |s|);
    KeptInsert(s, j, |s|);
    InsertsStep(Kept(s, s[j], j, |s|), Latest(s, s[j], j, |s|), i, bias, Place(s, j), s[j], StepIndex(s, j));
  }

  lemma InsertsStep(kept: seq<CodePoint>, n: nat, i: nat, bias: nat, place: nat, c: CodePoint, target: int)
    requires place <= |kept| && n <= c && i <= |kept| + 1 && (n == c ==> i <= place)
    requires target == Laps(c - n, |kept| + 1) + place
    ensures target >= i
    ensures Insert(Decoder(kept, n, i, bias), target)
         == Ok(Decoder(InsertAt(kept, place, c), c, place + 1, Adapt(target - i, |kept| + 1, i == 0)))
  {
    GapReaches(c - n, |kept|, place, i);
    InsertsAt(Decoder(kept, n, i, bias), target, c - n, place, c, InsertAt(kept, place, c));
  }

  /** The decoder's state when the encoder is at <n, j>. */
  function DecoderAt(s: seq<CodePoint>, n: int, j: nat, i: nat, bias: nat): Decoder {
    Decoder(Kept(s, n, j, |s|), Latest(s, n, j, |s|), i, bias)
  }

  /** Encoder and decoder in step from <n, j> on: the decoder rebuilds the input, or overflows. */
  lemma {:induction false} StaysInStep(s: seq<CodePoint>, n: int, j: nat, i: nat, bias: nat)
    requires InStep(s, n, j, i) && bias <= 213
    requires i == 0 <==> |Kept(s, n, j, |s|)| == |BasicPoints(s)|
    requires EncodeRest(s, n, j, i, bias).Ok?
    ensures DecodeRest(EncodeRest(s, n, j, i, bias).value, DecoderAt(s, n, j, i, bias))
         == if FitsFrom(s, n, j) then Ok(s) else Err(Overflow)
    decreases MAX_POINT - n, |s| - j
  {
    var h := |Kept(s, n, j, |s|)|;
    if j < |s| && s[j] == n {
      EmitStays(s, j, i, bias);
    } else if j < |s| {
      Pass(s, n, j, i);
      StaysInStep(s, n, j + 1, i, bias);
      FitsSame(s, n, j, n, j + 1);
    } else if h == |s| {
      KeptAll(s, n, j, |s|);
      assert s[..|s|] == s;
      assert FitsFrom(s, n, j);
    } else {
      Skip(s, n, i);
      var m := SmallestFrom(s, n + 1, |s|);
      StaysInStep(s, m, 0, i, bias);
      FitsSame(s, n, j, m, 0);
    }
  }

  lemma {:induction false} EmitStays(s: seq<CodePoint>, j: nat, i: nat, bias: nat)
    requires j < |s| && InStep(s, s[j], j, i) && bias <= 213
    requires i == 0 <==> |Kept(s, s[j], j, |s|)| == |BasicPoints(s)|
    requires EncodeRest(s, s[j], j, i, bias).Ok?
    ensures DecodeRest(EncodeRest(s, s[j], j, i, bias).value, DecoderAt(s, s[j], j, i, bias))
         == if FitsFrom(s, s[j], j) then Ok(s) else Err(Overflow)
    decreases MAX_POINT - s[j], |s| - j, 0
  {
    EncodesOne(s, j, i, bias);
    var delta, i' := StepIndex(s, j) - i, Place(s, j) + 1;
    var bias' := Adapt(delta, |Kept(s, s[j], j, |s|)| + 1, i == 0);
    AdaptBound(delta, |Kept(s, s[j], j, |s|)| + 1, i == 0);
    StillInStep(s, j);
    StaysInStep(s, s[j], j + 1, i', bias');
    EmitsAndReads(s, j, i, bias, EncodeRest(s, s[j], j + 1, i', bias').value, EncodeRest(s, s[j], j, i, bias).value);
  }

  lemma EncodesOne(s: seq<CodePoint>, j: nat, i: nat, bias: nat)
    requires j < |s| && InStep(s, s[j], j, i)
    requires i == 0 <==> |Kept(s, s[j], j, |s|)| == |BasicPoints(s)|
    requires EncodeRest(s, s[j], j, i, bias).Ok?
    ensures i <= StepIndex(s, j) <= i + MAX_INT && InStep(s, s[j], j + 1, Place(s, j) + 1)
    ensures var rest := EncodeRest(s, s[j], j + 1, Place(s, j) + 1,
                                   Adapt(StepIndex(s, j) - i, |Kept(s, s[j], j, |s|)| + 1, i == 0));
      rest.Ok? && EncodeRest(s, s[j], j, i, bias).value == Digits(StepIndex(s, j) - i, BASE, bias) + rest.value
  {
    Emit(s, j, i);
    SameBias(s, j, i, i == 0);
  }

  lemma EmitsAndReads(s: seq<CodePoint>, j: nat, i: nat, bias: nat, rest: seq<Unit>, y: seq<Unit>)
    requires j < |s| && InStep(s, s[j], j, i) && bias <= 213 && StepIndex(s, j) >= i
    requires y == Digits(StepIndex(s, j) - i, BASE, bias) + rest
    ensures DecodeRest(y, DecoderAt(s, s[j], j, i, bias))
         == if StepIndex(s, j) > MAX_INT then Err(Overflow)
            else DecodeRest(rest, DecoderAt(s, s[j], j + 1, Place(s, j) + 1,
                                            Adapt(StepIndex(s, j) - i, |Kept(s, s[j], j, |s|)| + 1, i == 0)))
  {
    var bias' := Adapt(StepIndex(s, j) - i, |Kept(s, s[j], j, |s|)| + 1, i == 0);
    var d' := DecoderAt(s, s[j], j + 1, Place(s, j) + 1, bias');
    if StepIndex(s, j) <= MAX_INT {
      KeptCount(s, j, |s|);
      InsertsNext(s, j, i, bias);
    }
    DecodesOne(StepIndex(s, j), rest, DecoderAt(s, s[j], j, i, bias), d');
  }

  lemma DecodesOne(target: nat, rest: seq<Unit>, d: Decoder, d': Decoder)
    requires d.bias <= 213 && target >= d.i && (target <= MAX_INT ==> Insert(d, target) == Ok(d'))
    ensures DecodeRest(Digits(target - d.i, BASE, d.bias) + rest, d)
         == if target > MAX_INT then Err(Overflow) else DecodeRest(rest, d')
  {
    ReadDigits(target - d.i, rest, d.i, 1, BASE, d.bias, target);
  }

  lemma StillInStep(s: seq<CodePoint>, j: nat)
    requires j < |s| && s[j] >= INITIAL_N
    ensures |Kept(s, s[j], j + 1, |s|)| > |BasicPoints(s)|
    ensures Latest(s, s[j], j + 1, |s|) == s[j]
    ensures FitsFrom(s, s[j], j) <==> StepIndex(s, j) <= MAX_INT && FitsFrom(s, s[j], j + 1)
  {
    BasicFirst(s, s[j], j, |s|);
    KeptCount(s, j, |s|);
    assert !Handled(s, s[j], j, j) && Handled(s, s[j], j + 1, j);
    assert forall p :: 0 <= p < |s| && p != j ==> Handled(s, s[j], j, p) == Handled(s, s[j], j + 1, p);
  }

  /** The digits hold no delimiter, so the last one in the output is the one `encode` wrote. */
  lemma {:induction false} NoDelimiter(s: seq<CodePoint>, n: int, j: nat, i: nat, bias: nat)
    requires InStep(s, n, j, i)
    ensures EncodeRest(s, n, j, i, bias).Ok? ==> DELIMITER !in EncodeRest(s, n, j, i, bias).value
    decreases MAX_POINT - n, |s| - j
  {
    var h := |Kept(s, n, j, |s|)|;
    if j < |s| && s[j] == n {
      Emit(s, j, i);
      var delta := StepIndex(s, j) - i;
      if delta <= MAX_INT {
        NoDelimiter(s, n, j + 1, Place(s, j) + 1, Adapt(delta, PassCount(s, n), h == |BasicPoints(s)|));
      }
    } else if j < |s| {
      Pass(s, n, j, i);
      NoDelimiter(s, n, j + 1, i, bias);
    } else if h < |s| {
      Skip(s, n, i);
      NoDelimiter(s, SmallestFrom(s, n + 1, |s|), 0, i, bias);
    }
  }

  lemma SplitsAtDelimiter(basic: seq<Unit>, rest: seq<Unit>, y: seq<Unit>)
    requires DELIMITER !in rest && forall c <- basic :: c < 0x80
    requires y == (if |basic| > 0 then basic + [DELIMITER] else []) + rest
    ensures DecodePoints(y) == DecodeRest(rest, Decoder(basic, INITIAL_N, 0, INITIAL_BIAS))
  {
    if |basic| == 0 {
      assert [] + rest == rest;
      assert rest[0..] == rest;
    } else {
      var x := basic + [DELIMITER] + rest;
      LastIndexIs(basic, rest);
      assert x[..|basic|] == basic && x[|basic| + 1..] == rest;
      assert forall j :: 0 <= j < |basic| ==> x[j] == basic[j] && basic[j] in basic;
    }
  }

  lemma {:induction false} LastIndexIs(basic: seq<Unit>, rest: seq<Unit>)
    requires DELIMITER !in rest
    ensures LastIndexOf(basic + [DELIMITER] + rest, DELIMITER) == |basic|
    decreases |rest|
  {
    var x := basic + [DELIMITER] + rest;
    if |rest| > 0 {
      assert x[|x| - 1] == rest[|rest| - 1];
      assert x[..|x| - 1] == basic + [DELIMITER] + rest[..|rest| - 1];
      LastIndexIs(basic, rest[..|rest| - 1]);
    }
  }

  /** `decode(encode(s))` is `s`, or the overflow error exactly when `Fits` says so. */
  lemma PointsRoundTrip(s: seq<CodePoint>)
    requires EncodePoints(s).Ok?
    ensures DecodePoints(EncodePoints(s).value) == if Fits(s) then Ok(s) else Err(Overflow)
  {
    var rest := EncodedRest(s);
    SplitsAtDelimiter(BasicPoints(s), rest, EncodePoints(s).value);
    FitsWhole(s);
  }

  /** What follows the basic code points, and what becomes of it. */
  lemma EncodedRest(s: seq<CodePoint>) returns (rest: seq<Unit>)
    requires EncodePoints(s).Ok?
    ensures var basic := BasicPoints(s);
      EncodePoints(s).value == (if |basic| > 0 then basic + [DELIMITER] else []) + rest
    ensures DELIMITER !in rest
    ensures DecodeRest(rest, Decoder(BasicPoints(s), INITIAL_N, 0, INITIAL_BIAS))
         == if FitsFrom(s, INITIAL_N, 0) then Ok(s) else Err(Overflow)
  {
    rest := EncodeRest(s, INITIAL_N, 0, 0, INITIAL_BIAS).value;
    NoDelimiter(s, INITIAL_N, 0, 0, INITIAL_BIAS);
    LatestStart(s, |s|);
    StaysInStep(s, INITIAL_N, 0, 0, INITIAL_BIAS);
  }

  lemma {:induction false} LatestStart(s: seq<CodePoint>, k: nat)
    requires k <= |s|
    ensures Latest(s, INITIAL_N, 0, k) == INITIAL_N
  {
    if k > 0 { LatestStart(s, k - 1); }
  }

  lemma FitsWhole(s: seq<CodePoint>)
    ensures FitsFrom(s, INITIAL_N, 0) == Fits(s)
  {
    assert forall p :: 0 <= p < |s| ==> Handled(s, INITIAL_N, 0, p) == (s[p] < INITIAL_N);
  }

  lemma RoundTrip(input: seq<Unit>)
    requires EncodeString(input).Ok?
    ensures DecodeString(EncodeString(input).value) == if Fits(Ucs2Decode(input)) then Ok(input) else Err(Overflow)
  {
    PointsRoundTrip(Ucs2Decode(input));
    Ucs2RoundTrip(input);
  }

  lemma Product(a: nat, b: nat)
    ensures a * b >= 0 && (a > 0 && b > 0 ==> a * b > 0)
  {
  }

  lemma ProductBound(a: nat, b: nat, c: nat, d: nat)
    requires a <= c && b <= d
    ensures a * b <= c * d
  {
    assert a * b <= c * b <= c * d;
  }

  lemma ShortStep(s: seq<CodePoint>, p: nat)
    requires p < |s| <= 1927 && s[p] >= INITIAL_N
    ensures StepIndex(s, p) <= MAX_INT
  {
    EmitPlace(s, p);
    var gap, h := s[p] - Latest(s, s[p], p, |s|), |Kept(s, s[p], p, |s|)|;
    LapsProduct(gap, h + 1);
    ProductBound(gap, h + 1, MAX_POINT, 1927);
  }

  lemma {:induction false} ShortEncodes(s: seq<CodePoint>, n: int, j: nat, i: nat, bias: nat)
    requires InStep(s, n, j, i) && |s| <= 1927
    ensures EncodeRest(s, n, j, i, bias).Ok?
    decreases MAX_POINT - n, |s| - j
  {
    var h := |Kept(s, n, j, |s|)|;
    if j < |s| && s[j] == n {
      Emit(s, j, i);
      ShortStep(s, j);
      var delta := StepIndex(s, j) - i;
      ShortEncodes(s, n, j + 1, Place(s, j) + 1, Adapt(delta, PassCount(s, n), h == |BasicPoints(s)|));
    } else if j < |s| {
      Pass(s, n, j, i);
      ShortEncodes(s, n, j + 1, i, bias);
    } else if h < |s| {
      Skip(s, n, i);
      ShortEncodes(s, SmallestFrom(s, n + 1, |s|), 0, i, bias);
    }
  }

  /** No error is possible on strings of up to 1927 code units: the round trip is unconditional. */
  lemma ShortRoundTrip(input: seq<Unit>)
    requires |input| <= 1927
    ensures EncodeString(input).Ok? && DecodeString(EncodeString(input).value) == Ok(input)
  {
    var s := Ucs2Decode(input);
    Ucs2RoundTrip(input);
    ShortEncodes(s, INITIAL_N, 0, 0, INITIAL_BIAS);
    RoundTrip(input);
    forall p | 0 <= p < |s| && s[p] >= INITIAL_N
      ensures StepIndex(s, p) <= MAX_INT
    {
      ShortStep(s, p);
    }
  }

  // ------------------------------------------------- the loops of the source

  /** Reads one integer at `index`; the new `i` and `index`, or the error thrown. */
  method ReadNext(input: seq<Unit>, start: nat, oldi: nat, bias: nat) returns (r: Result<(nat, nat)>)
    requires start <= |input|
    ensures r.Err? ==> ReadInt(input[start..], oldi, 1, BASE, bias) == Err(r.error)
    ensures r.Ok? ==> start < r.value.1 <= |input| && r.value.0 >= oldi
    ensures r.Ok? ==> ReadInt(input[start..], oldi, 1, BASE, bias) == Ok((r.value.0, input[r.value.1..]))
  {
    var index, i: nat, w: nat, k: nat := start, oldi, 1, BASE;
    while true
      invariant start <= index <= |input| && w > 0 && i >= oldi
      invariant ReadInt(input[index..], i, w, k, bias) == ReadInt(input[start..], oldi, 1, BASE, bias)
      decreases |input| - index
    {
      if index >= |input| { return Err(InvalidInput); }
      var digit := BasicToDigit(input[index]);
      assert input[index..][1..] == input[index + 1..];
      index := index + 1;
      if digit < 0 { return Err(ControlDigit); }
      if digit >= BASE || digit > Quotient(MAX_INT - i, w) { return Err(Overflow); }
      Product(digit, w);
      i := i + digit * w;
      var t := Threshold(k, bias);
      Product(w, BASE - t);
      if digit < t { return Ok((i, index)); }
      if w > Quotient(MAX_INT, BASE - t) { return Err(Overflow); }
      w := w * (BASE - t);
      k := k + BASE;
    }
  }

  method CopyBasic(input: seq<Unit>, basic: nat) returns (r: Result<seq<nat>>)
    requires basic <= |input|
    ensures r == if exists j :: 0 <= j < basic && input[j] >= 0x80 then Err(NotBasic) else Ok(input[..basic])
  {
    var output: seq<nat> := [];
    for j := 0 to basic
      invariant output == input[..j] && forall q :: 0 <= q < j ==> input[q] < 0x80
    {
      if input[j] >= 0x80 { return Err(NotBasic); }
      output := output + [input[j]];
    }
    r := Ok(output);
  }

  method Decode(input: seq<Unit>) returns (r: Result<seq<Unit>>)
    ensures r == DecodeString(input)
  {
    var basic := LastIndexOf(input, DELIMITER);
    if basic < 0 { basic := 0; }
    var copied := CopyBasic(input, basic);
    if copied.Err? { return Err(NotBasic); }
    var output := copied.value;
    var index := if basic > 0 then basic + 1 else 0;
    var d := Decoder(output, INITIAL_N, 0, INITIAL_BIAS);
    while index < |input|
      invariant index <= |input|
      invariant DecodePoints(input) == DecodeRest(input[index..], d)
    {
      var next := ReadNext(input, index, d.i, d.bias);
      if next.Err? { return Err(next.error); }
      index := next.value.1;
      var inserted := InsertPoint(d, next.value.0);
      if inserted.Err? { return Err(inserted.error); }
      d := inserted.value;
    }
    r := Ok(Ucs2Encode(d.out));
  }

  /** The tail of the decoder's main loop, from the bias to the splice. */
  method InsertPoint(d: Decoder, newI: nat) returns (r: Result<Decoder>)
    requires newI >= d.i
    ensures r == Insert(d, newI)
  {
    var out := |d.out| + 1;
    var bias := ComputeAdapt(newI - d.i, out, d.i == 0);
    var laps, i := Quotient(newI, out), Remainder(newI, out);
    if laps > MAX_INT - d.n { return Err(Overflow); }
    var n := d.n + laps;
    r := Ok(Decoder(d.out[..i] + [n] + d.out[i..], n, i + 1, bias));
  }

  /** The encoder's `delta` while its scan for `n` is at index `j`. */
  ghost function ScanDelta(s: seq<CodePoint>, n: int, j: nat, i: nat): int
    requires j <= |s|
  {
    Laps(n - Latest(s, n, j, |s|), |Kept(s, n, j, |s|)| + 1) + |Kept(s, n, j, j)| - i
  }

  /** A scan passes over what is not `n`. */
  lemma {:induction false} PassTo(s: seq<CodePoint>, n: int, j: nat, j': nat, i: nat, bias: nat)
    requires InStep(s, n, j, i) && j <= j' <= |s| && forall q :: j <= q < j' ==> s[q] != n
    ensures InStep(s, n, j', i) && EncodeRest(s, n, j, i, bias) == EncodeRest(s, n, j', i, bias)
    ensures Kept(s, n, j', |s|) == Kept(s, n, j, |s|) && Latest(s, n, j', |s|) == Latest(s, n, j, |s|)
    decreases j' - j
  {
    if j < j' {
      Pass(s, n, j, i);
      PassTo(s, n, j + 1, j', i, bias);
    }
  }

  /** `delta` only grows until it is written, so an early overflow check stops no valid run. */
  lemma {:induction false} OverflowAhead(s: seq<CodePoint>, n: int, j: nat, i: nat, bias: nat)
    requires InStep(s, n, j, i) && ScanDelta(s, n, j, i) > MAX_INT
    requires |Kept(s, n, j, |s|)| == |s| ==> Latest(s, n, j, |s|) == n && |s| > |BasicPoints(s)|
    ensures EncodeRest(s, n, j, i, bias) == Err(Overflow)
    decreases MAX_POINT - n, |s| - j
  {
    if j < |s| && s[j] == n {
    } else if j < |s| {
      Pass(s, n, j, i);
      KeptSame(s, n, j, n, j + 1, j);
      OverflowAhead(s, n, j + 1, i, bias);
    } else if |Kept(s, n, j, |s|)| < |s| {
      Skip(s, n, i);
      var m := SmallestFrom(s, n + 1, |s|);
      NextScan(s, n, m, i);
      OverflowAhead(s, m, 0, i, bias);
    } else {
      LapsAdd(0, 0, |s| + 1);
    }
  }

  lemma NextScan(s: seq<CodePoint>, n: int, m: int, i: nat)
    requires n < m && Latest(s, n, |s|, |s|) == Latest(s, m, 0, |s|) && Kept(s, n, |s|, |s|) == Kept(s, m, 0, |s|)
    ensures ScanDelta(s, m, 0, i) > ScanDelta(s, n, |s|, i)
  {
    var latest, len := Latest(s, n, |s|, |s|), |Kept(s, n, |s|, |s|)| + 1;
    LapsAdd(n - latest, m - n, len);
    LapsAdd(1, m - n - 1, len);
  }

  lemma PassDelta(s: seq<CodePoint>, n: int, j: nat, i: nat)
    requires InStep(s, n, j, i) && j < |s| && s[j] != n
    ensures InStep(s, n, j + 1, i)
    ensures ScanDelta(s, n, j + 1, i) == ScanDelta(s, n, j, i) + (if s[j] < n then 1 else 0)
  {
    Pass(s, n, j, i);
    KeptSame(s, n, j, n, j + 1, j);
  }

  lemma DeltaBefore(s: seq<CodePoint>, j: nat, i: nat)
    requires j < |s| && InStep(s, s[j], j, i)
    ensures ScanDelta(s, s[j], j, i) == StepIndex(s, j) - i >= 0
    ensures InStep(s, s[j], j + 1, Place(s, j) + 1)
  {
    Emit(s, j, i);
  }

  lemma DeltaAfter(s: seq<CodePoint>, j: nat)
    requires j < |s| && s[j] >= INITIAL_N
    ensures ScanDelta(s, s[j], j + 1, Place(s, j) + 1) == 0
  {
    KeptCount(s, j, |s|);
    KeptSame(s, s[j], j, s[j], j + 1, j);
    LapsAdd(0, 0, |Kept(s, s[j], j + 1, |s|)| + 1);
  }

  /** The encoder's variables during a scan; `count` is its `handledCPCount`. */
  datatype Encoder = Encoder(delta: nat, count: nat, bias: nat, output: seq<Unit>)

  /** The scan for `n` is at `j`, with a decoder whose `i` is `i`, and this is what is left to do. */
  ghost predicate At(s: seq<CodePoint>, n: int, j: nat, i: nat, e: Encoder, goal: Result<seq<Unit>>) {
    && InStep(s, n, j, i)
    && e.delta == ScanDelta(s, n, j, i) <= MAX_INT
    && e.count == |Kept(s, n, j, |s|)|
    && goal == Prepend(e.output, EncodeRest(s, n, j, i, e.bias))
  }

  lemma PassAt(s: seq<CodePoint>, n: int, j: nat, i: nat, e: Encoder, goal: Result<seq<Unit>>)
    requires At(s, n, j, i, e, goal) && j < |s| && s[j] != n
    requires e.count == |s| ==> Latest(s, n, j, |s|) == n && |s| > |BasicPoints(s)|
    ensures s[j] > n ==> At(s, n, j + 1, i, e, goal)
    ensures s[j] < n && e.delta < MAX_INT ==> At(s, n, j + 1, i, e.(delta := e.delta + 1), goal)
    ensures s[j] < n && e.delta == MAX_INT ==> goal == Err(Overflow)
    ensures Latest(s, n, j + 1, |s|) == Latest(s, n, j, |s|)
  {
    Pass(s, n, j, i);
    PassDelta(s, n, j, i);
    if s[j] < n && e.delta == MAX_INT {
      OverflowAhead(s, n, j + 1, i, e.bias);
    }
  }

  method EmitPoint(s: seq<CodePoint>, j: nat, e: Encoder, countPlusOne: nat, basicLength: nat,
                   ghost i: nat, ghost goal: Result<seq<Unit>>)
    returns (e': Encoder)
    requires j < |s| && At(s, s[j], j, i, e, goal) && basicLength == |BasicPoints(s)| && countPlusOne == PassCount(s, s[j])
    ensures At(s, s[j], j + 1, Place(s, j) + 1, e', goal)
    ensures e'.count == e.count + 1 && Latest(s, s[j], j + 1, |s|) == s[j]
  {
    DeltaBefore(s, j, i);
    DeltaAfter(s, j);
    KeptCount(s, j, |s|);
    var digits := WriteInt(e.delta, e.bias);
    var bias := ComputeAdapt(e.delta, countPlusOne, e.count == basicLength);
    PrependPrepend(e.output, digits, EncodeRest(s, s[j], j + 1, Place(s, j) + 1, bias));
    e' := Encoder(0, e.count + 1, bias, e.output + digits);
  }

  lemma PrependPrepend(a: seq<Unit>, b: seq<Unit>, r: Result<seq<Unit>>)
    ensures Prepend(a, Prepend(b, r)) == Prepend(a + b, r)
  {
    if r.Ok? { assert a + (b + r.value) == a + b + r.value; }
  }

  /** One pass of the encoder over the input, for the code point `n`. */
  method Scan(s: seq<CodePoint>, n: int, e0: Encoder, countPlusOne: nat, basicLength: nat,
              ghost i0: nat, ghost goal: Result<seq<Unit>>)
    returns (e: Option<Encoder>, ghost i: nat)
    requires At(s, n, 0, i0, e0, goal) && n in s && e0.count < |s| && basicLength == |BasicPoints(s)|
    requires countPlusOne == e0.count + 1
    ensures e.None? ==> goal == Err(Overflow)
    ensures e.Some? ==> At(s, n, |s|, i, e.value, goal)
    ensures e.Some? ==> e.value.count > e0.count && Latest(s, n, |s|, |s|) == n
  {
    var c := e0;
    i := i0;
    BasicFirst(s, n, 0, |s|);
    for j := 0 to |s|
      invariant At(s, n, j, i, c, goal) && c.count >= e0.count
      invariant if n in s[..j] then c.count > e0.count && Latest(s, n, j, |s|) == n else c.count == e0.count
    {
      assert s[..j + 1] == s[..j] + [s[j]];
      if s[j] == n {
        c := EmitPoint(s, j, c, countPlusOne, basicLength, i, goal);
        i := Place(s, j) + 1;
      } else {
        PassAt(s, n, j, i, c, goal);
        if s[j] < n {
          if c.delta == MAX_INT { return None, i; }
          c := c.(delta := c.delta + 1);
        }
      }
    }
    assert s[..|s|] == s;
    e := Some(c);
  }

  /** The head of the encoder's main loop: everything below `n` is handled, something is left. */
  ghost predicate Head(s: seq<CodePoint>, n: int, i: nat, e: Encoder, goal: Result<seq<Unit>>) {
    var m := SmallestFrom(s, n, |s|);
    && InStep(s, m, 0, i) && n <= m && m in s
    && e.count == |Kept(s, m, 0, |s|)| < |s|
    && e.delta == Laps(n - Latest(s, m, 0, |s|), e.count + 1) - i
    && goal == Prepend(e.output, EncodeRest(s, m, 0, i, e.bias))
  }

  lemma HeadToScan(s: seq<CodePoint>, n: int, m: int, i: nat, e: Encoder, goal: Result<seq<Unit>>)
    requires Head(s, n, i, e, goal) && m == SmallestFrom(s, n, |s|)
    ensures Laps(m - n, e.count + 1) >= 0
    ensures e.delta + Laps(m - n, e.count + 1) > MAX_INT ==> goal == Err(Overflow)
    ensures e.delta + Laps(m - n, e.count + 1) <= MAX_INT
        ==> At(s, m, 0, i, e.(delta := e.delta + Laps(m - n, e.count + 1)), goal)
  {
    LapsAdd(n - Latest(s, m, 0, |s|), m - n, e.count + 1);
    if e.delta + Laps(m - n, e.count + 1) > MAX_INT {
      OverflowAhead(s, m, 0, i, e.bias);
    }
  }

  lemma Distribute(a: int, b: int, c: int)
    ensures (a + b) * c == a * c + b * c
  {
  }

  lemma ScanToHead(s: seq<CodePoint>, n: int, i: nat, e: Encoder, goal: Result<seq<Unit>>)
    requires At(s, n, |s|, i, e, goal) && Latest(s, n, |s|, |s|) == n
    ensures if e.count < |s| then Head(s, n + 1, i, e.(delta := e.delta + 1), goal) else goal == Ok(e.output)
  {
    if e.count < |s| {
      Skip(s, n, i);
      assert s[..|s|] == s;
      LapsAdd(0, 1, e.count + 1);
    } else {
      LapsAdd(0, 0, e.count + 1);
      assert e.output + [] == e.output;
    }
  }

  lemma FirstHead(s: seq<CodePoint>, output: seq<Unit>)
    requires |BasicPoints(s)| < |s|
    ensures Head(s, INITIAL_N, 0, Encoder(0, |BasicPoints(s)|, INITIAL_BIAS, output),
                 Prepend(output, EncodeRest(s, INITIAL_N, 0, 0, INITIAL_BIAS)))
  {
    assert s[..|s|] == s && s[0..] == s;
    LapsAdd(0, 0, |BasicPoints(s)| + 1);
    if INITIAL_N !in s {
      PassTo(s, INITIAL_N, 0, |s|, 0, INITIAL_BIAS);
      Skip(s, INITIAL_N, 0);
      SameSmallest(s, INITIAL_N, |s|);
    } else {
      var q :| 0 <= q < |s| && s[q] == INITIAL_N;
      assert SmallestFrom(s, INITIAL_N, |s|) == INITIAL_N;
    }
  }

  lemma AllBasic(s: seq<CodePoint>, output: seq<Unit>)
    requires |BasicPoints(s)| == |s|
    ensures Prepend(output, EncodeRest(s, INITIAL_N, 0, 0, INITIAL_BIAS)) == Ok(output)
  {
    KeptAll(s, INITIAL_N, 0, |s|);
    assert s[0..] == s && output + [] == output;
    forall q | 0 <= q < |s| ensures s[q] != INITIAL_N {
      assert Handled(s, INITIAL_N, 0, q);
    }
    PassTo(s, INITIAL_N, 0, |s|, 0, INITIAL_BIAS);
  }

  lemma {:induction false} SameSmallest(s: seq<CodePoint>, n: int, k: nat)
    requires k <= |s| && n !in s
    ensures SmallestFrom(s, n, k) == SmallestFrom(s, n + 1, k)
  {
    if k > 0 {
      assert s[k - 1] in s;
      SameSmallest(s, n, k - 1);
    }
  }

  method FindSmallest(s: seq<CodePoint>, n: int) returns (m: int)
    ensures m == SmallestFrom(s, n, |s|)
  {
    m := MAX_INT;
    for j := 0 to |s|
      invariant m == SmallestFrom(s, n, j)
    {
      if n <= s[j] < m { m := s[j]; }
    }
  }

  method CollectBasic(s: seq<CodePoint>) returns (output: seq<Unit>)
    ensures output == BasicPoints(s)
  {
    output := [];
    for j := 0 to |s|
      invariant output == Kept(s, INITIAL_N, 0, j)
    {
      if s[j] < 0x80 {
        var basic: Unit := s[j];
        output := output + [basic];
      }
    }
  }

  /** Finds the next code point and raises `delta` to take the decoder to <m, 0>. */
  method Advance(s: seq<CodePoint>, n: int, e: Encoder, countPlusOne: nat, ghost i: nat, ghost goal: Result<seq<Unit>>)
    returns (m: int, r: Option<Encoder>)
    requires Head(s, n, i, e, goal) && countPlusOne == e.count + 1
    ensures r.None? ==> goal == Err(Overflow)
    ensures r.Some? ==> At(s, m, 0, i, r.value, goal) && m in s && r.value.count == e.count
  {
    m := FindSmallest(s, n);
    HeadToScan(s, n, m, i, e, goal);
    LapsProduct(m - n, countPlusOne);
    FitsQuotient(m - n, MAX_INT - e.delta, countPlusOne);
    if m - n > Quotient(MAX_INT - e.delta, countPlusOne) { return m, None; }
    r := Some(e.(delta := e.delta + (m - n) * countPlusOne));
  }

  /** One iteration of the encoder's main loop. */
  method Round(s: seq<CodePoint>, n: int, e: Encoder, basicLength: nat, ghost i: nat, ghost goal: Result<seq<Unit>>)
    returns (n': int, r: Option<Encoder>, ghost i': nat)
    requires Head(s, n, i, e, goal) && basicLength == |BasicPoints(s)|
    ensures r.None? ==> goal == Err(Overflow)
    ensures r.Some? ==> e.count < r.value.count <= |s|
    ensures r.Some? ==> if r.value.count < |s| then Head(s, n', i', r.value, goal) else goal == Ok(r.value.output)
  {
    var countPlusOne := e.count + 1;
    var m, advanced := Advance(s, n, e, countPlusOne, i, goal);
    if advanced.None? { return n, None, i; }
    var scanned;
    scanned, i' := Scan(s, m, advanced.value, countPlusOne, basicLength, i, goal);
    if scanned.None? { return n, None, i; }
    ScanToHead(s, m, i', scanned.value, goal);
    n' := m + 1;
    r := Some(scanned.value.(delta := scanned.value.delta + 1));
  }

  method Encode(input: seq<Unit>) returns (r: Result<seq<Unit>>)
    ensures r == EncodeString(input)
  {
    var s := ComputeUcs2Decode(input);
    var basic := CollectBasic(s);
    var n := INITIAL_N;
    var e := Encoder(0, |basic|, INITIAL_BIAS, if |basic| > 0 then basic + [DELIMITER] else []);
    ghost var i, goal := 0, EncodePoints(s);
    if |basic| < |s| { FirstHead(s, e.output); } else { AllBasic(s, e.output); }
    while e.count < |s|
      invariant e.count <= |s|
      invariant if e.count < |s| then Head(s, n, i, e, goal) else goal == Ok(e.output)
      decreases |s| - e.count
    {
      var next;
      n, next, i := Round(s, n, e, |basic|, i, goal);
      if next.None? { return Err(Overflow); }
      e := next.value;
    }
    r := Ok(e.output);
  }

  // ------------------------------------------- where the two limits differ

  /** `c` basic code points, U+0080, and one more: the smallest family where the limits differ. */
  ghost predicate TwoSteps(s: seq<CodePoint>, c: nat) {
    |s| == c + 2 && (forall q :: 0 <= q < c ==> s[q] < INITIAL_N) && s[c] == INITIAL_N < s[c + 1]
  }

  lemma {:induction false} LatestBasic(s: seq<CodePoint>, n: int, j: int, k: nat)
    requires k <= |s| && forall q :: 0 <= q < k ==> s[q] < INITIAL_N
    ensures Latest(s, n, j, k) == INITIAL_N
  {
    if k > 0 { LatestBasic(s, n, j, k - 1); }
  }

  lemma FirstStep(s: seq<CodePoint>, c: nat)
    requires TwoSteps(s, c)
    ensures |BasicPoints(s)| == c && StepIndex(s, c) == c && Place(s, c) == c
  {
    KeptAll(s, INITIAL_N, c, c);
    KeptAll(s, INITIAL_N, 0, c);
    LatestBasic(s, INITIAL_N, c, c);
    assert Kept(s, INITIAL_N, 0, c + 1) == Kept(s, INITIAL_N, 0, c);
    LapsAdd(0, 0, |Kept(s, s[c], c, |s|)| + 1);
  }

  lemma SecondStep(s: seq<CodePoint>, c: nat)
    requires TwoSteps(s, c)
    ensures StepIndex(s, c + 1) == (s[c + 1] - INITIAL_N) * (c + 2) + c + 1
    ensures |Kept(s, INITIAL_N, c + 2, c + 2)| == c + 1
  {
    KeptAll(s, s[c + 1], c + 1, c + 1);
    KeptAll(s, INITIAL_N, c + 2, c + 1);
    LatestBasic(s, s[c + 1], c + 1, c);
    assert Latest(s, s[c + 1], c + 1, c + 1) == INITIAL_N;
    LapsProduct(s[c + 1] - INITIAL_N, c + 2);
  }

  lemma TwoStepsEncode(s: seq<CodePoint>, c: nat)
    requires TwoSteps(s, c) && (s[c + 1] - INITIAL_N) * (c + 2) <= MAX_INT && c <= MAX_INT
    ensures EncodePoints(s).Ok?
  {
    FirstStep(s, c);
    SecondStep(s, c);
    var m, h := s[c + 1], |Kept(s, INITIAL_N, c, |s|)|;
    PassTo(s, INITIAL_N, 0, c, 0, INITIAL_BIAS);
    EmitPlace(s, c);
    var bias := Adapt(c, PassCount(s, INITIAL_N), h == |BasicPoints(s)|);
    PassTo(s, INITIAL_N, c + 1, c + 2, c + 1, bias);
    Skip(s, INITIAL_N, c + 1);
    assert SmallestFrom(s, INITIAL_N + 1, |s|) == m;
    PassTo(s, m, 0, c + 1, c + 1, bias);
    LastStepEncodes(s, c, bias);
  }

  lemma LastStepEncodes(s: seq<CodePoint>, c: nat, bias: nat)
    requires TwoSteps(s, c) && (s[c + 1] - INITIAL_N) * (c + 2) <= MAX_INT && c <= MAX_INT
    requires InStep(s, s[c + 1], c + 1, c + 1)
    ensures EncodeRest(s, s[c + 1], c + 1, c + 1, bias).Ok?
  {
    SecondStep(s, c);
    EmitPlace(s, c + 1);
    KeptAll(s, s[c + 1], c + 1, c + 1);
    KeptAll(s, s[c + 1], c + 2, |s|);
  }

  /** 1998 times 'a', U+0080 and U+1062CD: `encode` accepts it, `decode` cannot take it back. */
  lemma RoundTripCanOverflow() returns (s: seq<CodePoint>)
    ensures EncodePoints(s).Ok? && DecodePoints(EncodePoints(s).value) == Err(Overflow)
  {
    var c := 1998;
    s := seq(c, _ => 0x61) + [0x80, 0x1062CD];
    assert TwoSteps(s, c);
    TwoStepsEncode(s, c);
    SecondStep(s, c);
    PointsRoundTrip(s);
    assert StepIndex(s, c + 1) > MAX_INT;
  }
}
