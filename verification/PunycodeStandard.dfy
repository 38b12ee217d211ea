/**
  * What a Punycode string stands for, in the words and numbers of RFC 3492 alone, and the encoder
  * and decoder measured against it.
  */
module PunycodeStandard {
  import opened Basics
  import opened Punycode

  // ------------------------------------------------- the standard, sections 3, 5 and 6

  /** Section 5: a to z in either case are 0 to 25, and 0 to 9 are 26 to 35. */
  function DigitOf(c: Unit): Option<nat> {
    if 0x61 <= c <= 0x7A then Some(c - 0x61)
    else if 0x41 <= c <= 0x5A then Some(c - 0x41)
    else if 0x30 <= c <= 0x39 then Some(c - 0x30 + 26)
    else None
  }

  function T(k: nat, bias: nat): (t: nat)
    ensures 1 <= t <= 26
  {
    if k <= bias then 1 else if k >= bias + 26 then 26 else k - bias
  }

  /** Section 3.4. */
  function Reduced(delta: nat, k: nat): nat
    decreases delta
  {
    if delta > ((36 - 1) * 26) / 2 then Reduced(delta / (36 - 1), k + 36) else k + (36 - 1 + 1) * delta / (delta + 38)
  }

  function Bias(delta: nat, points: nat, first: bool): nat
    requires points > 0
  {
    var d := if first then delta / 700 else delta / 2;
    NotNegative(d, points);
    Reduced(d + d / points, 0)
  }

  lemma NotNegative(d: nat, points: nat)
    requires points > 0
    ensures d / points >= 0
  {
  }

  /**
    * Section 3.3: the integer at the front of `x` is the sum of its digits, the j-th one times the
    * product of 36 - t over the digits before it; it ends with the first digit below its t.
    */
  function Numeral(x: seq<Unit>, w: nat, k: nat, bias: nat): (r: Option<(nat, seq<Unit>)>)
    ensures r.Some? ==> |r.value.1| < |x|
  {
    if |x| == 0 || DigitOf(x[0]).None? then None
    else
      var digit, t := DigitOf(x[0]).value, T(k, bias);
      Product(digit, w);
      if digit < t then Some((digit * w, x[1..]))
      else
        Product(w, 36 - t);
        var more := Numeral(x[1..], w * (36 - t), k + 36, bias);
        if more.None? then None else Some((digit * w + more.value.0, more.value.1))
  }

  /** The integers `x` spells, when `len` code points are known; each one adapts the bias of the next. */
  function Integers(x: seq<Unit>, len: nat, bias: nat, first: bool): Option<seq<nat>>
    decreases |x|
  {
    if |x| == 0 then Some([])
    else match Numeral(x, 1, 36, bias)
      case None => None
      case Some((delta, rest)) =>
        var more := Integers(rest, len + 1, Bias(delta, len + 1, first), false);
        if more.None? then None else Some([delta] + more.value)
  }

  /** Section 3.2: every delta is a walk over the places of the string, one code point up at its end. */
  function Meaning(out: seq<nat>, n: nat, i: nat, deltas: seq<nat>): seq<nat>
    decreases |deltas|
  {
    if |deltas| == 0 then out
    else
      var at, len := i + deltas[0], |out| + 1;
      var c, place := n + at / len, at % len;
      Meaning(out[..place] + [c] + out[place..], c, place + 1, deltas[1..])
  }

  function Basic(s: seq<CodePoint>): seq<Unit> {
    if |s| == 0 then [] else Basic(s[..|s| - 1]) + (if s[|s| - 1] < 0x80 then [s[|s| - 1]] else [])
  }

  /** Section 3.1: the basic code points, a hyphen if there are any, and the digits. */
  function Joined(basic: seq<Unit>, digits: seq<Unit>): seq<Unit> {
    if |basic| > 0 then basic + [0x2D] + digits else digits
  }

  predicate Spelling(digits: seq<Unit>) { forall c <- digits :: 0x61 <= c <= 0x7A || 0x30 <= c <= 0x39 }

  /** RFC 2781: the code point of two surrogates. */
  lemma PairStands(lead: Unit, trail: Unit)
    requires IsLead(lead) && IsTrail(trail)
    ensures Ucs2Decode([lead, trail]) == [0x10000 + (lead as int - 0xD800) * 1024 + (trail as int - 0xDC00)]
  {
    assert [lead, trail][2..] == [];
    assert lead as int % 0x400 == lead as int - 0xD800 && trail as int % 0x400 == trail as int - 0xDC00;
  }

  // ------------------------------------------------- division as the model writes it

  lemma QuotientIs(x: nat, d: nat)
    requires d > 0
    ensures Quotient(x, d) == x / d && Remainder(x, d) == x % d
  {
    QuotientIsFloor(x, d);
    RemainderRest(x, d);
    Unique(x, d, Quotient(x, d), x - Quotient(x, d) * d);
  }

  lemma {:induction false} RemainderRest(x: nat, d: nat)
    requires d > 0
    ensures x == Quotient(x, d) * d + Remainder(x, d)
    decreases x
  {
    if x >= d {
      RemainderRest(x - d, d);
      Distribute(Quotient(x - d, d), 1, d);
    }
  }

  lemma Unique(x: nat, d: nat, q: nat, r: nat)
    requires d > 0 && x == q * d + r && r < d
    ensures q == x / d && r == x % d
  {
    var q', r' := x / d, x % d;
    assert x == q' * d + r' && r' < d;
    if q < q' {
      ProductGrows(q + 1, q', d);
      Distribute(q, 1, d);
    } else if q > q' {
      ProductGrows(q' + 1, q, d);
      Distribute(q', 1, d);
    }
  }

  lemma {:induction false} ReducedIs(delta: nat, k: nat)
    ensures AdaptLoop(delta, k) == Reduced(delta, k)
    decreases delta
  {
    if delta > 455 { ReducedIs(delta / 35, k + 36); }
  }

  lemma BiasIs(delta: nat, points: nat, first: bool)
    requires points > 0
    ensures Adapt(delta, points, first) == Bias(delta, points, first)
  {
    var d := if first then delta / 700 else delta / 2;
    QuotientIs(d, points);
    ReducedIs(d + d / points, 0);
  }

  // ------------------------------------------------- the encoder

  /** The digits written for `q` stand for it. */
  lemma {:induction false} DigitsStand(q: nat, rest: seq<Unit>, w: nat, k: nat, bias: nat)
    requires w > 0
    ensures q * w >= 0 && Numeral(Digits(q, k, bias) + rest, w, k, bias) == Some((q * w, rest))
    decreases q
  {
    var t, x := Threshold(k, bias), Digits(q, k, bias) + rest;
    Product(q, w);
    if q < t {
      assert x[1..] == rest;
    } else {
      var high, w' := High(q, t), w * (36 - t);
      Product(w, 36 - t);
      DigitsStand(high, rest, w', k + 36, bias);
      assert x[1..] == Digits(high, k + 36, bias) + rest;
      DigitSplit(q, t, w);
      NumeralStep(x, w, k, bias, Low(q, t), high * w', rest, q * w, w');
    }
  }

  lemma NumeralStep(x: seq<Unit>, w: nat, k: nat, bias: nat, digit: nat, more: nat, rest: seq<Unit>, value: nat, w': nat)
    requires |x| > 0 && DigitOf(x[0]) == Some(digit) && digit >= T(k, bias) && w' == w * (36 - T(k, bias))
    requires Numeral(x[1..], w', k + 36, bias) == Some((more, rest)) && value == digit * w + more
    ensures Numeral(x, w, k, bias) == Some((value, rest))
  {
  }

  lemma {:induction false} DigitsSpell(q: nat, k: nat, bias: nat)
    ensures Spelling(Digits(q, k, bias))
    decreases q
  {
    var t := Threshold(k, bias);
    if q >= t { DigitsSpell(High(q, t), k + 36, bias); }
  }

  lemma IntegersStep(x: seq<Unit>, len: nat, bias: nat, first: bool, delta: nat, rest: seq<Unit>, more: seq<nat>)
    requires |x| > 0 && Numeral(x, 1, 36, bias) == Some((delta, rest))
    requires Integers(rest, len + 1, Bias(delta, len + 1, first), false) == Some(more)
    ensures Integers(x, len, bias, first) == Some([delta] + more)
  {
  }

  lemma MeaningStep(out: seq<nat>, n: nat, i: nat, delta: nat, c: nat, place: nat, deltas: seq<nat>)
    requires c == n + (i + delta) / (|out| + 1) && place == (i + delta) % (|out| + 1)
    ensures place <= |out| && Meaning(out, n, i, [delta] + deltas)
                           == Meaning(out[..place] + [c] + out[place..], c, place + 1, deltas)
  {
    assert ([delta] + deltas)[1..] == deltas;
  }

  lemma IntegersCons(q: nat, rest: seq<Unit>, len: nat, bias: nat, first: bool, deltas: seq<nat>)
    requires Integers(rest, len + 1, Adapt(q, len + 1, first), false) == Some(deltas)
    ensures Integers(Digits(q, 36, bias) + rest, len, bias, first) == Some([q] + deltas)
  {
    DigitsStand(q, rest, 1, 36, bias);
    BiasIs(q, len + 1, first);
    IntegersStep(Digits(q, 36, bias) + rest, len, bias, first, q, rest, deltas);
  }

  /** One walk: from `i`, as many laps as `c` is above `n`, and on to the place. */
  lemma MeaningCons(out: seq<CodePoint>, n: nat, i: nat, c: CodePoint, place: nat, deltas: seq<nat>, delta: nat)
    requires place <= |out| && n <= c && i + delta == Laps(c - n, |out| + 1) + place
    ensures Meaning(out, n, i, [delta] + deltas) == Meaning(InsertAt(out, place, c), c, place + 1, deltas)
  {
    QuotientRemainder(c - n, |out| + 1, place);
    QuotientIs(i + delta, |out| + 1);
    MeaningStep(out, n, i, delta, c, place, deltas);
  }

  lemma MeaningEmit(s: seq<CodePoint>, j: nat, i: nat, deltas: seq<nat>)
    requires j < |s| && s[j] >= 128 && StepIndex(s, j) >= i
    ensures Meaning(Kept(s, s[j], j, |s|), Latest(s, s[j], j, |s|), i, [StepIndex(s, j) - i] + deltas)
         == Meaning(Kept(s, s[j], j + 1, |s|), s[j], Place(s, j) + 1, deltas)
  {
    KeptCount(s, j, |s|);
    KeptInsert(s, j, |s|);
    MeaningCons(Kept(s, s[j], j, |s|), Latest(s, s[j], j, |s|), i, s[j], Place(s, j), deltas, StepIndex(s, j) - i);
  }

  lemma {:induction false} RestStands(s: seq<CodePoint>, n: int, j: nat, i: nat, bias: nat) returns (deltas: seq<nat>)
    requires InStep(s, n, j, i) && EncodeRest(s, n, j, i, bias).Ok?
    requires i == 0 <==> |Kept(s, n, j, |s|)| == |BasicPoints(s)|
    ensures var digits := EncodeRest(s, n, j, i, bias).value;
      Spelling(digits) && Integers(digits, |Kept(s, n, j, |s|)|, bias, i == 0) == Some(deltas)
    ensures Meaning(Kept(s, n, j, |s|), Latest(s, n, j, |s|), i, deltas) == s
    decreases MAX_POINT - n, |s| - j
  {
    if j < |s| && s[j] == n {
      deltas := EmitStands(s, j, i, bias);
    } else if j < |s| {
      Pass(s, n, j, i);
      deltas := RestStands(s, n, j + 1, i, bias);
    } else if |Kept(s, n, j, |s|)| == |s| {
      deltas := [];
      KeptAll(s, n, j, |s|);
      assert s[..|s|] == s;
    } else {
      Skip(s, n, i);
      deltas := RestStands(s, SmallestFrom(s, n + 1, |s|), 0, i, bias);
    }
  }

  lemma {:induction false} EmitStands(s: seq<CodePoint>, j: nat, i: nat, bias: nat) returns (deltas: seq<nat>)
    requires j < |s| && InStep(s, s[j], j, i) && EncodeRest(s, s[j], j, i, bias).Ok?
    requires i == 0 <==> |Kept(s, s[j], j, |s|)| == |BasicPoints(s)|
    ensures var digits := EncodeRest(s, s[j], j, i, bias).value;
      Spelling(digits) && Integers(digits, |Kept(s, s[j], j, |s|)|, bias, i == 0) == Some(deltas)
    ensures Meaning(Kept(s, s[j], j, |s|), Latest(s, s[j], j, |s|), i, deltas) == s
    decreases MAX_POINT - s[j], |s| - j, 0
  {
    var len, delta := |Kept(s, s[j], j, |s|)|, StepIndex(s, j) - i;
    EncodesOne(s, j, i, bias);
    StillInStep(s, j);
    KeptCount(s, j, |s|);
    var bias' := Adapt(delta, len + 1, i == 0);
    var more := RestStands(s, s[j], j + 1, Place(s, j) + 1, bias');
    deltas := [delta] + more;
    DigitsSpell(delta, 36, bias);
    IntegersCons(delta, EncodeRest(s, s[j], j + 1, Place(s, j) + 1, bias').value, len, bias, i == 0, more);
    MeaningEmit(s, j, i, more);
  }

  lemma {:induction false} BasicIs(s: seq<CodePoint>, k: nat)
    requires k <= |s|
    ensures Kept(s, 128, 0, k) == Basic(s[..k])
  {
    if k > 0 {
      BasicIs(s, k - 1);
      assert s[..k][..k - 1] == s[..k - 1];
    }
  }

  /** Whatever is encoded is a Punycode string of the standard, and it stands for the input. */
  lemma EncodesByStandard(s: seq<CodePoint>) returns (digits: seq<Unit>, deltas: seq<nat>)
    requires EncodePoints(s).Ok?
    ensures EncodePoints(s).value == Joined(Basic(s), digits) && Spelling(digits)
    ensures Integers(digits, |Basic(s)|, 72, true) == Some(deltas) && Meaning(Basic(s), 128, 0, deltas) == s
  {
    BasicIs(s, |s|);
    assert s[..|s|] == s;
    LatestStart(s, |s|);
    digits := EncodeRest(s, 128, 0, 0, 72).value;
    deltas := RestStands(s, 128, 0, 0, 72);
    assert [] + digits == digits;
  }

  // ------------------------------------------------- the decoder

  lemma DigitIs(c: Unit)
    ensures DigitOf(c).Some? ==> BasicToDigit(c) == DigitOf(c).value
  {
  }

  lemma {:induction false} ReadsNumeral(x: seq<Unit>, i: nat, w: nat, k: nat, bias: nat)
    requires w > 0 && (forall c <- x :: DigitOf(c).Some?) && ReadInt(x, i, w, k, bias).Ok?
    ensures var (i', rest) := ReadInt(x, i, w, k, bias).value;
      Numeral(x, w, k, bias) == Some((i' - i, rest)) && |rest| <= |x| && rest == x[|x| - |rest|..]
    decreases |x|
  {
    var t := Threshold(k, bias);
    assert x[0] in x;
    DigitIs(x[0]);
    var digit := BasicToDigit(x[0]);
    if digit >= t {
      Product(digit, w);
      Product(w, 36 - t);
      ReadsNumeral(x[1..], i + digit * w, w * (36 - t), k + 36, bias);
    }
  }

  /** From `d`, the walk to `i'` leads to `d'`. */
  ghost predicate Inserted(d: Decoder, i': nat, d': Decoder)
    requires i' >= d.i
  {
    var len := |d.out| + 1;
    && d'.n == d.n + i' / len && d'.i == i' % len + 1 && d'.bias == Bias(i' - d.i, len, d.i == 0)
    && d'.out == d.out[..i' % len] + [d'.n] + d.out[i' % len..]
  }

  lemma InsertIs(d: Decoder, i': nat)
    requires i' >= d.i && Insert(d, i').Ok?
    ensures Inserted(d, i', Insert(d, i').value)
  {
    QuotientIs(i', |d.out| + 1);
    BiasIs(i' - d.i, |d.out| + 1, d.i == 0);
  }

  lemma {:induction false} RestDecodes(x: seq<Unit>, d: Decoder) returns (deltas: seq<nat>)
    requires (forall c <- x :: DigitOf(c).Some?) && DecodeRest(x, d).Ok?
    ensures Integers(x, |d.out|, d.bias, d.i == 0) == Some(deltas)
    ensures DecodeRest(x, d) == Ok(Meaning(d.out, d.n, d.i, deltas))
    decreases |x|
  {
    if |x| == 0 { return []; }
    var i', rest, d' := DecodesFirst(x, d);
    var more := RestDecodes(rest, d');
    deltas := [i' - d.i] + more;
    JoinDecoded(x, d, i', rest, d', more, DecodeRest(rest, d'));
  }

  lemma JoinDecoded(x: seq<Unit>, d: Decoder, i': nat, rest: seq<Unit>, d': Decoder, more: seq<nat>, r: Result<seq<nat>>)
    requires |x| > 0 && i' >= d.i && Numeral(x, 1, 36, d.bias) == Some((i' - d.i, rest)) && Inserted(d, i', d')
    requires Integers(rest, |d'.out|, d'.bias, d'.i == 0) == Some(more) && r == Ok(Meaning(d'.out, d'.n, d'.i, more))
    ensures Integers(x, |d.out|, d.bias, d.i == 0) == Some([i' - d.i] + more)
    ensures r == Ok(Meaning(d.out, d.n, d.i, [i' - d.i] + more))
  {
    IntegersStep(x, |d.out|, d.bias, d.i == 0, i' - d.i, rest, more);
    MeaningStep(d.out, d.n, d.i, i' - d.i, d'.n, d'.i - 1, more);
  }

  /** The first integer is read, and its code point inserted. */
  lemma DecodesFirst(x: seq<Unit>, d: Decoder) returns (i': nat, rest: seq<Unit>, d': Decoder)
    requires |x| > 0 && (forall c <- x :: DigitOf(c).Some?) && DecodeRest(x, d).Ok?
    ensures i' >= d.i && Numeral(x, 1, 36, d.bias) == Some((i' - d.i, rest)) && |rest| < |x|
    ensures (forall c <- rest :: DigitOf(c).Some?) && DecodeRest(x, d) == DecodeRest(rest, d')
    ensures Inserted(d, i', d')
  {
    ReadsNumeral(x, d.i, 1, 36, d.bias);
    i', rest := ReadInt(x, d.i, 1, 36, d.bias).value.0, ReadInt(x, d.i, 1, 36, d.bias).value.1;
    InsertIs(d, i');
    d' := Insert(d, i').value;
  }

  /** Whatever is decoded, of letters and digits behind the last hyphen, is what the string stands for. */
  lemma DecodesByStandard(basic: seq<Unit>, digits: seq<Unit>) returns (deltas: seq<nat>)
    requires (forall c <- basic :: c < 0x80) && (forall c <- digits :: DigitOf(c).Some?)
    requires DecodePoints(Joined(basic, digits)).Ok?
    ensures Integers(digits, |basic|, 72, true) == Some(deltas)
    ensures DecodePoints(Joined(basic, digits)).value == Meaning(basic, 128, 0, deltas)
  {
    assert [] + digits == digits;
    SplitsAtDelimiter(basic, digits, Joined(basic, digits));
    deltas := RestDecodes(digits, Decoder(basic, 128, 0, 72));
  }

  lemma {:induction false} ReadFails(x: seq<Unit>, i: nat, w: nat, k: nat, bias: nat)
    requires w > 0 && (forall c <- x :: DigitOf(c).Some?) && ReadInt(x, i, w, k, bias).Err?
    ensures ReadInt(x, i, w, k, bias).error != Overflow ==>
      ReadInt(x, i, w, k, bias).error == InvalidInput && Numeral(x, w, k, bias) == None
    decreases |x|
  {
    if |x| > 0 {
      var t, digit := Threshold(k, bias), BasicToDigit(x[0]);
      assert x[0] in x;
      DigitIs(x[0]);
      if digit >= t && digit <= Quotient(MAX_INT - i, w) && w <= Quotient(MAX_INT, 36 - t) {
        Product(digit, w);
        Product(w, 36 - t);
        ReadFails(x[1..], i + digit * w, w * (36 - t), k + 36, bias);
      }
    }
  }

  lemma {:induction false} RestFails(x: seq<Unit>, d: Decoder)
    requires (forall c <- x :: DigitOf(c).Some?) && DecodeRest(x, d).Err? && DecodeRest(x, d).error != Overflow
    ensures DecodeRest(x, d) == Err(InvalidInput) && Integers(x, |d.out|, d.bias, d.i == 0) == None
    decreases |x|
  {
    var r := ReadInt(x, d.i, 1, 36, d.bias);
    if r.Err? {
      ReadFails(x, d.i, 1, 36, d.bias);
    } else {
      ReadsNumeral(x, d.i, 1, 36, d.bias);
      var (i', rest) := r.value;
      InsertIs(d, i');
      RestFails(rest, Insert(d, i').value);
    }
  }

  /** What is refused is too large, breaks off within an integer, or has a code point that is not basic in front. */
  lemma RefusesByStandard(basic: seq<Unit>, digits: seq<Unit>)
    requires (forall c <- digits :: DigitOf(c).Some?) && DecodePoints(Joined(basic, digits)).Err?
    ensures var e := DecodePoints(Joined(basic, digits)).error;
      && (e == NotBasic <==> exists c <- basic :: c >= 0x80)
      && (e == Overflow || e == NotBasic || (e == InvalidInput && Integers(digits, |basic|, 72, true) == None))
  {
    if forall c <- basic :: c < 0x80 {
      assert [] + digits == digits;
      SplitsAtDelimiter(basic, digits, Joined(basic, digits));
      if DecodePoints(Joined(basic, digits)).error != Overflow { RestFails(digits, Decoder(basic, 128, 0, 72)); }
    } else {
      var j :| 0 <= j < |basic| && basic[j] >= 0x80;
      LastIndexIs(basic, digits);
      assert Joined(basic, digits)[j] == basic[j];
    }
  }

  // ------------------------------------------------- samples

  /** `p` comes next: everything before it in the order of the scan is handled at <n, j>. */
  ghost predicate ComesNext(s: seq<CodePoint>, n: int, j: nat, p: nat) {
    && p < |s| && !Handled(s, n, j, p)
    && forall q :: 0 <= q < |s| && q != p ==> Handled(s, n, j, q) || s[q] > s[p] || (s[q] == s[p] && q > p)
  }

  lemma ScanReaches(s: seq<CodePoint>, n: int, j: nat, i: nat, bias: nat, p: nat)
    requires InStep(s, n, j, i) && ComesNext(s, n, j, p)
    ensures InStep(s, s[p], p, i) && EncodeRest(s, n, j, i, bias) == EncodeRest(s, s[p], p, i, bias)
    ensures Kept(s, s[p], p, |s|) == Kept(s, n, j, |s|) && Latest(s, s[p], p, |s|) == Latest(s, n, j, |s|)
  {
    if s[p] == n {
      PassTo(s, n, j, p, i, bias);
    } else {
      PassTo(s, n, j, |s|, i, bias);
      KeptAll(s, n, |s|, |s|);
      assert !Handled(s, n, |s|, p);
      Skip(s, n, i);
      assert SmallestFrom(s, n + 1, |s|) == s[p];
      PassTo(s, s[p], 0, p, i, bias);
    }
  }

  lemma Emits(s: seq<CodePoint>, p: nat, i: nat, bias: nat, delta: nat, bias': nat)
    requires p < |s| && InStep(s, s[p], p, i) && (i == 0 <==> |Kept(s, s[p], p, |s|)| == |BasicPoints(s)|)
    requires i + delta == StepIndex(s, p) && delta <= MAX_INT
    requires Adapt(delta, |Kept(s, s[p], p, |s|)| + 1, i == 0) == bias'
    ensures InStep(s, s[p], p + 1, Place(s, p) + 1)
    ensures EncodeRest(s, s[p], p, i, bias)
         == Prepend(Digits(delta, 36, bias), EncodeRest(s, s[p], p + 1, Place(s, p) + 1, bias'))
  {
    Emit(s, p, i);
    SameBias(s, p, i, i == 0);
  }

  /** Where the encoder is: `h` code points handled, the last one `latest`. */
  ghost predicate Standing(s: seq<CodePoint>, n: int, j: nat, i: nat, h: nat, latest: nat) {
    && InStep(s, n, j, i) && |Kept(s, n, j, |s|)| == h && Latest(s, n, j, |s|) == latest
    && (i == 0 <==> h == |BasicPoints(s)|)
  }

  lemma StandsNext(s: seq<CodePoint>, p: nat, h: nat)
    requires p < |s| && s[p] >= 128 && |Kept(s, s[p], p, |s|)| == h
    ensures Standing(s, s[p], p + 1, Place(s, p) + 1, h + 1, s[p])
  {
    EmitPlace(s, p);
    StillInStep(s, p);
    KeptCount(s, p, |s|);
  }

  /** One step of the encoder, with its numbers given. */
  lemma EncodesStep(s: seq<CodePoint>, n: int, j: nat, i: nat, bias: nat, h: nat, latest: nat,
                    p: nat, place: nat, delta: nat, bias': nat)
    requires Standing(s, n, j, i, h, latest) && ComesNext(s, n, j, p) && Place(s, p) == place
    requires i + delta == (s[p] - latest) * (h + 1) + place && delta <= MAX_INT && Bias(delta, h + 1, i == 0) == bias'
    ensures Standing(s, s[p], p + 1, place + 1, h + 1, s[p])
    ensures EncodeRest(s, n, j, i, bias)
         == Prepend(Digits(delta, 36, bias), EncodeRest(s, s[p], p + 1, place + 1, bias'))
  {
    ScanReaches(s, n, j, i, bias, p);
    LapsProduct(s[p] - latest, h + 1);
    BiasIs(delta, h + 1, i == 0);
    Emits(s, p, i, bias, delta, bias');
    StandsNext(s, p, h);
  }

  lemma EncodesEnd(s: seq<CodePoint>, n: int, j: nat, i: nat, bias: nat)
    requires InStep(s, n, j, i) && |Kept(s, n, j, |s|)| == |s| && |s| <= MAX_INT
    ensures EncodeRest(s, n, j, i, bias) == Ok([])
  {
    KeptAll(s, n, j, |s|);
    forall q | j <= q < |s| ensures s[q] != n { assert Handled(s, n, j, q); }
    PassTo(s, n, j, |s|, i, bias);
  }

  lemma StandsFirst(s: seq<CodePoint>, h: nat)
    requires |Basic(s)| == h
    ensures Standing(s, 128, 0, 0, h, 128)
  {
    BasicIs(s, |s|);
    assert s[..|s|] == s;
    LatestStart(s, |s|);
  }
}
