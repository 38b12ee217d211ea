/**
  * Two samples, the second one (N) of section 7.1 of RFC 3492: several code points that are not
  * basic, one of them twice.
  */
module PunycodeSamples {
  import opened Basics
  import opened Punycode
  import opened PunycodeStandard

  /** Samples decode to what they were encoded from. */
  lemma DecodesBack(s: seq<CodePoint>, y: seq<Unit>)
    requires EncodePoints(s) == Ok(y) && |s| <= 1927
    ensures DecodePoints(y) == Ok(s)
  {
    PointsRoundTrip(s);
    forall p | 0 <= p < |s| && s[p] >= INITIAL_N ensures StepIndex(s, p) <= MAX_INT { ShortStep(s, p); }
  }

  /** "buecher" with an umlaut: one code point among basic ones. */
  lemma Umlaut(s: seq<CodePoint>)
    requires s == [0x62, 0xFC, 0x63, 0x68, 0x65, 0x72]
    ensures var y := [0x62, 0x63, 0x68, 0x65, 0x72] + [0x2D] + [0x6B, 0x76, 0x61];
      EncodePoints(s) == Ok(y) && DecodePoints(y) == Ok(s)
  {
    UmlautBasic(s);
    StandsFirst(s, 5);
    UmlautNext(s);
    DigitsOfUmlaut();
    EncodesStep(s, 128, 0, 0, 72, 5, 128, 1, 1, 745, 0);
    EncodesEnd(s, 0xFC, 2, 2, 0);
    assert [0x6B, 0x76, 0x61] + [] == [0x6B, 0x76, 0x61];
    DecodesBack(s, [0x62, 0x63, 0x68, 0x65, 0x72] + [0x2D] + [0x6B, 0x76, 0x61]);
  }

  lemma UmlautBasic(s: seq<CodePoint>)
    requires s == [0x62, 0xFC, 0x63, 0x68, 0x65, 0x72]
    ensures Basic(s) == [0x62, 0x63, 0x68, 0x65, 0x72] && BasicPoints(s) == Basic(s)
  {
    BasicIs(s, |s|);
    assert s[..6] == s;
    assert s[..5] == [0x62, 0xFC, 0x63, 0x68, 0x65] && s[..4] == [0x62, 0xFC, 0x63, 0x68];
    assert s[..3] == [0x62, 0xFC, 0x63] && s[..2] == [0x62, 0xFC] && s[..1] == [0x62] && s[..0] == [];
    assert s[..5][..4] == s[..4] && s[..4][..3] == s[..3] && s[..3][..2] == s[..2] && s[..2][..1] == s[..1];
    assert Basic(s[..1]) == [0x62] && Basic(s[..2]) == [0x62] && Basic(s[..3]) == [0x62, 0x63];
    assert Basic(s[..4]) == [0x62, 0x63, 0x68] && Basic(s[..5]) == [0x62, 0x63, 0x68, 0x65];
  }

  lemma UmlautNext(s: seq<CodePoint>)
    requires s == [0x62, 0xFC, 0x63, 0x68, 0x65, 0x72]
    ensures ComesNext(s, 128, 0, 1) && Place(s, 1) == 1 && Bias(745, 6, true) == 0
  {
  }

  lemma DigitsOfUmlaut()
    ensures Digits(745, 36, 72) == [0x6B, 0x76, 0x61]
  {
    assert Digits(0, 108, 72) == [0x61];
    assert Digits(21, 72, 72) == [0x76] + Digits(0, 108, 72);
  }

  // ------------------------------------------------- basic code points first

  lemma {:induction false} KeptJoin(basic: seq<CodePoint>, tail: seq<CodePoint>, s: seq<CodePoint>, n: int, j: nat, k: nat)
    requires s == basic + tail && (forall c <- basic :: c < 0x80) && n >= 128 && k <= |tail|
    ensures Kept(s, n, |basic| + j, |basic| + k) == basic + Kept(tail, n, j, k)
    decreases k
  {
    if k == 0 {
      var j0 := |basic| + j;
      forall q | 0 <= q < |basic| ensures Handled(s, n, j0, q) { assert basic[q] in basic; }
      KeptAll(s, n, j0, |basic|);
      assert s[..|basic|] == basic == basic + [];
    } else {
      KeptJoin(basic, tail, s, n, j, k - 1);
      assert s[|basic| + k - 1] == tail[k - 1];
    }
  }

  lemma PlaceJoin(basic: seq<CodePoint>, tail: seq<CodePoint>, s: seq<CodePoint>, r: nat)
    requires s == basic + tail && (forall c <- basic :: c < 0x80) && r < |tail| && tail[r] >= 128
    ensures Place(s, |basic| + r) == |basic| + Place(tail, r)
  {
    KeptJoin(basic, tail, s, tail[r], r, r);
  }

  lemma {:induction false} BasicJoin(basic: seq<Unit>, tail: seq<CodePoint>, s: seq<CodePoint>)
    requires s == basic + tail && (forall q :: 0 <= q < |basic| ==> basic[q] < 0x80)
    requires forall q :: 0 <= q < |tail| ==> tail[q] >= 0x80
    ensures Basic(s) == basic
    decreases |s|
  {
    if |tail| > 0 {
      assert s[..|s| - 1] == basic + tail[..|tail| - 1];
      BasicJoin(basic, tail[..|tail| - 1], s[..|s| - 1]);
    } else if |basic| > 0 {
      assert s[..|s| - 1] == basic[..|basic| - 1] + [];
      BasicJoin(basic[..|basic| - 1], [], s[..|s| - 1]);
      assert basic == basic[..|basic| - 1] + [basic[|basic| - 1]];
    }
  }

  lemma NextJoin(basic: seq<CodePoint>, tail: seq<CodePoint>, s: seq<CodePoint>, n: int, j: nat, j': nat, r: nat)
    requires s == basic + tail && (forall c <- basic :: c < 0x80) && n >= 128 && ComesNext(tail, n, j', r)
    requires j == |basic| + j' || (j == j' == 0 && forall c <- tail :: c > n)
    ensures ComesNext(s, n, j, |basic| + r)
  {
    forall q | 0 <= q < |s| && q != |basic| + r
      ensures Handled(s, n, j, q) || s[q] > s[|basic| + r] || (s[q] == s[|basic| + r] && q > |basic| + r)
    {
      if q < |basic| {
        assert basic[q] in basic;
      } else {
        assert s[q] == tail[q - |basic|] && tail[q - |basic|] in tail;
        assert Handled(tail, n, j', q - |basic|) ==> Handled(s, n, j, q);
      }
    }
    assert tail[r] in tail;
  }

  // ------------------------------------------------- sample (N)

  /** One digit of an integer, with its numbers given. */
  lemma OneDigit(q: nat, k: nat, bias: nat, low: nat, high: nat, rest: seq<Unit>)
    requires T(k, bias) <= low < 36 && q == low + high * (36 - T(k, bias)) && rest == Digits(high, k + 36, bias)
    ensures Digits(q, k, bias) == [DigitToBasic(low)] + rest
  {
    var t := T(k, bias);
    Product(high, 36 - t);
    Unique(q - t, 36 - t, high, low - t);
  }

  ghost predicate Sample(basic: seq<Unit>, tail: seq<CodePoint>, s: seq<CodePoint>) {
    && basic == [0x48, 0x65, 0x6C, 0x6C, 0x6F, 0x2D, 0x41, 0x6E, 0x6F, 0x74, 0x68, 0x65, 0x72, 0x2D, 0x57, 0x61, 0x79, 0x2D]
    && tail == [0x305D, 0x308C, 0x305E, 0x308C, 0x306E, 0x5834, 0x6240]
    && s == basic + tail
  }

  lemma Digits1(bias: nat)
    requires bias == 72
    ensures Digits(232825, 36, bias) == [0x66, 0x63, 0x34, 0x71]
  {
    assert Digits(16, 144, bias) == [0x71];
    OneDigit(190, 108, bias, 30, 16, Digits(16, 144, bias));
    OneDigit(6652, 72, bias, 2, 190, Digits(190, 108, bias));
    OneDigit(232825, 36, bias, 5, 6652, Digits(6652, 72, bias));
  }

  lemma Bias1(delta: nat, points: nat)
    requires delta == 232825 && points == 19
    ensures Bias(delta, points, true) == 32
  {
    assert Reduced(349, 0) == 32;
  }

  lemma Next1(tail: seq<CodePoint>, c: CodePoint)
    requires tail == [0x305D, 0x308C, 0x305E, 0x308C, 0x306E, 0x5834, 0x6240] && c == 0x305D
    ensures ComesNext(tail, 0x80, 0, 0) && Place(tail, 0) == 0
  {
  }

  lemma Step1(basic: seq<Unit>, tail: seq<CodePoint>, s: seq<CodePoint>)
    requires Sample(basic, tail, s) && Standing(s, 0x80, 0, 0, 18, 0x80)
    ensures Standing(s, 0x305D, 19, 19, 19, 0x305D)
    ensures EncodeRest(s, 0x80, 0, 0, 72) == Prepend([0x66, 0x63, 0x34, 0x71], EncodeRest(s, 0x305D, 19, 19, 32))
  {
    Next1(tail, 0x305D);
    NextJoin(basic, tail, s, 0x80, 0, 0, 0);
    PlaceJoin(basic, tail, s, 0);
    Bias1(232825, 19);
    Digits1(72);
    EncodesStep(s, 0x80, 0, 0, 72, 18, 0x80, 18, 18, 232825, 32);
  }

  lemma Digits2(bias: nat)
    requires bias == 32
    ensures Digits(20, 36, bias) == [0x75, 0x61]
  {
    assert Digits(0, 72, bias) == [0x61];
    OneDigit(20, 36, bias, 20, 0, Digits(0, 72, bias));
  }

  lemma Bias2(delta: nat, points: nat)
    requires delta == 20 && points == 20
    ensures Bias(delta, points, false) == 7
  {
    assert Reduced(10, 0) == 7;
  }

  lemma Next2(tail: seq<CodePoint>, c: CodePoint)
    requires tail == [0x305D, 0x308C, 0x305E, 0x308C, 0x306E, 0x5834, 0x6240] && c == 0x305E
    ensures ComesNext(tail, 0x305D, 1, 2) && Place(tail, 2) == 1
  {
    assert |Kept(tail, c, 2, 1)| == 1;
    assert |Kept(tail, c, 2, 2)| == 1;
  }

  lemma Step2(basic: seq<Unit>, tail: seq<CodePoint>, s: seq<CodePoint>)
    requires Sample(basic, tail, s) && Standing(s, 0x305D, 19, 19, 19, 0x305D)
    ensures Standing(s, 0x305E, 21, 20, 20, 0x305E)
    ensures EncodeRest(s, 0x305D, 19, 19, 32) == Prepend([0x75, 0x61], EncodeRest(s, 0x305E, 21, 20, 7))
  {
    Next2(tail, 0x305E);
    NextJoin(basic, tail, s, 0x305D, 19, 1, 2);
    PlaceJoin(basic, tail, s, 2);
    Bias2(20, 20);
    Digits2(32);
    EncodesStep(s, 0x305D, 19, 19, 32, 19, 0x305D, 20, 19, 20, 7);
  }

  lemma Digits3(bias: nat)
    requires bias == 7
    ensures Digits(336, 36, bias) == [0x30, 0x35, 0x61]
  {
    assert Digits(0, 108, bias) == [0x61];
    OneDigit(31, 72, bias, 31, 0, Digits(0, 108, bias));
    OneDigit(336, 36, bias, 26, 31, Digits(31, 72, bias));
  }

  lemma Bias3(delta: nat, points: nat)
    requires delta == 336 && points == 21
    ensures Bias(delta, points, false) == 29
  {
    assert Reduced(176, 0) == 29;
  }

  lemma Next3(tail: seq<CodePoint>, c: CodePoint)
    requires tail == [0x305D, 0x308C, 0x305E, 0x308C, 0x306E, 0x5834, 0x6240] && c == 0x306E
    ensures ComesNext(tail, 0x305E, 3, 4) && Place(tail, 4) == 2
  {
    assert |Kept(tail, c, 4, 1)| == 1;
    assert |Kept(tail, c, 4, 2)| == 1;
    assert |Kept(tail, c, 4, 3)| == 2;
    assert |Kept(tail, c, 4, 4)| == 2;
  }

  lemma Step3(basic: seq<Unit>, tail: seq<CodePoint>, s: seq<CodePoint>)
    requires Sample(basic, tail, s) && Standing(s, 0x305E, 21, 20, 20, 0x305E)
    ensures Standing(s, 0x306E, 23, 21, 21, 0x306E)
    ensures EncodeRest(s, 0x305E, 21, 20, 7) == Prepend([0x30, 0x35, 0x61], EncodeRest(s, 0x306E, 23, 21, 29))
  {
    Next3(tail, 0x306E);
    NextJoin(basic, tail, s, 0x305E, 21, 3, 4);
    PlaceJoin(basic, tail, s, 4);
    Bias3(336, 21);
    Digits3(7);
    EncodesStep(s, 0x305E, 21, 20, 7, 20, 0x305E, 22, 20, 336, 29);
  }

  lemma Digits4(bias: nat)
    requires bias == 29
    ensures Digits(658, 36, bias) == [0x75, 0x77]
  {
    assert Digits(22, 72, bias) == [0x77];
    OneDigit(658, 36, bias, 20, 22, Digits(22, 72, bias));
  }

  lemma Bias4(delta: nat, points: nat)
    requires delta == 658 && points == 22
    ensures Bias(delta, points, false) == 32
  {
    assert Reduced(343, 0) == 32;
  }

  lemma Next4(tail: seq<CodePoint>, c: CodePoint)
    requires tail == [0x305D, 0x308C, 0x305E, 0x308C, 0x306E, 0x5834, 0x6240] && c == 0x308C
    ensures ComesNext(tail, 0x306E, 5, 1) && Place(tail, 1) == 1
  {
    assert |Kept(tail, c, 1, 1)| == 1;
  }

  lemma Step4(basic: seq<Unit>, tail: seq<CodePoint>, s: seq<CodePoint>)
    requires Sample(basic, tail, s) && Standing(s, 0x306E, 23, 21, 21, 0x306E)
    ensures Standing(s, 0x308C, 20, 20, 22, 0x308C)
    ensures EncodeRest(s, 0x306E, 23, 21, 29) == Prepend([0x75, 0x77], EncodeRest(s, 0x308C, 20, 20, 32))
  {
    Next4(tail, 0x308C);
    NextJoin(basic, tail, s, 0x306E, 23, 5, 1);
    PlaceJoin(basic, tail, s, 1);
    Bias4(658, 22);
    Digits4(29);
    EncodesStep(s, 0x306E, 23, 21, 29, 21, 0x306E, 19, 19, 658, 32);
  }

  lemma Digits5(bias: nat)
    requires bias == 32
    ensures Digits(1, 36, bias) == [0x62]
  {
    assert Digits(1, 36, bias) == [0x62];
  }

  lemma Bias5(delta: nat, points: nat)
    requires delta == 1 && points == 23
    ensures Bias(delta, points, false) == 0
  {
    assert Reduced(0, 0) == 0;
  }

  lemma Next5(tail: seq<CodePoint>, c: CodePoint)
    requires tail == [0x305D, 0x308C, 0x305E, 0x308C, 0x306E, 0x5834, 0x6240] && c == 0x308C
    ensures ComesNext(tail, 0x308C, 2, 3) && Place(tail, 3) == 3
  {
    assert |Kept(tail, c, 3, 1)| == 1;
    assert |Kept(tail, c, 3, 2)| == 2;
    assert |Kept(tail, c, 3, 3)| == 3;
  }

  lemma Step5(basic: seq<Unit>, tail: seq<CodePoint>, s: seq<CodePoint>)
    requires Sample(basic, tail, s) && Standing(s, 0x308C, 20, 20, 22, 0x308C)
    ensures Standing(s, 0x308C, 22, 22, 23, 0x308C)
    ensures EncodeRest(s, 0x308C, 20, 20, 32) == Prepend([0x62], EncodeRest(s, 0x308C, 22, 22, 0))
  {
    Next5(tail, 0x308C);
    NextJoin(basic, tail, s, 0x308C, 20, 2, 3);
    PlaceJoin(basic, tail, s, 3);
    Bias5(1, 23);
    Digits5(32);
    EncodesStep(s, 0x308C, 20, 20, 32, 22, 0x308C, 21, 21, 1, 0);
  }

  lemma Digits6(bias: nat)
    requires bias == 0
    ensures Digits(243649, 36, bias) == [0x33, 0x36, 0x37, 0x34, 0x76]
  {
    assert Digits(21, 180, bias) == [0x76];
    OneDigit(240, 144, bias, 30, 21, Digits(21, 180, bias));
    OneDigit(2433, 108, bias, 33, 240, Digits(240, 144, bias));
    OneDigit(24362, 72, bias, 32, 2433, Digits(2433, 108, bias));
    OneDigit(243649, 36, bias, 29, 24362, Digits(24362, 72, bias));
  }

  lemma Bias6(delta: nat, points: nat)
    requires delta == 243649 && points == 24
    ensures Bias(delta, points, false) == 98
  {
    assert Reduced(103, 72) == 98;
    assert Reduced(3625, 36) == 98;
    assert Reduced(126900, 0) == 98;
  }

  lemma Next6(tail: seq<CodePoint>, c: CodePoint)
    requires tail == [0x305D, 0x308C, 0x305E, 0x308C, 0x306E, 0x5834, 0x6240] && c == 0x5834
    ensures ComesNext(tail, 0x308C, 4, 5) && Place(tail, 5) == 5
  {
    assert |Kept(tail, c, 5, 1)| == 1;
    assert |Kept(tail, c, 5, 2)| == 2;
    assert |Kept(tail, c, 5, 3)| == 3;
    assert |Kept(tail, c, 5, 4)| == 4;
    assert |Kept(tail, c, 5, 5)| == 5;
  }

  lemma Step6(basic: seq<Unit>, tail: seq<CodePoint>, s: seq<CodePoint>)
    requires Sample(basic, tail, s) && Standing(s, 0x308C, 22, 22, 23, 0x308C)
    ensures Standing(s, 0x5834, 24, 24, 24, 0x5834)
    ensures EncodeRest(s, 0x308C, 22, 22, 0) == Prepend([0x33, 0x36, 0x37, 0x34, 0x76], EncodeRest(s, 0x5834, 24, 24, 98))
  {
    Next6(tail, 0x5834);
    NextJoin(basic, tail, s, 0x308C, 22, 4, 5);
    PlaceJoin(basic, tail, s, 5);
    Bias6(243649, 24);
    Digits6(0);
    EncodesStep(s, 0x308C, 22, 22, 0, 23, 0x308C, 23, 23, 243649, 98);
  }

  lemma Digits7(bias: nat)
    requires bias == 98
    ensures Digits(64300, 36, bias) == [0x66, 0x72, 0x30, 0x62]
  {
    assert Digits(1, 144, bias) == [0x62];
    OneDigit(52, 108, bias, 26, 1, Digits(1, 144, bias));
    OneDigit(1837, 72, bias, 17, 52, Digits(52, 108, bias));
    OneDigit(64300, 36, bias, 5, 1837, Digits(1837, 72, bias));
  }

  lemma Bias7(delta: nat, points: nat)
    requires delta == 64300 && points == 25
    ensures Bias(delta, points, false) == 86
  {
    assert Reduced(27, 72) == 86;
    assert Reduced(955, 36) == 86;
    assert Reduced(33436, 0) == 86;
  }

  lemma Next7(tail: seq<CodePoint>, c: CodePoint)
    requires tail == [0x305D, 0x308C, 0x305E, 0x308C, 0x306E, 0x5834, 0x6240] && c == 0x6240
    ensures ComesNext(tail, 0x5834, 6, 6) && Place(tail, 6) == 6
  {
    assert |Kept(tail, c, 6, 1)| == 1;
    assert |Kept(tail, c, 6, 2)| == 2;
    assert |Kept(tail, c, 6, 3)| == 3;
    assert |Kept(tail, c, 6, 4)| == 4;
    assert |Kept(tail, c, 6, 5)| == 5;
    assert |Kept(tail, c, 6, 6)| == 6;
  }

  lemma Step7(basic: seq<Unit>, tail: seq<CodePoint>, s: seq<CodePoint>)
    requires Sample(basic, tail, s) && Standing(s, 0x5834, 24, 24, 24, 0x5834)
    ensures Standing(s, 0x6240, 25, 25, 25, 0x6240)
    ensures EncodeRest(s, 0x5834, 24, 24, 98) == Prepend([0x66, 0x72, 0x30, 0x62], EncodeRest(s, 0x6240, 25, 25, 86))
  {
    Next7(tail, 0x6240);
    NextJoin(basic, tail, s, 0x5834, 24, 6, 6);
    PlaceJoin(basic, tail, s, 6);
    Bias7(64300, 25);
    Digits7(98);
    EncodesStep(s, 0x5834, 24, 24, 98, 24, 0x5834, 24, 24, 64300, 86);
  }

  /** A text in two scripts, with one code point twice. */
  lemma TwoScripts(basic: seq<Unit>, tail: seq<CodePoint>, s: seq<CodePoint>)
    requires Sample(basic, tail, s)
    ensures var y := basic + [0x2D] + [0x66, 0x63, 0x34, 0x71, 0x75, 0x61, 0x30, 0x35, 0x61, 0x75, 0x77, 0x62]
                   + [0x33, 0x36, 0x37, 0x34, 0x76, 0x66, 0x72, 0x30, 0x62];
      EncodePoints(s) == Ok(y) && DecodePoints(y) == Ok(s)
  {
    BasicJoin(basic, tail, s);
    BasicIs(s, |s|);
    assert s[..|s|] == s;
    StandsFirst(s, 18);
    Step1(basic, tail, s);
    Step2(basic, tail, s);
    Step3(basic, tail, s);
    Step4(basic, tail, s);
    Step5(basic, tail, s);
    Step6(basic, tail, s);
    Step7(basic, tail, s);
    EncodesEnd(s, 0x6240, 25, 25, 86);
    var first, second := [0x66, 0x63, 0x34, 0x71, 0x75, 0x61, 0x30, 0x35, 0x61, 0x75, 0x77, 0x62],
                         [0x33, 0x36, 0x37, 0x34, 0x76, 0x66, 0x72, 0x30, 0x62];
    var digits := [0x66, 0x63, 0x34, 0x71] + ([0x75, 0x61] + ([0x30, 0x35, 0x61] + ([0x75, 0x77] + ([0x62]
                  + ([0x33, 0x36, 0x37, 0x34, 0x76] + ([0x66, 0x72, 0x30, 0x62] + []))))));
    assert EncodeRest(s, 128, 0, 0, 72) == Ok(digits);
    assert digits == first + second;
    assert basic + [0x2D] + digits == basic + [0x2D] + first + second;
    DecodesBack(s, basic + [0x2D] + first + second);
  }
}
