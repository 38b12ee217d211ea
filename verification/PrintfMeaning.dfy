/**
  * What a directive prints, said of the rendered text: the number as its digits represent it, its
  * sign, and how it stands in its field.
  */
module PrintfMeaning {
  import opened Basics
  import opened Printf

  // ------------------------------------------------------ directives as they are written

  datatype Qualifier = NoQualifier | Half | Long

  /** Flags, width (0 for none), precision, qualifier and conversion. */
  datatype Spec = Spec(flags: string, width: nat, precision: Option<nat>, qualifier: Qualifier, conversion: char)

  predicate IsFlag(c: char) { c == '-' || c == '+' || c == ' ' || c == '#' || c == '0' }

  predicate IsConversion(c: char) {
    c == 'd' || c == 'i' || c == 'u' || c == 'x' || c == 'X' || c == 'o' || c == 'c' || c == 's' || c == 'p' || c == '%'
  }

  predicate Proper(s: Spec) { (forall c <- s.flags :: IsFlag(c)) && IsConversion(s.conversion) }

  function WidthText(s: Spec): string { if s.width == 0 then [] else Digits(s.width, 10, false) }

  function PrecisionText(s: Spec): string {
    if s.precision.None? then [] else ['.'] + Digits(s.precision.value, 10, false)
  }

  function QualifierText(s: Spec): string {
    match s.qualifier case NoQualifier => [] case Half => ['h'] case Long => ['l']
  }

  function Directive(s: Spec, rest: string): string {
    ['%'] + (s.flags + (WidthText(s) + (PrecisionText(s) + (QualifierText(s) + ([s.conversion] + rest)))))
  }

  function FlagsOf(fs: string): Flags { Flags('0' in fs, false, '+' in fs, ' ' in fs, '-' in fs, false) }

  function PrecisionOf(s: Spec): int { if s.precision.None? then -1 else s.precision.value }

  /** The directive as it is understood. */
  function Understood(s: Spec, rest: string, args: seq<Arg>): Parsed {
    Parsed(FlagsOf(s.flags), if s.width == 0 then -1 else s.width, PrecisionOf(s), s.qualifier.Half?,
           [s.conversion] + rest, args)
  }

  function Join(f: Flags, g: Flags): Flags {
    Flags(f.zeropad || g.zeropad, f.sign || g.sign, f.plus || g.plus, f.space || g.space, f.left || g.left,
          f.large || g.large)
  }

  lemma {:induction false} ReadsFlags(fs: string, rest: string, f: Flags)
    requires (forall c <- fs :: IsFlag(c)) && |rest| > 0 && !IsFlag(rest[0])
    ensures Printf.ReadFlags(fs + rest, f) == (Join(f, FlagsOf(fs)), rest)
    decreases |fs|
  {
    if |fs| == 0 {
      assert fs + rest == rest;
    } else {
      assert fs[0] in fs && (fs + rest)[1..] == fs[1..] + rest;
      assert forall c :: c in fs <==> c == fs[0] || c in fs[1..];
      ReadsFlags(fs[1..], rest, Join(f, FlagsOf([fs[0]])));
    }
  }

  /** A number has no zero in front. */
  lemma {:induction false} NoLeadingZero(n: nat, base: nat, large: bool)
    ensures n > 0 ==> Digits(n, base, large)[0] != '0'
    ensures n == 0 ==> Digits(n, base, large) == ['0']
    decreases n
  {
    if n >= Radix(base) { NoLeadingZero(Printf.Quotient(n, base), base, large); }
  }

  lemma ReadsWidth(s: Spec, rest: string, f: Flags, args: seq<Arg>)
    requires |rest| > 0 && !IsDigit(rest) && rest[0] != '*'
    ensures ReadWidth(WidthText(s) + rest, f, args)
         == Parsed(f, if s.width == 0 then -1 else s.width, -1, false, rest, args)
    ensures !IsFlag(rest[0]) ==> !IsFlag((WidthText(s) + rest)[0])
  {
    if s.width == 0 {
      assert [] + rest == rest;
    } else {
      NoLeadingZero(s.width, 10, false);
      DigitsDecimal(s.width);
      WidthReads(s.width, rest);
    }
  }

  lemma ReadsPrecision(s: Spec, rest: string, p: Parsed)
    requires |rest| > 0 && !IsDigit(rest) && rest[0] != '.' && p.fmt == PrecisionText(s) + rest && p.precision == -1
    ensures ReadPrecision(p) == p.(precision := PrecisionOf(s), fmt := rest)
  {
    if s.precision.None? {
      assert [] + rest == rest;
    } else {
      var ds := Digits(s.precision.value, 10, false);
      DigitsDecimal(s.precision.value);
      WidthReads(s.precision.value, rest);
      assert (['.'] + ds + rest)[1..] == ds + rest;
    }
  }

  lemma ReadsQualifier(s: Spec, rest: string, p: Parsed)
    requires |rest| > 0 && rest[0] != 'h' && rest[0] != 'l' && p.fmt == QualifierText(s) + rest && !p.short
    ensures ReadQualifier(p) == p.(short := s.qualifier.Half?, fmt := rest)
  {
    assert s.qualifier.NoQualifier? ==> [] + rest == rest;
    assert (['h'] + rest)[1..] == rest && (['l'] + rest)[1..] == rest;
  }

  /** What is written in the format is what is read from it. */
  lemma ReadsSpec(s: Spec, rest: string, args: seq<Arg>)
    requires Proper(s)
    ensures ReadDirective(Directive(s, rest)[1..], args) == Understood(s, rest, args)
  {
    var c := [s.conversion] + rest;
    var q := QualifierText(s) + c;
    var p := PrecisionText(s) + q;
    var w := WidthText(s) + p;
    assert Directive(s, rest)[1..] == s.flags + w;
    ReadsWidth(s, p, FlagsOf(s.flags), args);
    ReadsFlags(s.flags, w, NO_FLAGS);
    ReadsPrecision(s, q, Parsed(FlagsOf(s.flags), if s.width == 0 then -1 else s.width, -1, false, p, args));
    ReadsQualifier(s, c, Understood(s, rest, args).(short := false, fmt := q));
  }

  lemma RendersSpec(s: Spec, rest: string, args: seq<Arg>)
    requires Proper(s)
    ensures var p := Understood(s, rest, args);
      Render(Directive(s, rest), args) == Convert(p).0 + Render(rest, if Convert(p).1 then Rest(args) else args)
  {
    ReadsSpec(s, rest, args);
    assert ([s.conversion] + rest)[1..] == rest;
  }

  // ------------------------------------------------------ numbers

  predicate IsSigned(c: char) { c == 'd' || c == 'i' }

  predicate IsInteger(c: char) { IsSigned(c) || c == 'u' || c == 'x' || c == 'X' || c == 'o' }

  function BaseOf(c: char): nat { if c == 'o' then 8 else if c == 'x' || c == 'X' then 16 else 10 }

  /** The number meant by the 32 bits passed: with `h` the low 16 of them, with a sign or without. */
  function Meant(v: int, s: Spec): int {
    var bits := if s.qualifier.Half? then 0x1_0000 else 0x1_0000_0000;
    var low := v % bits;
    if IsSigned(s.conversion) && low >= bits / 2 then low - bits else low
  }

  function Size(n: int): nat { if n < 0 then -n else n }

  function SignOf(n: int, s: Spec): string {
    if !IsSigned(s.conversion) then []
    else if n < 0 then ['-'] else if '+' in s.flags then ['+'] else if ' ' in s.flags then [' '] else []
  }

  /** Letters are in the case of the conversion. */
  predicate InCase(ds: string, large: bool) {
    forall c <- ds :: '0' <= c <= '9' || (if large then 'A' <= c <= 'F' else 'a' <= c <= 'f')
  }

  /** `t` is `sign` and `ds` in a field: blanks in front, or behind with `-`, or none but zeros with `0`. */
  ghost predicate InField(t: string, sign: string, ds: string, flags: string, width: nat) {
    && exists before: nat, after: nat ::
         && t == Repeat(' ', before) + sign + ds + Repeat(' ', after)
         && (if '-' in flags then before == 0 else after == 0)
         && ('0' in flags && '-' !in flags ==> before == 0)
         && (before + after > 0 ==> |t| == width)
  }

  /** `ds` has the digits needed and those of the precision; zeros beyond that only fill the field. */
  ghost predicate DigitsNeeded(ds: string, t: string, precision: int, width: nat) {
    && |ds| >= precision
    && (|ds| > precision && |ds| > 1 && ds[0] == '0' ==> |t| == width)
  }

  /** The two tables of digits. */
  lemma DigitTable(d: nat)
    requires d < 16
    ensures DigitChar(d, false) == "0123456789abcdef"[d] && DigitChar(d, true) == "0123456789ABCDEF"[d]
  {
  }

  lemma InCaseConcat(a: string, b: string, large: bool)
    requires InCase(a, large) && InCase(b, large)
    ensures InCase(a + b, large)
  {
  }

  lemma {:induction false} DigitsInCase(n: nat, base: nat, large: bool)
    ensures InCase(Digits(n, base, large), large)
    decreases n
  {
    if n >= Radix(base) {
      DigitsInCase(Printf.Quotient(n, base), base, large);
      InCaseConcat(Digits(Printf.Quotient(n, base), base, large), [DigitChar(Printf.Remainder(n, base), large)], large);
    }
  }

  lemma ZerosInCase(n: int, large: bool)
    ensures InCase(Repeat('0', n), large)
  {
    RepeatAt('0', n);
  }

  lemma MeantIs(v: int, s: Spec)
    requires IsInteger(s.conversion)
    ensures var num := NumberOf(v, s.qualifier.Half?, IsSigned(s.conversion));
      && Magnitude(num, IsSigned(s.conversion)) == Size(Meant(v, s))
      && (IsSigned(s.conversion) ==> (num < 0 <==> Meant(v, s) < 0))
  {
  }

  function NumberFlags(s: Spec): Flags {
    FlagsOf(s.flags).(sign := IsSigned(s.conversion), large := s.conversion == 'X')
  }

  lemma FieldOf(sign: string, body: string, fill: int, f: Flags, fs: string, width: nat, ds: string, t: string)
    requires f.left == ('-' in fs) && f.zeropad == ('0' in fs) && (fill > 0 ==> |sign| + |body| + fill == width)
    requires ds == FilledDigits(body, fill, f) && t == Layout(sign, body, fill, f)
    ensures InField(t, sign, ds, fs, width) && (|ds| > |body| ==> |t| == width)
  {
    var room: nat := Max(fill, 0);
    if f.left {
      assert [] + body == body && Repeat(' ', 0) + sign + ds + Repeat(' ', room) == t;
    } else if f.zeropad {
      assert Repeat(' ', 0) + sign + ds + Repeat(' ', 0) == t;
    } else {
      assert [] + body == body && Repeat(' ', room) + sign + ds + Repeat(' ', 0) == t;
    }
  }

  lemma BodyOf(n: nat, base: nat, large: bool, precision: int)
    requires precision != 0
    ensures var ds, body := Digits(n, base, large), NumberBody(Digits(n, base, large), precision);
      |body| == Max(|ds|, precision) && InCase(body, large) && (|body| > precision && |body| > 1 ==> body[0] != '0')
  {
    var ds := Digits(n, base, large);
    DigitsInCase(n, base, large);
    ZerosInCase(precision - |ds|, large);
    InCaseConcat(Repeat('0', precision - |ds|), ds, large);
    NoLeadingZero(n, base, large);
  }

  /** A number in its field, with a precision that leaves its digits in. */
  lemma NumberInField(num: int, base: nat, s: Spec, f: Flags) returns (ds: string)
    requires (base == 8 || base == 10 || base == 16) && PrecisionOf(s) != 0
    requires f.left == ('-' in s.flags) && f.zeropad == ('0' in s.flags)
    ensures var t, n := NumberText(num, base, if s.width == 0 then -1 else s.width, PrecisionOf(s), f),
                        Magnitude(num, f.sign);
      && InField(t, SignText(num, f), ds, s.flags, s.width) && InCase(ds, f.large)
      && DigitsNeeded(ds, t, PrecisionOf(s), s.width)
      && (Represents(ds, base, n) <==> base != 8 || n < 8) && (base == 8 ==> Represents(ds, 16, n))
  {
    var width, precision := if s.width == 0 then -1 else s.width, PrecisionOf(s);
    var n := Magnitude(num, f.sign);
    var body := NumberBody(Digits(n, base, f.large), precision);
    var fill := width - |body| - |SignText(num, f)|;
    BodyOf(n, base, f.large, precision);
    ds := NumberDigits(num, base, width, precision, f);
    FieldOf(SignText(num, f), body, fill, f, s.flags, s.width, ds, NumberText(num, base, width, precision, f));
    NumberExact(num, base, width, precision, f);
    if base == 8 { HexDigits(num, width, precision, f); }
    ZerosInCase(if f.zeropad && !f.left then fill else 0, f.large);
    InCaseConcat(Repeat('0', if f.zeropad && !f.left then fill else 0), body, f.large);
    assert |ds| == |body| ==> ds == body;
  }

  lemma ConvertsInteger(s: Spec, rest: string, args: seq<Arg>)
    requires IsInteger(s.conversion)
    ensures var p, f := Understood(s, rest, args), NumberFlags(s);
      Convert(p) == (NumberText(NumberOf(IntOf(args), p.short, f.sign), BaseOf(s.conversion), p.width, p.precision, f), true)
  {
  }

  lemma RendersInteger(s: Spec, v: int, rest: string, args: seq<Arg>) returns (num: int, t: string)
    requires Proper(s) && IsInteger(s.conversion)
    ensures Render(Directive(s, rest), [Int(v)] + args) == t + Render(rest, args)
    ensures t == NumberText(num, BaseOf(s.conversion), if s.width == 0 then -1 else s.width, PrecisionOf(s), NumberFlags(s))
    ensures SignText(num, NumberFlags(s)) == SignOf(Meant(v, s), s)
    ensures Magnitude(num, NumberFlags(s).sign) == Size(Meant(v, s)) && (s.conversion == 'o' ==> Meant(v, s) >= 0)
  {
    var all := [Int(v)] + args;
    RendersSpec(s, rest, all);
    ConvertsInteger(s, rest, all);
    assert Rest(all) == args;
    MeantIs(v, s);
    num := NumberOf(v, s.qualifier.Half?, IsSigned(s.conversion));
    t := Convert(Understood(s, rest, all)).0;
  }

  lemma NoDigits(num: int, base: nat, width: int, f: Flags) returns (before: nat, zeros: nat, after: nat)
    ensures NumberText(num, base, width, 0, f)
         == Repeat(' ', before) + SignText(num, f) + Repeat('0', zeros) + Repeat(' ', after)
  {
    before, after := NumberParts(num, base, width, 0, f);
    var ds := Digits(Magnitude(num, f.sign), base, f.large);
    assert NumberBody(ds, 0) == [];
    var fill := if f.zeropad && !f.left then width - |ds| - |SignText(num, f)| else 0;
    zeros := Max(fill, 0);
    assert Repeat('0', fill) == Repeat('0', zeros) && Repeat('0', fill) + [] == Repeat('0', fill);
  }

  /**
    * What `%d`, `%i`, `%u`, `%x`, `%X` and `%o` print, with any flags, width, precision and qualifier:
    * the sign the flags ask for and the digits of the number meant, in the field. The digits are those
    * of the base asked for, except that `%o` prints hexadecimal ones.
    */
  lemma PrintsInteger(s: Spec, v: int, rest: string, args: seq<Arg>) returns (t: string, ds: string)
    requires Proper(s) && IsInteger(s.conversion) && s.precision != Some(0)
    ensures Render(Directive(s, rest), [Int(v)] + args) == t + Render(rest, args)
    ensures var n := Meant(v, s);
      && InField(t, SignOf(n, s), ds, s.flags, s.width) && InCase(ds, s.conversion == 'X')
      && DigitsNeeded(ds, t, PrecisionOf(s), s.width)
      && (Represents(ds, BaseOf(s.conversion), Size(n)) <==> s.conversion != 'o' || n < 8)
      && (s.conversion == 'o' ==> Represents(ds, 16, Size(n)))
  {
    var num;
    num, t := RendersInteger(s, v, rest, args);
    ds := NumberInField(num, BaseOf(s.conversion), s, NumberFlags(s));
  }

  /** With precision 0 there are no digits but zeros that fill the field. */
  lemma PrintsNoDigits(s: Spec, v: int, rest: string, args: seq<Arg>) returns (t: string, zeros: nat)
    requires Proper(s) && IsInteger(s.conversion) && s.precision == Some(0)
    ensures Render(Directive(s, rest), [Int(v)] + args) == t + Render(rest, args)
    ensures exists before: nat, after: nat ::
      t == Repeat(' ', before) + SignOf(Meant(v, s), s) + Repeat('0', zeros) + Repeat(' ', after)
  {
    var num;
    num, t := RendersInteger(s, v, rest, args);
    var before, after;
    before, zeros, after := NoDigits(num, BaseOf(s.conversion), if s.width == 0 then -1 else s.width, NumberFlags(s));
  }

  /** A directive of two characters. */
  lemma PlainDirective(c: char, rest: string)
    ensures Directive(Spec([], 0, None, NoQualifier, c), rest) == ['%', c] + rest
  {
    var e: string := [];
    assert e + (e + (e + (e + ([c] + rest)))) == [c] + rest;
    assert ['%'] + ([c] + rest) == ['%', c] + rest;
  }

  lemma Unpadded(t: string, sign: string, ds: string)
    requires InField(t, sign, ds, [], 0)
    ensures t == sign + ds
  {
    var before: nat, after: nat :|
      && t == Repeat(' ', before) + sign + ds + Repeat(' ', after) && after == 0 && (before + after > 0 ==> |t| == 0);
    assert before == 0;
    assert Repeat(' ', 0) == [] && [] + sign + ds + [] == sign + ds;
  }

  /** An integer conversion alone: sign and digits, without zeros in front. */
  lemma PrintsPlain(fmt: string, c: char, v: int) returns (ds: string)
    requires fmt == ['%', c] && IsInteger(c) && c != 'o'
    ensures var s := Spec([], 0, None, NoQualifier, c);
      && Render(fmt, [Int(v)]) == SignOf(Meant(v, s), s) + ds && InCase(ds, c == 'X')
      && Represents(ds, BaseOf(c), Size(Meant(v, s))) && (|ds| > 1 ==> ds[0] != '0')
  {
    var s := Spec([], 0, None, NoQualifier, c);
    PlainDirective(c, []);
    assert ['%', c] + [] == fmt;
    var t;
    t, ds := PrintsInteger(s, v, [], []);
    assert t + [] == t && [Int(v)] + [] == [Int(v)];
    Unpadded(t, SignOf(Meant(v, s), s), ds);
  }

  /** `%d` of a signed number: a minus sign exactly for negative ones, and the decimal digits of its size. */
  lemma PrintsDecimal(fmt: string, v: int) returns (ds: string)
    requires fmt == "%d" && -0x8000_0000 <= v < 0x8000_0000
    ensures Render(fmt, [Int(v)]) == (if v < 0 then ['-'] else []) + ds
    ensures Represents(ds, 10, if v < 0 then -v else v) && (|ds| > 1 ==> ds[0] != '0')
  {
    ds := PrintsPlain(fmt, 'd', v);
    MeantSelf(v, Spec([], 0, None, NoQualifier, 'd'));
  }

  lemma MeantSelf(v: int, s: Spec)
    requires -0x8000_0000 <= v < 0x8000_0000 && IsSigned(s.conversion) && !s.qualifier.Half?
    ensures Meant(v, s) == v
  {
  }

  // ------------------------------------------------------ the other conversions

  /** `t` is `text` in a field of `width`, at its end or with `-` at its start. */
  ghost predicate TextInField(t: string, text: string, flags: string, width: nat) {
    && |t| == Max(width, |text|)
    && (if '-' in flags then text <= t && forall i :: |text| <= i < |t| ==> t[i] == ' '
        else t[|t| - |text|..] == text && forall i :: 0 <= i < |t| - |text| ==> t[i] == ' ')
  }

  lemma FieldOfText(text: string, flags: string, w: nat, t: string)
    requires t == StringText(text, if w == 0 then -1 else w, '-' in flags)
    ensures TextInField(t, text, flags, w)
  {
    RepeatAt(' ', (if w == 0 then -1 else w) - |text|);
  }

  /** `%c`: the low byte of the argument. */
  lemma PrintsChar(s: Spec, v: int, rest: string, args: seq<Arg>) returns (t: string)
    requires Proper(s) && s.conversion == 'c'
    ensures Render(Directive(s, rest), [Int(v)] + args) == t + Render(rest, args)
    ensures TextInField(t, [(v % 256) as char], s.flags, s.width)
  {
    var all := [Int(v)] + args;
    RendersSpec(s, rest, all);
    assert Rest(all) == args;
    t := Convert(Understood(s, rest, all)).0;
    var c: string := [(v % 256) as char];
    FieldFilled(c, if s.width == 0 then -1 else s.width, '-' in s.flags);
    FieldOfText(c, s.flags, s.width, t);
  }

  /** `%s`: the text, cut to a precision above 0; a null pointer prints as "(NULL)". */
  lemma PrintsString(s: Spec, text: Option<string>, rest: string, args: seq<Arg>) returns (t: string)
    requires Proper(s) && s.conversion == 's'
    ensures Render(Directive(s, rest), [Str(text)] + args) == t + Render(rest, args)
    ensures var whole := if text.Some? then text.value else "(NULL)";
      var shown := if s.precision.Some? && 0 < s.precision.value < |whole| then whole[..s.precision.value] else whole;
      TextInField(t, shown, s.flags, s.width)
  {
    var all := [Str(text)] + args;
    RendersSpec(s, rest, all);
    assert Rest(all) == args;
    t := Convert(Understood(s, rest, all)).0;
    FieldOfText(CutText(TextOf(all), PrecisionOf(s)), s.flags, s.width, t);
  }

  lemma EightDigits(n: nat)
    requires n < 0x1_0000_0000
    ensures |Digits(n, 16, false)| <= 8
  {
    assert n >= 16 ==> |Digits(n / 16, 16, false)| == |Digits(n, 16, false)| - 1;
    AtMost(n, 8);
  }

  function Power16(k: nat): nat { if k == 0 then 1 else 16 * Power16(k - 1) }

  lemma {:induction false} AtMost(n: nat, k: nat)
    requires k > 0 && n < Power16(k)
    ensures |Digits(n, 16, false)| <= k
    decreases k
  {
    if n >= 16 { AtMost(n / 16, k - 1); }
  }

  /** `%p` alone: the 32 bits of the pointer as eight hexadecimal digits. */
  lemma PrintsPointer(s: Spec, v: int, rest: string, args: seq<Arg>) returns (ds: string)
    requires s.flags == [] && s.width == 0 && s.precision == None && s.conversion == 'p'
    ensures Render(Directive(s, rest), [Int(v)] + args) == ds + Render(rest, args)
    ensures |ds| == 8 && InCase(ds, false) && Represents(ds, 16, v % 0x1_0000_0000)
  {
    ds := ConvertsPointer(s, v, rest, [Int(v)] + args);
    RendersAs(s, rest, [Int(v)] + args, args, ds);
  }

  lemma RendersAs(s: Spec, rest: string, all: seq<Arg>, args: seq<Arg>, t: string)
    requires Proper(s) && Convert(Understood(s, rest, all)) == (t, true) && Rest(all) == args
    ensures Render(Directive(s, rest), all) == t + Render(rest, args)
  {
    RendersSpec(s, rest, all);
  }

  lemma ConvertsPointer(s: Spec, v: int, rest: string, all: seq<Arg>) returns (ds: string)
    requires s.flags == [] && s.width == 0 && s.precision == None && s.conversion == 'p' && |all| > 0 && all[0] == Int(v)
    ensures Convert(Understood(s, rest, all)) == (ds, true)
    ensures |ds| == 8 && InCase(ds, false) && Represents(ds, 16, v % 0x1_0000_0000)
  {
    ds := PointerDigits(Signed(v), NO_FLAGS.(zeropad := true), 8);
    SameBits(v);
  }

  lemma SameBits(v: int)
    ensures Signed(v) % 0x1_0000_0000 == v % 0x1_0000_0000
  {
  }

  lemma PointerDigits(num: int, f: Flags, width: nat) returns (ds: string)
    requires f == NO_FLAGS.(zeropad := true) && width == 8
    ensures ds == NumberText(num, 16, width, -1, f)
    ensures |ds| == width && InCase(ds, false) && Represents(ds, 16, num % 0x1_0000_0000)
  {
    var s := Spec(['0'], width, None, NoQualifier, 'x');
    EightDigits(Magnitude(num, false));
    NumberWidth(num, 16, width, -1, f);
    ds := NumberInField(num, 16, s, f);
    var t := NumberText(num, 16, width, -1, f);
    var before: nat, after: nat :| t == Repeat(' ', before) + [] + ds + Repeat(' ', after) && after == 0 && before == 0;
    assert Repeat(' ', 0) == [] && [] + [] + ds + [] == ds;
  }

  /** `%%` is a percent sign. */
  lemma PrintsPercent(rest: string, args: seq<Arg>)
    ensures Render(['%', '%'] + rest, args) == ['%'] + Render(rest, args)
  {
    var s := Spec([], 0, None, NoQualifier, '%');
    PlainDirective('%', rest);
    RendersSpec(s, rest, args);
  }

  /** What is no directive is printed as it is, and takes no argument. */
  lemma PrintsUnknown(c: char, rest: string, args: seq<Arg>)
    requires !IsFlag(c) && !('0' <= c <= '9') && c != '*' && c != '.' && c != 'h' && c != 'l' && !IsConversion(c)
    ensures Render(['%', c] + rest, args) == ['%', c] + Render(rest, args)
    ensures Render(['%'], args) == ['%']
  {
    var fmt := [c] + rest;
    assert (['%', c] + rest)[1..] == fmt && fmt[1..] == rest;
    assert ReadDirective(fmt, args) == Parsed(NO_FLAGS, -1, -1, false, fmt, args);
    assert ['%'][1..] == [];
    assert ReadDirective([], args) == Parsed(NO_FLAGS, -1, -1, false, [], args);
    assert Render([], args) == [];
  }

  /** `*` takes the width from the arguments; a negative one also sets `-`. */
  lemma StarWidth(w: int, tail: string, f: Flags, args: seq<Arg>)
    requires -0x8000_0000 <= w < 0x8000_0000 && w != 0 && |tail| > 0 && !IsDigit(tail)
    ensures ReadWidth(['*'] + tail, f, [Int(w)] + args)
         == ReadWidth(Digits(Size(w), 10, false) + tail, if w < 0 then f.(left := true) else f, args)
  {
    assert (['*'] + tail)[1..] == tail && Rest([Int(w)] + args) == args;
    DigitsDecimal(Size(w));
    WidthReads(Size(w), tail);
  }

  /** `.*` takes the precision from them; a negative one is 0. */
  lemma StarPrecision(n: int, tail: string, p: Parsed, args: seq<Arg>)
    requires -0x8000_0000 <= n < 0x8000_0000 && !IsDigit(tail)
    ensures ReadPrecision(p.(fmt := ['.', '*'] + tail, args := [Int(n)] + args))
         == ReadPrecision(p.(fmt := ['.'] + Digits(if n < 0 then 0 else n, 10, false) + tail, args := args))
  {
    assert (['.', '*'] + tail)[1..] == ['*'] + tail && (['*'] + tail)[1..] == tail && Rest([Int(n)] + args) == args;
    PrecisionGiven(if n < 0 then 0 else n, tail, p, args);
  }

  lemma PrecisionGiven(m: nat, tail: string, p: Parsed, args: seq<Arg>)
    requires !IsDigit(tail)
    ensures ReadPrecision(p.(fmt := ['.'] + Digits(m, 10, false) + tail, args := args))
         == p.(precision := m, fmt := tail, args := args)
  {
    var ds := Digits(m, 10, false);
    assert (['.'] + ds + tail)[1..] == ds + tail;
    DigitsDecimal(m);
    WidthReads(m, tail);
  }

  /** Anything else is copied. */
  lemma PrintsText(text: string, rest: string, args: seq<Arg>)
    requires '%' !in text
    ensures Render(text + rest, args) == text + Render(rest, args)
  {
    Copies(text, rest, args, Render(rest, args));
  }

  lemma {:induction false} Copies(text: string, rest: string, args: seq<Arg>, r: string)
    requires '%' !in text && r == Render(rest, args)
    ensures Render(text + rest, args) == text + r
    decreases |text|
  {
    if |text| == 0 {
      assert text + rest == rest;
    } else {
      Copies(text[1..], rest, args, r);
      FirstOf(text, rest);
      FirstOf(text, r);
      CopiesOne(text[0], text[1..] + rest, args, text + rest, text[1..] + r);
    }
  }

  lemma FirstOf(text: string, rest: string)
    requires |text| > 0
    ensures [text[0]] + (text[1..] + rest) == text + rest
  {
  }

  lemma CopiesOne(c: char, rest: string, args: seq<Arg>, fmt: string, r: string)
    requires c != '%' && fmt == [c] + rest && Render(rest, args) == r
    ensures Render(fmt, args) == [c] + r
  {
    assert fmt[1..] == rest;
  }
}
