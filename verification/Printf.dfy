/**
  * `rt_vsnprintf` and `print_number`, as configured: precision on, `long long` and `#` off, `long`
  * and `int` 32 bits wide. `Render` says what a format and its arguments mean; the methods write it
  * to a buffer of limited size the way the source does.
  */
module Printf {
  import opened Basics

  const WORD := 0x1_0000_0000

  datatype Flags = Flags(zeropad: bool, sign: bool, plus: bool, space: bool, left: bool, large: bool)

  /** What is passed for one conversion. A text that is absent is a null pointer. */
  datatype Arg = Int(value: int) | Str(text: Option<string>)

  const NO_FLAGS := Flags(false, false, false, false, false, false)

  // ------------------------------------------------------ digits

  /** The divisor of `divide`: every base but 10 counts as 16. */
  function Radix(base: nat): nat { if base == 10 then 10 else 16 }

  function DigitChar(d: nat, large: bool): char
    requires d < 16
  {
    if d < 10 then '0' + d as char else if large then 'A' + (d - 10) as char else 'a' + (d - 10) as char
  }

  function DigitValue(c: char): nat {
    if '0' <= c <= '9' then (c - '0') as nat
    else if 'a' <= c <= 'f' then (c - 'a') as nat + 10
    else if 'A' <= c <= 'F' then (c - 'A') as nat + 10
    else 0
  }

  function Quotient(n: nat, base: nat): nat { if base == 10 then n / 10 else n / 16 }

  function Remainder(n: nat, base: nat): (r: nat)
    ensures r < Radix(base) <= 16
  {
    if base == 10 then n % 10 else n % 16
  }

  function Digits(n: nat, base: nat, large: bool): (s: string)
    ensures |s| > 0
    decreases n
  {
    if n < Radix(base) then [DigitChar(n, large)]
    else Digits(Quotient(n, base), base, large) + [DigitChar(Remainder(n, base), large)]
  }

  /** The number a string of digits stands for in base `base`. */
  function Value(s: string, base: nat): nat {
    if |s| == 0 then 0 else Times(Value(s[..|s| - 1], base), base) + DigitValue(s[|s| - 1])
  }

  function Times(n: nat, base: nat): nat { if base == 8 then 8 * n else if base == 10 then 10 * n else 16 * n }

  /** `s` is `n` written in base `base`, with digits of that base only. */
  ghost predicate Represents(s: string, base: nat, n: nat) {
    Value(s, base) == n && forall i | 0 <= i < |s| :: DigitValue(s[i]) < base
  }

  lemma DigitBack(d: nat, large: bool)
    requires d < 16
    ensures DigitValue(DigitChar(d, large)) == d
  {
  }

  lemma ValueLast(s: string, c: char, base: nat)
    ensures Value(s + [c], base) == Times(Value(s, base), base) + DigitValue(c)
  {
    assert (s + [c])[..|s|] == s;
  }

  lemma RepresentsLast(s: string, c: char, base: nat, n: nat, m: nat)
    requires Represents(s, base, n) && DigitValue(c) < base && m == Times(n, base) + DigitValue(c)
    ensures Represents(s + [c], base, m)
  {
    ValueLast(s, c, base);
  }

  lemma {:induction false} DigitsBack(n: nat, base: nat, large: bool)
    requires base == 10 || base == 16
    ensures Represents(Digits(n, base, large), base, n)
    decreases n
  {
    if n < Radix(base) {
      DigitBack(n, large);
      RepresentsLast([], DigitChar(n, large), base, 0, n);
      assert [] + [DigitChar(n, large)] == [DigitChar(n, large)];
    } else {
      DigitsBack(Quotient(n, base), base, large);
      DigitBack(Remainder(n, base), large);
      RepresentsLast(Digits(Quotient(n, base), base, large), DigitChar(Remainder(n, base), large), base,
                     Quotient(n, base), n);
    }
  }

  /** Read as octal, the hexadecimal digits of a number are never too large, and too small from 16 on. */
  lemma {:induction false} OctalValue(n: nat, large: bool)
    ensures Value(Digits(n, 8, large), 8) <= n && (n >= 16 ==> Value(Digits(n, 8, large), 8) < n)
    decreases n
  {
    if n < 16 {
      DigitBack(n, large);
      ValueLast([], DigitChar(n, large), 8);
      assert [] + [DigitChar(n, large)] == [DigitChar(n, large)];
    } else {
      OctalValue(n / 16, large);
      DigitBack(n % 16, large);
      ValueLast(Digits(n / 16, 8, large), DigitChar(n % 16, large), 8);
    }
  }

  /** The digits are the number in its own base if and only if the base is 10 or 16, or the number is below 8. */
  lemma DigitsExact(n: nat, base: nat, large: bool)
    requires base == 8 || base == 10 || base == 16
    ensures Represents(Digits(n, base, large), base, n) <==> base != 8 || n < 8
  {
    if base != 8 {
      DigitsBack(n, base, large);
    } else if n < 16 {
      OneDigit(n, base, large);
    } else {
      OctalValue(n, large);
    }
  }

  lemma OneDigit(n: nat, base: nat, large: bool)
    requires n < 16 && base == 8
    ensures Represents(Digits(n, base, large), base, n) <==> n < 8
  {
    var s := Digits(n, base, large);
    DigitBack(n, large);
    assert |s| == 1 && DigitValue(s[0]) == n;
    ValueLast([], s[0], base);
    assert [] + [s[0]] == s;
  }

  function Repeat(c: char, n: int): (s: string)
    ensures |s| == if n > 0 then n else 0
    decreases n
  {
    if n <= 0 then [] else Repeat(c, n - 1) + [c]
  }

  lemma {:induction false} ValueZeros(n: int, s: string, base: nat)
    ensures Value(Repeat('0', n) + s, base) == Value(s, base)
    decreases |s|, n
  {
    var z := Repeat('0', n);
    if |s| > 0 {
      var t, c := s[..|s| - 1], s[|s| - 1];
      assert s == t + [c] && z + s == (z + t) + [c];
      ValueLast(z + t, c, base);
      ValueLast(t, c, base);
      ValueZeros(n, t, base);
    } else if n > 0 {
      assert z + s == Repeat('0', n - 1) + ['0'] && Repeat('0', n - 1) + [] == Repeat('0', n - 1);
      ValueLast(Repeat('0', n - 1), '0', base);
      ValueZeros(n - 1, [], base);
    }
  }

  // ------------------------------------------------------ one number

  /** The magnitude `divide` starts from: unsigned 32 bits. */
  function Magnitude(num: int, sign: bool): nat { if sign && num < 0 then -num % WORD else num % WORD }

  function SignText(num: int, f: Flags): string {
    if !f.sign then [] else if num < 0 then ['-'] else if f.plus then ['+'] else if f.space then [' '] else []
  }

  function Max(a: int, b: int): int { if a > b then a else b }

  /** Sign and digits, with the rest of the field filled on the side the flags say. */
  function Layout(sign: string, body: string, fill: int, f: Flags): string {
    if f.left then sign + body + Repeat(' ', fill)
    else if f.zeropad then sign + (Repeat('0', fill) + body)
    else Repeat(' ', fill) + sign + body
  }

  /** Zeros up to the precision and the digits; precision 0 leaves out the digits, -1 is none given. */
  function NumberBody(ds: string, precision: int): string {
    Repeat('0', precision - |ds|) + (if precision == 0 then [] else ds)
  }

  /** What `print_number` writes. */
  function NumberText(num: int, base: nat, width: int, precision: int, f: Flags): string {
    var ds := Digits(Magnitude(num, f.sign), base, f.large);
    Layout(SignText(num, f), NumberBody(ds, precision), width - Max(|ds|, precision) - |SignText(num, f)|, f)
  }

  /** The width of a printed number; precision 0 leaves out the digits but still makes room for them. */
  lemma NumberWidth(num: int, base: nat, width: int, precision: int, f: Flags)
    ensures var ds := Digits(Magnitude(num, f.sign), base, f.large);
      |NumberText(num, base, width, precision, f)|
        == Max(width, |SignText(num, f)| + Max(|ds|, precision)) - (if precision == 0 then |ds| else 0)
  {
  }

  /** The digits of the text: the zeros that fill the field, those of the precision, and the number's. */
  function NumberDigits(num: int, base: nat, width: int, precision: int, f: Flags): string {
    var ds := Digits(Magnitude(num, f.sign), base, f.large);
    FilledDigits(NumberBody(ds, precision), width - Max(|ds|, precision) - |SignText(num, f)|, f)
  }

  function FilledDigits(body: string, fill: int, f: Flags): string {
    Repeat('0', if f.zeropad && !f.left then fill else 0) + body
  }

  /** The text is blanks, a sign, digits and blanks, with blanks on one side only. */
  lemma NumberParts(num: int, base: nat, width: int, precision: int, f: Flags) returns (before: nat, after: nat)
    ensures NumberText(num, base, width, precision, f)
         == Repeat(' ', before) + SignText(num, f) + NumberDigits(num, base, width, precision, f) + Repeat(' ', after)
    ensures before == 0 || after == 0
  {
    var ds := Digits(Magnitude(num, f.sign), base, f.large);
    before, after := LayoutParts(SignText(num, f), NumberBody(ds, precision),
                                 width - Max(|ds|, precision) - |SignText(num, f)|, f);
  }

  lemma LayoutParts(sign: string, body: string, fill: int, f: Flags) returns (before: nat, after: nat)
    ensures Layout(sign, body, fill, f)
         == Repeat(' ', before) + sign + FilledDigits(body, fill, f) + Repeat(' ', after)
    ensures before == 0 || after == 0
  {
    before, after := 0, 0;
    var room := Max(fill, 0);
    if f.left {
      after := room;
      assert Repeat(' ', 0) + sign == sign && [] + body == body;
    } else if f.zeropad {
      var digits := Repeat('0', fill) + body;
      assert Repeat(' ', 0) + sign == sign && sign + digits + Repeat(' ', 0) == sign + digits;
    } else {
      before := room;
      assert [] + body == body && Layout(sign, body, fill, f) + Repeat(' ', 0) == Layout(sign, body, fill, f);
    }
  }

  /** Zeros in front change neither the value nor the base. */
  lemma ZerosRepresent(n: int, s: string, base: nat, m: nat)
    requires base >= 8
    ensures Represents(Repeat('0', n) + s, base, m) <==> Represents(s, base, m)
  {
    ValueZeros(n, s, base);
    var z := Repeat('0', n);
    RepeatAt('0', n);
    assert forall i | 0 <= i < |s| :: (z + s)[|z| + i] == s[i];
  }

  lemma {:induction false} RepeatAt(c: char, n: int)
    ensures forall i | 0 <= i < |Repeat(c, n)| :: Repeat(c, n)[i] == c
    decreases n
  {
    if n > 0 { RepeatAt(c, n - 1); }
  }

  /**
    * The digits printed are the magnitude in the base asked for if and only if it is zero, or there
    * are digits to print and the base is one that `divide` knows or the number is below 8.
    */
  lemma NumberExact(num: int, base: nat, width: int, precision: int, f: Flags)
    requires base == 8 || base == 10 || base == 16
    ensures var m := Magnitude(num, f.sign);
      Represents(NumberDigits(num, base, width, precision, f), base, m) <==>
        m == 0 || (precision != 0 && (base != 8 || m < 8))
  {
    var m := Magnitude(num, f.sign);
    var ds := Digits(m, base, f.large);
    DigitsOfBody(m, base, precision, f, width - Max(|ds|, precision) - |SignText(num, f)|,
                 NumberDigits(num, base, width, precision, f));
  }

  lemma DigitsOfBody(m: nat, base: nat, precision: int, f: Flags, fill: int, ds: string)
    requires base == 8 || base == 10 || base == 16
    requires ds == FilledDigits(NumberBody(Digits(m, base, f.large), precision), fill, f)
    ensures Represents(ds, base, m) <==> m == 0 || (precision != 0 && (base != 8 || m < 8))
  {
    var body := NumberBody(Digits(m, base, f.large), precision);
    BodyExact(m, base, f.large, precision);
    FilledExact(body, fill, f, base, m, m == 0 || (precision != 0 && (base != 8 || m < 8)), ds);
  }

  lemma FilledExact(body: string, fill: int, f: Flags, base: nat, m: nat, exact: bool, ds: string)
    requires base >= 8 && ds == FilledDigits(body, fill, f) && (Represents(body, base, m) <==> exact)
    ensures Represents(ds, base, m) <==> exact
  {
    FilledRepresents(body, fill, f, base, m);
  }

  lemma FilledRepresents(body: string, fill: int, f: Flags, base: nat, m: nat)
    requires base >= 8
    ensures Represents(FilledDigits(body, fill, f), base, m) <==> Represents(body, base, m)
  {
    ZerosRepresent(if f.zeropad && !f.left then fill else 0, body, base, m);
  }

  lemma BodyExact(m: nat, base: nat, large: bool, precision: int)
    requires base == 8 || base == 10 || base == 16
    ensures Represents(NumberBody(Digits(m, base, large), precision), base, m)
       <==> m == 0 || (precision != 0 && (base != 8 || m < 8))
  {
    var ds := Digits(m, base, large);
    ZerosRepresent(precision - |ds|, if precision == 0 then [] else ds, base, m);
    DigitsExact(m, base, large);
  }

  /** A signed number comes out with its own sign and size, also the smallest. */
  lemma SignedMagnitude(num: int, f: Flags)
    requires -0x8000_0000 <= num < 0x8000_0000 && f.sign
    ensures Magnitude(num, true) == (if num < 0 then -num else num) && (num < 0 <==> SignText(num, f) == ['-'])
  {
  }

  // ------------------------------------------------------ what a format means

  function Signed(v: int): int { if v % WORD >= 0x8000_0000 then v % WORD - WORD else v % WORD }

  function SignedShort(v: int): int { if v % 0x1_0000 >= 0x8000 then v % 0x1_0000 - 0x1_0000 else v % 0x1_0000 }

  /** The `long` handed to `print_number`, after the qualifier narrowed the argument. */
  function NumberOf(v: int, short: bool, sign: bool): int {
    if !short then Signed(v) else if sign then SignedShort(v) else v % 0x1_0000
  }

  function IntOf(args: seq<Arg>): int { if |args| > 0 && args[0].Int? then args[0].value else 0 }

  const NULL_TEXT := ['(', 'N', 'U', 'L', 'L', ')']

  function TextOf(args: seq<Arg>): string {
    if |args| > 0 && args[0].Str? && args[0].text.Some? then args[0].text.value else NULL_TEXT
  }

  function Rest(args: seq<Arg>): seq<Arg> { if |args| > 0 then args[1..] else [] }

  predicate IsDigit(fmt: string) { |fmt| > 0 && '0' <= fmt[0] <= '9' }

  predicate Begins(fmt: string, c: char) { |fmt| > 0 && fmt[0] == c }

  function ReadFlags(fmt: string, f: Flags): (r: (Flags, string))
    ensures |r.1| <= |fmt|
    decreases |fmt|
  {
    if |fmt| == 0 then (f, fmt)
    else if fmt[0] == '-' then ReadFlags(fmt[1..], f.(left := true))
    else if fmt[0] == '+' then ReadFlags(fmt[1..], f.(plus := true))
    else if fmt[0] == ' ' then ReadFlags(fmt[1..], f.(space := true))
    else if fmt[0] == '#' then ReadFlags(fmt[1..], f)
    else if fmt[0] == '0' then ReadFlags(fmt[1..], f.(zeropad := true))
    else (f, fmt)
  }

  /** `skip_atoi`. */
  function ReadNumber(fmt: string, acc: nat): (r: (nat, string))
    ensures |r.1| <= |fmt|
    decreases |fmt|
  {
    if IsDigit(fmt) then ReadNumber(fmt[1..], acc * 10 + (fmt[0] - '0') as nat) else (acc, fmt)
  }

  /** One directive as far as it is read: what is left of the format and of the arguments. */
  datatype Parsed = Parsed(flags: Flags, width: int, precision: int, short: bool, fmt: string, args: seq<Arg>)

  function ReadWidth(fmt: string, f: Flags, args: seq<Arg>): (p: Parsed)
    ensures |p.fmt| <= |fmt|
  {
    if IsDigit(fmt) then
      var (n, rest) := ReadNumber(fmt, 0);
      Parsed(f, n, -1, false, rest, args)
    else if Begins(fmt, '*') then
      var w := Signed(IntOf(args));
      Parsed(if w < 0 then f.(left := true) else f, if w < 0 then -w else w, -1, false, fmt[1..], Rest(args))
    else Parsed(f, -1, -1, false, fmt, args)
  }

  function ReadPrecision(p: Parsed): (r: Parsed)
    ensures |r.fmt| <= |p.fmt|
  {
    if !Begins(p.fmt, '.') then p
    else
      var fmt := p.fmt[1..];
      if IsDigit(fmt) then
        var (n, rest) := ReadNumber(fmt, 0);
        p.(precision := n, fmt := rest)
      else if Begins(fmt, '*') then p.(precision := Max(Signed(IntOf(p.args)), 0), fmt := fmt[1..], args := Rest(p.args))
      else p.(precision := 0, fmt := fmt)
  }

  function ReadQualifier(p: Parsed): (r: Parsed)
    ensures |r.fmt| <= |p.fmt|
  {
    if Begins(p.fmt, 'h') then p.(short := true, fmt := p.fmt[1..])
    else if Begins(p.fmt, 'l') then p.(fmt := p.fmt[1..])
    else p
  }

  function ReadDirective(fmt: string, args: seq<Arg>): (p: Parsed)
    ensures |p.fmt| <= |fmt|
  {
    var (f, rest) := ReadFlags(fmt, NO_FLAGS);
    ReadQualifier(ReadPrecision(ReadWidth(rest, f, args)))
  }

  function CharText(c: char, width: int, left: bool): string {
    if left then [c] + Repeat(' ', width - 1) else Repeat(' ', width - 1) + [c]
  }

  /** A positive precision cuts a string; zero does not. */
  function CutText(s: string, precision: int): string { if 0 < precision < |s| then s[..precision] else s }

  function StringText(s: string, width: int, left: bool): string {
    if left then s + Repeat(' ', width - |s|) else Repeat(' ', width - |s|) + s
  }

  function PointerText(p: Parsed): string {
    if p.width == -1 then NumberText(Signed(IntOf(p.args)), 16, 8, p.precision, p.flags.(zeropad := true))
    else NumberText(Signed(IntOf(p.args)), 16, p.width, p.precision, p.flags)
  }

  function IntegerText(p: Parsed, base: nat, f: Flags): string {
    NumberText(NumberOf(IntOf(p.args), p.short, f.sign), base, p.width, p.precision, f)
  }

  /** The text of a directive, and whether it uses up an argument. */
  function Convert(p: Parsed): (string, bool) {
    if |p.fmt| == 0 then (['%'], false)
    else match p.fmt[0]
    case 'c' => (CharText((IntOf(p.args) % 0x100) as char, p.width, p.flags.left), true)
    case 's' => (StringText(CutText(TextOf(p.args), p.precision), p.width, p.flags.left), true)
    case 'p' => (PointerText(p), true)
    case '%' => (['%'], false)
    case 'o' => (IntegerText(p, 8, p.flags), true)
    case 'X' => (IntegerText(p, 16, p.flags.(large := true)), true)
    case 'x' => (IntegerText(p, 16, p.flags), true)
    case 'd' => (IntegerText(p, 10, p.flags.(sign := true)), true)
    case 'i' => (IntegerText(p, 10, p.flags.(sign := true)), true)
    case 'u' => (IntegerText(p, 10, p.flags), true)
    case c => (['%', c], false)
  }

  function AfterDirective(p: Parsed): (r: (string, seq<Arg>))
    ensures |r.0| <= |p.fmt|
  {
    (if |p.fmt| == 0 then [] else p.fmt[1..], if Convert(p).1 then Rest(p.args) else p.args)
  }

  /** All the text of a format and its arguments. */
  function Render(fmt: string, args: seq<Arg>): string
    decreases |fmt|
  {
    if |fmt| == 0 then []
    else if fmt[0] != '%' then [fmt[0]] + Render(fmt[1..], args)
    else
      var p := ReadDirective(fmt[1..], args);
      var (rest, args') := AfterDirective(p);
      Convert(p).0 + Render(rest, args')
  }

  /** So `%o` prints the octal digits of a number exactly when it is below 8, and otherwise its hexadecimal ones. */
  lemma OctalExact(p: Parsed, num: int)
    requires Begins(p.fmt, 'o') && p.precision != 0 && num == NumberOf(IntOf(p.args), p.short, p.flags.sign)
    ensures Convert(p).0 == NumberText(num, 8, p.width, p.precision, p.flags)
    ensures var m, ds := Magnitude(num, p.flags.sign), NumberDigits(num, 8, p.width, p.precision, p.flags);
      (Represents(ds, 8, m) <==> m < 8) && Represents(ds, 16, m)
  {
    NumberExact(num, 8, p.width, p.precision, p.flags);
    HexDigits(num, p.width, p.precision, p.flags);
  }

  lemma HexDigits(num: int, width: int, precision: int, f: Flags)
    requires precision != 0
    ensures Represents(NumberDigits(num, 8, width, precision, f), 16, Magnitude(num, f.sign))
  {
    SameDigits(Magnitude(num, f.sign), f.large);
    NumberExact(num, 16, width, precision, f);
  }

  lemma {:induction false} SameDigits(n: nat, large: bool)
    ensures Digits(n, 8, large) == Digits(n, 16, large)
    decreases n
  {
    if n >= 16 { SameDigits(n / 16, large); }
  }

  /** A padded text fills its field, and stands at the side the flags say. */
  lemma FieldFilled(s: string, width: int, left: bool)
    ensures var t := StringText(s, width, left);
      && |t| == Max(width, |s|)
      && (if left then s <= t && t[|s|..] == Repeat(' ', width - |s|)
          else t[|t| - |s|..] == s && t[..|t| - |s|] == Repeat(' ', width - |s|))
    ensures |s| == 1 ==> CharText(s[0], width, left) == StringText(s, width, left)
  {
    if |s| == 1 { assert s == [s[0]]; }
  }

  ghost predicate Decimal(s: string) { forall i | 0 <= i < |s| :: '0' <= s[i] <= '9' }

  lemma {:induction false} DigitsDecimal(n: nat)
    ensures Decimal(Digits(n, 10, false))
    decreases n
  {
    if n >= 10 { DigitsDecimal(Quotient(n, 10)); }
  }

  /** The value `skip_atoi` reaches over a digit string. */
  function Reached(s: string, acc: nat): nat
    decreases |s|
  {
    if |s| == 0 then acc else Reached(s[1..], acc * 10 + DigitValue(s[0]))
  }

  lemma {:induction false} ReadsDecimal(s: string, rest: string, acc: nat)
    requires Decimal(s) && !IsDigit(rest)
    ensures ReadNumber(s + rest, acc) == (Reached(s, acc), rest)
    decreases |s|
  {
    if |s| == 0 {
      assert s + rest == rest;
    } else {
      assert (s + rest)[1..] == s[1..] + rest;
      ReadsDecimal(s[1..], rest, acc * 10 + DigitValue(s[0]));
    }
  }

  lemma {:induction false} ReachedLast(s: string, c: char, acc: nat)
    ensures Reached(s + [c], acc) == Reached(s, acc) * 10 + DigitValue(c)
    decreases |s|
  {
    if |s| == 0 {
      assert s + [c] == [c] && [c][1..] == [];
    } else {
      assert (s + [c])[1..] == s[1..] + [c];
      ReachedLast(s[1..], c, acc * 10 + DigitValue(s[0]));
    }
  }

  lemma {:induction false} ReachedValue(s: string)
    ensures Reached(s, 0) == Value(s, 10)
    decreases |s|
  {
    if |s| > 0 {
      var t, c := s[..|s| - 1], s[|s| - 1];
      assert s == t + [c];
      ReachedLast(t, c, 0);
      ReachedValue(t);
    }
  }

  /** A width or precision written in decimal into the format is the number read from it. */
  lemma WidthReads(n: nat, rest: string)
    requires !IsDigit(rest)
    ensures ReadNumber(Digits(n, 10, false) + rest, 0) == (n, rest)
  {
    DigitsDecimal(n);
    DigitsBack(n, 10, false);
    ReadsDecimal(Digits(n, 10, false), rest, 0);
    ReachedValue(Digits(n, 10, false));
  }

  // ------------------------------------------------------ the bounded buffer

  /** `str` and `end`: characters past the end are counted and dropped. */
  class Sink {
    const buf: array<char>
    const size: nat
    var pos: nat
    ghost var text: string
    ghost const before: string

    ghost predicate Valid()
      reads this, buf
    {
      && size <= buf.Length && pos == |text| && |before| == buf.Length
      && (forall k | 0 <= k < pos && k < size :: buf[k] == text[k])
      && (forall k | pos <= k < buf.Length || size <= k < buf.Length :: buf[k] == before[k])
    }

    constructor (buf: array<char>, size: nat)
      requires size <= buf.Length
      ensures Valid() && text == [] && this.buf == buf && this.size == size && before == buf[..]
    {
      this.buf, this.size, pos := buf, size, 0;
      text, before := [], buf[..];
    }

    method Put(c: char)
      requires Valid()
      modifies this, buf
      ensures Valid() && text == old(text) + [c]
    {
      if pos < size { buf[pos] := c; }
      pos := pos + 1;
      text := text + [c];
    }

    /** `while (n-- > 0)` put `c`; the value `n` is left with. */
    method PadDown(c: char, n: int) returns (m: int)
      requires Valid()
      modifies this, buf
      ensures Valid() && text == old(text) + Repeat(c, n) && m == (if n > 0 then -1 else n - 1)
    {
      m := n;
      assert text + Repeat(c, 0) == text;
      while true
        invariant Valid() && text == old(text) + Repeat(c, n - m) && (m >= 0 || m == n) && m <= n
        decreases m
      {
        m := m - 1;
        if m + 1 <= 0 { break; }
        Associative(old(text), Repeat(c, n - m - 1), [c]);
        Put(c);
      }
    }

    method PutAll(s: string)
      requires Valid()
      modifies this, buf
      ensures Valid() && text == old(text) + s
    {
      for i := 0 to |s|
        invariant Valid() && text == old(text) + s[..i]
      {
        Put(s[i]);
        assert s[..i + 1] == s[..i] + [s[i]];
      }
      assert s[..|s|] == s;
    }

    /** As Put, with what was written since `start`. */
    method Add(c: char, ghost start: string, ghost done: string)
      requires Valid() && text == start + done
      modifies this, buf
      ensures Valid() && text == start + (done + [c])
    {
      Associative(start, done, [c]);
      Put(c);
    }

    method AddPad(c: char, n: int, ghost start: string, ghost done: string) returns (m: int)
      requires Valid() && text == start + done
      modifies this, buf
      ensures Valid() && text == start + (done + Repeat(c, n)) && m == (if n > 0 then -1 else n - 1)
    {
      Associative(start, done, Repeat(c, n));
      m := PadDown(c, n);
    }

    /** The digits in `tmp`, last one first. */
    method AddDigits(tmp: array<char>, count: nat, ghost ds: string, ghost start: string, ghost done: string)
      requires Valid() && text == start + done && tmp != buf
      requires count == |ds| <= tmp.Length && forall k | 0 <= k < count :: tmp[k] == ds[count - 1 - k]
      modifies this, buf
      ensures Valid() && text == start + (done + ds)
    {
      var i := count;
      assert done + ds[..0] == done;
      while i > 0
        invariant 0 <= i <= count && Valid() && text == start + (done + ds[..count - i])
        invariant forall k | 0 <= k < count :: tmp[k] == ds[count - 1 - k]
      {
        i := i - 1;
        ghost var got := ds[..count - i - 1];
        Associative(done, got, [tmp[i]]);
        assert ds[..count - i] == got + [tmp[i]];
        Add(tmp[i], start, done + got);
      }
      assert ds[..count] == ds;
    }

    method PrintNumber(num: int, base: nat, width: int, precision: int, f: Flags)
      requires Valid()
      modifies this, buf
      ensures Valid() && text == old(text) + NumberText(num, base, width, precision, f)
    {
      var sign, magnitude := TakeSign(num, f);
      AddNumber(sign, magnitude, base, width, precision, f);
      PiecesLayout(SignText(num, f), Digits(magnitude, base, f.large), width, precision, f);
    }

    method AddNumber(sign: Option<char>, n: nat, base: nat, width: int, precision: int, f: Flags)
      requires Valid() && n < WORD
      modifies this, buf
      ensures Valid() && text == old(text) + Pieces(SignOf(sign), Digits(n, base, f.large), width, precision, f)
    {
      var tmp := new char[16];
      var i := FillDigits(n, base, f.large, tmp);
      AddPieces(sign, tmp, i, width, precision, f, Digits(n, base, f.large));
    }

    method AddPieces(sign: Option<char>, tmp: array<char>, i: nat, width: int, precision: int, f: Flags, ghost ds: string)
      requires Valid() && tmp != buf
      requires i == |ds| <= tmp.Length && forall k | 0 <= k < i :: tmp[k] == ds[i - 1 - k]
      modifies this, buf
      ensures Valid() && text == old(text) + Pieces(SignOf(sign), ds, width, precision, f)
    {
      ghost var start := text;
      var zeropad := f.zeropad && !f.left;
      var count := if i > precision then i else precision;
      var size := AddLead(sign, zeropad, f.left, width - count);
      AddBody(tmp, i, precision, count, size, ds, start, LeadText(SignOf(sign), zeropad, f.left, width - count));
      assert Repeat(' ', size) == Repeat(' ', if f.left then width - count - |SignOf(sign)| else -1);
    }

    /** Zeros up to the precision, the digits, and what is left of the field. */
    method AddBody(tmp: array<char>, i: nat, precision: int, count: int, size: int,
                   ghost ds: string, ghost start: string, ghost done: string)
      requires Valid() && text == start + done && tmp != buf
      requires i == |ds| <= tmp.Length && forall k | 0 <= k < i :: tmp[k] == ds[i - 1 - k]
      modifies this, buf
      ensures Valid()
      ensures text == start + (done + Repeat('0', count - i) + (if precision == 0 then [] else ds) + Repeat(' ', size))
    {
      ghost var filled := done + Repeat('0', count - i);
      AddZeros(i, count, start, done);
      if precision != 0 { AddDigits(tmp, i, ds, start, filled); }
      ghost var all := filled + (if precision == 0 then [] else ds);
      assert filled + [] == filled;
      var _ := AddPad(' ', size, start, all);
    }

    /** Blanks, sign and zeros in front of the number; the room left behind it. */
    method AddLead(sign: Option<char>, zeropad: bool, left: bool, room: int) returns (size: int)
      requires Valid() && !(zeropad && left)
      modifies this, buf
      ensures Valid() && text == old(text) + LeadText(SignOf(sign), zeropad, left, room)
      ensures if left then size == room - |SignOf(sign)| else size < 0
    {
      ghost var start := text;
      ghost var done := [];
      assert start == start + done;
      size := room;
      if !zeropad && !left {
        if sign.Some? && size > 0 { size := size - 1; }
        size := AddPad(' ', size, start, done);
        done := Repeat(' ', room - |SignOf(sign)|);
        assert [] + done == done;
      }
      if sign.Some? {
        Add(sign.value, start, done);
        size := size - 1;
      }
      done := done + SignOf(sign);
      if !left {
        size := AddPad(if zeropad then '0' else ' ', size, start, done);
      }
    }

    /** `while (i < precision--)` put a zero. */
    method AddZeros(i: nat, precision: int, ghost start: string, ghost done: string)
      requires Valid() && text == start + done
      modifies this, buf
      ensures Valid() && text == start + (done + Repeat('0', precision - i))
    {
      var _ := AddPad('0', precision - i, start, done);
    }

    // ------------------------------------------------------ one directive

    method PutChar(c: char, width: int, left: bool)
      requires Valid()
      modifies this, buf
      ensures Valid() && text == old(text) + CharText(c, width, left)
    {
      ghost var start := text;
      assert start == start + [];
      var w := width;
      if !left { w := PadBefore(' ', w, start, []); }
      ghost var pad := if left then [] else Repeat(' ', width - 1);
      Add(c, start, pad);
      assert [] + [c] == [c];
      w := PadBefore(' ', w, start, pad + [c]);
      if !left { assert pad + [c] + Repeat(' ', w) == pad + [c]; }
    }

    /** `while (--n > 0)` put `c`. */
    method PadBefore(c: char, n: int, ghost start: string, ghost done: string) returns (m: int)
      requires Valid() && text == start + done
      modifies this, buf
      ensures Valid() && text == start + (done + Repeat(c, n - 1)) && m == (if n > 0 then 0 else n - 1)
    {
      m := n;
      assert done + Repeat(c, 0) == done;
      while true
        invariant Valid() && text == start + (done + Repeat(c, n - m)) && m <= n && (m > 0 || m == n)
        decreases m
      {
        m := m - 1;
        if m <= 0 { break; }
        Associative(done, Repeat(c, n - m - 1), [c]);
        Add(c, start, done + Repeat(c, n - m - 1));
      }
    }

    /** `while (len < n--)` put `c`. */
    method PadTo(c: char, len: nat, n: int, ghost start: string, ghost done: string) returns (m: int)
      requires Valid() && text == start + done
      modifies this, buf
      ensures Valid() && text == start + (done + Repeat(c, n - len)) && m < len + Max(n - len, 0)
      ensures n > len ==> m == len - 1
    {
      m := n;
      assert done + Repeat(c, 0) == done;
      while true
        invariant Valid() && text == start + (done + Repeat(c, n - m)) && m <= n && (m >= len || m == n)
        decreases m - len
      {
        m := m - 1;
        if m + 1 <= len { break; }
        Associative(done, Repeat(c, n - m - 1), [c]);
        Add(c, start, done + Repeat(c, n - m - 1));
      }
    }

    method PutString(s: string, width: int, left: bool)
      requires Valid()
      modifies this, buf
      ensures Valid() && text == old(text) + StringText(s, width, left)
    {
      ghost var start := text;
      assert start == start + [];
      var w := width;
      if !left { w := PadTo(' ', |s|, w, start, []); }
      ghost var pad := if left then [] else Repeat(' ', width - |s|);
      assert [] + pad == pad && [] + s == s;
      Associative(start, pad, s);
      PutAll(s);
      w := PadTo(' ', |s|, w, start, pad + s);
      assert !left ==> pad + s + [] == pad + s;
    }

    method PutInteger(p: Parsed, base: nat, f: Flags)
      requires Valid()
      modifies this, buf
      ensures Valid() && text == old(text) + IntegerText(p, base, f)
    {
      var v := IntOf(p.args);
      var num := Signed(v);
      if p.short {
        num := v % 0x1_0000;
        if f.sign { num := SignedShort(v); }
      }
      PrintNumber(num, base, p.width, p.precision, f);
    }

    method PutPointer(p: Parsed)
      requires Valid()
      modifies this, buf
      ensures Valid() && text == old(text) + PointerText(p)
    {
      var width, f := p.width, p.flags;
      if width == -1 { width, f := 8, f.(zeropad := true); }
      PrintNumber(Signed(IntOf(p.args)), 16, width, p.precision, f);
    }

    /** The conversion at the end of a directive; whether an argument was used. */
    method PutDirective(p: Parsed) returns (used: bool)
      requires Valid()
      modifies this, buf
      ensures Valid() && text == old(text) + Convert(p).0 && used == Convert(p).1
    {
      used := true;
      if |p.fmt| == 0 {
        Put('%');
        return false;
      }
      match p.fmt[0]
      case 'c' => PutChar((IntOf(p.args) % 0x100) as char, p.width, p.flags.left);
      case 's' =>
        var s := TextOf(p.args);
        if p.precision > 0 && |s| > p.precision { s := s[..p.precision]; }
        PutString(s, p.width, p.flags.left);
      case 'p' => PutPointer(p);
      case 'o' => PutInteger(p, 8, p.flags);
      case 'X' => PutInteger(p, 16, p.flags.(large := true));
      case 'x' => PutInteger(p, 16, p.flags);
      case 'd' => PutInteger(p, 10, p.flags.(sign := true));
      case 'i' => PutInteger(p, 10, p.flags.(sign := true));
      case 'u' => PutInteger(p, 10, p.flags);
      case '%' =>
        Put('%');
        used := false;
      case c =>
        PutAll(['%', c]);
        used := false;
    }
  }

  method TakeFlags(fmt: string) returns (f: Flags, rest: string)
    ensures (f, rest) == ReadFlags(fmt, NO_FLAGS)
  {
    f, rest := NO_FLAGS, fmt;
    while true
      invariant ReadFlags(rest, f) == ReadFlags(fmt, NO_FLAGS)
      decreases |rest|
    {
      if Begins(rest, '-') { f := f.(left := true); }
      else if Begins(rest, '+') { f := f.(plus := true); }
      else if Begins(rest, ' ') { f := f.(space := true); }
      else if Begins(rest, '#') { }
      else if Begins(rest, '0') { f := f.(zeropad := true); }
      else { break; }
      rest := rest[1..];
    }
  }

  method SkipAtoi(fmt: string) returns (n: nat, rest: string)
    ensures (n, rest) == ReadNumber(fmt, 0)
  {
    n, rest := 0, fmt;
    while IsDigit(rest)
      invariant ReadNumber(rest, n) == ReadNumber(fmt, 0)
      decreases |rest|
    {
      n := n * 10 + (rest[0] - '0') as nat;
      rest := rest[1..];
    }
  }

  method TakeDirective(fmt: string, args: seq<Arg>) returns (p: Parsed)
    ensures p == ReadDirective(fmt, args)
  {
    var f, rest := TakeFlags(fmt);
    p := Parsed(f, -1, -1, false, rest, args);
    if IsDigit(rest) {
      var n, rest' := SkipAtoi(rest);
      p := p.(width := n, fmt := rest');
    } else if Begins(rest, '*') {
      var w := Signed(IntOf(args));
      p := p.(width := w, fmt := rest[1..], args := Rest(args));
      if w < 0 { p := p.(width := -w, flags := f.(left := true)); }
    }
    assert p == ReadWidth(rest, f, args);
    p := TakePrecision(p);
    if Begins(p.fmt, 'h') {
      p := p.(short := true, fmt := p.fmt[1..]);
    } else if Begins(p.fmt, 'l') {
      p := p.(fmt := p.fmt[1..]);
    }
  }

  method TakePrecision(p: Parsed) returns (r: Parsed)
    ensures r == ReadPrecision(p)
  {
    r := p;
    if !Begins(p.fmt, '.') { return; }
    var fmt := p.fmt[1..];
    r := p.(fmt := fmt, precision := -1);
    if IsDigit(fmt) {
      var n, rest := SkipAtoi(fmt);
      r := r.(precision := n, fmt := rest);
    } else if Begins(fmt, '*') {
      r := r.(precision := Signed(IntOf(p.args)), fmt := fmt[1..], args := Rest(p.args));
    }
    if r.precision < 0 { r := r.(precision := 0); }
  }

  /** The loop over the format. */
  method Format(sink: Sink, fmt: string, args: seq<Arg>)
    requires sink.Valid() && sink.text == []
    modifies sink, sink.buf
    ensures sink.Valid() && sink.text == Render(fmt, args)
  {
    ghost var whole := Render(fmt, args);
    var f, a := fmt, args;
    assert [] + whole == whole;
    while |f| > 0
      invariant sink.Valid() && sink.text + Render(f, a) == whole
      decreases |f|
    {
      if f[0] != '%' {
        Associative(sink.text, [f[0]], Render(f[1..], a));
        sink.Put(f[0]);
        f := f[1..];
      } else {
        var p := TakeDirective(f[1..], a);
        ghost var after := AfterDirective(p);
        Associative(sink.text, Convert(p).0, Render(after.0, after.1));
        var used := sink.PutDirective(p);
        if used { a := Rest(p.args); } else { a := p.args; }
        f := if |p.fmt| == 0 then [] else p.fmt[1..];
      }
    }
    assert sink.text + [] == sink.text;
  }

  /** `now` is the buffer after a rendering of `text` limited to `size` characters. */
  ghost predicate Bounded(now: string, before: string, text: string, size: nat)
    requires |now| == |before| && size <= |now|
  {
    && (forall k | 0 <= k < |text| && k < size - 1 :: now[k] == text[k])
    && (size > 0 ==> now[if |text| < size then |text| else size - 1] == '\0')
    && (forall k | |text| < k < size :: now[k] == before[k])
    && (forall k | size <= k < |now| :: now[k] == before[k])
  }

  /**
    * `rt_vsnprintf`: the length of the whole rendering whatever the size, as much of it as fits in
    * front of a terminator, and nothing at or past `size`.
    */
  method Vsnprintf(buf: array<char>, size: nat, fmt: string, args: seq<Arg>) returns (n: nat)
    requires size <= buf.Length
    modifies buf
    ensures n == |Render(fmt, args)|
    ensures Bounded(buf[..], old(buf[..]), Render(fmt, args), size)
  {
    var sink := new Sink(buf, size);
    Format(sink, fmt, args);
    n := sink.pos;
    if size > 0 {
      if n < size { buf[n] := '\0'; } else { buf[size - 1] := '\0'; }
    }
  }

  function SignOf(sign: Option<char>): string { if sign.Some? then [sign.value] else [] }

  function LeadText(sign: string, zeropad: bool, left: bool, room: int): string {
    (if !zeropad && !left then Repeat(' ', room - |sign|) else []) + sign
    + (if zeropad then Repeat('0', room - |sign|) else [])
  }

  /** A number in the pieces it is written in. */
  function Pieces(sign: string, ds: string, width: int, precision: int, f: Flags): string {
    var count := Max(|ds|, precision);
    LeadText(sign, f.zeropad && !f.left, f.left, width - count) + Repeat('0', count - |ds|)
    + (if precision == 0 then [] else ds) + Repeat(' ', if f.left then width - count - |sign| else -1)
  }

  lemma PiecesLayout(sign: string, ds: string, width: int, precision: int, f: Flags)
    ensures Pieces(sign, ds, width, precision, f)
         == Layout(sign, NumberBody(ds, precision), width - Max(|ds|, precision) - |sign|, f)
  {
    var fill := width - Max(|ds|, precision) - |sign|;
    var body := NumberBody(ds, precision);
    assert Repeat('0', Max(|ds|, precision) - |ds|) == Repeat('0', precision - |ds|);
    if f.left {
      assert Pieces(sign, ds, width, precision, f) == sign + body + Repeat(' ', fill);
    } else if f.zeropad {
      assert Pieces(sign, ds, width, precision, f) == sign + (Repeat('0', fill) + body);
    } else {
      assert Pieces(sign, ds, width, precision, f) == Repeat(' ', fill) + sign + body;
    }
  }

  method TakeSign(num: int, f: Flags) returns (sign: Option<char>, magnitude: nat)
    ensures SignOf(sign) == SignText(num, f) && magnitude == Magnitude(num, f.sign) < WORD
  {
    sign, magnitude := None, num % WORD;
    if f.sign {
      if num < 0 {
        sign := Some('-');
        magnitude := -num % WORD;
      } else if f.plus {
        sign := Some('+');
      } else if f.space {
        sign := Some(' ');
      }
    }
  }

  /** The last of the digits that are left, and the digits left after it. */
  lemma LastDigit(ds: string, n: nat, base: nat, large: bool)
    requires n != 0 && Digits(n, base, large) <= ds
    ensures var now := Digits(n, base, large); var q := Quotient(n, base);
      && ds[|now| - 1] == DigitChar(Remainder(n, base), large)
      && (if q == 0 then |now| == 1 else |now| == |Digits(q, base, large)| + 1 && Digits(q, base, large) <= ds)
  {
    var now := Digits(n, base, large);
    assert ds[|now| - 1] == now[|now| - 1];
  }

  method Divide(n: nat, base: nat) returns (res: nat, rest: nat)
    ensures res == Remainder(n, base) && rest == Quotient(n, base) && n == Radix(base) * rest + res
  {
    if base == 10 {
      res := n % 10;
      rest := n / 10;
    } else {
      res := n % 16;
      rest := n / 16;
    }
  }

  /** The digits of a number, lowest first, as `divide` yields them. */
  method FillDigits(n: nat, base: nat, large: bool, tmp: array<char>) returns (i: nat)
    requires n < WORD && tmp.Length == 16
    modifies tmp
    ensures var ds := Digits(n, base, large);
      i == |ds| <= 16 && forall k | 0 <= k < i :: tmp[k] == ds[i - 1 - k]
  {
    i := 0;
    if n == 0 {
      tmp[0] := DigitChar(0, large);
      return 1;
    }
    var num := n;
    ghost var ds := Digits(n, base, large);
    DigitCount(n, base, large, 10);
    while num != 0
      invariant num != 0 ==> i + |Digits(num, base, large)| == |ds| && Digits(num, base, large) <= ds
      invariant num == 0 ==> i == |ds|
      invariant i <= |ds| <= 10
      invariant forall k | 0 <= k < i :: tmp[k] == ds[|ds| - 1 - k]
      decreases num
    {
      LastDigit(ds, num, base, large);
      var digit;
      digit, num := Divide(num, base);
      tmp[i] := DigitChar(digit, large);
      i := i + 1;
    }
  }

  function PowerOfTen(k: nat): nat { if k == 0 then 1 else 10 * PowerOfTen(k - 1) }

  lemma {:induction false} CountBound(n: nat, base: nat, large: bool, k: nat)
    requires k > 0 && n < PowerOfTen(k)
    ensures |Digits(n, base, large)| <= k
    decreases k
  {
    if n >= Radix(base) {
      CountBound(Quotient(n, base), base, large, k - 1);
    }
  }

  lemma DigitCount(n: nat, base: nat, large: bool, k: nat)
    requires n < WORD && k == 10
    ensures |Digits(n, base, large)| <= k
  {
    assert PowerOfTen(10) == 10_000_000_000;
    CountBound(n, base, large, k);
  }
}
