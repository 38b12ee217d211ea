/**
  * The property block of MQTT 5 packets: `getProperties` adds up a length before anything is
  * written, `writeProperties` then writes the block (section 2.2.2 of MQTT 5.0).
  */
module Properties {
  import opened Basics
  import opened PacketCodec
  import opened PacketStream
  import opened PacketText
  import opened PacketWriter
  import Utf8

  datatype Kind = KByte | KInt8 | KInt16 | KInt32 | KVar | KString | KBinary | KPair

  /** The type of a property, given by its code; none for a name that is no property. */
  function KindOf(code: Byte): Option<Kind> {
    match code
    case 1 => Some(KByte) case 2 => Some(KInt32) case 3 => Some(KString) case 8 => Some(KString)
    case 9 => Some(KBinary) case 11 => Some(KVar) case 17 => Some(KInt32) case 18 => Some(KString)
    case 19 => Some(KInt16) case 21 => Some(KString) case 22 => Some(KBinary) case 23 => Some(KByte)
    case 24 => Some(KInt32) case 25 => Some(KByte) case 26 => Some(KString) case 28 => Some(KString)
    case 31 => Some(KString) case 33 => Some(KInt16) case 34 => Some(KInt16) case 35 => Some(KInt16)
    case 36 => Some(KInt8) case 37 => Some(KByte) case 38 => Some(KPair) case 39 => Some(KInt32)
    case 40 => Some(KByte) case 41 => Some(KByte) case 42 => Some(KByte)
    case _ => None
  }

  /** A value and an array of values are kept apart, as `Array.isArray` does. */
  datatype Entry<T> = One(value: T) | Many(values: seq<T>)

  datatype UserProperty = UserProperty(name: Text, entry: Entry<Text>)

  datatype Value =
    | Boolean(flag: bool)
    | Number(n: nat)
    | Str(s: Text)
    | Buffer(bytes: Bytes)
    | Pairs(pairs: seq<UserProperty>)

  datatype Property = Property(code: Byte, entry: Entry<Value>)

  function All<T>(e: Entry<T>): seq<T> { if e.One? then [e.value] else e.values }

  // ------------------------------------------------------ the bytes of a block

  function Num32(n: nat): Bytes {
    [n / 0x100_0000 % 0x100, n / 0x1_0000 % 0x100, n / 0x100 % 0x100, n % 0x100]
  }

  function PairBytes(code: Byte, name: Text, values: seq<Text>): Bytes {
    if |values| == 0 then []
    else [code] + (Bin(RawText(name)) + (Bin(RawText(values[0])) + PairBytes(code, name, values[1..])))
  }

  function PairsBytes(code: Byte, pairs: seq<UserProperty>): Bytes {
    if |pairs| == 0 then [] else PairBytes(code, pairs[0].name, All(pairs[0].entry)) + PairsBytes(code, pairs[1..])
  }

  /** The value is of the type its property has, and short enough for its length field. */
  ghost predicate Fits(kind: Kind, v: Value) {
    match kind
    case KByte => v.Boolean?
    case KInt8 => v.Number?
    case KInt16 => v.Number? && v.n < 0x1_0000
    case KInt32 => v.Number? && v.n < 0x1_0000_0000
    case KVar => v.Number? && v.n < LIMIT
    case KString => v.Str? && Short(RawText(v.s))
    case KBinary => (v.Str? && Short(RawText(v.s))) || (v.Buffer? && |v.bytes| < 0x1_0000)
    case KPair => v.Pairs? && forall p <- v.pairs :: Short(RawText(p.name)) && forall t <- All(p.entry) :: Short(RawText(t))
  }

  function ValueBytes(code: Byte, kind: Kind, v: Value): Bytes
    requires Fits(kind, v)
  {
    match kind
    case KByte => [code, if v.flag then 1 else 0]
    case KInt8 => [code, v.n % 0x100]
    case KInt16 => [code] + Num(v.n)
    case KInt32 => [code] + Num32(v.n)
    case KVar => [code] + VarBytes(v.n)
    case KString => [code] + Bin(RawText(v.s))
    case KBinary => [code] + Bin(if v.Str? then RawText(v.s) else v.bytes)
    case KPair => PairsBytes(code, v.pairs)
  }

  ghost predicate WellTyped(ps: seq<Property>) {
    forall p <- ps :: KindOf(p.code).Some? && forall v <- All(p.entry) :: Fits(KindOf(p.code).value, v)
  }

  function ValuesBytes(code: Byte, kind: Kind, vs: seq<Value>): Bytes
    requires forall v <- vs :: Fits(kind, v)
  {
    if |vs| == 0 then [] else ValueBytes(code, kind, vs[0]) + ValuesBytes(code, kind, vs[1..])
  }

  function EntryBytes(p: Property): Bytes
    requires WellTyped([p])
  {
    assert p in [p];
    ValuesBytes(p.code, KindOf(p.code).value, All(p.entry))
  }

  function BodyOf(ps: seq<Property>): Bytes
    requires WellTyped(ps)
  {
    if |ps| == 0 then []
    else
      assert ps[0] in ps;
      EntryBytes(ps[0]) + BodyOf(ps[1..])
  }

  /** A property block: the length of its body, then the body. */
  function Block(ps: seq<Property>): Bytes
    requires WellTyped(ps)
  {
    VarBytes(|BodyOf(ps)|) + BodyOf(ps)
  }

  // ------------------------------------------------------ the length

  /** `getLengthProperty` on a value that is not a map of user properties. */
  function PlainLength(kind: Kind, v: Value): Option<nat> {
    match kind
    case KByte => if v.Boolean? then Some(2) else None
    case KInt8 => if v.Number? then Some(2) else None
    case KInt16 => if v.Number? then Some(3) else None
    case KInt32 => if v.Number? then Some(5) else None
    case KVar => if v.Number? then Some(1 + CalcLength(v.n)) else None
    case KString => if v.Str? then Some(3 + |RawText(v.s)|) else None
    case KBinary => if v.Str? then Some(3 + |RawText(v.s)|) else if v.Buffer? then Some(3 + |v.bytes|) else None
    case KPair => None
  }

  lemma PlainLengthIs(code: Byte, kind: Kind, v: Value)
    requires kind != KPair && Fits(kind, v)
    ensures PlainLength(kind, v) == Some(|ValueBytes(code, kind, v)|)
  {
    if kind.KVar? { CalcLengthIs(v.n); }
  }

  /** One user property: each of its values is a pair of its own. */
  method MeasurePair(p: UserProperty, ghost code: Byte) returns (length: nat)
    ensures length == |PairBytes(code, p.name, All(p.entry))|
  {
    var name := Utf8.Utf8ToBytes(p.name);
    if p.entry.One? {
      var text := Utf8.Utf8ToBytes(p.entry.value);
      return 1 + 2 + |name| + 2 + |text|;
    }
    length := 0;
    ghost var vs := p.entry.values;
    assert vs[0..] == vs;
    for i := 0 to |p.entry.values|
      invariant length + |PairBytes(code, p.name, vs[i..])| == |PairBytes(code, p.name, vs)|
    {
      var text := Utf8.Utf8ToBytes(p.entry.values[i]);
      assert vs[i..][1..] == vs[i + 1..];
      length := length + 1 + 2 + |name| + 2 + |text|;
    }
  }

  method MeasurePairs(pairs: seq<UserProperty>, ghost code: Byte) returns (length: nat)
    ensures length == |PairsBytes(code, pairs)|
  {
    length := 0;
    assert pairs[0..] == pairs;
    for i := 0 to |pairs|
      invariant length + |PairsBytes(code, pairs[i..])| == |PairsBytes(code, pairs)|
    {
      var one := MeasurePair(pairs[i], code);
      assert pairs[i..][1..] == pairs[i + 1..];
      length := length + one;
    }
  }

  /** `getLengthProperty`; none stands for the `false` it returns next to an error. */
  method MeasureValue(code: Byte, v: Value) returns (length: Option<nat>)
    ensures KindOf(code).Some? && Fits(KindOf(code).value, v) ==> length == Some(|ValueBytes(code, KindOf(code).value, v)|)
  {
    var kind := KindOf(code);
    if kind.None? { return None; }
    if kind.value.KPair? {
      if !v.Pairs? { return None; }
      var n := MeasurePairs(v.pairs, code);
      return Some(n);
    }
    length := PlainLength(kind.value, v);
    if Fits(kind.value, v) { PlainLengthIs(code, kind.value, v); }
  }

  lemma ValuesFrom(code: Byte, kind: Kind, vs: seq<Value>, i: nat)
    requires i < |vs| && forall v <- vs :: Fits(kind, v)
    ensures ValuesBytes(code, kind, vs[i..]) == ValueBytes(code, kind, vs[i]) + ValuesBytes(code, kind, vs[i + 1..])
  {
    assert vs[i..][1..] == vs[i + 1..];
  }

  lemma BodyFrom(ps: seq<Property>, i: nat)
    requires i < |ps| && WellTyped(ps)
    ensures WellTyped(ps[i..]) && WellTyped([ps[i]]) && WellTyped(ps[i + 1..])
    ensures BodyOf(ps[i..]) == EntryBytes(ps[i]) + BodyOf(ps[i + 1..])
  {
    assert ps[i..][1..] == ps[i + 1..];
  }

  /** The length of one entry; wrongly typed values add nothing to it. */
  method MeasureEntry(p: Property) returns (length: nat)
    ensures WellTyped([p]) ==> length == |EntryBytes(p)|
  {
    assert p in [p];
    ghost var kind := if KindOf(p.code).Some? then KindOf(p.code).value else KByte;
    if p.entry.One? {
      var one := MeasureValue(p.code, p.entry.value);
      if WellTyped([p]) { ValuesFrom(p.code, kind, [p.entry.value], 0); }
      return if one.Some? then one.value else 0;
    }
    var vs := p.entry.values;
    length := 0;
    assert vs[0..] == vs;
    for i := 0 to |vs|
      invariant WellTyped([p]) ==> length + |ValuesBytes(p.code, kind, vs[i..])| == |EntryBytes(p)|
    {
      var one := MeasureValue(p.code, vs[i]);
      if WellTyped([p]) { ValuesFrom(p.code, kind, vs, i); }
      length := length + (if one.Some? then one.value else 0);
    }
  }

  /** `false`, an exception for a body too long for its length field, or the two lengths. */
  datatype Outcome = Refused | Throws | Measured(length: nat, body: nat)

  /** Every entry takes at least one byte. */
  ghost predicate NoneEmpty(ps: seq<Property>)
    requires WellTyped(ps)
  {
    forall i | 0 <= i < |ps| :: (BodyFrom(ps, i); |EntryBytes(ps[i])| > 0)
  }

  method GetProperties(properties: Option<seq<Property>>) returns (r: Outcome)
    ensures properties.None? ==> r == Measured(|Block([])|, 0)
    ensures properties.Some? && WellTyped(properties.value) ==>
      var ps := properties.value;
      r == if !NoneEmpty(ps) then Refused
           else if |BodyOf(ps)| >= LIMIT then Throws
           else Measured(|Block(ps)|, |BodyOf(ps)|)
  {
    if properties.None? { return Measured(1, 0); }
    var ps := properties.value;
    ghost var typed := WellTyped(ps);
    var body: nat := 0;
    assert ps[0..] == ps;
    for i := 0 to |ps|
      invariant typed ==> body + |BodyOf(ps[i..])| == |BodyOf(ps)|
      invariant typed ==> forall j | 0 <= j < i :: (BodyFrom(ps, j); |EntryBytes(ps[j])| > 0)
    {
      var one := MeasureEntry(ps[i]);
      if typed { BodyFrom(ps, i); }
      if one == 0 { return Refused; }
      body := body + one;
    }
    var prefix := GenVarByteInt(body);
    if prefix.None? { return Throws; }
    r := Measured(|prefix.value| + body, body);
  }

  // ------------------------------------------------------ writing

  method WritePair(stream: Stream, code: Byte, p: UserProperty, ghost rest: Bytes)
    requires Short(RawText(p.name)) && forall t <- All(p.entry) :: Short(RawText(t))
    modifies stream
    ensures stream.written + rest == old(stream.written) + (PairBytes(code, p.name, All(p.entry)) + rest)
  {
    var vs := All(p.entry);
    ghost var goal := stream.written + (PairBytes(code, p.name, vs) + rest);
    assert vs[0..] == vs;
    for i := 0 to |vs|
      invariant stream.written + (PairBytes(code, p.name, vs[i..]) + rest) == goal
    {
      ghost var more := PairBytes(code, p.name, vs[i + 1..]);
      ghost var name, text := Bin(RawText(p.name)), Bin(RawText(vs[i]));
      assert vs[i..][1..] == vs[i + 1..];
      Nested(code, name, text, more, rest);
      stream.Write([code], name + (text + (more + rest)));
      stream.WriteString(p.name, text + (more + rest));
      stream.WriteString(vs[i], more + rest);
    }
    assert vs[|vs|..] == [] && [] + rest == rest;
  }

  lemma Nested(code: Byte, a: Bytes, b: Bytes, c: Bytes, d: Bytes)
    ensures [code] + (a + (b + c)) + d == [code] + (a + (b + (c + d)))
  {
  }

  method WritePairs(stream: Stream, code: Byte, pairs: seq<UserProperty>, ghost rest: Bytes)
    requires Fits(KPair, Pairs(pairs))
    modifies stream
    ensures stream.written + rest == old(stream.written) + (PairsBytes(code, pairs) + rest)
  {
    ghost var goal := stream.written + (PairsBytes(code, pairs) + rest);
    assert pairs[0..] == pairs;
    for i := 0 to |pairs|
      invariant stream.written + (PairsBytes(code, pairs[i..]) + rest) == goal
    {
      ghost var more := PairsBytes(code, pairs[i + 1..]);
      assert pairs[i..][1..] == pairs[i + 1..];
      Associative(PairBytes(code, pairs[i].name, All(pairs[i].entry)), more, rest);
      WritePair(stream, code, pairs[i], more + rest);
    }
    assert pairs[|pairs|..] == [] && [] + rest == rest;
  }

  method WriteProperty(stream: Stream, code: Byte, v: Value, ghost rest: Bytes)
    requires KindOf(code).Some? && Fits(KindOf(code).value, v)
    modifies stream
    ensures stream.written + rest == old(stream.written) + (ValueBytes(code, KindOf(code).value, v) + rest)
  {
    var kind := KindOf(code).value;
    if kind.KPair? {
      WritePairs(stream, code, v.pairs, rest);
      return;
    }
    if kind.KByte? || kind.KInt8? {
      var b: Byte := if kind.KInt8? then v.n % 0x100 else if v.flag then 1 else 0;
      stream.Write([code], [b] + rest);
      stream.Write([b], rest);
      assert [code, b] + rest == [code] + ([b] + rest);
      return;
    }
    ghost var value := ValueBytes(code, kind, v)[1..];
    assert ValueBytes(code, kind, v) + rest == [code] + (value + rest);
    stream.Write([code], value + rest);
    match kind
    case KInt16 => stream.WriteNumber(v.n, rest);
    case KInt32 => stream.Write(Num32(v.n), rest);
    case KVar =>
      var field := GenVarByteInt(v.n);
      stream.Write(field.value, rest);
    case KString => stream.WriteString(v.s, rest);
    case KBinary => if v.Str? { stream.WriteString(v.s, rest); } else { stream.WriteBin(v.bytes, rest); }
  }

  method WriteEntry(stream: Stream, p: Property, ghost rest: Bytes)
    requires WellTyped([p])
    modifies stream
    ensures stream.written + rest == old(stream.written) + (EntryBytes(p) + rest)
  {
    assert p in [p];
    var vs := All(p.entry);
    ghost var kind := KindOf(p.code).value;
    ghost var goal := stream.written + (EntryBytes(p) + rest);
    assert vs[0..] == vs;
    for i := 0 to |vs|
      invariant stream.written + (ValuesBytes(p.code, kind, vs[i..]) + rest) == goal
    {
      ghost var more := ValuesBytes(p.code, kind, vs[i + 1..]);
      ValuesFrom(p.code, kind, vs, i);
      Associative(ValueBytes(p.code, kind, vs[i]), more, rest);
      WriteProperty(stream, p.code, vs[i], more + rest);
    }
    assert vs[|vs|..] == [] && [] + rest == rest;
  }

  method WriteProperties(stream: Stream, ps: seq<Property>, length: nat)
    requires WellTyped(ps) && length < LIMIT
    modifies stream
    ensures stream.written == old(stream.written) + (VarBytes(length) + BodyOf(ps))
  {
    var field := GenVarByteInt(length);
    ghost var goal := stream.written + (field.value + BodyOf(ps));
    stream.Write(field.value, BodyOf(ps));
    assert ps[0..] == ps;
    for i := 0 to |ps|
      invariant stream.written + BodyOf(ps[i..]) == goal
    {
      BodyFrom(ps, i);
      WriteEntry(stream, ps[i], BodyOf(ps[i + 1..]));
    }
    assert ps[|ps|..] == [] && stream.written + [] == stream.written;
  }

  /**
    * What a writer does with a property map: the length it adds to the packet beforehand is the
    * number of bytes written, and the parser finds the end of the block there.
    */
  method SendProperties(stream: Stream, ps: seq<Property>) returns (r: Outcome)
    requires WellTyped(ps)
    modifies stream
    ensures r.Measured? ==> |stream.written| == |old(stream.written)| + r.length
                              && stream.written == old(stream.written) + Block(ps)
    ensures r.Measured? <==> NoneEmpty(ps) && |BodyOf(ps)| < LIMIT
    ensures !r.Measured? ==> stream.written == old(stream.written)
  {
    r := GetProperties(Some(ps));
    if r.Measured? { WriteProperties(stream, ps, r.body); }
  }

  lemma BlockEnds(ps: seq<Property>, t: Bytes)
    requires WellTyped(ps) && |BodyOf(ps)| < LIMIT
    ensures |Block(ps) + t| > 0
    ensures var r := LengthField(Block(ps) + t, 5);
      r.Some? && r.value.0 == |BodyOf(ps)| && r.value.1 + r.value.0 == |Block(ps)|
  {
    var n := |BodyOf(ps)|;
    Associative(VarBytes(n), BodyOf(ps), t);
    ReadsLength(n, BodyOf(ps) + t, Block(ps) + t, [], 5);
  }
}
