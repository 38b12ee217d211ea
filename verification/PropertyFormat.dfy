/**
  * The property block read as section 2.2.2 of MQTT 5.0 says: identifiers and, by identifier, what
  * follows them. Whatever is written reads back.
  */
module PropertyFormat {
  import opened Basics
  import opened PacketCodec
  import opened PacketStream
  import opened PacketText
  import opened PacketWriter
  import opened Properties

  /** A property as it stands in the block. */
  datatype Item =
    | Integer(code: Byte, n: nat)
    | Data(code: Byte, bytes: Bytes)
    | Couple(code: Byte, name: Bytes, value: Bytes)

  /** A string or binary data at the front: two bytes of length, high byte first, and that many bytes. */
  function TakeData(b: Bytes): Option<(Bytes, Bytes)> {
    if |b| < 2 then None
    else
      var n := (b[0] as int) * 256 + b[1];
      if 2 + n > |b| then None else Some((b[2..2 + n], b[2 + n..]))
  }

  /** A variable byte integer at the front: seven bits a byte, the low ones first. */
  function TakeVar(b: Bytes): Option<(nat, Bytes)> {
    if |b| == 0 then None
    else if b[0] < 128 then Some((b[0], b[1..]))
    else
      var more := TakeVar(b[1..]);
      if more.None? then None else Some((b[0] - 128 + 128 * more.value.0, more.value.1))
  }

  /** The first item of a block, and what follows it. */
  function TakeItem(b: Bytes): Option<(Item, Bytes)>
    requires |b| > 0
  {
    var code, rest := b[0], b[1..];
    match code
    case 1 | 23 | 25 | 36 | 37 | 40 | 41 | 42 =>
      if |rest| < 1 then None else Some((Integer(code, rest[0]), rest[1..]))
    case 19 | 33 | 34 | 35 =>
      if |rest| < 2 then None else Some((Integer(code, (rest[0] as int) * 256 + rest[1]), rest[2..]))
    case 2 | 17 | 24 | 39 =>
      if |rest| < 4 then None
      else Some((Integer(code, (((rest[0] as int) * 256 + rest[1]) * 256 + rest[2]) * 256 + rest[3]), rest[4..]))
    case 11 =>
      var r := TakeVar(rest);
      if r.None? then None else Some((Integer(code, r.value.0), r.value.1))
    case 3 | 8 | 9 | 18 | 21 | 22 | 26 | 28 | 31 =>
      var r := TakeData(rest);
      if r.None? then None else Some((Data(code, r.value.0), r.value.1))
    case 38 =>
      var name := TakeData(rest);
      if name.None? then None
      else
        var value := TakeData(name.value.1);
        if value.None? then None else Some((Couple(code, name.value.0, value.value.0), value.value.1))
    case _ => None
  }

  /** All items, as long as the bytes last. */
  ghost predicate Reads(b: Bytes, items: seq<Item>)
    decreases |items|
  {
    if |items| == 0 then b == []
    else |b| > 0 && TakeItem(b).Some? && TakeItem(b).value.0 == items[0] && Reads(TakeItem(b).value.1, items[1..])
  }

  // ------------------------------------------------------ the items of properties

  function TextItems(code: Byte, name: Text, values: seq<Text>): seq<Item> {
    if |values| == 0 then []
    else [Couple(code, RawText(name), RawText(values[0]))] + TextItems(code, name, values[1..])
  }

  function PairItems(code: Byte, pairs: seq<UserProperty>): seq<Item> {
    if |pairs| == 0 then [] else TextItems(code, pairs[0].name, All(pairs[0].entry)) + PairItems(code, pairs[1..])
  }

  function ValueItems(code: Byte, v: Value): seq<Item> {
    match v
    case Boolean(flag) => [Integer(code, if flag then 1 else 0)]
    case Number(n) => [Integer(code, if code == 36 then n % 256 else n)]
    case Str(s) => [Data(code, RawText(s))]
    case Buffer(bytes) => [Data(code, bytes)]
    case Pairs(pairs) => PairItems(code, pairs)
  }

  function ValuesItems(code: Byte, vs: seq<Value>): seq<Item> {
    if |vs| == 0 then [] else ValueItems(code, vs[0]) + ValuesItems(code, vs[1..])
  }

  function Items(ps: seq<Property>): seq<Item> {
    if |ps| == 0 then [] else ValuesItems(ps[0].code, All(ps[0].entry)) + Items(ps[1..])
  }

  // ------------------------------------------------------ reading back

  lemma TakesData(s: Bytes, rest: Bytes)
    requires |s| < 0x1_0000
    ensures TakeData(Bin(s) + rest) == Some((s, rest))
  {
    var b := Bin(s) + rest;
    assert b[0] == |s| / 0x100 && b[1] == |s| % 0x100;
    assert b[2..2 + |s|] == s && b[2 + |s|..] == rest;
  }

  lemma {:induction false} TakesVar(n: nat, rest: Bytes)
    ensures TakeVar(VarBytes(n) + rest) == Some((n, rest))
    decreases n
  {
    var b := VarBytes(n) + rest;
    if n < 0x80 {
      assert b[1..] == rest;
    } else {
      TakesVar(n / 0x80, rest);
      assert b[1..] == VarBytes(n / 0x80) + rest;
    }
  }

  lemma ReadsCons(b: Bytes, item: Item, rest: Bytes, items: seq<Item>)
    requires |b| > 0 && TakeItem(b) == Some((item, rest)) && Reads(rest, items)
    ensures Reads(b, [item] + items)
  {
    assert ([item] + items)[1..] == items;
  }

  lemma TakesNumber(code: Byte, kind: Kind, n: nat, rest: Bytes, b: Bytes)
    requires KindOf(code) == Some(kind) && Fits(kind, Number(n)) && b == ValueBytes(code, kind, Number(n)) + rest
    ensures |b| > 0 && TakeItem(b) == Some((Integer(code, if code == 36 then n % 256 else n), rest))
  {
    match kind
    case KInt8 => TakesShort(code, n % 0x100, rest, b);
    case KInt16 => TakesTwo(code, n, rest, b);
    case KInt32 => TakesFour(code, n, rest, b);
    case KVar =>
      assert b[1..] == VarBytes(n) + rest;
      TakesVar(n, rest);
  }

  lemma TakesShort(code: Byte, n: Byte, rest: Bytes, b: Bytes)
    requires (KindOf(code) == Some(KByte) || KindOf(code) == Some(KInt8)) && b == [code, n] + rest
    ensures TakeItem(b) == Some((Integer(code, n), rest))
  {
    var r := b[1..];
    assert r[0] == n && r[1..] == rest;
  }

  lemma TakesTwo(code: Byte, n: nat, rest: Bytes, b: Bytes)
    requires KindOf(code) == Some(KInt16) && n < 0x1_0000 && b == [code] + Num(n) + rest
    ensures TakeItem(b) == Some((Integer(code, n), rest))
  {
    var r := b[1..];
    assert r[2..] == rest && r[0] == n / 0x100 && r[1] == n % 0x100;
  }

  lemma TakesFour(code: Byte, n: nat, rest: Bytes, b: Bytes)
    requires KindOf(code) == Some(KInt32) && n < 0x1_0000_0000 && b == [code] + Num32(n) + rest
    ensures TakeItem(b) == Some((Integer(code, n), rest))
  {
    var r := b[1..];
    assert r[4..] == rest && r[..4] == Num32(n);
    Bytes32(n, r[0], r[1], r[2], r[3]);
  }

  lemma Bytes32(n: nat, b0: int, b1: int, b2: int, b3: int)
    requires n < 0x1_0000_0000 && [b0, b1, b2, b3] == Num32(n)
    ensures ((b0 * 256 + b1) * 256 + b2) * 256 + b3 == n
  {
    assert [b0, b1, b2, b3][0] == n / 0x100_0000 % 0x100 && [b0, b1, b2, b3][1] == n / 0x1_0000 % 0x100;
    assert [b0, b1, b2, b3][2] == n / 0x100 % 0x100 && [b0, b1, b2, b3][3] == n % 0x100;
    var m := n / 0x100;
    assert m / 0x100 == n / 0x1_0000 && m / 0x1_0000 == n / 0x100_0000;
  }

  lemma TakesText(code: Byte, s: Bytes, rest: Bytes, b: Bytes)
    requires KindOf(code) == Some(KString) || KindOf(code) == Some(KBinary)
    requires |s| < 0x1_0000 && b == [code] + Bin(s) + rest
    ensures TakeItem(b) == Some((Data(code, s), rest))
  {
    assert b[1..] == Bin(s) + rest;
    TakesData(s, rest);
  }

  lemma TakesCouple(code: Byte, name: Bytes, value: Bytes, rest: Bytes, b: Bytes)
    requires KindOf(code) == Some(KPair) && |name| < 0x1_0000 && |value| < 0x1_0000
    requires b == [code] + (Bin(name) + (Bin(value) + rest))
    ensures TakeItem(b) == Some((Couple(code, name, value), rest))
  {
    assert b[1..] == Bin(name) + (Bin(value) + rest);
    TakesData(name, Bin(value) + rest);
    TakesData(value, rest);
  }

  lemma {:induction false} ReadsTexts(code: Byte, name: Text, values: seq<Text>, rest: Bytes, items: seq<Item>)
    requires KindOf(code) == Some(KPair) && Short(RawText(name)) && (forall t <- values :: Short(RawText(t)))
    requires Reads(rest, items)
    ensures Reads(PairBytes(code, name, values) + rest, TextItems(code, name, values) + items)
    decreases |values|
  {
    if |values| == 0 {
      assert [] + rest == rest && [] + items == items;
    } else {
      var more, later := PairBytes(code, name, values[1..]) + rest, TextItems(code, name, values[1..]) + items;
      ReadsTexts(code, name, values[1..], rest, items);
      ReadsCouple(code, RawText(name), RawText(values[0]), PairBytes(code, name, values[1..]), rest, more,
                  PairBytes(code, name, values) + rest, later);
      Associative([Couple(code, RawText(name), RawText(values[0]))], TextItems(code, name, values[1..]), items);
    }
  }

  lemma ReadsCouple(code: Byte, name: Bytes, value: Bytes, next: Bytes, rest: Bytes, more: Bytes, b: Bytes, items: seq<Item>)
    requires KindOf(code) == Some(KPair) && |name| < 0x1_0000 && |value| < 0x1_0000
    requires more == next + rest && Reads(more, items)
    requires b == [code] + (Bin(name) + (Bin(value) + next)) + rest
    ensures Reads(b, [Couple(code, name, value)] + items)
  {
    FourParts([code], Bin(name), Bin(value), next, rest);
    TakesCouple(code, name, value, more, b);
    ReadsCons(b, Couple(code, name, value), more, items);
  }

  lemma FourParts(a: Bytes, b: Bytes, c: Bytes, d: Bytes, e: Bytes)
    ensures a + (b + (c + d)) + e == a + (b + (c + (d + e)))
  {
    Associative(c, d, e);
    Associative(b, c + d, e);
    Associative(a, b + (c + d), e);
  }

  lemma {:induction false} ReadsPairs(code: Byte, pairs: seq<UserProperty>, rest: Bytes, items: seq<Item>)
    requires KindOf(code) == Some(KPair) && Fits(KPair, Pairs(pairs)) && Reads(rest, items)
    ensures Reads(PairsBytes(code, pairs) + rest, PairItems(code, pairs) + items)
    decreases |pairs|
  {
    if |pairs| == 0 {
      assert [] + rest == rest && [] + items == items;
    } else {
      var name, values := pairs[0].name, All(pairs[0].entry);
      assert pairs[0] in pairs;
      ReadsPairs(code, pairs[1..], rest, items);
      ReadsTexts(code, name, values, PairsBytes(code, pairs[1..]) + rest, PairItems(code, pairs[1..]) + items);
      Associative(PairBytes(code, name, values), PairsBytes(code, pairs[1..]), rest);
      Associative(TextItems(code, name, values), PairItems(code, pairs[1..]), items);
    }
  }

  lemma ReadsValue(code: Byte, kind: Kind, v: Value, rest: Bytes, items: seq<Item>)
    requires KindOf(code) == Some(kind) && Fits(kind, v) && Reads(rest, items)
    ensures Reads(ValueBytes(code, kind, v) + rest, ValueItems(code, v) + items)
  {
    var b := ValueBytes(code, kind, v) + rest;
    match v
    case Boolean(flag) =>
      TakesShort(code, if flag then 1 else 0, rest, b);
      ReadsCons(b, Integer(code, if flag then 1 else 0), rest, items);
    case Number(n) =>
      TakesNumber(code, kind, n, rest, b);
      ReadsCons(b, Integer(code, if code == 36 then n % 256 else n), rest, items);
    case Str(s) =>
      TakesText(code, RawText(s), rest, b);
      ReadsCons(b, Data(code, RawText(s)), rest, items);
    case Buffer(bytes) =>
      TakesText(code, bytes, rest, b);
      ReadsCons(b, Data(code, bytes), rest, items);
    case Pairs(pairs) => ReadsPairs(code, pairs, rest, items);
  }

  lemma {:induction false} ReadsValues(code: Byte, kind: Kind, vs: seq<Value>, rest: Bytes, items: seq<Item>)
    requires KindOf(code) == Some(kind) && (forall v <- vs :: Fits(kind, v)) && Reads(rest, items)
    ensures Reads(ValuesBytes(code, kind, vs) + rest, ValuesItems(code, vs) + items)
    decreases |vs|
  {
    if |vs| == 0 {
      assert [] + rest == rest && [] + items == items;
    } else {
      ReadsValues(code, kind, vs[1..], rest, items);
      ReadsValue(code, kind, vs[0], ValuesBytes(code, kind, vs[1..]) + rest, ValuesItems(code, vs[1..]) + items);
      Associative(ValueBytes(code, kind, vs[0]), ValuesBytes(code, kind, vs[1..]), rest);
      Associative(ValueItems(code, vs[0]), ValuesItems(code, vs[1..]), items);
    }
  }

  lemma {:induction false} ReadsBody(ps: seq<Property>)
    requires WellTyped(ps)
    ensures Reads(BodyOf(ps), Items(ps))
    decreases |ps|
  {
    if |ps| > 0 {
      var p := ps[0];
      assert p in ps;
      ReadsBody(ps[1..]);
      ReadsValues(p.code, KindOf(p.code).value, All(p.entry), BodyOf(ps[1..]), Items(ps[1..]));
    }
  }

  /** A block read by the standard: its length, and then exactly the properties, in order. */
  lemma ReadsBlock(ps: seq<Property>, tail: Bytes)
    requires WellTyped(ps)
    ensures TakeVar(Block(ps) + tail) == Some((|BodyOf(ps)|, BodyOf(ps) + tail)) && Reads(BodyOf(ps), Items(ps))
  {
    Associative(VarBytes(|BodyOf(ps)|), BodyOf(ps), tail);
    TakesVar(|BodyOf(ps)|, BodyOf(ps) + tail);
    ReadsBody(ps);
  }
}
