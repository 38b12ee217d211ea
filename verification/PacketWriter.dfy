/**
  * `generate` and the writers behind it, as methods that write one field after another to a stream.
  */
module PacketWriter {
  import opened Basics
  import opened PacketCodec
  import opened PacketStream
  import opened PacketText
  import Utf8

  /** The checks the writers make on values before anything is written. */
  predicate Accepts(b: Body<Text>) {
    match b
    case Connect(_, version, clean, _, clientId, will, username, password) =>
      && (|clientId| > 0 || (version == 4 && clean)) && (will.Some? ==> |will.value.topic| > 0)
      && (password.Some? ==> username.Some?)
    case Subscribe(_, subs) => |subs| > 0
    case Suback(_, granted) => |granted| > 0
    case Unsubscribe(_, topics) => |topics| > 0
    case _ => true
  }

  /** The types and ranges the writers rely on, and the flags their header tables have an entry for. */
  ghost predicate InRange(p: Packet<Text>) {
    var h, raw := p.header, RawBody(p.body);
    && TextLength(p) < LIMIT
    && match raw
       case Connect(pid, version, _, keepalive, clientId, will, username, password) =>
         && h == Header(1, false, 0, false) && (pid == MQTT || pid == MQISDP) && (version == 3 || version == 4)
         && keepalive < 0x1_0000 && Short(clientId)
         && (will.Some? ==> Short(will.value.topic) && |will.value.payload| < 0x1_0000 && will.value.qos <= 2)
         && (username.Some? ==> Short(username.value)) && (password.Some? ==> |password.value| < 0x1_0000)
       case Connack(_, code) => h == Header(2, false, 0, false) && code < 0x100
       case Publish(topic, id, payload) =>
         && h.cmd == 3 && h.qos <= 2 && Short(topic)
         && (if h.qos == 0 then id.None? else id.Some? && 0 <= id.value < 0x1_0000)
       case Confirmation(id) =>
         && (if h.cmd == 6 then h.qos == 1 else h.cmd in {4, 5, 7, 11} && h.qos == 0)
         && !h.dup && !h.retain && 0 <= id < 0x1_0000
       case Subscribe(id, subs) =>
         && h == Header(8, h.dup, 1, false) && 0 <= id < 0x1_0000 && (forall s <- subs :: Short(s.filter) && s.qos <= 2)
       case Suback(id, _) => h == Header(9, false, 0, false) && 0 <= id < 0x1_0000
       case Unsubscribe(id, topics) =>
         h == Header(10, h.dup, 1, false) && 0 <= id < 0x1_0000 && (forall t <- topics :: Short(t))
       case Empty => h.cmd in {12, 13, 14} && !h.dup && h.qos == 0 && !h.retain
  }

  lemma AcceptsWritable(p: Packet<Text>)
    requires InRange(p)
    ensures Accepts(p.body) <==> Writable(Raw(p))
  {
    if p.body.Connect? {
      EncodedLength(p.body.clientId, None);
      EmptyText(p.body.clientId);
      if p.body.will.Some? { EncodedLength(p.body.will.value.topic, None); EmptyText(p.body.will.value.topic); }
    }
  }

  lemma EmptyText(s: Text)
    ensures |s| == 0 ==> |RawText(s)| == 0
  {
  }

  function CalcLength(n: nat): nat {
    if n < 0x80 then 1 else if n < 0x4000 then 2 else if n < 0x20_0000 then 3 else if n < LIMIT then 4 else 0
  }

  lemma CalcLengthIs(n: nat)
    requires n < LIMIT
    ensures CalcLength(n) == |VarBytes(n)|
  {
    VarBytesMore(n);
    if n >= 0x80 {
      VarBytesMore(n / 0x80);
      if n >= 0x4000 {
        VarBytesMore(n / 0x80 / 0x80);
        if n >= 0x20_0000 { VarBytesMore(n / 0x80 / 0x80 / 0x80); }
      }
    }
  }

  lemma VarBytesMore(n: nat)
    ensures |VarBytes(n)| == if n < 0x80 then 1 else 1 + |VarBytes(n / 0x80)|
  {
  }

  /** `genBufVariableByteInt`; none where the write past the end of the empty buffer throws. */
  method GenVarByteInt(n: nat) returns (r: Option<Bytes>)
    ensures r == if n < LIMIT then Some(VarBytes(n)) else None
  {
    var buffer := new Byte[CalcLength(n)](_ => 0);
    if n < LIMIT { CalcLengthIs(n); }
    var num, pos := n, 0;
    while true
      invariant n < LIMIT ==> pos < buffer.Length
      invariant n < LIMIT ==> buffer[..pos] + VarBytes(num) == VarBytes(n)
      invariant 0 <= num && 0 <= pos <= buffer.Length
      decreases num, buffer.Length - pos
    {
      var digit := num % 0x80;
      ghost var before := num;
      num := num / 0x80;
      if num > 0 { digit := digit + 0x80; }
      if pos >= buffer.Length { return None; }
      VarBytesMore(before);
      ghost var start := buffer[..pos];
      buffer[pos] := digit;
      pos := pos + 1;
      assert buffer[..pos] == start + [digit];
      if num == 0 { break; }
      Associative(start, [digit], VarBytes(num));
    }
    assert buffer[..pos] == buffer[..];
    return Some(buffer[..]);
  }

  /** The stream packets are written to. `rest` is what the writer still has to write afterwards. */
  class Stream {
    var written: Bytes

    constructor ()
      ensures written == []
    {
      written := [];
    }

    method Write(b: Bytes, ghost rest: Bytes)
      modifies this
      ensures written == old(written) + b && written + rest == old(written) + (b + rest)
    {
      written := written + b;
      Associative(old(written), b, rest);
    }

    method WriteNumber(n: nat, ghost rest: Bytes)
      requires n < 0x1_0000
      modifies this
      ensures written == old(written) + Num(n) && written + rest == old(written) + (Num(n) + rest)
    {
      Write([n / 0x100, n % 0x100], rest);
    }

    /** `writeString`, and `writeStringOrBuffer` on bytes already encoded. */
    method WriteBin(b: Bytes, ghost rest: Bytes)
      requires |b| < 0x1_0000
      modifies this
      ensures written + rest == old(written) + (Bin(b) + rest)
    {
      WriteNumber(|b|, b + rest);
      Write(b, rest);
      Associative(Num(|b|), b, rest);
    }

    method WriteString(s: Text, ghost rest: Bytes)
      requires Short(RawText(s))
      modifies this
      ensures written + rest == old(written) + (Bin(RawText(s)) + rest)
    {
      var bytes := Utf8.Utf8ToBytes(s);
      WriteBin(bytes, rest);
    }

    /** Header and remaining length; `body` is what follows them. */
    method WriteStart(h: Byte, length: nat, ghost body: Bytes)
      requires length < LIMIT
      modifies this
      ensures written + body == old(written) + ([h] + (VarBytes(length) + body))
    {
      Write([h], VarBytes(length) + body);
      var field := GenVarByteInt(length);
      Write(field.value, body);
    }

    /** `generate`: all of the packet's bytes, or nothing when the packet is refused. */
    method Generate(p: Packet<Text>) returns (ok: bool)
      requires InRange(p)
      modifies this
      ensures ok == Accepts(p.body)
      ensures if ok then Writable(Raw(p)) && written == old(written) + TextGenerate(p, []) else written == old(written)
    {
      ok := Accepts(p.body);
      AcceptsWritable(p);
      if !ok { return; }
      ReadsHeader(Raw(p));
      match p.body
      case Connect(_, _, _, _, _, _, _, _) => WriteConnect(p);
      case Connack(_, _) => WriteConnack(p);
      case Publish(_, _, _) => WritePublish(p);
      case Confirmation(_) => WriteConfirmation(p);
      case Subscribe(_, _) => WriteSubscribe(p);
      case Suback(_, _) => WriteSuback(p);
      case Unsubscribe(_, _) => WriteUnsubscribe(p);
      case Empty => WriteEmpty(p);
    }

    method WriteConnack(p: Packet<Text>)
      requires Writable(Raw(p)) && p.body.Connack? && InRange(p) && 0 <= HeaderByte(p.header) < 0x100
      modifies this
      ensures written == old(written) + TextGenerate(p, [])
    {
      var present: Byte, code: Byte := if p.body.sessionPresent then 1 else 0, p.body.returnCode;
      WriteStart(HeaderByte(p.header), 2, [present] + ([code] + []));
      Write([present], [code] + []);
      Write([code], []);
    }

    method WriteConfirmation(p: Packet<Text>)
      requires Writable(Raw(p)) && p.body.Confirmation? && InRange(p) && 0 <= HeaderByte(p.header) < 0x100
      modifies this
      ensures written == old(written) + TextGenerate(p, [])
    {
      WriteStart(HeaderByte(p.header), 2, Num(p.body.messageId) + []);
      WriteNumber(p.body.messageId, []);
    }

    method WriteEmpty(p: Packet<Text>)
      requires Writable(Raw(p)) && p.body.Empty? && InRange(p) && 0 <= HeaderByte(p.header) < 0x100
      modifies this
      ensures written == old(written) + TextGenerate(p, [])
    {
      Write([HeaderByte(p.header), 0], []);
      assert TextGenerate(p, []) == [HeaderByte(p.header), 0];
    }

    method WritePublish(p: Packet<Text>)
      requires Writable(Raw(p)) && p.body.Publish? && InRange(p) && 0 <= HeaderByte(p.header) < 0x100
      modifies this
      ensures written == old(written) + TextGenerate(p, [])
    {
      var topic := Utf8.Utf8ToBytes(p.body.topic);
      var length := |topic| + 2 + |p.body.payload|;
      if p.header.qos > 0 { length := length + 2; }
      ghost var id := if p.body.publishId.Some? then Num(p.body.publishId.value) else [];
      WriteStart(HeaderByte(p.header), length, Bin(topic) + (id + (p.body.payload + [])));
      WriteBin(topic, id + (p.body.payload + []));
      if p.header.qos > 0 {
        WriteNumber(p.body.publishId.value, p.body.payload + []);
      } else {
        assert id + (p.body.payload + []) == p.body.payload + [];
      }
      Write(p.body.payload, []);
    }

    method WriteSuback(p: Packet<Text>)
      requires Writable(Raw(p)) && p.body.Suback? && InRange(p) && 0 <= HeaderByte(p.header) < 0x100
      modifies this
      ensures written == old(written) + TextGenerate(p, [])
    {
      var length := 2;
      for i := 0 to |p.body.granted|
        invariant length == 2 + i
      {
        length := length + 1;
      }
      WriteStart(HeaderByte(p.header), length, Num(p.body.subackId) + (p.body.granted + []));
      WriteNumber(p.body.subackId, p.body.granted + []);
      Write(p.body.granted, []);
    }

    method WriteSubscribe(p: Packet<Text>)
      requires Writable(Raw(p)) && p.body.Subscribe? && InRange(p) && 0 <= HeaderByte(p.header) < 0x100
      modifies this
      ensures written == old(written) + TextGenerate(p, [])
    {
      var length := MeasureSubscriptions(p.body.subscriptions);
      ghost var raw := RawSubscriptions(p.body.subscriptions);
      WriteStart(HeaderByte(p.header), 2 + length, Num(p.body.subscribeId) + SubscriptionBytes(raw, []));
      WriteNumber(p.body.subscribeId, SubscriptionBytes(raw, []));
      WriteSubscriptions(p.body.subscriptions);
    }

    method WriteSubscriptions(subs: seq<Subscription<Text>>)
      requires forall s <- RawSubscriptions(subs) :: Short(s.filter) && s.qos <= 2
      modifies this
      ensures written == old(written) + SubscriptionBytes(RawSubscriptions(subs), [])
    {
      ghost var goal := written + SubscriptionBytes(RawSubscriptions(subs), []);
      assert subs[0..] == subs;
      for j := 0 to |subs|
        invariant forall s <- RawSubscriptions(subs[j..]) :: Short(s.filter) && s.qos <= 2
        invariant written + SubscriptionBytes(RawSubscriptions(subs[j..]), []) == goal
      {
        ghost var more := RawSubscriptions(subs[j + 1..]);
        SubscriptionsFrom(subs, j);
        WriteString(subs[j].filter, [subs[j].qos] + SubscriptionBytes(more, []));
        Write([subs[j].qos], SubscriptionBytes(more, []));
      }
      assert subs[|subs|..] == [] && written + [] == written;
    }

    method WriteUnsubscribe(p: Packet<Text>)
      requires Writable(Raw(p)) && p.body.Unsubscribe? && InRange(p) && 0 <= HeaderByte(p.header) < 0x100
      modifies this
      ensures written == old(written) + TextGenerate(p, [])
    {
      var length := MeasureTopics(p.body.unsubscriptions);
      ghost var raw := RawTopics(p.body.unsubscriptions);
      WriteStart(HeaderByte(p.header), 2 + length, Num(p.body.unsubscribeId) + TopicBytes(raw, []));
      WriteNumber(p.body.unsubscribeId, TopicBytes(raw, []));
      WriteTopics(p.body.unsubscriptions);
    }

    method WriteTopics(topics: seq<Text>)
      requires forall t <- RawTopics(topics) :: Short(t)
      modifies this
      ensures written == old(written) + TopicBytes(RawTopics(topics), [])
    {
      ghost var goal := written + TopicBytes(RawTopics(topics), []);
      assert topics[0..] == topics;
      for j := 0 to |topics|
        invariant forall t <- RawTopics(topics[j..]) :: Short(t)
        invariant written + TopicBytes(RawTopics(topics[j..]), []) == goal
      {
        TopicsFrom(topics, j);
        WriteString(topics[j], TopicBytes(RawTopics(topics[j + 1..]), []));
      }
      assert topics[|topics|..] == [] && written + [] == written;
    }

    method WriteConnect(p: Packet<Text>)
      requires Writable(Raw(p)) && p.body.Connect? && InRange(p) && 0 <= HeaderByte(p.header) < 0x100
      modifies this
      ensures written == old(written) + TextGenerate(p, [])
    {
      var b := p.body;
      ghost var raw := RawBody(b);
      var length := ConnectLength(b);
      var flags := ConnectFlagsOf(b);
      ghost var r1 := ConnectTail(raw, []);
      ghost var r2 := [flags] + (Num(b.keepalive) + r1);
      WriteStart(HeaderByte(p.header), length, Bin(RawText(b.protocolId)) + ([b.version] + r2));
      WriteString(b.protocolId, [b.version] + r2);
      Write([b.version], r2);
      Write([flags], Num(b.keepalive) + r1);
      WriteNumber(b.keepalive, r1);
      WriteConnectFields(b);
    }

    method WriteConnectFields(b: Body<Text>)
      requires b.Connect? && ConnectShort(RawBody(b))
      modifies this
      ensures written == old(written) + ConnectTail(RawBody(b), [])
    {
      ghost var raw := RawBody(b);
      ghost var r1 := PasswordBytes(raw.password, []);
      ghost var r2 := UserBytes(raw.username, r1);
      WriteString(b.clientId, WillBytes(raw.will, r2));
      if b.will.Some? {
        WriteString(b.will.value.topic, Bin(b.will.value.payload) + r2);
        WriteBin(b.will.value.payload, r2);
      }
      if b.username.Some? { WriteString(b.username.value, r1); }
      if b.password.Some? { WriteBin(b.password.value, []); }
    }
  }

  method MeasureSubscriptions(subs: seq<Subscription<Text>>) returns (length: nat)
    ensures length == SubscriptionsLength(RawSubscriptions(subs))
  {
    length := 0;
    assert subs[0..] == subs;
    for i := 0 to |subs|
      invariant length + SubscriptionsLength(RawSubscriptions(subs[i..])) == SubscriptionsLength(RawSubscriptions(subs))
    {
      var bytes := Utf8.Utf8ToBytes(subs[i].filter);
      SubscriptionsFrom(subs, i);
      length := length + |bytes| + 2 + 1;
    }
    assert subs[|subs|..] == [];
  }

  method MeasureTopics(topics: seq<Text>) returns (length: nat)
    ensures length == TopicsLength(RawTopics(topics))
  {
    length := 0;
    assert topics[0..] == topics;
    for i := 0 to |topics|
      invariant length + TopicsLength(RawTopics(topics[i..])) == TopicsLength(RawTopics(topics))
    {
      var bytes := Utf8.Utf8ToBytes(topics[i]);
      TopicsFrom(topics, i);
      length := length + |bytes| + 2;
    }
    assert topics[|topics|..] == [];
  }

  method ConnectLength(b: Body<Text>) returns (length: nat)
    requires b.Connect?
    ensures length == TextLength(Packet(Header(1, false, 0, false), b))
  {
    length := |b.protocolId| + 2;
    length := length + 1;
    length := length + |b.clientId| + 2;
    length := length + 2;
    length := length + 1;
    if b.will.Some? {
      var topic := Utf8.Utf8ToBytes(b.will.value.topic);
      length := length + |topic| + 2;
      length := length + 2 + |b.will.value.payload|;
    }
    if b.username.Some? {
      var name := Utf8.Utf8ToBytes(b.username.value);
      length := length + |name| + 2;
    }
    if b.password.Some? { length := length + |b.password.value| + 2; }
  }

  /** The masks of the source do not overlap, so `|=` is addition. */
  method ConnectFlagsOf(b: Body<Text>) returns (flags: Byte)
    requires b.Connect? && (b.will.Some? ==> b.will.value.qos <= 2)
    ensures flags == ConnectFlags(RawBody(b))
  {
    var f := if b.username.Some? then 0x80 else 0;
    f := f + if b.password.Some? then 0x40 else 0;
    f := f + if b.will.Some? && b.will.value.retain then 0x20 else 0;
    f := f + if b.will.Some? then b.will.value.qos * 8 else 0;
    f := f + if b.will.Some? then 4 else 0;
    f := f + if b.clean then 2 else 0;
    flags := f;
  }

  lemma SubscriptionsFrom(subs: seq<Subscription<Text>>, i: nat)
    requires i < |subs|
    ensures RawSubscriptions(subs[i..])
         == [Subscription(RawText(subs[i].filter), subs[i].qos)] + RawSubscriptions(subs[i + 1..])
  {
    assert subs[i..][1..] == subs[i + 1..];
  }

  lemma TopicsFrom(topics: seq<Text>, i: nat)
    requires i < |topics|
    ensures RawTopics(topics[i..]) == [RawText(topics[i])] + RawTopics(topics[i + 1..])
  {
    assert topics[i..][1..] == topics[i + 1..];
  }
}
