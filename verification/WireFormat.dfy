/**
  * The bytes of MQTT 3.1.1 packets by position, as sections 2 and 3 of the standard give them, and
  * what the writers and the parser make of them.
  */
module WireFormat {
  import opened Basics
  import opened PacketCodec
  import opened PacketStream
  import opened PacketText
  import opened PacketWriter

  // ------------------------------------------------------ section 1.5: numbers and strings

  /** Two bytes, the high one first. */
  function U16(b: Bytes, i: nat): nat
    requires i + 2 <= |b|
  {
    (b[i] as int) * 256 + b[i + 1]
  }

  /** At `i` the two bytes of the length of `s`, and `s` behind them, all in the first `end` bytes. */
  ghost predicate StringAt(b: Bytes, i: nat, end: nat, s: Bytes) {
    i + 2 + |s| <= end <= |b| && U16(b, i) == |s| && b[i + 2..i + 2 + |s|] == s
  }

  function After(i: nat, s: Bytes): nat { i + 2 + |s| }

  // ------------------------------------------------------ section 2.2: the fixed header

  ghost predicate FirstByte(b: int, h: Header, body: Body<Bytes>) {
    match body
    case Connect(_, _, _, _, _, _, _, _) => b == 0x10
    case Connack(_, _) => b == 0x20
    case Publish(_, _, _) => b == 0x30 + (if h.dup then 8 else 0) + 2 * h.qos + (if h.retain then 1 else 0)
    case Confirmation(_) =>
      b == (match h.cmd case 4 => 0x40 case 5 => 0x50 case 6 => 0x62 case 7 => 0x70 case _ => 0xB0)
    case Subscribe(_, _) => b == if h.dup then 0x8A else 0x82
    case Suback(_, _) => b == 0x90
    case Unsubscribe(_, _) => b == if h.dup then 0xAA else 0xA2
    case Empty => b == (match h.cmd case 12 => 0xC0 case 13 => 0xD0 case _ => 0xE0)
  }

  /** Section 2.2.3: seven bits to a byte, the low ones first, and 128 added to all but the last. */
  ghost predicate LengthBytes(f: seq<int>, n: nat) {
    match |f|
    case 1 => f[0] == n < 128
    case 2 => f[0] >= 128 > f[1] && 128 <= n < 128 * 128 && (f[0] - 128) + 128 * f[1] == n
    case 3 => f[0] >= 128 && f[1] >= 128 > f[2] && 128 * 128 <= n < 128 * 128 * 128
              && (f[0] - 128) + 128 * (f[1] - 128) + 128 * 128 * f[2] == n
    case 4 => f[0] >= 128 && f[1] >= 128 && f[2] >= 128 > f[3] && n >= 128 * 128 * 128
              && (f[0] - 128) + 128 * (f[1] - 128) + 128 * 128 * (f[2] - 128) + 128 * 128 * 128 * f[3] == n
    case _ => false
  }

  // ------------------------------------------------------ section 3: variable header and payload

  ghost predicate FlagBits(f: Byte, b: Body<Bytes>)
    requires b.Connect?
  {
    && (f >= 128 <==> b.username.Some?) && (f / 64 % 2 == 1 <==> b.password.Some?)
    && (f / 4 % 2 == 1 <==> b.will.Some?) && (f / 2 % 2 == 1 <==> b.clean)
    && (b.will.Some? ==> f / 8 % 4 == b.will.value.qos && (f / 32 % 2 == 1 <==> b.will.value.retain))
  }

  function AfterWill(i: nat, w: Option<Will<Bytes>>): nat {
    if w.None? then i else After(After(i, w.value.topic), w.value.payload)
  }

  function AfterOption(i: nat, s: Option<Bytes>): nat { if s.None? then i else After(i, s.value) }

  /** The payload of CONNECT: client id, will topic and message, user name, password. */
  ghost predicate ConnectPayload(b: Bytes, i: nat, end: nat, c: Body<Bytes>)
    requires c.Connect?
  {
    var w := After(i, c.clientId);
    var u := AfterWill(w, c.will);
    var p := AfterOption(u, c.username);
    && StringAt(b, i, end, c.clientId)
    && (c.will.Some? ==> StringAt(b, w, end, c.will.value.topic)
                         && StringAt(b, After(w, c.will.value.topic), end, c.will.value.payload))
    && (c.username.Some? ==> StringAt(b, u, end, c.username.value))
    && (c.password.Some? ==> StringAt(b, p, end, c.password.value))
  }

  ghost predicate SubscriptionsAt(b: Bytes, i: nat, end: nat, subs: seq<Subscription<Bytes>>)
    decreases |subs|
  {
    if |subs| == 0 then i >= end
    else
      var q := After(i, subs[0].filter);
      StringAt(b, i, end, subs[0].filter) && q < end && b[q] % 4 == subs[0].qos && SubscriptionsAt(b, q + 1, end, subs[1..])
  }

  ghost predicate TopicsAt(b: Bytes, i: nat, end: nat, topics: seq<Bytes>)
    decreases |topics|
  {
    if |topics| == 0 then i >= end
    else StringAt(b, i, end, topics[0]) && TopicsAt(b, After(i, topics[0]), end, topics[1..])
  }

  /** An id, and where its two bytes end; -1 and no bytes when the buffer ends before them. */
  ghost predicate IdAt(b: Bytes, i: nat, id: int) { id == if i + 2 <= |b| then U16(b, i) else -1 }

  function AfterId(b: Bytes, i: nat): nat { if i + 2 <= |b| then i + 2 else i }

  /** The first `end` bytes of `b` are these fields. */
  ghost predicate Fields(b: Bytes, end: nat, h: Header, body: Body<Bytes>) {
    end <= |b| &&
    match body
    case Connect(pid, version, clean, keepalive, clientId, will, username, password) =>
      var v := After(0, pid);
      && StringAt(b, 0, end, pid) && v + 4 <= |b| && b[v] == version && FlagBits(b[v + 1], body)
      && U16(b, v + 2) == keepalive && ConnectPayload(b, v + 4, end, body)
    case Connack(present, code) => |b| >= 2 && (b[0] % 2 == 1 <==> present) && b[1] == code
    case Publish(topic, id, payload) =>
      var i := After(0, topic);
      && StringAt(b, 0, end, topic)
      && (if h.qos == 0 then id.None? && payload == b[i..end]
          else id.Some? && IdAt(b, i, id.value) && AfterId(b, i) <= end && payload == b[AfterId(b, i)..end])
    case Confirmation(id) => IdAt(b, 0, id)
    case Subscribe(id, subs) => IdAt(b, 0, id) && SubscriptionsAt(b, AfterId(b, 0), end, subs)
    case Suback(id, granted) => IdAt(b, 0, id) && granted == (if AfterId(b, 0) <= end then b[AfterId(b, 0)..end] else [])
    case Unsubscribe(id, topics) => IdAt(b, 0, id) && TopicsAt(b, AfterId(b, 0), end, topics)
    case Empty => true
  }

  // ------------------------------------------------------ what is read

  /** `rest` and `left` are what a reader at place `i` of `b` has before it. */
  ghost predicate ReadingAt(b: Bytes, i: nat, end: nat, rest: Bytes, left: int) {
    i <= |b| && end <= |b| && rest == b[i..] && left == end - i
  }

  lemma NumberRead(b: Bytes, i: nat, end: nat, rest: Bytes, left: int)
    requires ReadingAt(b, i, end, rest, left)
    ensures IdAt(b, i, Number(rest))
    ensures ReadingAt(b, AfterId(b, i), end, AfterNumber(rest), left - (AfterId(b, i) - i))
  {
  }

  lemma StringRead(b: Bytes, i: nat, end: nat, rest: Bytes, left: int, e: ParseError)
    requires ReadingAt(b, i, end, rest, left) && ReadBin(rest, left, e).Ok?
    ensures var (s, rest', left') := ReadBin(rest, left, e).value;
      StringAt(b, i, end, s) && ReadingAt(b, After(i, s), end, rest', left')
  {
    var n := Number(rest);
    FrontBack(rest[2..], n);
    assert rest[2..] == b[i + 2..];
    assert b[i + 2..][..n] == b[i + 2..i + 2 + n] && b[i + 2..][n..] == b[i + 2 + n..];
  }

  lemma WillRead(b: Bytes, i: nat, end: nat, flags: nat, rest: Bytes, left: int)
    requires ReadingAt(b, i, end, rest, left) && ReadWill(flags, rest, left).Ok?
    ensures var (w, rest', left') := ReadWill(flags, rest, left).value;
      && ReadingAt(b, AfterWill(i, w), end, rest', left') && (flags / 4 % 2 == 1 <==> w.Some?)
      && (w.Some? ==> StringAt(b, i, end, w.value.topic) && StringAt(b, After(i, w.value.topic), end, w.value.payload)
                      && flags / 8 % 4 == w.value.qos && (flags / 32 % 2 == 1 <==> w.value.retain))
  {
    if Flag(flags, 4) {
      StringRead(b, i, end, rest, left, BadWillTopic);
      var (topic, rest1, left1) := ReadBin(rest, left, BadWillTopic).value;
      StringRead(b, After(i, topic), end, rest1, left1, BadWillPayload);
    }
  }

  lemma UsernameRead(b: Bytes, i: nat, end: nat, flags: nat, rest: Bytes, left: int)
    requires ReadingAt(b, i, end, rest, left) && ReadUsername(flags, rest, left).Ok?
    ensures var (s, rest', left') := ReadUsername(flags, rest, left).value;
      && ReadingAt(b, AfterOption(i, s), end, rest', left') && (flags / 128 % 2 == 1 <==> s.Some?)
      && (s.Some? ==> StringAt(b, i, end, s.value))
  {
    if Flag(flags, 0x80) { StringRead(b, i, end, rest, left, BadUsername); }
  }

  lemma PasswordRead(b: Bytes, i: nat, end: nat, flags: nat, rest: Bytes, left: int)
    requires ReadingAt(b, i, end, rest, left) && ReadPassword(flags, rest, left).Ok?
    ensures var s := ReadPassword(flags, rest, left).value.0;
      (flags / 64 % 2 == 1 <==> s.Some?) && (s.Some? ==> StringAt(b, i, end, s.value))
  {
    if Flag(flags, 0x40) { StringRead(b, i, end, rest, left, BadPassword); }
  }

  lemma PayloadRead(b: Bytes, i: nat, end: nat, pid: Bytes, version: nat, flags: Byte, keepalive: nat,
                    rest: Bytes, left: int)
    requires ReadingAt(b, i, end, rest, left) && ReadConnectFields(pid, version, flags, keepalive, rest, left).Ok?
    ensures var c := ReadConnectFields(pid, version, flags, keepalive, rest, left).value;
      && c.Connect? && c.protocolId == pid && c.version == version && c.keepalive == keepalive
      && FlagBits(flags, c) && ConnectPayload(b, i, end, c)
  {
    StringRead(b, i, end, rest, left, TooShort);
    var (clientId, rest1, left1) := ReadBin(rest, left, TooShort).value;
    var w := After(i, clientId);
    WillRead(b, w, end, flags, rest1, left1);
    var (will, rest2, left2) := ReadWill(flags, rest1, left1).value;
    UsernameRead(b, AfterWill(w, will), end, flags, rest2, left2);
    var (username, rest3, left3) := ReadUsername(flags, rest2, left2).value;
    PasswordRead(b, AfterOption(AfterWill(w, will), username), end, flags, rest3, left3);
  }

  lemma ByteRead(b: Bytes, i: nat, end: nat, rest: Bytes, left: int)
    requires ReadingAt(b, i, end, rest, left) && |rest| > 0
    ensures i < |b| && rest[0] == b[i] && ReadingAt(b, i + 1, end, rest[1..], left - 1)
  {
  }

  lemma KeepaliveRead(b: Bytes, i: nat, end: nat, pid: Bytes, version: nat, flags: Byte, rest: Bytes, left: int)
    requires ReadingAt(b, i, end, rest, left) && ReadKeepalive(pid, version, flags, rest, left).Ok?
    ensures var c := ReadKeepalive(pid, version, flags, rest, left).value;
      && c.Connect? && c.protocolId == pid && c.version == version && i + 2 <= |b| && c.keepalive == U16(b, i)
      && FlagBits(flags, c) && ConnectPayload(b, i + 2, end, c)
  {
    NumberRead(b, i, end, rest, left);
    PayloadRead(b, i + 2, end, pid, version, flags, Number(rest), AfterNumber(rest), left - 2);
  }

  lemma VersionRead(b: Bytes, i: nat, end: nat, pid: Bytes, rest: Bytes, left: int)
    requires ReadingAt(b, i, end, rest, left) && ReadVersion(pid, rest, left).Ok?
    ensures var c := ReadVersion(pid, rest, left).value;
      && c.Connect? && c.protocolId == pid && i + 4 <= |b| && c.version == b[i] && c.keepalive == U16(b, i + 2)
      && FlagBits(b[i + 1], c) && ConnectPayload(b, i + 4, end, c)
  {
    ByteRead(b, i, end, rest, left);
    ByteRead(b, i + 1, end, rest[1..], left - 1);
    KeepaliveRead(b, i + 2, end, pid, b[i], b[i + 1], rest[1..][1..], left - 2);
  }

  lemma ConnectRead(b: Bytes, end: nat, h: Header)
    requires end <= |b| && ReadConnect(b, end).Ok?
    ensures Fields(b, end, h, ReadConnect(b, end).value)
  {
    assert b[0..] == b;
    StringRead(b, 0, end, b, end, BadProtocolId);
    var (pid, rest, left) := ReadBin(b, end, BadProtocolId).value;
    VersionRead(b, After(0, pid), end, pid, rest, left);
  }

  lemma PublishRead(b: Bytes, end: nat, h: Header)
    requires end <= |b| && ReadPublish(h.qos, b, end).Ok?
    ensures Fields(b, end, h, ReadPublish(h.qos, b, end).value)
  {
    assert b[0..] == b;
    StringRead(b, 0, end, b, end, BadTopic);
    var (topic, rest, left) := ReadBin(b, end, BadTopic).value;
    var i := After(0, topic);
    if h.qos == 0 {
      FrontBack(rest, left);
      assert rest[..left] == b[i..end];
    } else {
      NumberRead(b, i, end, rest, left);
      var j := AfterId(b, i);
      FrontBack(AfterNumber(rest), end - j);
      assert AfterNumber(rest)[..end - j] == b[j..end];
    }
  }

  lemma {:induction false} SubscriptionsRead(b: Bytes, i: nat, end: nat, rest: Bytes, left: int,
                                            subs: seq<Subscription<Bytes>>)
    requires ReadingAt(b, i, end, rest, left) && ReadSubscriptions(rest, left) == Ok(subs)
    ensures SubscriptionsAt(b, i, end, subs)
    decreases |rest|
  {
    if left <= 0 {
      assert subs == [];
    } else {
      var topic, rest1, left1, more := FirstSubscription(rest, left, subs);
      OptionRead(b, i, end, rest, left, topic, rest1, left1);
      SubscriptionsRead(b, After(i, topic) + 1, end, rest1[1..], left1 - 1, more);
      SubscriptionsCons(b, i, end, topic, rest1[0], more, subs);
    }
  }

  lemma OptionRead(b: Bytes, i: nat, end: nat, rest: Bytes, left: int, s: Bytes, rest1: Bytes, left1: int)
    requires ReadingAt(b, i, end, rest, left) && ReadBin(rest, left, BadTopic) == Ok((s, rest1, left1))
    requires left1 > 0 && |rest1| > 0
    ensures StringAt(b, i, end, s) && After(i, s) < end && b[After(i, s)] == rest1[0]
    ensures ReadingAt(b, After(i, s) + 1, end, rest1[1..], left1 - 1)
  {
    StringRead(b, i, end, rest, left, BadTopic);
    ByteRead(b, After(i, s), end, rest1, left1);
  }

  lemma FirstSubscription(rest: Bytes, left: int, subs: seq<Subscription<Bytes>>)
      returns (topic: Bytes, rest1: Bytes, left1: int, more: seq<Subscription<Bytes>>)
    requires left > 0 && ReadSubscriptions(rest, left) == Ok(subs)
    ensures ReadBin(rest, left, BadTopic) == Ok((topic, rest1, left1)) && left1 > 0 && 0 < |rest1| < |rest|
    ensures ReadSubscriptions(rest1[1..], left1 - 1) == Ok(more) && subs == [Subscription(topic, rest1[0] % 4)] + more
  {
    var r := ReadBin(rest, left, BadTopic).value;
    topic, rest1, left1 := r.0, r.1, r.2;
    more := ReadSubscriptions(rest1[1..], left1 - 1).value;
  }

  lemma SubscriptionsCons(b: Bytes, i: nat, end: nat, s: Bytes, option: Byte, more: seq<Subscription<Bytes>>,
                          subs: seq<Subscription<Bytes>>)
    requires StringAt(b, i, end, s) && After(i, s) < end && b[After(i, s)] == option
    requires SubscriptionsAt(b, After(i, s) + 1, end, more) && subs == [Subscription(s, option % 4)] + more
    ensures SubscriptionsAt(b, i, end, subs)
  {
    assert subs[1..] == more;
  }

  lemma {:induction false} TopicsRead(b: Bytes, i: nat, end: nat, rest: Bytes, left: int)
    requires ReadingAt(b, i, end, rest, left) && ReadTopics(rest, left).Ok?
    ensures TopicsAt(b, i, end, ReadTopics(rest, left).value)
    decreases |rest|
  {
    if left > 0 {
      StringRead(b, i, end, rest, left, BadTopic);
      var (topic, rest1, left1) := ReadBin(rest, left, BadTopic).value;
      TopicsRead(b, After(i, topic), end, rest1, left1);
      assert ReadTopics(rest, left).value[1..] == ReadTopics(rest1, left1).value;
    }
  }

  /** Whatever the parser reads stands in the bytes where the standard puts it. */
  lemma ReadsByPosition(h: Header, end: nat, b: Bytes)
    requires end <= |b| && ReadBody(h, end, b).Ok?
    ensures Fields(b, end, h, ReadBody(h, end, b).value)
  {
    assert b[0..] == b;
    var i := AfterId(b, 0);
    NumberRead(b, 0, end, b, end);
    match h.cmd
    case 1 => ConnectRead(b, end, h);
    case 3 => PublishRead(b, end, h);
    case 8 => SubscriptionsRead(b, i, end, AfterNumber(b), end - i, ReadBody(h, end, b).value.subscriptions);
    case 9 => if i <= end { FrontBack(b[i..], end - i); assert b[i..][..end - i] == b[i..end]; }
    case 10 => TopicsRead(b, i, end, AfterNumber(b), end - i);
    case _ =>
  }

  lemma HeaderRead(cmd: nat, dup: bool, qos: nat, retain: bool)
    requires cmd < 16 && qos < 4
    ensures HeaderOf(16 * cmd + (if dup then 8 else 0) + 2 * qos + (if retain then 1 else 0))
         == Header(cmd, dup, qos, retain)
  {
  }

  lemma LengthRead(f: Bytes, n: nat, rest: Bytes)
    requires LengthBytes(f, n)
    ensures LengthField(f + rest, 5) == Some((n, |f|))
  {
    var x := f + rest;
    if |f| > 1 {
      var x1 := x[1..];
      assert x1[0] == f[1];
      if |f| > 2 {
        var x2 := x1[1..];
        assert x2[0] == f[2];
        if |f| > 3 {
          assert x2[1..][0] == f[3];
          assert LengthField(x2[1..], 2) == Some((f[3], 1));
        }
        assert LengthField(x2, 3).Some?;
      }
      assert LengthField(x1, 4).Some?;
    }
  }

  // ------------------------------------------------------ what is written

  lemma LengthWritten(n: nat)
    requires n < LIMIT
    ensures LengthBytes(VarBytes(n), n)
  {
    if n >= 0x80 {
      var m := n / 0x80;
      assert VarBytes(n) == [n % 0x80 + 0x80] + VarBytes(m);
      if m >= 0x80 {
        assert VarBytes(m) == [m % 0x80 + 0x80] + VarBytes(m / 0x80);
      }
    }
  }

  lemma FirstWritten(p: Packet<Bytes>)
    requires Writable(p)
    ensures FirstByte(HeaderByte(p.header), p.header, p.body)
  {
  }

  /** Where the last field ends. */
  function FieldsEnd(body: Body<Bytes>): nat {
    match body
    case Connect(pid, _, _, _, clientId, will, username, password) =>
      AfterOption(AfterOption(AfterWill(After(After(0, pid) + 4, clientId), will), username), password)
    case Connack(_, _) => 2
    case Publish(topic, id, payload) => After(0, topic) + (if id.Some? then 2 else 0) + |payload|
    case Confirmation(_) => 2
    case Subscribe(_, subs) => 2 + SubscriptionsSize(subs)
    case Suback(_, granted) => 2 + |granted|
    case Unsubscribe(_, topics) => 2 + TopicsSize(topics)
    case Empty => 0
  }

  function SubscriptionsSize(subs: seq<Subscription<Bytes>>): nat {
    if |subs| == 0 then 0 else 2 + |subs[0].filter| + 1 + SubscriptionsSize(subs[1..])
  }

  function TopicsSize(topics: seq<Bytes>): nat {
    if |topics| == 0 then 0 else 2 + |topics[0]| + TopicsSize(topics[1..])
  }

  /** The requested QoS of a subscription has a byte to itself. */
  ghost predicate OptionsPlain(b: Bytes, i: nat, subs: seq<Subscription<Bytes>>)
    decreases |subs|
  {
    |subs| == 0 || (var q := After(i, subs[0].filter); q < |b| && b[q] <= 2 && OptionsPlain(b, q + 1, subs[1..]))
  }

  /** Bits without a meaning are 0. */
  ghost predicate ReservedZero(b: Bytes, body: Body<Bytes>) {
    match body
    case Connect(pid, _, _, _, _, will, _, _) =>
      var f := After(0, pid) + 1;
      f < |b| && b[f] % 2 == 0 && (will.None? ==> b[f] / 8 % 8 == 0)
    case Connack(_, _) => |b| > 0 && b[0] <= 1
    case Subscribe(_, subs) => OptionsPlain(b, 2, subs)
    case _ => true
  }

  lemma {:induction false} OptionsWritten(pre: Bytes, subs: seq<Subscription<Bytes>>, b: Bytes)
    requires (forall s <- subs :: s.qos <= 2) && b == pre + SubscriptionBytes(subs, [])
    ensures OptionsPlain(b, |pre|, subs) && |b| == |pre| + SubscriptionsSize(subs)
    decreases |subs|
  {
    if |subs| > 0 {
      var f, q, more := Bin(subs[0].filter), [subs[0].qos], SubscriptionBytes(subs[1..], []);
      assert b == (pre + f + q) + more;
      OptionsWritten(pre + f + q, subs[1..], b);
      assert b[|pre| + |f|] == q[0];
    }
  }

  lemma {:induction false} TopicsWritten(topics: seq<Bytes>)
    ensures |TopicBytes(topics, [])| == TopicsSize(topics)
  {
    if |topics| > 0 { TopicsWritten(topics[1..]); }
  }

  lemma SizeWritten(p: Packet<Bytes>)
    requires Writable(p)
    ensures |BodyBytes(p, [])| == FieldsEnd(p.body)
  {
    match p.body
    case Subscribe(id, subs) => OptionsWritten(Num(id), subs, BodyBytes(p, []));
    case Unsubscribe(_, topics) => TopicsWritten(topics);
    case _ =>
  }

  lemma ReservedWritten(p: Packet<Bytes>)
    requires Writable(p)
    ensures ReservedZero(BodyBytes(p, []), p.body)
  {
    match p.body
    case Connect(pid, version, _, keepalive, _, _, _, _) =>
      FlagsWritten(p.body);
      var f := FlagByte(p.body);
      FlagsAt(Bin(pid), version, f, Num(keepalive) + ConnectTail(p.body, []), BodyBytes(p, []));
    case Subscribe(id, subs) => OptionsWritten(Num(id), subs, BodyBytes(p, []));
    case _ =>
  }

  lemma FlagsAt(pid: Bytes, version: Byte, f: Byte, rest: Bytes, b: Bytes)
    requires b == pid + ([version] + ([f] + rest))
    ensures |pid| + 1 < |b| && b[|pid| + 1] == f
  {
  }

  lemma FlagsWritten(c: Body<Bytes>)
    requires c.Connect? && (c.will.Some? ==> c.will.value.qos <= 2)
    ensures ConnectFlags(c) % 2 == 0 && (c.will.None? ==> ConnectFlags(c) / 8 % 8 == 0)
  {
  }

  /**
    * What is generated for a packet, byte by byte: its type and flags, the remaining length, and all
    * its fields where the standard puts them, with nothing between or behind them.
    */
  lemma WritesByPosition(p: Packet<Text>) returns (first: Byte, length: Bytes, body: Bytes)
    requires Writable(Raw(p)) && TextLength(p) < LIMIT
    ensures TextGenerate(p, []) == [first] + (length + body)
    ensures FirstByte(first, p.header, RawBody(p.body)) && LengthBytes(length, TextLength(p))
    ensures |body| == FieldsEnd(RawBody(p.body)) && Fields(body, |body|, p.header, RawBody(p.body))
    ensures ReservedZero(body, RawBody(p.body))
  {
    var raw := Raw(p);
    ReadsHeader(raw);
    first, length, body := HeaderByte(p.header), VarBytes(TextLength(p)), BodyBytes(raw, []);
    FirstWritten(raw);
    LengthWritten(TextLength(p));
    SizeWritten(raw);
    ReservedWritten(raw);
    ReadsBody(raw, []);
    BodyTail(raw, []);
    ReadsByPosition(p.header, |body|, body);
  }

  /** The shortest of them, written out. */
  lemma ConnackWritten(present: bool, code: Byte)
    ensures var p := Packet(Header(2, false, 0, false), Connack(present, code));
      Writable(Raw(p)) && TextGenerate(p, []) == [0x20, 2, if present then 1 else 0, code]
  {
  }

  lemma AckWritten(cmd: nat, id: nat)
    requires cmd in {4, 5, 6, 7, 11} && id < 0x1_0000
    ensures var p := Packet(Header(cmd, false, if cmd == 6 then 1 else 0, false), Confirmation(id));
      && Writable(Raw(p))
      && TextGenerate(p, [])
      == [match cmd case 4 => 0x40 case 5 => 0x50 case 6 => 0x62 case 7 => 0x70 case _ => 0xB0, 2, id / 256, id % 256]
  {
  }

  /** Any two bytes of CONNACK: bit 0 of the first is the session flag, the second is the code. */
  lemma ConnackRead(h: Header, list: Bytes, length: nat)
    requires h.cmd == 2 && length <= |list| && |list| >= 2
    ensures ReadBody(h, length, list) == Ok(Connack(list[0] % 2 != 0, list[1]))
  {
  }

  // ------------------------------------------------------ what may be written

  /**
    * What the standard demands of the fields of a packet: a client id, or in 3.1.1 a clean session
    * without one (3.1.3.1); a will topic (3.1.3.2); no password without a user name (3.1.2.9); at least
    * one filter, return code or topic (3.8.3, 3.9.3, 3.10.3).
    */
  ghost predicate Conforms(b: Body<Text>) {
    match b
    case Connect(_, version, clean, _, clientId, will, username, password) =>
      && (clientId == [] ==> clean && version == 4) && (will.Some? ==> will.value.topic != [])
      && !(password.Some? && username.None?)
    case Subscribe(_, subs) => subs != []
    case Suback(_, granted) => granted != []
    case Unsubscribe(_, topics) => topics != []
    case _ => true
  }

  lemma AcceptsConforming(b: Body<Text>)
    requires b.Connect? ==> b.version == 3 || b.version == 4
    ensures Accepts(b) <==> Conforms(b)
  {
  }
}
