/**
  * Packets with strings as JavaScript sees them. Writers turn a string into UTF-8, the parser turns
  * it back; only the client id of CONNECT is measured in UTF-16 units instead of bytes.
  */
module PacketText {
  import opened Basics
  import opened PacketCodec
  import opened PacketStream
  import Utf8

  type Text = seq<Unit>

  ghost predicate Ascii(s: seq<int>) { forall u <- s :: 0 <= u < 0x80 }

  lemma AsciiCons(s: seq<int>, x: int, t: seq<int>)
    requires s == [x] + t
    ensures Ascii(s) <==> 0 <= x < 0x80 && Ascii(t)
  {
    assert x in s && (forall u <- t :: u in s) && (forall u <- s :: u == x || u in t);
  }

  // ------------------------------------------------------ strings to bytes and back

  function RawText(s: Text): Bytes { Utf8.ToBytes(s) }

  function RawOption(s: Option<Text>): Option<Bytes> { if s.None? then None else Some(RawText(s.value)) }

  function RawWill(w: Option<Will<Text>>): Option<Will<Bytes>> {
    if w.None? then None else Some(Will(RawText(w.value.topic), w.value.payload, w.value.qos, w.value.retain))
  }

  function RawSubscriptions(subs: seq<Subscription<Text>>): (r: seq<Subscription<Bytes>>)
    ensures |r| == |subs|
  {
    if |subs| == 0 then [] else [Subscription(RawText(subs[0].filter), subs[0].qos)] + RawSubscriptions(subs[1..])
  }

  function RawTopics(ts: seq<Text>): (r: seq<Bytes>)
    ensures |r| == |ts|
  {
    if |ts| == 0 then [] else [RawText(ts[0])] + RawTopics(ts[1..])
  }

  function RawBody(b: Body<Text>): Body<Bytes> {
    match b
    case Connect(pid, version, clean, keepalive, clientId, will, username, password) =>
      Connect(RawText(pid), version, clean, keepalive, RawText(clientId), RawWill(will), RawOption(username), password)
    case Connack(present, code) => Connack(present, code)
    case Publish(topic, id, payload) => Publish(RawText(topic), id, payload)
    case Confirmation(id) => Confirmation(id)
    case Subscribe(id, subs) => Subscribe(id, RawSubscriptions(subs))
    case Suback(id, granted) => Suback(id, granted)
    case Unsubscribe(id, topics) => Unsubscribe(id, RawTopics(topics))
    case Empty => Empty
  }

  function Raw(p: Packet<Text>): Packet<Bytes> { Packet(p.header, RawBody(p.body)) }

  function CookedText(s: Bytes): Text { Utf8.Slice(s) }

  function CookedOption(s: Option<Bytes>): Option<Text> { if s.None? then None else Some(CookedText(s.value)) }

  function CookedWill(w: Option<Will<Bytes>>): Option<Will<Text>> {
    if w.None? then None else Some(Will(CookedText(w.value.topic), w.value.payload, w.value.qos, w.value.retain))
  }

  function CookedSubscriptions(subs: seq<Subscription<Bytes>>): seq<Subscription<Text>> {
    if |subs| == 0 then [] else [Subscription(CookedText(subs[0].filter), subs[0].qos)] + CookedSubscriptions(subs[1..])
  }

  function CookedTopics(ts: seq<Bytes>): seq<Text> {
    if |ts| == 0 then [] else [CookedText(ts[0])] + CookedTopics(ts[1..])
  }

  function CookedBody(b: Body<Bytes>): Body<Text> {
    match b
    case Connect(pid, version, clean, keepalive, clientId, will, username, password) =>
      Connect(CookedText(pid), version, clean, keepalive, CookedText(clientId), CookedWill(will), CookedOption(username),
              password)
    case Connack(present, code) => Connack(present, code)
    case Publish(topic, id, payload) => Publish(CookedText(topic), id, payload)
    case Confirmation(id) => Confirmation(id)
    case Subscribe(id, subs) => Subscribe(id, CookedSubscriptions(subs))
    case Suback(id, granted) => Suback(id, granted)
    case Unsubscribe(id, topics) => Unsubscribe(id, CookedTopics(topics))
    case Empty => Empty
  }

  /** The packet as handlers of the `packet` event see it. */
  function Cooked(p: Packet<Bytes>): Packet<Text> { Packet(p.header, CookedBody(p.body)) }

  ghost predicate WellFormedBody(b: Body<Text>) {
    match b
    case Connect(pid, _, _, _, clientId, will, username, _) =>
      && Utf8.WellFormed(pid) && Utf8.WellFormed(clientId) && (will.Some? ==> Utf8.WellFormed(will.value.topic))
      && (username.Some? ==> Utf8.WellFormed(username.value))
    case Publish(topic, _, _) => Utf8.WellFormed(topic)
    case Subscribe(_, subs) => forall s <- subs :: Utf8.WellFormed(s.filter)
    case Unsubscribe(_, topics) => forall t <- topics :: Utf8.WellFormed(t)
    case _ => true
  }

  lemma {:induction false} SubscriptionsBack(subs: seq<Subscription<Text>>)
    requires forall s <- subs :: Utf8.WellFormed(s.filter)
    ensures CookedSubscriptions(RawSubscriptions(subs)) == subs
  {
    if |subs| > 0 {
      assert subs[0] in subs;
      Utf8.SliceAfterToBytes(subs[0].filter);
      SubscriptionsBack(subs[1..]);
      assert RawSubscriptions(subs)[1..] == RawSubscriptions(subs[1..]);
    }
  }

  lemma {:induction false} TopicsBack(ts: seq<Text>)
    requires forall t <- ts :: Utf8.WellFormed(t)
    ensures CookedTopics(RawTopics(ts)) == ts
  {
    if |ts| > 0 {
      assert ts[0] in ts;
      Utf8.SliceAfterToBytes(ts[0]);
      TopicsBack(ts[1..]);
      assert RawTopics(ts)[1..] == RawTopics(ts[1..]);
    }
  }

  lemma TextBack(p: Packet<Text>)
    requires WellFormedBody(p.body)
    ensures Cooked(Raw(p)) == p
  {
    match p.body
    case Connect(pid, _, _, _, clientId, will, username, _) =>
      Utf8.SliceAfterToBytes(pid);
      Utf8.SliceAfterToBytes(clientId);
      if will.Some? { Utf8.SliceAfterToBytes(will.value.topic); }
      if username.Some? { Utf8.SliceAfterToBytes(username.value); }
    case Publish(topic, _, _) => Utf8.SliceAfterToBytes(topic);
    case Subscribe(_, subs) => SubscriptionsBack(subs);
    case Unsubscribe(_, topics) => TopicsBack(topics);
    case _ =>
  }

  // ------------------------------------------------------ protocol names

  lemma ReadsAscii(b: Bytes)
    requires |b| > 0
    ensures Utf8.ReadChar(b).0 < 0x80 <==> b[0] < 0x80
    ensures b[0] < 0x80 ==> Utf8.ReadChar(b) == (b[0], 1)
  {
  }

  /** Decoded text is ASCII exactly when the bytes are, and then it is the bytes. */
  lemma {:induction false} AsciiSlice(b: Bytes)
    ensures Ascii(CookedText(b)) <==> Ascii(b)
    ensures Ascii(b) ==> CookedText(b) == b
    decreases |b|
  {
    if |b| > 0 {
      ReadsAscii(b);
      var c, more := Utf8.ReadChar(b).0, Utf8.ReadAll(b[Utf8.ReadChar(b).1..]);
      Utf8.UnitsCons(c, more);
      assert Utf8.UnitsOf(c)[0] in CookedText(b) by { assert CookedText(b)[0] == Utf8.UnitsOf(c)[0]; }
      assert b[0] in b;
      if b[0] < 0x80 {
        AsciiSlice(b[1..]);
        assert CookedText(b) == [b[0]] + CookedText(b[1..]) && b == [b[0]] + b[1..];
        AsciiCons(b, b[0], b[1..]);
        AsciiCons(CookedText(b), b[0], CookedText(b[1..]));
      }
    }
  }

  /** Comparing protocol names as bytes is comparing them as strings. */
  lemma SameName(b: Bytes, name: Bytes)
    requires Ascii(name)
    ensures CookedText(b) == name <==> b == name
  {
    AsciiSlice(b);
    AsciiSlice(name);
  }

  // ------------------------------------------------------ the length of CONNECT

  lemma {:induction false} EncodedLength(s: Text, lead: Option<Unit>)
    requires lead.Some? ==> IsLead(lead.value)
    ensures lead.None? ==> |Utf8.EncodeFrom(s, lead)| >= |s|
    ensures lead.None? ==> (|Utf8.EncodeFrom(s, lead)| == |s| <==> Ascii(s))
    ensures lead.Some? && |s| > 0 ==> |Utf8.EncodeFrom(s, lead)| >= |s| + 2
    decreases |s|
  {
    if |s| > 0 {
      var (pushed, lead') := Utf8.EncodeUnit(s[0], |s| == 1, lead);
      EncodedLength(s[1..], lead');
      AsciiCons(s, s[0], s[1..]);
    }
  }

  /** `connect` adds up byte lengths, except for the client id. */
  function TextLength(p: Packet<Text>): nat {
    if p.body.Connect? then
      var raw := RawBody(p.body);
      |p.body.protocolId| + 2 + 1 + |p.body.clientId| + 2 + 2 + 1
      + WillLength(raw.will) + UserLength(raw.username) + PasswordLength(raw.password)
    else DeclaredLength(Raw(p))
  }

  lemma TextLengthIsRaw(p: Packet<Text>)
    requires p.body.Connect? ==> Ascii(p.body.protocolId)
    ensures TextLength(p) <= DeclaredLength(Raw(p))
    ensures TextLength(p) == DeclaredLength(Raw(p)) <==> (p.body.Connect? ==> Ascii(p.body.clientId))
  {
    if p.body.Connect? {
      EncodedLength(p.body.protocolId, None);
      EncodedLength(p.body.clientId, None);
    }
  }

  lemma RejectsBin(b: seq<Byte>, t: seq<Byte>, left: int, e: ParseError)
    requires |b| < 0x1_0000 && left < |b| + 2
    ensures ReadBin(Bin(b) + t, left, e) == Err(e)
  {
    ReadsNum(|b|, b + t);
    Associative(Num(|b|), b, t);
  }

  lemma RejectsWill(w: Option<Will<Bytes>>, flags: nat, t: seq<Byte>, left: int)
    requires w.Some? && Short(w.value.topic) && |w.value.payload| < 0x1_0000 && Flag(flags, 4) && left < WillLength(w)
    ensures ReadWill(flags, WillBytes(w, t), left).Err?
  {
    var rest := Bin(w.value.payload) + t;
    if left < StringLength(w.value.topic) {
      RejectsBin(w.value.topic, rest, left, BadWillTopic);
    } else {
      ReadsBin(w.value.topic, rest, left, BadWillTopic);
      RejectsBin(w.value.payload, t, left - StringLength(w.value.topic), BadWillPayload);
    }
  }

  /** With fewer bytes declared than written, the last field to end outside the packet is refused. */
  lemma RejectsConnectFields(b: Body<Bytes>, tail: seq<Byte>, left: int)
    requires ConnectShort(b) && left < TailLength(b)
    ensures ConnectFlags(b) >= 0
    ensures ReadConnectFields(b.protocolId, b.version, ConnectFlags(b), b.keepalive, ConnectTail(b, tail), left).Err?
  {
    ReadsFlags(b);
    var t1 := PasswordBytes(b.password, tail);
    var t2 := UserBytes(b.username, t1);
    var t3 := WillBytes(b.will, t2);
    var l1 := left - StringLength(b.clientId);
    if l1 < 0 {
      RejectsBin(b.clientId, t3, left, TooShort);
    } else {
      ReadsBin(b.clientId, t3, left, TooShort);
      RejectsOptional(b, ConnectFlags(b), tail, l1);
    }
  }

  /** The will, the user name or the password ends outside the packet. */
  lemma RejectsOptional(b: Body<Bytes>, f: nat, tail: seq<Byte>, left: int)
    requires ConnectShort(b) && f == ConnectFlags(b)
    requires 0 <= left < WillLength(b.will) + UserLength(b.username) + PasswordLength(b.password)
    ensures var r := ReadWill(f, WillBytes(b.will, UserBytes(b.username, PasswordBytes(b.password, tail))), left);
      r.Err? || ReadUsername(f, r.value.1, r.value.2).Err?
      || ReadPassword(f, ReadUsername(f, r.value.1, r.value.2).value.1, ReadUsername(f, r.value.1, r.value.2).value.2).Err?
  {
    ReadsFlags(b);
    var t1 := PasswordBytes(b.password, tail);
    var t2 := UserBytes(b.username, t1);
    var l2 := left - WillLength(b.will);
    var l3 := l2 - UserLength(b.username);
    if l2 < 0 {
      RejectsWill(b.will, f, t2, left);
    } else {
      ReadsWill(b.will, f, t2, left);
      if l3 < 0 {
        RejectsBin(b.username.value, t1, l2, BadUsername);
      } else {
        ReadsUsername(b.username, f, t1, l2);
        RejectsBin(b.password.value, tail, l3, BadPassword);
      }
    }
  }

  /**
    * CONNECT reads back exactly when its client id is ASCII; otherwise the length it declares is
    * too small and the parser refuses it.
    */
  lemma ConnectReadsBack(p: Packet<Text>, tail: Bytes)
    requires p.body.Connect? && Writable(Raw(p)) && Ascii(p.body.protocolId)
    ensures TextLength(p) <= |BodyBytes(Raw(p), tail)|
    ensures var r := ReadBody(p.header, TextLength(p), BodyBytes(Raw(p), tail));
      if Ascii(p.body.clientId) then r == Ok(RawBody(p.body)) else r.Err?
  {
    var raw, b := Raw(p), RawBody(p.body);
    TextLengthIsRaw(p);
    BodyTail(raw, tail);
    if Ascii(p.body.clientId) {
      ReadsBody(raw, tail);
    } else {
      EncodedLength(p.body.protocolId, None);
      var left := TextLength(p) - StringLength(b.protocolId) - 4;
      RejectsConnectFields(b, tail, left);
      ReadsConnect(raw, tail, left, TextLength(p),
                   ReadConnectFields(b.protocolId, b.version, ConnectFlags(b), b.keepalive, ConnectTail(b, tail), left));
    }
  }

  // ------------------------------------------------------ whole streams

  /** What a writer sends for `p`, followed by `tail`. */
  function TextGenerate(p: Packet<Text>, tail: Bytes): Bytes
    requires Writable(Raw(p))
  {
    [HeaderByte(p.header)] + (VarBytes(TextLength(p)) + BodyBytes(Raw(p), tail))
  }

  ghost predicate SendableText(ps: seq<Packet<Text>>) {
    forall p <- ps ::
      && Writable(Raw(p)) && WellFormedBody(p.body) && TextLength(p) < LIMIT
      && (p.body.Connect? ==> Ascii(p.body.protocolId) && Ascii(p.body.clientId))
  }

  function TextWire(ps: seq<Packet<Text>>): Bytes
    requires SendableText(ps)
  {
    if |ps| == 0 then [] else TextGenerate(ps[0], TextWire(ps[1..]))
  }

  function Raws(ps: seq<Packet<Text>>): (r: seq<Packet<Bytes>>)
    ensures |r| == |ps|
  {
    if |ps| == 0 then [] else [Raw(ps[0])] + Raws(ps[1..])
  }

  /** The packets handed to the user, in order. */
  function Received(fs: seq<Frame>): seq<Packet<Text>> {
    if |fs| == 0 then [] else [Cooked(fs[0].packet)] + Received(fs[1..])
  }

  lemma WireCons(q: Packet<Bytes>, qs: seq<Packet<Bytes>>, all: seq<Packet<Bytes>>)
    requires all == [q] + qs && Writable(q) && DeclaredLength(q) < LIMIT && Sendable(qs)
    ensures Sendable(all) && Wire(all) == Generate(q, Wire(qs))
    ensures Frames(all) == [Frame(q, DeclaredLength(q))] + Frames(qs)
  {
    assert all[1..] == qs;
    assert forall x <- all :: x == q || x in qs;
  }

  lemma ReceivedCons(q: Packet<Bytes>, n: nat, fs: seq<Frame>)
    ensures Received([Frame(q, n)] + fs) == [Cooked(q)] + Received(fs)
  {
    assert ([Frame(q, n)] + fs)[1..] == fs;
  }

  lemma {:induction false} RawWire(ps: seq<Packet<Text>>)
    requires SendableText(ps)
    ensures Sendable(Raws(ps)) && Wire(Raws(ps)) == TextWire(ps)
  {
    if |ps| > 0 {
      RawWire(ps[1..]);
      TextLengthIsRaw(ps[0]);
      WireCons(Raw(ps[0]), Raws(ps[1..]), Raws(ps));
    }
  }

  lemma {:induction false} RawReceived(ps: seq<Packet<Text>>)
    requires SendableText(ps)
    ensures Sendable(Raws(ps)) && Received(Frames(Raws(ps))) == ps
  {
    if |ps| > 0 {
      var q, n, rest := Raw(ps[0]), DeclaredLength(Raw(ps[0])), Raws(ps[1..]);
      TextLengthIsRaw(ps[0]);
      RawReceived(ps[1..]);
      WireCons(q, rest, Raws(ps));
      TextBack(ps[0]);
      ReceivedCons(q, n, Frames(rest));
    }
  }

  /**
    * Packets written to a stream and cut into chunks in any way come out of the parser as they
    * went in, strings included.
    */
  lemma TextAnyChunking(ps: seq<Packet<Text>>, chunks: seq<Bytes>)
    requires SendableText(ps) && Flatten(chunks) == TextWire(ps)
    ensures var s := FeedAll(START, chunks);
      Received(s.emitted) == ps && s.error.None? && s.list == [] && s.stage == AtHeader
  {
    RawWire(ps);
    RawReceived(ps);
    AnyChunking(Raws(ps), chunks);
  }
}
