/**
  * MQTT packets of protocol level 3 and 4: what the writers emit for a packet and what the payload
  * parsers make of it (sections 2 and 3 of MQTT 3.1.1).
  */
module PacketCodec {
  import opened Basics

  type Bytes = seq<Byte>

  /** The errors the parser emits; the last two are where this model stops (see README). */
  datatype ParseError =
    | BadProtocolId | InvalidProtocolId | InvalidVersion | TooShort | BadWillTopic | BadWillPayload | BadUsername
    | BadPassword | BadTopic | MalformedSubscribe | WrongSubscribeHeader | AuthNotSupported | NotSupported
    | VersionFive | IdPastEnd

  datatype Result<+T> = Ok(value: T) | Err(error: ParseError) {
    predicate IsFailure() { Err? }
    function PropagateFailure<U>(): Result<U>
      requires Err?
    {
      Err(error)
    }
    function Extract(): T
      requires Ok?
    {
      value
    }
  }

  // Packets over the representation `S` of strings: bytes on the wire, UTF-16 text for users.

  datatype Will<S> = Will(topic: S, payload: seq<Byte>, qos: nat, retain: bool)

  datatype Subscription<S> = Subscription(filter: S, qos: nat)

  /** The fields that follow the fixed header. Ids read from too short a packet are -1. */
  datatype Body<S> =
    | Connect(protocolId: S, version: nat, clean: bool, keepalive: nat, clientId: S, will: Option<Will<S>>,
              username: Option<S>, password: Option<seq<Byte>>)
    | Connack(sessionPresent: bool, returnCode: nat)
    | Publish(topic: S, publishId: Option<int>, payload: seq<Byte>)
    | Confirmation(messageId: int)
    | Subscribe(subscribeId: int, subscriptions: seq<Subscription<S>>)
    | Suback(subackId: int, granted: seq<Byte>)
    | Unsubscribe(unsubscribeId: int, unsubscriptions: seq<S>)
    | Empty

  /** The fixed header; `cmd` is the packet type, 1 for CONNECT up to 15 for AUTH. */
  datatype Header = Header(cmd: nat, dup: bool, qos: nat, retain: bool)

  datatype Packet<S> = Packet(header: Header, body: Body<S>)

  // -------------------------------------------------------------- writing

  function Num(n: nat): seq<Byte> { [n / 0x100 % 0x100, n % 0x100] }

  function Bin(b: seq<Byte>): seq<Byte> { Num(|b|) + b }

  function VarBytes(n: nat): (bs: seq<Byte>)
    ensures |bs| > 0
  {
    if n < 0x80 then [n] else [n % 0x80 + 0x80] + VarBytes(n / 0x80)
  }

  function Bit(b: bool, weight: nat): nat { if b then weight else 0 }

  function HeaderByte(h: Header): int { h.cmd * 0x10 + Bit(h.dup, 8) + h.qos * 2 + Bit(h.retain, 1) }

  function ConnectFlags(b: Body<Bytes>): int
    requires b.Connect?
  {
    Bit(b.username.Some?, 0x80) + Bit(b.password.Some?, 0x40)
    + (if b.will.Some? then Bit(b.will.value.retain, 0x20) + b.will.value.qos * 8 + 4 else 0) + Bit(b.clean, 2)
  }

  // Every writer takes what follows it, so that its output is a list of fields.

  function WillBytes(w: Option<Will<Bytes>>, tail: seq<Byte>): seq<Byte> {
    if w.None? then tail else Bin(w.value.topic) + (Bin(w.value.payload) + tail)
  }

  function UserBytes(u: Option<Bytes>, tail: seq<Byte>): seq<Byte> {
    if u.None? then tail else Bin(u.value) + tail
  }

  function PasswordBytes(p: Option<seq<Byte>>, tail: seq<Byte>): seq<Byte> {
    if p.None? then tail else Bin(p.value) + tail
  }

  /** The fields of CONNECT from the client id on. */
  function ConnectTail(b: Body<Bytes>, tail: seq<Byte>): seq<Byte>
    requires b.Connect?
  {
    Bin(b.clientId) + WillBytes(b.will, UserBytes(b.username, PasswordBytes(b.password, tail)))
  }

  function SubscriptionBytes(subs: seq<Subscription<Bytes>>, tail: seq<Byte>): seq<Byte>
    requires forall s <- subs :: s.qos <= 2
    decreases |subs|
  {
    if |subs| == 0 then tail else Bin(subs[0].filter) + ([subs[0].qos] + SubscriptionBytes(subs[1..], tail))
  }

  function TopicBytes(topics: seq<Bytes>, tail: seq<Byte>): seq<Byte> {
    if |topics| == 0 then tail else Bin(topics[0]) + TopicBytes(topics[1..], tail)
  }

  /** What a writer accepts, with every length and number in range. */
  ghost predicate Writable(p: Packet<Bytes>) {
    var h := p.header;
    match p.body
    case Connect(pid, version, clean, keepalive, clientId, will, username, password) =>
      && h == Header(1, false, 0, false)
      && (pid == MQTT || pid == MQISDP) && (version == 3 || version == 4) && keepalive < 0x1_0000
      && Short(clientId) && (|clientId| > 0 || (version == 4 && clean))
      && (will.Some? ==> Short(will.value.topic) && |will.value.topic| > 0 && |will.value.payload| < 0x1_0000
                         && will.value.qos <= 2)
      && (username.Some? ==> Short(username.value))
      && (password.Some? ==> |password.value| < 0x1_0000 && username.Some?)
    case Connack(_, code) => h == Header(2, false, 0, false) && code < 0x100
    case Publish(topic, id, payload) =>
      && h.cmd == 3 && h.qos <= 2 && Short(topic)
      && (if h.qos == 0 then id.None? else id.Some? && 0 <= id.value < 0x1_0000)
    case Confirmation(id) =>
      && (if h.cmd == 6 then h.qos == 1 else h.cmd in {4, 5, 7, 11} && h.qos == 0)
      && !h.dup && !h.retain && 0 <= id < 0x1_0000
    case Subscribe(id, subs) =>
      && h == Header(8, h.dup, 1, false) && 0 <= id < 0x1_0000 && |subs| > 0
      && (forall s <- subs :: Short(s.filter) && s.qos <= 2)
    case Suback(id, granted) => h == Header(9, false, 0, false) && 0 <= id < 0x1_0000 && |granted| > 0
    case Unsubscribe(id, topics) =>
      && h == Header(10, h.dup, 1, false) && 0 <= id < 0x1_0000 && |topics| > 0 && (forall t <- topics :: Short(t))
    case Empty => h.cmd in {12, 13, 14} && !h.dup && h.qos == 0 && !h.retain
  }

  const MQTT: Bytes := [0x4D, 0x51, 0x54, 0x54]
  const MQISDP: Bytes := [0x4D, 0x51, 0x49, 0x73, 0x64, 0x70]

  predicate Short(s: Bytes) { |s| < 0x1_0000 }

  function BodyBytes(p: Packet<Bytes>, tail: seq<Byte>): seq<Byte>
    requires Writable(p)
  {
    match p.body
    case Connect(pid, version, clean, keepalive, clientId, will, username, password) =>
      Bin(pid) + ([version] + ([ConnectFlags(p.body)] + (Num(keepalive) + ConnectTail(p.body, tail))))
    case Connack(present, code) => [Bit(present, 1)] + ([code] + tail)
    case Publish(topic, id, payload) => Bin(topic) + ((if id.Some? then Num(id.value) else []) + (payload + tail))
    case Confirmation(id) => Num(id) + tail
    case Subscribe(id, subs) => Num(id) + SubscriptionBytes(subs, tail)
    case Suback(id, granted) => Num(id) + (granted + tail)
    case Unsubscribe(id, topics) => Num(id) + TopicBytes(topics, tail)
    case Empty => tail
  }

  // ------------------------------------------------- the length a writer declares

  function StringLength(s: Bytes): nat { |s| + 2 }

  function SubscriptionsLength(subs: seq<Subscription<Bytes>>): nat {
    if |subs| == 0 then 0 else StringLength(subs[0].filter) + 1 + SubscriptionsLength(subs[1..])
  }

  function TopicsLength(topics: seq<Bytes>): nat {
    if |topics| == 0 then 0 else StringLength(topics[0]) + TopicsLength(topics[1..])
  }

  /** The remaining length as each writer adds it up; a client id counts its UTF-16 length. */
  function DeclaredLength(p: Packet<Bytes>): nat {
    match p.body
    case Connect(pid, version, clean, keepalive, clientId, will, username, password) =>
      |pid| + 2 + 1 + |clientId| + 2 + 2 + 1 + WillLength(will) + UserLength(username) + PasswordLength(password)
    case Connack(_, _) => 2
    case Publish(topic, id, payload) => StringLength(topic) + |payload| + (if p.header.qos > 0 then 2 else 0)
    case Confirmation(_) => 2
    case Subscribe(_, subs) => 2 + SubscriptionsLength(subs)
    case Suback(_, granted) => 2 + |granted|
    case Unsubscribe(_, topics) => 2 + TopicsLength(topics)
    case Empty => 0
  }

  function Generate(p: Packet<Bytes>, tail: seq<Byte>): seq<Byte>
    requires Writable(p)
  {
    [HeaderByte(p.header)] + (VarBytes(DeclaredLength(p)) + BodyBytes(p, tail))
  }

  // -------------------------------------------------------------- reading

  // Readers work on what is left of the buffer (which may hold later packets too) and of the
  // packet; a string or a buffer has to end within both.

  function Number(rest: seq<Byte>): (n: int)
    ensures n == -1 || (0 <= n < 0x1_0000 && |rest| >= 2)
  {
    if |rest| < 2 then -1 else (rest[0] as int) * 0x100 + rest[1]
  }

  function AfterNumber(rest: seq<Byte>): seq<Byte> { if |rest| < 2 then rest else rest[2..] }

  // `s[..n]` and `s[n..]`, defined step by step to keep slices at variable places out of the proofs.

  function Front(s: seq<Byte>, n: nat): (r: seq<Byte>)
    requires n <= |s|
    ensures |r| == n
  {
    if n == 0 then [] else [s[0]] + Front(s[1..], n - 1)
  }

  function Back(s: seq<Byte>, n: nat): (r: seq<Byte>)
    requires n <= |s|
    ensures |r| == |s| - n
  {
    if n == 0 then s else Back(s[1..], n - 1)
  }

  lemma {:induction false} FrontBack(s: seq<Byte>, n: nat)
    requires n <= |s|
    ensures Front(s, n) == s[..n] && Back(s, n) == s[n..]
  {
    if n > 0 { FrontBack(s[1..], n - 1); }
  }

  function ReadBin(rest: seq<Byte>, left: int, error: ParseError): (r: Result<(seq<Byte>, seq<Byte>, int)>)
    ensures r.Ok? ==> |r.value.1| < |rest| && r.value.2 < left
  {
    var n := Number(rest);
    if n == -1 || n + 2 > |rest| || n + 2 > left then Err(error)
    else Ok((Front(rest[2..], n), Back(rest[2..], n), left - 2 - n))
  }

  predicate Flag(flags: nat, weight: nat)
    requires weight > 0
  {
    flags / weight % 2 == 1
  }

  function ReadWill(flags: nat, rest: seq<Byte>, left: int): Result<(Option<Will<Bytes>>, seq<Byte>, int)> {
    if !Flag(flags, 4) then Ok((None, rest, left))
    else
      var (topic, rest1, left1) :- ReadBin(rest, left, BadWillTopic);
      var (payload, rest2, left2) :- ReadBin(rest1, left1, BadWillPayload);
      Ok((Some(Will(topic, payload, flags / 8 % 4, Flag(flags, 0x20))), rest2, left2))
  }

  function ReadUsername(flags: nat, rest: seq<Byte>, left: int): Result<(Option<Bytes>, seq<Byte>, int)> {
    if !Flag(flags, 0x80) then Ok((None, rest, left))
    else
      var (name, rest', left') :- ReadBin(rest, left, BadUsername);
      Ok((Some(name), rest', left'))
  }

  function ReadPassword(flags: nat, rest: seq<Byte>, left: int): Result<(Option<seq<Byte>>, seq<Byte>, int)> {
    if !Flag(flags, 0x40) then Ok((None, rest, left))
    else
      var (word, rest', left') :- ReadBin(rest, left, BadPassword);
      Ok((Some(word), rest', left'))
  }

  function ReadConnect(rest: seq<Byte>, left: int): Result<Body<Bytes>> {
    var (pid, rest1, left1) :- ReadBin(rest, left, BadProtocolId);
    if pid != MQTT && pid != MQISDP then Err(InvalidProtocolId) else ReadVersion(pid, rest1, left1)
  }

  function ReadVersion(pid: Bytes, rest: seq<Byte>, left: int): Result<Body<Bytes>> {
    if |rest| == 0 then Err(TooShort)
    else if rest[0] == 5 then Err(VersionFive)
    else if rest[0] != 3 && rest[0] != 4 then Err(InvalidVersion)
    else ReadFlags(pid, rest[0], rest[1..], left - 1)
  }

  function ReadFlags(pid: Bytes, version: nat, rest: seq<Byte>, left: int): Result<Body<Bytes>> {
    if |rest| == 0 then Err(TooShort) else ReadKeepalive(pid, version, rest[0], rest[1..], left - 1)
  }

  function ReadKeepalive(pid: Bytes, version: nat, flags: nat, rest: seq<Byte>, left: int): Result<Body<Bytes>> {
    if Number(rest) == -1 then Err(TooShort)
    else ReadConnectFields(pid, version, flags, Number(rest), AfterNumber(rest), left - 2)
  }

  function ReadConnectFields(pid: Bytes, version: nat, flags: nat, keepalive: nat, rest: seq<Byte>, left: int)
      : Result<Body<Bytes>>
  {
    var (clientId, rest1, left1) :- ReadBin(rest, left, TooShort);
    var (will, rest2, left2) :- ReadWill(flags, rest1, left1);
    var (username, rest3, left3) :- ReadUsername(flags, rest2, left2);
    var (password, _, _) :- ReadPassword(flags, rest3, left3);
    Ok(Connect(pid, version, Flag(flags, 2), keepalive, clientId, will, username, password))
  }

  function ReadPublish(qos: nat, rest: seq<Byte>, left: int): Result<Body<Bytes>> {
    var (topic, rest1, left1) :- ReadBin(rest, left, BadTopic);
    ReadPublished(topic, qos, rest1, left1)
  }

  function ReadPublished(topic: Bytes, qos: nat, rest: seq<Byte>, left: int): Result<Body<Bytes>> {
    if qos == 0 then
      if 0 <= left <= |rest| then Ok(Publish(topic, None, Front(rest, left))) else Err(IdPastEnd)
    else
      var rest1, left1 := AfterNumber(rest), left - (if |rest| < 2 then 0 else 2);
      if 0 <= left1 <= |rest1| then Ok(Publish(topic, Some(Number(rest)), Front(rest1, left1)))
      else Err(IdPastEnd)
  }

  function ReadSubscriptions(rest: seq<Byte>, left: int): Result<seq<Subscription<Bytes>>>
    decreases |rest|
  {
    if left <= 0 then Ok([])
    else
      var (topic, rest1, left1) :- ReadBin(rest, left, BadTopic);
      if left1 <= 0 || |rest1| == 0 then Err(MalformedSubscribe)
      else
        var more :- ReadSubscriptions(rest1[1..], left1 - 1);
        Ok([Subscription(topic, rest1[0] % 4)] + more)
  }

  function ReadTopics(rest: seq<Byte>, left: int): Result<seq<Bytes>>
    decreases |rest|
  {
    if left <= 0 then Ok([])
    else
      var (topic, rest1, left1) :- ReadBin(rest, left, BadTopic);
      var more :- ReadTopics(rest1, left1);
      Ok([topic] + more)
  }

  /** `_parsePayload` on a buffer that holds at least `length` bytes. */
  function ReadBody(h: Header, length: nat, list: seq<Byte>): Result<Body<Bytes>>
    requires length <= |list|
  {
    var rest, left := AfterNumber(list), length - (if |list| < 2 then 0 else 2);
    match h.cmd
    case 1 => ReadConnect(list, length)
    case 2 => if |list| < 2 then Ok(Empty) else Ok(Connack(list[0] % 2 == 1, list[1]))
    case 3 => ReadPublish(h.qos, list, length)
    case 4 => Ok(Confirmation(Number(list)))
    case 5 => Ok(Confirmation(Number(list)))
    case 6 => Ok(Confirmation(Number(list)))
    case 7 => Ok(Confirmation(Number(list)))
    case 8 =>
      if h.qos != 1 then Err(WrongSubscribeHeader)
      else
        var subs :- ReadSubscriptions(rest, left);
        Ok(Subscribe(Number(list), subs))
    case 9 => Ok(Suback(Number(list), if 0 <= left <= |rest| then Front(rest, left) else []))
    case 10 =>
      var topics :- ReadTopics(rest, left);
      Ok(Unsubscribe(Number(list), topics))
    case 11 => Ok(Confirmation(Number(list)))
    case 12 => Ok(Empty)
    case 13 => Ok(Empty)
    case 14 => Ok(Empty)
    case 15 => Err(AuthNotSupported)
    case _ => Err(NotSupported)
  }

  // ----------------------------------------------------- fields read back

  lemma ReadsNum(n: nat, t: seq<Byte>)
    requires n < 0x1_0000
    ensures |Num(n) + t| >= 2 && Number(Num(n) + t) == n && AfterNumber(Num(n) + t) == t && |Num(n)| == 2
  {
    assert (Num(n) + t)[2..] == t;
  }

  lemma ReadsBin(b: seq<Byte>, t: seq<Byte>, left: int, e: ParseError)
    requires |b| < 0x1_0000 && left >= |b| + 2
    ensures ReadBin(Bin(b) + t, left, e) == Ok((b, t, left - 2 - |b|))
  {
    ReadsNum(|b|, b + t);
    Associative(Num(|b|), b, t);
    FrontBack(b + t, |b|);
    assert (b + t)[..|b|] == b && (b + t)[|b|..] == t;
  }

  lemma ReadsFlags(b: Body<Bytes>)
    requires b.Connect? && (b.will.Some? ==> b.will.value.qos <= 2)
    ensures var f := ConnectFlags(b);
      && 0 <= f < 0x100 && Flag(f, 0x80) == b.username.Some? && Flag(f, 0x40) == b.password.Some?
      && Flag(f, 4) == b.will.Some? && Flag(f, 2) == b.clean
      && (b.will.Some? ==> Flag(f, 0x20) == b.will.value.retain && f / 8 % 4 == b.will.value.qos)
  {
  }

  lemma ReadsWill(w: Option<Will<Bytes>>, flags: nat, t: seq<Byte>, left: int)
    requires w.Some? ==> Short(w.value.topic) && |w.value.payload| < 0x1_0000
    requires Flag(flags, 4) == w.Some?
    requires w.Some? ==> Flag(flags, 0x20) == w.value.retain && flags / 8 % 4 == w.value.qos
    requires left >= WillLength(w)
    ensures ReadWill(flags, WillBytes(w, t), left) == Ok((w, t, left - WillLength(w)))
  {
    if w.Some? {
      ReadsBin(w.value.topic, Bin(w.value.payload) + t, left, BadWillTopic);
      ReadsBin(w.value.payload, t, left - StringLength(w.value.topic), BadWillPayload);
    }
  }

  function WillLength(w: Option<Will<Bytes>>): nat {
    if w.Some? then StringLength(w.value.topic) + 2 + |w.value.payload| else 0
  }

  function UserLength(u: Option<Bytes>): nat { if u.Some? then StringLength(u.value) else 0 }

  function PasswordLength(w: Option<seq<Byte>>): nat { if w.Some? then |w.value| + 2 else 0 }

  lemma ReadsUsername(u: Option<Bytes>, flags: nat, t: seq<Byte>, left: int)
    requires (u.Some? ==> Short(u.value)) && Flag(flags, 0x80) == u.Some? && left >= UserLength(u)
    ensures ReadUsername(flags, UserBytes(u, t), left) == Ok((u, t, left - UserLength(u)))
  {
    if u.Some? { ReadsBin(u.value, t, left, BadUsername); }
  }

  lemma ReadsPassword(w: Option<seq<Byte>>, flags: nat, t: seq<Byte>, left: int)
    requires (w.Some? ==> |w.value| < 0x1_0000) && Flag(flags, 0x40) == w.Some? && left >= PasswordLength(w)
    ensures ReadPassword(flags, PasswordBytes(w, t), left) == Ok((w, t, left - PasswordLength(w)))
  {
    if w.Some? { ReadsBin(w.value, t, left, BadPassword); }
  }

  lemma JoinFields(pid: Bytes, version: nat, flags: nat, keepalive: nat, rest: seq<Byte>, left: int,
                   clientId: (Bytes, seq<Byte>, int), will: (Option<Will<Bytes>>, seq<Byte>, int),
                   username: (Option<Bytes>, seq<Byte>, int), password: (Option<seq<Byte>>, seq<Byte>, int))
    requires ReadBin(rest, left, TooShort) == Ok(clientId)
    requires ReadWill(flags, clientId.1, clientId.2) == Ok(will)
    requires ReadUsername(flags, will.1, will.2) == Ok(username)
    requires ReadPassword(flags, username.1, username.2) == Ok(password)
    ensures ReadConnectFields(pid, version, flags, keepalive, rest, left)
         == Ok(Connect(pid, version, Flag(flags, 2), keepalive, clientId.0, will.0, username.0, password.0))
  {
  }

  function TailLength(b: Body<Bytes>): nat
    requires b.Connect?
  {
    StringLength(b.clientId) + WillLength(b.will) + UserLength(b.username) + PasswordLength(b.password)
  }

  ghost predicate ConnectShort(b: Body<Bytes>) {
    && b.Connect? && Short(b.clientId)
    && (b.will.Some? ==> Short(b.will.value.topic) && |b.will.value.payload| < 0x1_0000 && b.will.value.qos <= 2)
    && (b.username.Some? ==> Short(b.username.value))
    && (b.password.Some? ==> |b.password.value| < 0x1_0000)
  }

  lemma ReadsConnectFields(b: Body<Bytes>, tail: seq<Byte>)
    requires ConnectShort(b)
    ensures ReadsAs(b, tail, TailLength(b), Ok(b))
  {
    var f, left := ConnectFlags(b), TailLength(b);
    var t1 := PasswordBytes(b.password, tail);
    var t2 := UserBytes(b.username, t1);
    var l1 := left - StringLength(b.clientId);
    var l2 := l1 - WillLength(b.will);
    var l3 := l2 - UserLength(b.username);
    ReadsFlags(b);
    ReadsBin(b.clientId, WillBytes(b.will, t2), left, TooShort);
    ReadsWill(b.will, f, t2, l1);
    ReadsUsername(b.username, f, t1, l2);
    ReadsPassword(b.password, f, tail, l3);
    JoinFields(b.protocolId, b.version, f, b.keepalive, ConnectTail(b, tail), left,
               (b.clientId, WillBytes(b.will, t2), l1), (b.will, t2, l2), (b.username, t1, l3),
               (b.password, tail, l3 - PasswordLength(b.password)));
  }

  lemma ReadsKeepalive(pid: Bytes, version: nat, f: Byte, keepalive: nat, t: seq<Byte>, left: int, r: Result<Body<Bytes>>)
    requires keepalive < 0x1_0000 && ReadConnectFields(pid, version, f, keepalive, t, left) == r
    ensures ReadFlags(pid, version, [f] + (Num(keepalive) + t), 3 + left) == r
  {
    assert ([f] + (Num(keepalive) + t))[1..] == Num(keepalive) + t;
    ReadsNum(keepalive, t);
  }

  lemma ReadsVersion(pid: Bytes, version: Byte, rest: seq<Byte>, left: int, r: Result<Body<Bytes>>, list: seq<Byte>,
                     length: int)
    requires (pid == MQTT || pid == MQISDP) && (version == 3 || version == 4)
    requires ReadFlags(pid, version, rest, left) == r
    requires list == Bin(pid) + ([version] + rest) && length == StringLength(pid) + 1 + left && left >= -1
    ensures ReadConnect(list, length) == r
  {
    ReadsBin(pid, [version] + rest, length, BadProtocolId);
    ReadsVersionByte(pid, version, rest, left, [version] + rest);
  }

  lemma ReadsVersionByte(pid: Bytes, version: Byte, rest: seq<Byte>, left: int, list: seq<Byte>)
    requires (version == 3 || version == 4) && list == [version] + rest
    ensures ReadVersion(pid, list, 1 + left) == ReadFlags(pid, version, rest, left)
  {
    assert list[1..] == rest;
  }

  lemma FlagByte(b: Body<Bytes>) returns (f: Byte)
    requires b.Connect? && (b.will.Some? ==> b.will.value.qos <= 2)
    ensures f == ConnectFlags(b)
  {
    f := ConnectFlags(b);
  }

  /** What CONNECT reads as, when its client id and the rest read as `r`. */
  lemma ReadsConnect(p: Packet<Bytes>, tail: seq<Byte>, left: int, length: int, r: Result<Body<Bytes>>)
    requires Writable(p) && p.body.Connect? && left >= -4 && length == StringLength(p.body.protocolId) + 4 + left
    requires ReadsAs(p.body, tail, left, r)
    ensures ReadConnect(BodyBytes(p, tail), length) == r
  {
    var b := p.body;
    var f := FlagByte(b);
    ReadsKeepalive(b.protocolId, b.version, f, b.keepalive, ConnectTail(b, tail), left, r);
    ReadsVersion(b.protocolId, b.version, [f] + (Num(b.keepalive) + ConnectTail(b, tail)), 3 + left, r,
                 BodyBytes(p, tail), length);
  }

  ghost predicate ReadsAs(b: Body<Bytes>, tail: seq<Byte>, left: int, r: Result<Body<Bytes>>)
    requires b.Connect?
  {
    ConnectFlags(b) >= 0
    && ReadConnectFields(b.protocolId, b.version, ConnectFlags(b), b.keepalive, ConnectTail(b, tail), left) == r
  }

  lemma ReadsPublish(p: Packet<Bytes>, tail: seq<Byte>)
    requires Writable(p) && p.body.Publish?
    ensures ReadPublish(p.header.qos, BodyBytes(p, tail), DeclaredLength(p)) == Ok(p.body)
  {
    var b := p.body;
    var t := (if b.publishId.Some? then Num(b.publishId.value) else []) + (b.payload + tail);
    ReadsBin(b.topic, t, DeclaredLength(p), BadTopic);
    FrontBack(b.payload + tail, |b.payload|);
    assert (b.payload + tail)[..|b.payload|] == b.payload;
    if b.publishId.Some? {
      ReadsNum(b.publishId.value, b.payload + tail);
    } else {
      assert t == b.payload + tail;
    }
  }

  lemma ReadsSubscription(s: Subscription<Bytes>, more: seq<Byte>, left: nat, rest: seq<Subscription<Bytes>>,
                          list: seq<Byte>, length: nat, subs: seq<Subscription<Bytes>>)
    requires Short(s.filter) && s.qos <= 2 && ReadSubscriptions(more, left) == Ok(rest)
    requires list == Bin(s.filter) + ([s.qos] + more) && length == StringLength(s.filter) + 1 + left
    requires subs == [s] + rest
    ensures ReadSubscriptions(list, length) == Ok(subs)
  {
    ReadsBin(s.filter, [s.qos] + more, length, BadTopic);
    assert ([s.qos] + more)[1..] == more;
  }

  lemma {:induction false} ReadsSubscriptions(subs: seq<Subscription<Bytes>>, tail: seq<Byte>)
    requires forall s <- subs :: Short(s.filter) && s.qos <= 2
    ensures ReadSubscriptions(SubscriptionBytes(subs, tail), SubscriptionsLength(subs)) == Ok(subs)
    decreases |subs|
  {
    if |subs| > 0 {
      var s, rest := subs[0], subs[1..];
      assert subs == [s] + rest && s in subs;
      ReadsSubscriptions(rest, tail);
      ReadsSubscription(s, SubscriptionBytes(rest, tail), SubscriptionsLength(rest), rest,
                        SubscriptionBytes(subs, tail), SubscriptionsLength(subs), subs);
    }
  }

  lemma {:induction false} ReadsTopics(topics: seq<Bytes>, tail: seq<Byte>)
    requires forall t <- topics :: Short(t)
    ensures ReadTopics(TopicBytes(topics, tail), TopicsLength(topics)) == Ok(topics)
    decreases |topics|
  {
    if |topics| > 0 {
      assert topics[0] in topics;
      ReadsBin(topics[0], TopicBytes(topics[1..], tail), TopicsLength(topics), BadTopic);
      ReadsTopics(topics[1..], tail);
      assert topics == [topics[0]] + topics[1..];
    }
  }

  // ------------------------------------------------------- whole packets

  lemma {:induction false} SubscriptionTail(subs: seq<Subscription<Bytes>>, tail: seq<Byte>)
    requires forall s <- subs :: s.qos <= 2
    ensures SubscriptionBytes(subs, tail) == SubscriptionBytes(subs, []) + tail
    ensures |SubscriptionBytes(subs, tail)| == SubscriptionsLength(subs) + |tail|
    decreases |subs|
  {
    if |subs| == 0 {
      assert [] + tail == tail;
    } else {
      var s, more := subs[0], SubscriptionBytes(subs[1..], []);
      SubscriptionTail(subs[1..], tail);
      Associative([s.qos], more, tail);
      Associative(Bin(s.filter), [s.qos] + more, tail);
    }
  }

  lemma {:induction false} TopicTail(topics: seq<Bytes>, tail: seq<Byte>)
    ensures TopicBytes(topics, tail) == TopicBytes(topics, []) + tail
    ensures |TopicBytes(topics, tail)| == TopicsLength(topics) + |tail|
    decreases |topics|
  {
    if |topics| == 0 {
      assert [] + tail == tail;
    } else {
      TopicTail(topics[1..], tail);
      Associative(Bin(topics[0]), TopicBytes(topics[1..], []), tail);
    }
  }

  lemma PasswordTail(p: Option<Bytes>, tail: seq<Byte>)
    ensures PasswordBytes(p, tail) == PasswordBytes(p, []) + tail
    ensures |PasswordBytes(p, tail)| == PasswordLength(p) + |tail|
  {
  }

  lemma UserTail(u: Option<Bytes>, inner: seq<Byte>, tail: seq<Byte>)
    ensures UserBytes(u, inner + tail) == UserBytes(u, inner) + tail
    ensures |UserBytes(u, inner)| == UserLength(u) + |inner|
  {
    if u.Some? { Associative(Bin(u.value), inner, tail); }
  }

  lemma WillTail(w: Option<Will<Bytes>>, inner: seq<Byte>, tail: seq<Byte>)
    ensures WillBytes(w, inner + tail) == WillBytes(w, inner) + tail
    ensures |WillBytes(w, inner)| == WillLength(w) + |inner|
  {
    if w.Some? {
      Associative(Bin(w.value.payload), inner, tail);
      Associative(Bin(w.value.topic), Bin(w.value.payload) + inner, tail);
    }
  }

  lemma ConnectTails(b: Body<Bytes>, tail: seq<Byte>)
    requires b.Connect?
    ensures ConnectTail(b, tail) == ConnectTail(b, []) + tail && |ConnectTail(b, tail)| == TailLength(b) + |tail|
  {
    var p, u := PasswordBytes(b.password, []), UserBytes(b.username, PasswordBytes(b.password, []));
    PasswordTail(b.password, tail);
    UserTail(b.username, p, tail);
    WillTail(b.will, u, tail);
    Associative(Bin(b.clientId), WillBytes(b.will, u), tail);
    PasswordTail(b.password, []);
  }

  /** A field list is its fields and then the tail, and is as long as the writer declares. */
  lemma BodyTail(p: Packet<Bytes>, tail: seq<Byte>)
    requires Writable(p)
    ensures BodyBytes(p, tail) == BodyBytes(p, []) + tail
    ensures |BodyBytes(p, tail)| == DeclaredLength(p) + |tail|
  {
    match p.body
    case Connect(_, _, _, _, _, _, _, _) => ConnectBodyTail(p, tail);
    case Connack(_, _) =>
    case Publish(topic, id, payload) =>
      var n := if id.Some? then Num(id.value) else [];
      Associative(n, payload, tail);
      Associative(Bin(topic), n + payload, tail);
      assert payload + [] == payload;
    case Confirmation(_) =>
    case Subscribe(id, subs) =>
      SubscriptionTail(subs, tail);
      Associative(Num(id), SubscriptionBytes(subs, []), tail);
    case Suback(_, granted) => assert granted + [] == granted;
    case Unsubscribe(id, topics) =>
      TopicTail(topics, tail);
      Associative(Num(id), TopicBytes(topics, []), tail);
    case Empty =>
  }

  lemma ConnectBodyTail(p: Packet<Bytes>, tail: seq<Byte>)
    requires Writable(p) && p.body.Connect?
    ensures BodyBytes(p, tail) == BodyBytes(p, []) + tail
    ensures |BodyBytes(p, tail)| == DeclaredLength(p) + |tail|
  {
    var b := p.body;
    var f: seq<Byte>, n, t := [ConnectFlags(b)], Num(b.keepalive), ConnectTail(b, []);
    ConnectTails(b, tail);
    Associative(n, t, tail);
    Associative(f, n + t, tail);
    Associative([b.version], f + (n + t), tail);
    Associative(Bin(b.protocolId), [b.version] + (f + (n + t)), tail);
  }

  lemma ReadsSubscribe(p: Packet<Bytes>, tail: seq<Byte>)
    requires Writable(p) && p.body.Subscribe? && DeclaredLength(p) <= |BodyBytes(p, tail)|
    ensures ReadBody(p.header, DeclaredLength(p), BodyBytes(p, tail)) == Ok(p.body)
  {
    var subs, list := p.body.subscriptions, SubscriptionBytes(p.body.subscriptions, tail);
    ReadsNum(p.body.subscribeId, list);
    ReadsSubscriptions(subs, tail);
    JoinSubscribe(p.header, p.body.subscribeId, list, SubscriptionsLength(subs), subs);
  }

  lemma JoinSubscribe(h: Header, id: nat, list: seq<Byte>, left: nat, subs: seq<Subscription<Bytes>>)
    requires h.cmd == 8 && h.qos == 1 && id < 0x1_0000 && 2 + left <= |Num(id) + list|
    requires ReadSubscriptions(list, left) == Ok(subs)
    ensures ReadBody(h, 2 + left, Num(id) + list) == Ok(Subscribe(id, subs))
  {
    ReadsNum(id, list);
  }

  lemma ReadsUnsubscribe(p: Packet<Bytes>, tail: seq<Byte>)
    requires Writable(p) && p.body.Unsubscribe? && DeclaredLength(p) <= |BodyBytes(p, tail)|
    ensures ReadBody(p.header, DeclaredLength(p), BodyBytes(p, tail)) == Ok(p.body)
  {
    ReadsNum(p.body.unsubscribeId, TopicBytes(p.body.unsubscriptions, tail));
    ReadsTopics(p.body.unsubscriptions, tail);
  }

  lemma ReadsSuback(p: Packet<Bytes>, tail: seq<Byte>)
    requires Writable(p) && p.body.Suback? && DeclaredLength(p) <= |BodyBytes(p, tail)|
    ensures ReadBody(p.header, DeclaredLength(p), BodyBytes(p, tail)) == Ok(p.body)
  {
    var granted := p.body.granted;
    ReadsNum(p.body.subackId, granted + tail);
    FrontBack(granted + tail, |granted|);
    assert (granted + tail)[..|granted|] == granted;
  }

  /** The payload parser reads back what the writer of the same packet wrote. */
  lemma ReadsBody(p: Packet<Bytes>, tail: seq<Byte>)
    requires Writable(p)
    ensures DeclaredLength(p) <= |BodyBytes(p, tail)|
    ensures ReadBody(p.header, DeclaredLength(p), BodyBytes(p, tail)) == Ok(p.body)
  {
    BodyTail(p, tail);
    match p.body
    case Connect(_, _, _, _, _, _, _, _) =>
      ReadsConnectFields(p.body, tail);
      ReadsConnect(p, tail, TailLength(p.body), DeclaredLength(p), Ok(p.body));
    case Connack(_, _) =>
    case Publish(_, _, _) => ReadsPublish(p, tail);
    case Confirmation(id) => ReadsNum(id, tail);
    case Subscribe(_, _) => ReadsSubscribe(p, tail);
    case Suback(_, _) => ReadsSuback(p, tail);
    case Unsubscribe(_, _) => ReadsUnsubscribe(p, tail);
    case Empty =>
  }
}
