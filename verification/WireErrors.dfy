/**
  * Which error the parser raises for a packet it cannot read: the first field that is missing or
  * wrong, going through the bytes by position.
  */
module WireErrors {
  import opened Basics
  import opened PacketCodec
  import opened WireFormat

  /** At `i` there is a length and, within the packet and the buffer, as many bytes. */
  predicate HasString(b: Bytes, i: nat, end: nat) { i + 2 <= |b| && Next(b, i) <= |b| && Next(b, i) <= end }

  /** Where the string at `i` ends. */
  function Next(b: Bytes, i: nat): nat { if i + 2 <= |b| then i + 2 + U16(b, i) else i }

  /** The first error among the optional fields at the end of CONNECT. */
  function OptionalError(b: Bytes, i: nat, end: nat, flags: nat): Option<ParseError> {
    var w := Next(b, i);
    var u := if flags / 4 % 2 == 1 then Next(b, w) else i;
    var p := if flags / 128 % 2 == 1 then Next(b, u) else u;
    if flags / 4 % 2 == 1 && !HasString(b, i, end) then Some(BadWillTopic)
    else if flags / 4 % 2 == 1 && !HasString(b, w, end) then Some(BadWillPayload)
    else if flags / 128 % 2 == 1 && !HasString(b, u, end) then Some(BadUsername)
    else if flags / 64 % 2 == 1 && !HasString(b, p, end) then Some(BadPassword)
    else None
  }

  /** Name, level, flags and keepalive, client id, and then the optional fields. */
  function ConnectError(b: Bytes, end: nat): Option<ParseError> {
    var v := Next(b, 0);
    if !HasString(b, 0, end) then Some(BadProtocolId)
    else if b[2..v] != MQTT && b[2..v] != MQISDP then Some(InvalidProtocolId)
    else if |b| == v then Some(TooShort)
    else if b[v] == 5 then Some(VersionFive)
    else if b[v] != 3 && b[v] != 4 then Some(InvalidVersion)
    else if |b| < v + 4 || !HasString(b, v + 4, end) then Some(TooShort)
    else OptionalError(b, Next(b, v + 4), end, b[v + 1])
  }

  function SubscribeError(b: Bytes, i: nat, end: nat): Option<ParseError>
    requires end <= |b|
    decreases end - i
  {
    if i >= end then None
    else if !HasString(b, i, end) then Some(BadTopic)
    else if Next(b, i) >= end then Some(MalformedSubscribe)
    else SubscribeError(b, Next(b, i) + 1, end)
  }

  function UnsubscribeError(b: Bytes, i: nat, end: nat): Option<ParseError>
    requires end <= |b|
    decreases end - i
  {
    if i >= end then None
    else if !HasString(b, i, end) then Some(BadTopic)
    else UnsubscribeError(b, Next(b, i), end)
  }

  ghost predicate Fails<T>(r: Result<T>, e: Option<ParseError>) { if e.None? then r.Ok? else r == Err(e.value) }

  lemma StringMissing(b: Bytes, i: nat, end: nat, rest: Bytes, left: int, e: ParseError)
    requires ReadingAt(b, i, end, rest, left)
    ensures if HasString(b, i, end) then ReadBin(rest, left, e).Ok? && Next(b, i) == After(i, ReadBin(rest, left, e).value.0)
                                         && ReadBin(rest, left, e).value.0 == b[i + 2..Next(b, i)]
            else ReadBin(rest, left, e) == Err(e)
  {
    NumberRead(b, i, end, rest, left);
    if ReadBin(rest, left, e).Ok? { StringRead(b, i, end, rest, left, e); }
  }

  lemma WillFails(b: Bytes, i: nat, end: nat, flags: nat, rest: Bytes, left: int)
    requires ReadingAt(b, i, end, rest, left)
    ensures Fails(ReadWill(flags, rest, left),
                  if flags / 4 % 2 == 0 then None else if !HasString(b, i, end) then Some(BadWillTopic)
                  else if !HasString(b, Next(b, i), end) then Some(BadWillPayload) else None)
    ensures var r := ReadWill(flags, rest, left);
      r.Ok? ==> ReadingAt(b, if flags / 4 % 2 == 1 then Next(b, Next(b, i)) else i, end, r.value.1, r.value.2)
  {
    if Flag(flags, 4) {
      StringMissing(b, i, end, rest, left, BadWillTopic);
      if HasString(b, i, end) {
        StringRead(b, i, end, rest, left, BadWillTopic);
        var (topic, rest1, left1) := ReadBin(rest, left, BadWillTopic).value;
        StringMissing(b, Next(b, i), end, rest1, left1, BadWillPayload);
        if HasString(b, Next(b, i), end) { StringRead(b, Next(b, i), end, rest1, left1, BadWillPayload); }
      }
    }
  }

  lemma NameFails(b: Bytes, i: nat, end: nat, flags: nat, rest: Bytes, left: int)
    requires ReadingAt(b, i, end, rest, left)
    ensures Fails(ReadUsername(flags, rest, left),
                  if flags / 128 % 2 == 1 && !HasString(b, i, end) then Some(BadUsername) else None)
    ensures var r := ReadUsername(flags, rest, left);
      r.Ok? ==> ReadingAt(b, if flags / 128 % 2 == 1 then Next(b, i) else i, end, r.value.1, r.value.2)
  {
    if Flag(flags, 0x80) {
      StringMissing(b, i, end, rest, left, BadUsername);
      if HasString(b, i, end) { StringRead(b, i, end, rest, left, BadUsername); }
    }
  }

  lemma WordFails(b: Bytes, i: nat, end: nat, flags: nat, rest: Bytes, left: int)
    requires ReadingAt(b, i, end, rest, left)
    ensures Fails(ReadPassword(flags, rest, left),
                  if flags / 64 % 2 == 1 && !HasString(b, i, end) then Some(BadPassword) else None)
  {
    if Flag(flags, 0x40) { StringMissing(b, i, end, rest, left, BadPassword); }
  }

  lemma FieldsFail(b: Bytes, i: nat, end: nat, pid: Bytes, version: nat, flags: nat, keepalive: nat, rest: Bytes, left: int)
    requires ReadingAt(b, i, end, rest, left)
    ensures Fails(ReadConnectFields(pid, version, flags, keepalive, rest, left),
                  if !HasString(b, i, end) then Some(TooShort) else OptionalError(b, Next(b, i), end, flags))
  {
    StringMissing(b, i, end, rest, left, TooShort);
    if HasString(b, i, end) {
      StringRead(b, i, end, rest, left, TooShort);
      var (clientId, rest1, left1) := ReadBin(rest, left, TooShort).value;
      OptionalsFail(b, Next(b, i), end, flags, rest1, left1);
    }
  }

  /** The three optional readers one after the other. */
  lemma OptionalsFail(b: Bytes, i: nat, end: nat, flags: nat, rest: Bytes, left: int)
    requires ReadingAt(b, i, end, rest, left)
    ensures var r := ReadWill(flags, rest, left);
      var error := OptionalError(b, i, end, flags);
      if r.Err? then error == Some(r.error)
      else
        var s := ReadUsername(flags, r.value.1, r.value.2);
        if s.Err? then error == Some(s.error)
        else Fails(ReadPassword(flags, s.value.1, s.value.2), error)
  {
    WillFails(b, i, end, flags, rest, left);
    var r := ReadWill(flags, rest, left);
    if r.Ok? {
      var u := if flags / 4 % 2 == 1 then Next(b, Next(b, i)) else i;
      NameFails(b, u, end, flags, r.value.1, r.value.2);
      var s := ReadUsername(flags, r.value.1, r.value.2);
      if s.Ok? {
        WordFails(b, if flags / 128 % 2 == 1 then Next(b, u) else u, end, flags, s.value.1, s.value.2);
      }
    }
  }

  lemma VersionFails(b: Bytes, v: nat, end: nat, pid: Bytes, rest: Bytes, left: int)
    requires ReadingAt(b, v, end, rest, left)
    ensures Fails(ReadVersion(pid, rest, left),
                  if |b| == v then Some(TooShort) else if b[v] == 5 then Some(VersionFive)
                  else if b[v] != 3 && b[v] != 4 then Some(InvalidVersion)
                  else if |b| < v + 4 || !HasString(b, v + 4, end) then Some(TooShort)
                  else OptionalError(b, Next(b, v + 4), end, b[v + 1]))
  {
    if |b| > v {
      ByteRead(b, v, end, rest, left);
      if |b| > v + 1 && (b[v] == 3 || b[v] == 4) {
        ByteRead(b, v + 1, end, rest[1..], left - 1);
        NumberRead(b, v + 2, end, rest[1..][1..], left - 2);
        if |b| >= v + 4 {
          FieldsFail(b, v + 4, end, pid, b[v], b[v + 1], U16(b, v + 2), AfterNumber(rest[1..][1..]), left - 4);
        }
      }
    }
  }

  lemma ConnectFails(b: Bytes, end: nat)
    requires end <= |b|
    ensures Fails(ReadConnect(b, end), ConnectError(b, end))
  {
    assert b[0..] == b;
    StringMissing(b, 0, end, b, end, BadProtocolId);
    if HasString(b, 0, end) {
      StringRead(b, 0, end, b, end, BadProtocolId);
      var (pid, rest, left) := ReadBin(b, end, BadProtocolId).value;
      VersionFails(b, Next(b, 0), end, pid, rest, left);
    }
  }

  lemma {:induction false} SubscribeFails(b: Bytes, i: nat, end: nat, rest: Bytes, left: int)
    requires ReadingAt(b, i, end, rest, left)
    ensures Fails(ReadSubscriptions(rest, left), SubscribeError(b, i, end))
    decreases |rest|
  {
    if left > 0 {
      StringMissing(b, i, end, rest, left, BadTopic);
      if HasString(b, i, end) {
        StringRead(b, i, end, rest, left, BadTopic);
        var (topic, rest1, left1) := ReadBin(rest, left, BadTopic).value;
        if Next(b, i) < end {
          ByteRead(b, Next(b, i), end, rest1, left1);
          SubscribeFails(b, Next(b, i) + 1, end, rest1[1..], left1 - 1);
        }
      }
    }
  }

  lemma {:induction false} UnsubscribeFails(b: Bytes, i: nat, end: nat, rest: Bytes, left: int)
    requires ReadingAt(b, i, end, rest, left)
    ensures Fails(ReadTopics(rest, left), UnsubscribeError(b, i, end))
    decreases |rest|
  {
    if left > 0 {
      StringMissing(b, i, end, rest, left, BadTopic);
      if HasString(b, i, end) {
        StringRead(b, i, end, rest, left, BadTopic);
        var (topic, rest1, left1) := ReadBin(rest, left, BadTopic).value;
        UnsubscribeFails(b, Next(b, i), end, rest1, left1);
      }
    }
  }

  /** The error for a packet of any type, or none. */
  function ErrorOf(h: Header, end: nat, b: Bytes): Option<ParseError>
    requires end <= |b|
  {
    match h.cmd
    case 1 => ConnectError(b, end)
    case 3 =>
      if !HasString(b, 0, end) then Some(BadTopic)
      else if h.qos > 0 && AfterId(b, Next(b, 0)) > end then Some(IdPastEnd) else None
    case 8 => if h.qos != 1 then Some(WrongSubscribeHeader) else SubscribeError(b, AfterId(b, 0), end)
    case 10 => UnsubscribeError(b, AfterId(b, 0), end)
    case 15 => Some(AuthNotSupported)
    case _ => if h.cmd == 0 || h.cmd > 15 then Some(NotSupported) else None
  }

  lemma PublishFails(h: Header, end: nat, b: Bytes)
    requires end <= |b| && h.cmd == 3
    ensures Fails(ReadPublish(h.qos, b, end), ErrorOf(h, end, b))
  {
    assert b[0..] == b;
    StringMissing(b, 0, end, b, end, BadTopic);
    if HasString(b, 0, end) {
      StringRead(b, 0, end, b, end, BadTopic);
      var (topic, rest, left) := ReadBin(b, end, BadTopic).value;
      NumberRead(b, Next(b, 0), end, rest, left);
    }
  }

  /** Every packet is read or refused as its bytes say, and refused with the error of the first bad field. */
  lemma FailsByPosition(h: Header, end: nat, b: Bytes)
    requires end <= |b|
    ensures Fails(ReadBody(h, end, b), ErrorOf(h, end, b))
  {
    assert b[0..] == b;
    var i := AfterId(b, 0);
    NumberRead(b, 0, end, b, end);
    match h.cmd
    case 1 => ConnectFails(b, end);
    case 3 => PublishFails(h, end, b);
    case 8 => SubscribeFails(b, i, end, AfterNumber(b), end - i);
    case 10 => UnsubscribeFails(b, i, end, AfterNumber(b), end - i);
    case _ =>
  }
}
