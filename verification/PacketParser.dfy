/**
  * The `Parser` object: it keeps unread bytes in a fragmented buffer, a position in the packet it
  * is reading and a state counter. Every call of `parse` is proved to be one `Feed` of the machine.
  */
module PacketParser {
  import opened Basics
  import opened PacketCodec
  import opened PacketStream
  import BufferList

  lemma Distribute(m: int, a: int, v: int)
    ensures m * (a + 0x80 * v) == m * a + m * 0x80 * v
  {
  }

  /** `LengthField`, with `length` gathered from the `bytes` bytes before `rest`. */
  ghost function Resumed(length: nat, mul: nat, bytes: nat, rest: Option<(nat, nat)>): Option<(nat, nat)> {
    if rest.None? then None else Some((length + mul * rest.value.0, bytes + rest.value.1))
  }

  lemma LengthStep(all: Bytes, bytes: nat, value: nat, mul: nat)
    requires bytes < |all| && bytes < 5
    ensures var got := Resumed(value, mul, bytes, LengthField(all[bytes..], 5 - bytes));
      var v: int := value + mul * (all[bytes] % 0x80);
      got == if all[bytes] < 0x80 then Some((v, bytes + 1))
             else if |all| <= bytes + 1 then None
             else if bytes == 4 then Some((v, 5))
             else Resumed(v, mul * 0x80, bytes + 1, LengthField(all[bytes + 1..], 4 - bytes))
  {
    assert all[bytes..][1..] == all[bytes + 1..];
    if bytes < 4 && bytes + 1 < |all| {
      var more := LengthField(all[bytes + 1..], 4 - bytes);
      if more.Some? { Distribute(mul, (all[bytes] as int) - 0x80, more.value.0); }
    }
  }

  class Parser {
    const list: BufferList.List
    var header: Header
    var length: int
    var body: Body<Bytes>
    var counter: nat
    var pos: nat
    var error: Option<ParseError>
    var emitted: seq<Frame>

    ghost predicate Valid()
      reads this, list
    {
      && list.Valid() && counter <= 3 && (counter <= 1 ==> length == -1 && pos == 0) && (counter >= 2 ==> length >= 0)
    }

    ghost function StageAt(c: nat): Stage
      requires c >= 2 ==> length >= 0
      reads this
    {
      if c == 0 then AtHeader
      else if c == 1 then AtLength(header)
      else if c == 2 then AtPayload(header, length)
      else AtNew(Packet(header, body), length)
    }

    ghost function View(): State
      requires Valid()
      reads this, list
    {
      State(list.Contents(), StageAt(counter), error, emitted)
    }

    constructor ()
      ensures Valid() && View() == START && fresh(list)
    {
      list := new BufferList.List();
      header, length, body := Header(0, false, 0, false), -1, Empty;
      counter, pos, error, emitted := 0, 0, None, [];
    }

    method Parse(buf: Bytes) returns (left: nat)
      requires Valid() && error.None?
      modifies this, list
      ensures Valid() && View() == Feed(old(View()), buf) && left == |list.Contents()|
    {
      list.Append(buf);
      ghost var goal := Run(View());
      while length != -1 || list.length > 0
        invariant Valid() && error.None? && Run(View()) == goal
        decreases Rank(View())
      {
        var ok := Step();
        if !ok || error.Some? { return list.length; }
      }
      left := list.length;
    }

    /** The state the counter points to, and the counter itself when that succeeds. */
    method Step() returns (ok: bool)
      requires Valid() && error.None? && (length != -1 || list.length > 0)
      modifies this, list
      ensures Valid() && ok == !Stuck(old(View()))
      ensures View() == if ok then Next(old(View())) else old(View())
    {
      ok := true;
      if counter == 0 {
        ParseHeader();
      } else if counter == 1 {
        ok := ParseLength();
      } else if counter == 2 {
        ok := ParsePayload();
      } else {
        NewPacket();
      }
      if ok && error.None? {
        counter := counter + 1;
        if counter >= 4 { counter := 0; }
      }
    }

    method ParseHeader()
      requires Valid() && list.length > 0 && counter == 0
      modifies this`header, list
      ensures list.Valid() && list.Contents() == old(list.Contents())[1..] && header == HeaderOf(old(list.Contents())[0])
    {
      var zero := list.ReadUInt8(0);
      header := Header(zero / 0x10, zero / 8 % 2 != 0, zero / 2 % 4, zero % 2 != 0);
      list.Consume(1);
    }

    method ParseLength() returns (ok: bool)
      requires Valid() && list.length > 0 && counter == 1
      modifies this`length, list
      ensures list.Valid()
      ensures var r := LengthField(old(list.Contents()), 5);
        && ok == r.Some?
        && (ok ==> length == r.value.0 && list.Contents() == old(list.Contents())[r.value.1..])
        && (!ok ==> length == old(length) && list.Contents() == old(list.Contents()))
    {
      var r := ParseVarByteNum();
      ok := r.Some?;
      if ok {
        length := r.value.0;
        list.Consume(r.value.1);
      }
    }

    method ParseVarByteNum() returns (r: Option<(nat, nat)>)
      requires Valid() && list.length > 0 && pos == 0
      ensures r == LengthField(list.Contents(), 5)
    {
      var bytes: nat, mul: nat, value: nat := 0, 1, 0;
      ghost var all := list.Contents();
      assert all[0..] == all;
      while bytes < 5
        invariant bytes < 5 ==> bytes < |all|
        invariant bytes < 5 ==> LengthField(all, 5) == Resumed(value, mul, bytes, LengthField(all[bytes..], 5 - bytes))
        invariant bytes >= 5 ==> LengthField(all, 5) == Some((value, bytes))
      {
        var current := list.ReadUInt8(bytes);
        LengthStep(all, bytes, value, mul);
        bytes := bytes + 1;
        value := value + mul * (current % 0x80);
        mul := mul * 0x80;
        if current < 0x80 { break; }
        if list.length <= bytes { return None; }
      }
      r := Some((value, bytes));
    }

    method NewPacket()
      requires Valid() && counter == 3
      modifies this`emitted, this`length, this`pos, list
      ensures list.Valid() && length == -1 && pos == 0
      ensures emitted == old(emitted) + [Frame(Packet(header, body), old(length))]
      ensures var n := old(length);
        list.Contents() == if n <= |old(list.Contents())| then old(list.Contents())[n..] else []
    {
      list.Consume(length);
      emitted := emitted + [Frame(Packet(header, body), length)];
      length, pos := -1, 0;
    }

    // ------------------------------------------------------------ the payload

    /** The unread part of the buffer, and of the packet. */
    ghost function Rest(): Bytes
      requires pos <= |list.Contents()|
      reads this, list
    {
      Back(list.Contents(), pos)
    }

    ghost function Left(): int
      reads this
    {
      length - pos
    }

    ghost predicate Reading()
      reads this, list
    {
      list.Valid() && counter == 2 && error.None? && 0 <= length <= |list.Contents()| && pos <= |list.Contents()|
    }

    ghost predicate Parsed(r: Result<Body<Bytes>>)
      reads this
    {
      if r.Err? then error == Some(r.error) else error.None? && body == r.value
    }

    method ParsePayload() returns (ok: bool)
      requires Valid() && counter == 2 && error.None?
      modifies this`pos, this`body, this`error
      ensures ok == (length <= |list.Contents()|)
      ensures if ok then Parsed(ReadBody(header, length, list.Contents())) else error.None? && body == old(body)
    {
      if length != 0 && list.length < length { return false; }
      pos := 0;
      ok := true;
      match header.cmd {
        case 1 => ParseConnect();
        case 2 => ParseConnack();
        case 3 => ParsePublish();
        case 4 => ParseConfirmation();
        case 5 => ParseConfirmation();
        case 6 => ParseConfirmation();
        case 7 => ParseConfirmation();
        case 8 => ParseSubscribe();
        case 9 => ParseSuback();
        case 10 => ParseUnsubscribe();
        case 11 => ParseConfirmation();
        case 12 => body := Empty;
        case 13 => body := Empty;
        case 14 => body := Empty;
        case 15 => error := Some(AuthNotSupported);
        case _ => error := Some(NotSupported);
      }
    }

    method ParseNum() returns (n: int)
      requires Reading()
      modifies this`pos
      ensures Reading() && n == Number(old(Rest())) && Rest() == AfterNumber(old(Rest()))
      ensures pos == old(pos) + (if |old(Rest())| < 2 then 0 else 2)
    {
      ghost var rest := Rest();
      assert |rest| == list.length - pos;
      if list.length - pos < 2 { return -1; }
      n := list.ReadUInt16BE(pos);
      CutAt(list.Contents(), pos, 2);
      assert rest[..2] == list.Contents()[pos..pos + 2] && rest[0] == rest[..2][0] && rest[1] == rest[..2][1];
      pos := pos + 2;
    }

    /** `_parseBuffer`, and `_parseString` before the bytes are decoded. */
    method ParseBin(ghost e: ParseError) returns (r: Option<Bytes>)
      requires Reading()
      modifies this`pos
      ensures Reading()
      ensures var want := ReadBin(old(Rest()), old(Left()), e);
        if want.Err? then r.None? else r == Some(want.value.0) && Rest() == want.value.1 && Left() == want.value.2
    {
      var n := ParseNum();
      var end := n + pos;
      if n == -1 || end > list.length || end > length { return None; }
      CutAt(list.Contents(), pos, n);
      var bytes := list.Slice(pos, end);
      r := Some(bytes);
      pos := pos + n;
    }

    method ParseByte() returns (b: Byte)
      requires Reading() && pos < list.length
      modifies this`pos
      ensures Reading() && |old(Rest())| > 0 && b == old(Rest())[0] && Rest() == old(Rest())[1..] && pos == old(pos) + 1
    {
      b := list.ReadUInt8(pos);
      CutAt(list.Contents(), pos, 1);
      pos := pos + 1;
    }

    method ParseConnect()
      requires Reading() && pos == 0
      modifies this`pos, this`body, this`error
      ensures Parsed(ReadConnect(list.Contents(), length))
    {
      assert Rest() == list.Contents();
      ghost var goal := ReadConnect(Rest(), Left());
      ConnectCases(Rest(), Left(), goal);
      var pid := ParseBin(BadProtocolId);
      if pid.None? { error := Some(BadProtocolId); return; }
      if pid.value != MQTT && pid.value != MQISDP { error := Some(InvalidProtocolId); return; }
      ParseVersion(pid.value, goal);
    }

    method ParseVersion(pid: Bytes, ghost goal: Result<Body<Bytes>>)
      requires Reading() && goal == ReadVersion(pid, Rest(), Left())
      modifies this`pos, this`body, this`error
      ensures Parsed(goal)
    {
      if pos >= list.length { error := Some(TooShort); return; }
      var version := ParseByte();
      if version == 5 { error := Some(VersionFive); return; }
      if version != 3 && version != 4 { error := Some(InvalidVersion); return; }
      ParseFlags(pid, version, goal);
    }

    method ParseFlags(pid: Bytes, version: nat, ghost goal: Result<Body<Bytes>>)
      requires Reading() && goal == ReadFlags(pid, version, Rest(), Left())
      modifies this`pos, this`body, this`error
      ensures Parsed(goal)
    {
      if pos >= list.length { error := Some(TooShort); return; }
      var flags := ParseByte();
      ParseKeepalive(pid, version, flags, goal);
    }

    method ParseKeepalive(pid: Bytes, version: nat, flags: Byte, ghost goal: Result<Body<Bytes>>)
      requires Reading() && goal == ReadKeepalive(pid, version, flags, Rest(), Left())
      modifies this`pos, this`body, this`error
      ensures Parsed(goal)
    {
      var keepalive := ParseNum();
      if keepalive == -1 { error := Some(TooShort); return; }
      ParseConnectFields(pid, version, flags, keepalive, goal);
    }

    method ParseConnectFields(pid: Bytes, version: nat, flags: Byte, keepalive: nat, ghost goal: Result<Body<Bytes>>)
      requires Reading() && goal == ReadConnectFields(pid, version, flags, keepalive, Rest(), Left())
      modifies this`pos, this`body, this`error
      ensures Parsed(goal)
    {
      var clientId := ParseBin(TooShort);
      if clientId.None? { error := Some(TooShort); return; }
      var will, willError := ParseWill(flags);
      if willError.Some? { error := willError; return; }
      var username: Option<Bytes>, password: Option<Bytes> := None, None;
      if Flag(flags, 0x80) {
        username := ParseBin(BadUsername);
        if username.None? { error := Some(BadUsername); return; }
      }
      if Flag(flags, 0x40) {
        password := ParseBin(BadPassword);
        if password.None? { error := Some(BadPassword); return; }
      }
      body := Connect(pid, version, Flag(flags, 2), keepalive, clientId.value, will, username, password);
    }

    method ParseWill(flags: Byte) returns (will: Option<Will<Bytes>>, e: Option<ParseError>)
      requires Reading()
      modifies this`pos
      ensures Reading()
      ensures var want := ReadWill(flags, old(Rest()), old(Left()));
        if want.Err? then e == Some(want.error)
        else e.None? && will == want.value.0 && Rest() == want.value.1 && Left() == want.value.2
    {
      if !Flag(flags, 4) { return None, None; }
      var topic := ParseBin(BadWillTopic);
      if topic.None? { return None, Some(BadWillTopic); }
      var payload := ParseBin(BadWillPayload);
      if payload.None? { return None, Some(BadWillPayload); }
      return Some(Will(topic.value, payload.value, flags / 8 % 4, Flag(flags, 0x20))), None;
    }

    method ParseConnack()
      requires Reading() && header.cmd == 2
      modifies this`body
      ensures Parsed(ReadBody(header, length, list.Contents()))
    {
      if list.length < 2 { body := Empty; return; }
      var present := list.ReadUInt8(0);
      var code := list.ReadUInt8(1);
      body := Connack(present % 2 != 0, code);
    }

    method ParsePublish()
      requires Reading() && pos == 0
      modifies this`pos, this`body, this`error
      ensures Parsed(ReadPublish(header.qos, list.Contents(), length))
    {
      assert Rest() == list.Contents();
      ghost var goal := ReadPublish(header.qos, Rest(), Left());
      var topic := ParseBin(BadTopic);
      if topic.None? { error := Some(BadTopic); return; }
      ParsePublished(topic.value, goal);
    }

    /** The id, for QoS above 0, and the payload up to the end of the packet. */
    method ParsePublished(topic: Bytes, ghost goal: Result<Body<Bytes>>)
      requires Reading() && goal == ReadPublished(topic, header.qos, Rest(), Left())
      modifies this`pos, this`body, this`error
      ensures Parsed(goal)
    {
      var id: Option<int> := None;
      if header.qos > 0 {
        var n := ParseNum();
        id := Some(n);
      }
      if length < pos { error := Some(IdPastEnd); return; }
      CutAt(list.Contents(), pos, length - pos);
      var payload := list.Slice(pos, length);
      body := Publish(topic, id, payload);
    }

    method ParseConfirmation()
      requires Reading() && pos == 0
      modifies this`pos, this`body
      ensures error.None? && body == Confirmation(Number(list.Contents()))
    {
      assert Rest() == list.Contents();
      var id := ParseNum();
      body := Confirmation(id);
    }

    method ParseSubscribe()
      requires Reading() && pos == 0 && header.cmd == 8
      modifies this`pos, this`body, this`error
      ensures Parsed(ReadBody(header, length, list.Contents()))
    {
      assert Rest() == list.Contents();
      if header.qos != 1 { error := Some(WrongSubscribeHeader); return; }
      var id := ParseNum();
      var subs := ParseSubscriptions();
      if error.None? { body := Subscribe(id, subs); }
    }

    method ParseSubscriptions() returns (subs: seq<Subscription<Bytes>>)
      requires Reading()
      modifies this`pos, this`error
      ensures var r := ReadSubscriptions(old(Rest()), old(Left()));
        if r.Err? then error == Some(r.error) else error.None? && subs == r.value
    {
      ghost var goal := ReadSubscriptions(Rest(), Left());
      subs := [];
      BeforeNothing(goal);
      while pos < length
        invariant Reading() && goal == Before(subs, ReadSubscriptions(Rest(), Left()))
        decreases length - pos
      {
        var s := ParseSubscription();
        if error.Some? { return; }
        BeforeOne(subs, s, ReadSubscriptions(Rest(), Left()));
        subs := subs + [s];
      }
    }

    method ParseSubscription() returns (s: Subscription<Bytes>)
      requires Reading() && pos < length
      modifies this`pos, this`error
      ensures error.None? ==> Reading() && pos > old(pos)
      ensures var r := ReadSubscriptions(old(Rest()), old(Left()));
        if error.None? then r == Before([s], ReadSubscriptions(Rest(), Left())) else r == Err(error.value)
    {
      s := Subscription([], 0);
      var topic := ParseBin(BadTopic);
      if topic.None? { error := Some(BadTopic); return; }
      if pos >= length { error := Some(MalformedSubscribe); return; }
      var options := ParseByte();
      s := Subscription(topic.value, options % 4);
    }

    method ParseUnsubscribe()
      requires Reading() && pos == 0 && header.cmd == 10
      modifies this`pos, this`body, this`error
      ensures Parsed(ReadBody(header, length, list.Contents()))
    {
      assert Rest() == list.Contents();
      var id := ParseNum();
      var topics := ParseTopics();
      if error.None? { body := Unsubscribe(id, topics); }
    }

    method ParseTopics() returns (topics: seq<Bytes>)
      requires Reading()
      modifies this`pos, this`error
      ensures var r := ReadTopics(old(Rest()), old(Left()));
        if r.Err? then error == Some(r.error) else error.None? && topics == r.value
    {
      ghost var goal := ReadTopics(Rest(), Left());
      topics := [];
      BeforeNothing(goal);
      while pos < length
        invariant Reading() && goal == Before(topics, ReadTopics(Rest(), Left()))
        decreases length - pos
      {
        var topic := ParseBin(BadTopic);
        if topic.None? { error := Some(BadTopic); return; }
        BeforeOne(topics, topic.value, ReadTopics(Rest(), Left()));
        topics := topics + [topic.value];
      }
    }

    method ParseSuback()
      requires Reading() && pos == 0 && header.cmd == 9
      modifies this`pos, this`body
      ensures Parsed(ReadBody(header, length, list.Contents()))
    {
      assert Rest() == list.Contents();
      var id := ParseNum();
      var granted := ParseGranted();
      body := Suback(id, granted);
    }

    method ParseGranted() returns (granted: seq<Byte>)
      requires Reading()
      modifies this`pos
      ensures granted == if 0 <= old(Left()) then Front(old(Rest()), old(Left())) else []
    {
      granted := [];
      ghost var start, all := pos, list.Contents();
      if pos <= length { CutAt(all, pos, length - pos); }
      while pos < length
        invariant Reading() && start <= pos && (pos <= length || pos == start) && granted == all[start..pos]
      {
        var qos := list.ReadUInt8(pos);
        granted := granted + [qos];
        pos := pos + 1;
      }
    }
  }

  lemma ConnectCases(rest: Bytes, left: int, goal: Result<Body<Bytes>>)
    requires goal == ReadConnect(rest, left)
    ensures var r := ReadBin(rest, left, BadProtocolId);
      if r.Err? then goal == Err(BadProtocolId)
      else if r.value.0 != MQTT && r.value.0 != MQISDP then goal == Err(InvalidProtocolId)
      else goal == ReadVersion(r.value.0, r.value.1, r.value.2)
  {
  }

  lemma CutAt(s: Bytes, m: nat, n: nat)
    requires m + n <= |s|
    ensures Front(Back(s, m), n) == s[m..m + n] == Back(s, m)[..n]
    ensures Back(Back(s, m), n) == Back(s, m + n) == Back(s, m)[n..]
  {
    FrontBack(s, m);
    FrontBack(s, m + n);
    FrontBack(s[m..], n);
    assert s[m..][..n] == s[m..m + n] && s[m..][n..] == s[m + n..];
  }

  /** The outcome of a list parser after the items `done`. */
  ghost function Before<T>(done: seq<T>, more: Result<seq<T>>): Result<seq<T>> {
    if more.Err? then more else Ok(done + more.value)
  }

  lemma BeforeOne<T>(done: seq<T>, x: T, more: Result<seq<T>>)
    ensures Before(done, Before([x], more)) == Before(done + [x], more)
  {
    if more.Ok? { Associative(done, [x], more.value); }
  }

  lemma BeforeNothing<T>(more: Result<seq<T>>)
    ensures Before([], more) == more
  {
    if more.Ok? { assert [] + more.value == more.value; }
  }
}
