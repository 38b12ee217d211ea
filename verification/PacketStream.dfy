/**
  * The resumable parser as a state machine over byte strings, and what it makes of the bytes of
  * any list of packets, however they are cut into chunks.
  */
module PacketStream {
  import opened Basics
  import opened PacketCodec

  const LIMIT := 0x1000_0000

  /** The fields of the packet under construction that are set by the time each state is entered. */
  datatype Stage =
    | AtHeader
    | AtLength(header: Header)
    | AtPayload(header: Header, length: nat)
    | AtNew(packet: Packet<Bytes>, length: nat)

  /** A packet as emitted: `length` is the remaining length read from the wire. */
  datatype Frame = Frame(packet: Packet<Bytes>, length: nat)

  datatype State = State(list: Bytes, stage: Stage, error: Option<ParseError>, emitted: seq<Frame>)

  const START := State([], AtHeader, None, [])

  function HeaderOf(b: Byte): Header { Header(b / 0x10, b / 8 % 2 == 1, b / 2 % 4, b % 2 == 1) }

  /**
    * The remaining length at the front of `list` and the number of bytes it takes, at most
    * `budget`; none when the list ends inside it.
    */
  function LengthField(list: Bytes, budget: nat): (r: Option<(nat, nat)>)
    requires |list| > 0 && budget > 0
    ensures r.Some? ==> 0 < r.value.1 <= |list|
  {
    if list[0] < 0x80 then Some((list[0], 1))
    else if |list| == 1 then None
    else if budget == 1 then Some((list[0] - 0x80, 1))
    else
      var more := LengthField(list[1..], budget - 1);
      if more.None? then None else Some((list[0] - 0x80 + 0x80 * more.value.0, more.value.1 + 1))
  }

  /** `parse` leaves its loop: nothing to read, not enough to read, or an error. */
  predicate Stuck(s: State) {
    || s.error.Some?
    || (s.stage.AtHeader? && |s.list| == 0)
    || (s.stage.AtLength? && (|s.list| == 0 || LengthField(s.list, 5).None?))
    || (s.stage.AtPayload? && |s.list| < s.stage.length)
  }

  function Next(s: State): State
    requires !Stuck(s)
  {
    match s.stage
    case AtHeader => s.(list := s.list[1..], stage := AtLength(HeaderOf(s.list[0])))
    case AtLength(h) =>
      var (n, bytes) := LengthField(s.list, 5).value;
      s.(list := s.list[bytes..], stage := AtPayload(h, n))
    case AtPayload(h, n) =>
      var r := ReadBody(h, n, s.list);
      if r.Err? then s.(error := Some(r.error)) else s.(stage := AtNew(Packet(h, r.value), n))
    case AtNew(p, n) =>
      State(if n <= |s.list| then s.list[n..] else [], AtHeader, None, s.emitted + [Frame(p, n)])
  }

  function Rank(s: State): nat {
    if s.error.Some? then 0
    else
      4 * |s.list|
      + (match s.stage case AtHeader => 1 case AtLength(_) => 4 case AtPayload(_, _) => 3 case AtNew(_, _) => 2)
  }

  function Run(s: State): (r: State)
    ensures Stuck(r)
    decreases Rank(s)
  {
    if Stuck(s) then s else Run(Next(s))
  }

  function Feed(s: State, chunk: Bytes): State { Run(s.(list := s.list + chunk)) }

  function FeedAll(s: State, chunks: seq<Bytes>): State
    decreases |chunks|
  {
    if |chunks| == 0 then s else FeedAll(Feed(s, chunks[0]), chunks[1..])
  }

  // ------------------------------------------------------ bytes of a packet list

  ghost predicate Sendable(ps: seq<Packet<Bytes>>) { forall p <- ps :: Writable(p) && DeclaredLength(p) < LIMIT }

  function Wire(ps: seq<Packet<Bytes>>): Bytes
    requires Sendable(ps)
  {
    if |ps| == 0 then [] else Generate(ps[0], Wire(ps[1..]))
  }

  function Frames(ps: seq<Packet<Bytes>>): seq<Frame> {
    if |ps| == 0 then [] else [Frame(ps[0], DeclaredLength(ps[0]))] + Frames(ps[1..])
  }

  // ------------------------------------------------------ one field at a time

  lemma ReadsHeader(p: Packet<Bytes>)
    requires Writable(p)
    ensures 0 <= HeaderByte(p.header) < 0x100 && HeaderOf(HeaderByte(p.header)) == p.header
  {
    var h := p.header;
    assert h.cmd <= 14 && h.qos <= 2;
    HeaderFields(h.cmd, Bit(h.dup, 8), h.qos, Bit(h.retain, 1));
  }

  lemma HeaderFields(cmd: nat, dup: nat, qos: nat, retain: nat)
    requires cmd <= 14 && (dup == 0 || dup == 8) && qos <= 2 && retain <= 1
    ensures var b := cmd * 0x10 + dup + qos * 2 + retain;
      b < 0x100 && b / 0x10 == cmd && b / 8 % 2 == dup / 8 && b / 2 % 4 == qos && b % 2 == retain
  {
  }

  function Limit(budget: nat): nat { if budget == 0 then 1 else 0x80 * Limit(budget - 1) }

  /** A length field is read when all of it has arrived, and not before. */
  lemma {:induction false} ReadsLength(n: nat, t: Bytes, list: Bytes, future: Bytes, budget: nat)
    requires |list| > 0 && budget > 0 && n < Limit(budget) && list + future == VarBytes(n) + t
    ensures |VarBytes(n)| <= |list| ==> LengthField(list, budget) == Some((n, |VarBytes(n)|))
    ensures |VarBytes(n)| > |list| ==> LengthField(list, budget) == None
    decreases budget
  {
    assert list[0] == (list + future)[0] == (VarBytes(n) + t)[0] == VarBytes(n)[0];
    if n >= 0x80 && |list| > 1 {
      var more := VarBytes(n / 0x80);
      assert list[1..] + future == (list + future)[1..];
      assert (VarBytes(n) + t)[1..] == more + t;
      ReadsLength(n / 0x80, t, list[1..], future, budget - 1);
    }
  }

  // ------------------------------------------------------ whole runs

  /** What is buffered and what is still to come is exactly what remains of the packets `ps`. */
  ghost predicate Awaits(s: State, ps: seq<Packet<Bytes>>, future: Bytes) {
    && s.error.None? && Sendable(ps)
    && match s.stage
       case AtHeader => s.list + future == Wire(ps)
       case AtLength(h) =>
         && |ps| > 0 && h == ps[0].header
         && s.list + future == VarBytes(DeclaredLength(ps[0])) + BodyBytes(ps[0], Wire(ps[1..]))
       case AtPayload(h, n) =>
         && |ps| > 0 && h == ps[0].header && n == DeclaredLength(ps[0])
         && s.list + future == BodyBytes(ps[0], Wire(ps[1..]))
       case AtNew(p, n) =>
         && |ps| > 0 && p == ps[0] && n == DeclaredLength(p) <= |s.list|
         && s.list + future == BodyBytes(p, Wire(ps[1..]))
  }

  lemma AwaitsHeader(s: State, ps: seq<Packet<Bytes>>, future: Bytes)
    requires Awaits(s, ps, future) && !Stuck(s) && s.stage.AtHeader?
    ensures Awaits(Next(s), ps, future)
  {
    ReadsHeader(ps[0]);
    FirstByte(s.list, future, HeaderByte(ps[0].header), VarBytes(DeclaredLength(ps[0])) + BodyBytes(ps[0], Wire(ps[1..])));
  }

  lemma FirstByte(list: Bytes, future: Bytes, b: Byte, rest: Bytes)
    requires |list| > 0 && list + future == [b] + rest
    ensures list[0] == b && list[1..] + future == rest
  {
    assert list[0] == (list + future)[0] && list[1..] + future == (list + future)[1..];
    assert ([b] + rest)[1..] == rest;
  }

  lemma AwaitsLength(s: State, ps: seq<Packet<Bytes>>, future: Bytes)
    requires Awaits(s, ps, future) && !Stuck(s) && s.stage.AtLength?
    ensures Awaits(Next(s), ps, future)
  {
    var n, t := DeclaredLength(ps[0]), BodyBytes(ps[0], Wire(ps[1..]));
    ReadsLength(n, t, s.list, future, 5);
    var k := |VarBytes(n)|;
    assert s.list[k..] + future == (s.list + future)[k..] == (VarBytes(n) + t)[k..] == t;
  }

  /** The buffer holds all of the packet: it is the packet's bytes and whatever follows them. */
  lemma HoldsBody(p: Packet<Bytes>, list: Bytes, future: Bytes, tail: Bytes) returns (t: Bytes)
    requires Writable(p) && list + future == BodyBytes(p, tail) && DeclaredLength(p) <= |list|
    ensures list == BodyBytes(p, t) && list[DeclaredLength(p)..] == t && t + future == tail
  {
    var b, n := BodyBytes(p, []), DeclaredLength(p);
    BodyTail(p, tail);
    BodyTail(p, []);
    t := list[n..];
    BodyTail(p, t);
    var all := list + future;
    assert all[..n] == list[..n] && all[n..] == t + future;
    assert (b + tail)[..n] == b && (b + tail)[n..] == tail;
    assert list == list[..n] + t;
  }

  lemma AwaitsPayload(s: State, ps: seq<Packet<Bytes>>, future: Bytes)
    requires Awaits(s, ps, future) && !Stuck(s) && s.stage.AtPayload?
    ensures Awaits(Next(s), ps, future)
  {
    var t := HoldsBody(ps[0], s.list, future, Wire(ps[1..]));
    ReadsBody(ps[0], t);
    var r := ReadBody(s.stage.header, s.stage.length, s.list);
    assert r == Ok(ps[0].body);
  }

  lemma AwaitsNew(s: State, ps: seq<Packet<Bytes>>, future: Bytes)
    requires Awaits(s, ps, future) && !Stuck(s) && s.stage.AtNew?
    ensures Awaits(Next(s), ps[1..], future)
  {
    var t := HoldsBody(ps[0], s.list, future, Wire(ps[1..]));
  }

  /** Runs of the loop keep step with the packet list and lose nothing. */
  lemma {:induction false} RunAwaits(s: State, ps: seq<Packet<Bytes>>, future: Bytes) returns (rest: seq<Packet<Bytes>>)
    requires Awaits(s, ps, future)
    ensures Awaits(Run(s), rest, future) && Run(s).emitted + Frames(rest) == s.emitted + Frames(ps)
    decreases Rank(s)
  {
    if Stuck(s) {
      rest := ps;
    } else if s.stage.AtNew? {
      AwaitsNew(s, ps, future);
      rest := RunAwaits(Next(s), ps[1..], future);
      Associative(s.emitted, [Frame(ps[0], DeclaredLength(ps[0]))], Frames(ps[1..]));
    } else {
      if s.stage.AtHeader? { AwaitsHeader(s, ps, future); }
      else if s.stage.AtLength? { AwaitsLength(s, ps, future); }
      else { AwaitsPayload(s, ps, future); }
      rest := RunAwaits(Next(s), ps, future);
    }
  }

  /** With nothing more to come the parser stops only between packets, all of them emitted. */
  lemma NothingLeft(s: State, ps: seq<Packet<Bytes>>)
    requires Awaits(s, ps, []) && Stuck(s)
    ensures ps == [] && s.list == [] && s.stage == AtHeader
  {
    assert s.list + [] == s.list;
    if |ps| > 0 {
      BodyTail(ps[0], Wire(ps[1..]));
      if s.stage.AtLength? { ReadsLength(DeclaredLength(ps[0]), BodyBytes(ps[0], Wire(ps[1..])), s.list, [], 5); }
    }
  }

  lemma FeedAwaits(s: State, ps: seq<Packet<Bytes>>, chunk: Bytes, future: Bytes) returns (rest: seq<Packet<Bytes>>)
    requires Awaits(s, ps, chunk + future)
    ensures Awaits(Feed(s, chunk), rest, future) && Stuck(Feed(s, chunk))
    ensures Feed(s, chunk).emitted + Frames(rest) == s.emitted + Frames(ps)
  {
    Associative(s.list, chunk, future);
    rest := RunAwaits(s.(list := s.list + chunk), ps, future);
  }

  lemma {:induction false} FeedAllAwaits(s: State, ps: seq<Packet<Bytes>>, chunks: seq<Bytes>)
    requires Awaits(s, ps, Flatten(chunks)) && Stuck(s)
    ensures FeedAll(s, chunks) == START.(emitted := s.emitted + Frames(ps))
    decreases |chunks|
  {
    if |chunks| == 0 {
      NothingLeft(s, ps);
    } else {
      var rest := FeedAwaits(s, ps, chunks[0], Flatten(chunks[1..]));
      FeedAllAwaits(Feed(s, chunks[0]), rest, chunks[1..]);
    }
  }

  /**
    * The bytes of any list of packets, cut into chunks in any way, make a fresh parser emit exactly
    * those packets in order; no error is raised and no byte is left over.
    */
  lemma AnyChunking(ps: seq<Packet<Bytes>>, chunks: seq<Bytes>)
    requires Sendable(ps) && Flatten(chunks) == Wire(ps)
    ensures FeedAll(START, chunks) == START.(emitted := Frames(ps))
  {
    assert [] + Flatten(chunks) == Flatten(chunks);
    FeedAllAwaits(START, ps, chunks);
    assert [] + Frames(ps) == Frames(ps);
  }
}
