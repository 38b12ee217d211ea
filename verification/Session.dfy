/**
  * The session of an MQTT client (mqtt.js): QoS 1 and 2 in both directions, the insertion-ordered
  * store of packets in flight, and its replay after a reconnect. The client is a transition
  * system over the calls and packets that reach it; `Client` is its state.
  */
module Session {
  import opened Basics

  const MAX_ID := 65535

  datatype Message = Message(topic: string, payload: seq<Byte>)

  /** Packets the client writes; `id` is the messageId. */
  datatype Packet =
    | Publish(id: nat, qos: nat, msg: Message)
    | Pubrel(id: nat)
    | Subscribe(id: nat)
    | Puback(id: nat)
    | Pubrec(id: nat)
    | Pubcomp(id: nat)
  {
    /** Packets that go through the outgoing store. */
    predicate Kept() { Pubrel? || (Publish? && qos > 0) }

    /** Packets that carry an id drawn by this client. */
    predicate Own() { Kept() || Subscribe? }
  }

  /** An entry of `outgoing`: what runs when the exchange completes. */
  datatype Callback = Plain | Volatile | Resume(epoch: nat, inner: Callback)

  /** What happened on the current connection: packets sent, packets replayed, replays completed. */
  datatype WireEvent = Sent(packet: Packet) | Resent(packet: Packet) | Completed(id: nat)

  // ------------------------------------------------------------- the store

  function Find(s: seq<Packet>, id: nat): (i: nat)
    ensures i <= |s| && (i < |s| ==> s[i].id == id)
    ensures forall k :: 0 <= k < i ==> s[k].id != id
  {
    if |s| == 0 || s[0].id == id then 0 else 1 + Find(s[1..], id)
  }

  predicate Stored(s: seq<Packet>, id: nat) { Find(s, id) < |s| }

  /** `Map.set`: a key already there keeps its place. */
  function Put(s: seq<Packet>, p: Packet): seq<Packet> {
    var i := Find(s, p.id);
    if i < |s| then s[i := p] else s + [p]
  }

  function Del(s: seq<Packet>, id: nat): seq<Packet> {
    var i := Find(s, id);
    if i < |s| then s[..i] + s[i + 1..] else s
  }

  function Ids(s: seq<Packet>): (ids: seq<nat>)
    ensures |ids| == |s| && forall k :: 0 <= k < |s| ==> ids[k] == s[k].id
  {
    seq(|s|, k requires 0 <= k < |s| => s[k].id)
  }

  ghost predicate Unique(ids: seq<nat>) {
    forall j, k :: 0 <= j < k < |ids| ==> ids[j] != ids[k]
  }

  /** The store holds the ids of `pending` from `n` on, in that order. */
  ghost predicate Holds(s: seq<Packet>, pending: seq<nat>, n: nat) {
    && n + |s| == |pending|
    && forall k :: 0 <= k < |s| ==> s[k].Kept() && s[k].id == pending[n + k]
  }

  lemma FindAt(s: seq<Packet>, pending: seq<nat>, n: nat, k: nat)
    requires Holds(s, pending, n) && Unique(pending) && k < |s|
    ensures Find(s, pending[n + k]) == k
  {
    var i := Find(s, pending[n + k]);
    assert s[k].id == pending[n + k];
    assert i <= k && s[i].id == pending[n + i];
  }

  /** Putting a stored id changes no order; a new one goes last. */
  lemma PutHolds(s: seq<Packet>, p: Packet, pending: seq<nat>, n: nat)
    requires Holds(s, pending, n) && p.Kept()
    ensures Stored(s, p.id) ==> Holds(Put(s, p), pending, n)
    ensures !Stored(s, p.id) ==> Holds(Put(s, p), pending + [p.id], n)
  {
    if !Stored(s, p.id) { assert Put(s, p) == s + [p]; }
  }

  lemma DelFirst(s: seq<Packet>, pending: seq<nat>, n: nat)
    requires Holds(s, pending, n) && n < |pending|
    ensures Holds(Del(s, pending[n]), pending, n + 1)
  {
    assert Find(s, pending[n]) == 0;
  }

  // ------------------------------------------------------------- the client

  datatype Client = Client(
    connected: bool,
    ready: bool,                   // 'connect' has been emitted on this connection
    nextId: nat,
    outgoing: map<nat, Callback>,
    queue: seq<Packet>,
    store: seq<Packet>,            // outgoingStore
    incoming: map<nat, Message>,   // incomingStore
    processing: bool,              // _storeProcessing
    during: map<nat, bool>,        // _packetIdsDuringStoreProcessing
    firstEpoch: nat,               // streams made on this connection are firstEpoch..epoch
    epoch: nat,
    stream: seq<Packet>,           // snapshot of the store, and how far it has been read
    index: nat,
    waiting: bool,                 // the last read returned nothing: 'end' will follow
    wire: seq<WireEvent>,          // since the last CONNACK
    delivered: seq<Message>)       // 'message' events

  function NextId(id: nat): nat { if id + 1 == MAX_ID + 1 then 1 else id + 1 }

  predicate Durable(p: Packet) { p.Publish? && p.qos > 0 }

  /** `_storePacket`, with `queueQoSZero` at its default. */
  function StorePacket(c: Client, p: Packet): Client {
    c.(store := if Durable(p) then Put(c.store, p) else c.store, queue := if Durable(p) then c.queue else c.queue + [p])
  }

  /** `_sendPacket`: stored first when the exchange must survive the connection; offline, `_storePacket`. */
  function SendPacket(c: Client, p: Packet, event: WireEvent): Client {
    c.(store := if Durable(p) || (c.connected && p.Kept()) then Put(c.store, p) else c.store,
       queue := if Durable(p) || c.connected then c.queue else c.queue + [p],
       wire := if c.connected then c.wire + [event] else c.wire)
  }

  function Send(c: Client, p: Packet): Client { SendPacket(c, p, Sent(p)) }

  function Accept(c: Client, qos: nat, msg: Message): Client {
    var p := Publish(c.nextId, qos, msg);
    var c1 := c.(nextId := NextId(c.nextId),
                 outgoing := if qos > 0 then c.outgoing[p.id := Plain] else c.outgoing,
                 during := if qos > 0 && c.processing then c.during[p.id := false] else c.during);
    if c.processing then StorePacket(c1, p) else Send(c1, p)
  }

  function AskSubscribe(c: Client): Client {
    Send(c.(nextId := NextId(c.nextId), outgoing := c.outgoing[c.nextId := Volatile]), Subscribe(c.nextId))
  }

  /** The acknowledgement of a replayed packet will resume the stream, after the older callback. */
  function Resend(c: Client, p: Packet): Client {
    var inner := if p.id in c.outgoing then c.outgoing[p.id] else Plain;
    SendPacket(c.(outgoing := c.outgoing[p.id := Resume(c.epoch, inner)], during := c.during[p.id := true]),
               p, Resent(p))
  }

  /** `storeDeliver` on the current stream: replay the next packet not replayed yet. */
  function ReadNext(c: Client): Client
    decreases |c.stream| - c.index
  {
    if c.index >= |c.stream| then c.(processing := true, waiting := true)
    else
      var p := c.stream[c.index];
      var c1 := c.(processing := true, index := c.index + 1);
      if p.id in c.during && c.during[p.id] then ReadNext(c1) else Resend(c1, p)
  }

  /** `storeDeliver` of stream `e`: dead after a close, and at its end once a newer one exists. */
  function StoreDeliver(c: Client, e: nat): Client {
    if !c.connected || e < c.firstEpoch then c
    else if e < c.epoch then c.(processing := true)
    else ReadNext(c)
  }

  function RunCallback(c: Client, cb: Callback): Client
    decreases cb
  {
    if cb.Resume? then StoreDeliver(RunCallback(c, cb.inner), cb.epoch) else c
  }

  predicate Resumes(c: Client, cb: Callback) { cb.Resume? && c.connected && cb.epoch == c.epoch }

  function Complete(c: Client, id: nat): Client
    requires id in c.outgoing
  {
    c.(outgoing := c.outgoing - {id}, store := Del(c.store, id),
       wire := if Resumes(c, c.outgoing[id]) then c.wire + [Completed(id)] else c.wire)
  }

  /** PUBACK or PUBCOMP. */
  function Finish(c: Client, id: nat): Client {
    if id !in c.outgoing then c else RunCallback(Complete(c, id), c.outgoing[id])
  }

  function Received(c: Client, id: nat): Client {
    if id !in c.outgoing then c else Send(c, Pubrel(id))
  }

  function Subscribed(c: Client, id: nat): Client {
    if id !in c.outgoing then c
    else RunCallback(c.(outgoing := c.outgoing - {id}), c.outgoing[id])
  }

  /** A PUBLISH is stored for its PUBREL, or delivered at once. */
  function TakeIn(c: Client, qos: nat, id: nat, msg: Message): Client {
    c.(incoming := if qos == 2 then c.incoming[id := msg] else c.incoming,
       delivered := if qos <= 1 then c.delivered + [msg] else c.delivered)
  }

  function Arrive(c: Client, qos: nat, id: nat, msg: Message): Client {
    var c1 := TakeIn(c, qos, id, msg);
    if qos == 2 then Send(c1, Pubrec(id)) else if qos == 1 then Send(c1, Puback(id)) else c1
  }

  function Release(c: Client, id: nat): Client {
    Send(c.(delivered := if id in c.incoming then c.delivered + [c.incoming[id]] else c.delivered,
            incoming := if id in c.incoming then c.incoming - {id} else c.incoming),
         Pubcomp(id))
  }

  /** 'close': volatile callbacks are flushed, the stream is destroyed, processing ends. */
  function Close(c: Client): Client {
    c.(connected := false, ready := false, waiting := false, processing := false, during := map[],
       outgoing := Flushed(c.outgoing))
  }

  /** `flushVolatile`: what it leaves. */
  function Flushed(outgoing: map<nat, Callback>): map<nat, Callback> {
    map id | id in outgoing && !outgoing[id].Volatile? :: outgoing[id]
  }

  function NewStream(c: Client): Client {
    c.(epoch := c.epoch + 1, stream := c.store, index := 0, waiting := false)
  }

  function StartStream(c: Client): Client { ReadNext(NewStream(c)) }

  function NewConnection(c: Client): Client {
    c.(connected := true, firstEpoch := c.epoch + 1, wire := [])
  }

  function Connack(c: Client): Client { StartStream(NewConnection(c)) }

  predicate AllProcessed(during: map<nat, bool>) { forall id <- during :: during[id] }

  /** 'end' of the stream: 'connect' is emitted, or another stream is started. */
  function StreamEnd(c: Client): Client {
    if AllProcessed(c.during) then c.(processing := false, during := map[], waiting := false, ready := true)
    else StartStream(c)
  }

  /** One step of the queue's `deliver` after 'connect'. */
  function Drain(c: Client): Client
    requires |c.queue| > 0
  {
    Send(c.(queue := c.queue[1..]), c.queue[0])
  }

  datatype Event =
    | UserPublish(qos: nat, msg: Message)
    | UserSubscribe
    | InPuback(id: nat)
    | InPubrec(id: nat)
    | InPubcomp(id: nat)
    | InSuback(id: nat)
    | InPublish(qos: nat, id: nat, msg: Message)
    | InPubrel(id: nat)
    | ClosedEvent
    | ConnackEvent
    | StreamEndEvent
    | DrainEvent

  predicate Enabled(c: Client, e: Event) {
    match e
    case ConnackEvent => !c.connected
    case StreamEndEvent => c.connected && c.waiting
    case DrainEvent => c.ready && |c.queue| > 0
    case _ => true
  }

  function Step(c: Client, e: Event): Client
    requires Enabled(c, e)
  {
    match e
    case UserPublish(qos, msg) => Accept(c, qos, msg)
    case UserSubscribe => AskSubscribe(c)
    case InPuback(id) => Finish(c, id)
    case InPubcomp(id) => Finish(c, id)
    case InPubrec(id) => Received(c, id)
    case InSuback(id) => Subscribed(c, id)
    case InPublish(qos, id, msg) => Arrive(c, qos, id, msg)
    case InPubrel(id) => Release(c, id)
    case ClosedEvent => Close(c)
    case ConnackEvent => Connack(c)
    case StreamEndEvent => StreamEnd(c)
    case DrainEvent => Drain(c)
  }

  ghost predicate Runs(c: Client, es: seq<Event>)
    decreases |es|
  {
    |es| == 0 || (Enabled(c, es[0]) && Runs(Step(c, es[0]), es[1..]))
  }

  function After(c: Client, es: seq<Event>): Client
    requires Runs(c, es)
    decreases |es|
  {
    if |es| == 0 then c else After(Step(c, es[0]), es[1..])
  }

  // ------------------------------------------------------ reading the wire

  function Resents(w: seq<WireEvent>): seq<nat> {
    if |w| == 0 then []
    else
      var e := w[|w| - 1];
      Resents(w[..|w| - 1]) + (if e.Resent? then [e.packet.id] else [])
  }

  function Completions(w: seq<WireEvent>): seq<nat> {
    if |w| == 0 then []
    else
      var e := w[|w| - 1];
      Completions(w[..|w| - 1]) + (if e.Completed? then [e.id] else [])
  }

  /** Stop and wait: at every moment at most the last packet replayed is not completed. */
  ghost predicate InTurn(w: seq<WireEvent>) {
    |w| == 0 || (
      InTurn(w[..|w| - 1]) && Completions(w) <= Resents(w) && |Resents(w)| <= |Completions(w)| + 1)
  }

  /** Ids the broker may acknowledge with PUBACK, PUBREC or PUBCOMP, and with SUBACK. */
  function KeptIds(w: seq<WireEvent>): set<nat> {
    set e | e in w && !e.Completed? && e.packet.Kept() :: e.packet.id
  }

  function SubscribeIds(w: seq<WireEvent>): set<nat> {
    set e | e in w && !e.Completed? && e.packet.Subscribe? :: e.packet.id
  }

  lemma WireSnoc(w: seq<WireEvent>, e: WireEvent)
    ensures Resents(w + [e]) == Resents(w) + (if e.Resent? then [e.packet.id] else [])
    ensures Completions(w + [e]) == Completions(w) + (if e.Completed? then [e.id] else [])
    ensures InTurn(w + [e]) <==>
      InTurn(w) && Completions(w + [e]) <= Resents(w + [e]) && |Resents(w + [e])| <= |Completions(w + [e])| + 1
    ensures KeptIds(w + [e]) == KeptIds(w) + (if !e.Completed? && e.packet.Kept() then {e.packet.id} else {})
    ensures SubscribeIds(w + [e])
         == SubscribeIds(w) + (if !e.Completed? && e.packet.Subscribe? then {e.packet.id} else {})
  {
    assert (w + [e])[..|w|] == w;
    assert forall f :: f in w + [e] <==> f in w || f == e;
  }

  // --------------------------------------------------------------- replay

  /** No stream of this connection is resumed by `cb`. */
  predicate Stale(cb: Callback, first: nat) { cb.Resume? ==> cb.epoch < first && Stale(cb.inner, first) }

  /**
    * What the wire says of `pending`: the ids stored at CONNACK, then those of publishes accepted
    * since, in order. A prefix has been replayed, and nothing else has been sent.
    */
  ghost predicate WireMatches(w: seq<WireEvent>, pending: seq<nat>) {
    && Completions(w) <= Resents(w) <= pending && InTurn(w)
    && (forall id <- KeptIds(w) :: id in Resents(w))
    && (forall id <- SubscribeIds(w) :: id !in pending)
  }

  /** What is left of the stream are the next pending ids. */
  ghost predicate StreamMatches(stream: seq<Packet>, index: nat, pending: seq<nat>, done: nat) {
    && index <= |stream| && done + (|stream| - index) <= |pending|
    && forall k :: index <= k < |stream| ==> stream[k].Kept() && stream[k].id == pending[done + (k - index)]
  }

  /** Replayed ids are marked true; of the others, those no stream has seen are marked false. */
  ghost predicate DuringMatches(during: map<nat, bool>, pending: seq<nat>, done: nat, seen: nat) {
    && done <= seen <= |pending|
    && (forall id <- during :: id in pending)
    && (forall k :: 0 <= k < done ==> pending[k] in during && during[pending[k]])
    && (forall k :: done <= k < |pending| && pending[k] in during ==> !during[pending[k]])
    && (forall k :: seen <= k < |pending| ==> pending[k] in during)
  }

  ghost predicate Core(c: Client, pending: seq<nat>) {
    var done := |Resents(c.wire)|;
    && c.connected && c.firstEpoch <= c.epoch && Unique(pending)
    && WireMatches(c.wire, pending)
    && |Completions(c.wire)| <= |pending| && Holds(c.store, pending, |Completions(c.wire)|)
    && StreamMatches(c.stream, c.index, pending, done)
    && DuringMatches(c.during, pending, done, done + |c.stream| - c.index)
    && (forall id <- Completions(c.wire) :: id !in c.outgoing)
  }

  /** Everything replayed so far has completed, and nothing would resume the stream. */
  ghost predicate Idle(c: Client) {
    && Resents(c.wire) == Completions(c.wire)
    && forall id <- c.outgoing :: Stale(c.outgoing[id], c.firstEpoch)
  }

  /** The last packet replayed is waiting for its acknowledgement, which will resume the stream. */
  ghost predicate InFlight(c: Client) {
    var r, n := Resents(c.wire), |Completions(c.wire)|;
    && |r| == n + 1
    && r[n] in c.outgoing && Resumes(c, c.outgoing[r[n]]) && Stale(c.outgoing[r[n]].inner, c.firstEpoch)
    && (forall id <- c.outgoing :: id != r[n] ==> Stale(c.outgoing[id], c.firstEpoch))
  }

  /** The invariant of a replay: one packet is in flight, or the stream is at its end. */
  ghost predicate Replaying(c: Client, pending: seq<nat>) {
    && c.processing && !c.ready && Core(c, pending)
    && if c.waiting then Idle(c) && c.index == |c.stream| else InFlight(c)
  }

  lemma ResendsNext(w: seq<WireEvent>, p: Packet, pending: seq<nat>)
    requires WireMatches(w, pending) && Resents(w) == Completions(w) && |Resents(w)| < |pending|
    requires p.Kept() && p.id == pending[|Resents(w)|]
    ensures WireMatches(w + [Resent(p)], pending)
    ensures Resents(w + [Resent(p)]) == Resents(w) + [p.id] && Completions(w + [Resent(p)]) == Completions(w)
  {
    WireSnoc(w, Resent(p));
  }

  lemma MarksReplayed(during: map<nat, bool>, pending: seq<nat>, done: nat, seen: nat)
    requires DuringMatches(during, pending, done, seen) && done < seen && Unique(pending)
    ensures DuringMatches(during[pending[done] := true], pending, done + 1, seen)
  {
  }

  lemma NotCompleted(w: seq<WireEvent>, pending: seq<nat>, k: nat)
    requires Completions(w) <= pending && Unique(pending) && |Completions(w)| <= k < |pending|
    ensures pending[k] !in Completions(w)
  {
  }

  lemma NextUnread(c: Client, pending: seq<nat>, p: Packet)
    requires Core(c, pending) && c.index < |c.stream| && p == c.stream[c.index]
    ensures |Resents(c.wire)| < |pending| && p.id == pending[|Resents(c.wire)|] && p.Kept()
    ensures !(p.id in c.during && c.during[p.id])
    ensures StreamMatches(c.stream, c.index + 1, pending, |Resents(c.wire)| + 1)
  {
  }

  lemma NextStored(c: Client, pending: seq<nat>, p: Packet)
    requires Core(c, pending) && Idle(c) && |Resents(c.wire)| < |pending|
    requires p.Kept() && p.id == pending[|Resents(c.wire)|]
    ensures Holds(Put(c.store, p), pending, |Resents(c.wire)|)
  {
    FindAt(c.store, pending, |Resents(c.wire)|, 0);
    PutHolds(c.store, p, pending, |Resents(c.wire)|);
  }

  lemma ReadsCore(c: Client, pending: seq<nat>, p: Packet)
    requires Core(c, pending) && Idle(c) && c.index < |c.stream| && p == c.stream[c.index]
    ensures !(p.id in c.during && c.during[p.id]) && p.Kept()
    ensures var core := Core(Resend(c.(processing := true, index := c.index + 1), p), pending); core
  {
    var k := |Resents(c.wire)|;
    NextUnread(c, pending, p);
    NextStored(c, pending, p);
    ResendsNext(c.wire, p, pending);
    MarksReplayed(c.during, pending, k, k + |c.stream| - c.index);
    NotCompleted(c.wire, pending, k);
    ResendFields(c.(processing := true, index := c.index + 1), p);
  }

  lemma ResendFields(c: Client, p: Packet)
    requires c.connected && p.Kept()
    ensures var c' := Resend(c, p);
      && c'.wire == c.wire + [Resent(p)] && c'.store == Put(c.store, p) && c'.during == c.during[p.id := true]
      && c'.outgoing.Keys == c.outgoing.Keys + {p.id} && p.id in c'.outgoing && Resumes(c', c'.outgoing[p.id])
      && (forall id <- c.outgoing :: id != p.id ==> c'.outgoing[id] == c.outgoing[id])
  {
  }

  lemma ReadsInFlight(c: Client, p: Packet)
    requires c.connected && p.Kept() && Idle(c)
    ensures InFlight(Resend(c, p))
  {
    WireSnoc(c.wire, Resent(p));
    ResendFields(c, p);
  }

  lemma ReadsOne(c: Client, pending: seq<nat>)
    requires Core(c, pending) && Idle(c) && !c.waiting && !c.ready && c.index < |c.stream|
    ensures var replaying := Replaying(ReadNext(c), pending); replaying
  {
    var p := c.stream[c.index];
    ReadsCore(c, pending, p);
    ReadsInFlight(c.(processing := true, index := c.index + 1), p);
    assert ReadNext(c) == Resend(c.(processing := true, index := c.index + 1), p);
  }

  /** Reading on from an idle stream replays the next pending id, or waits for the end. */
  lemma ReadsInOrder(c: Client, pending: seq<nat>)
    requires Core(c, pending) && Idle(c) && !c.waiting && !c.ready
    ensures var replaying := Replaying(ReadNext(c), pending); replaying
  {
    if c.index < |c.stream| {
      ReadsOne(c, pending);
    }
  }

  // ------------------------------------------------ every step of a replay

  /** The id about to be drawn is not in use: fewer than 65535 ids are alive. */
  ghost predicate Fresh(c: Client) {
    && !Stored(c.store, c.nextId) && c.nextId !in c.during
    && c.nextId !in KeptIds(c.wire) && c.nextId !in SubscribeIds(c.wire)
  }

  /** The broker acknowledges what was sent on this connection, with the packet that fits. */
  ghost predicate Allowed(c: Client, e: Event) {
    match e
    case InPuback(id) => id in KeptIds(c.wire)
    case InPubrec(id) => id in KeptIds(c.wire)
    case InPubcomp(id) => id in KeptIds(c.wire)
    case InSuback(id) => id in SubscribeIds(c.wire)
    case UserPublish(_, _) => Fresh(c)
    case UserSubscribe => Fresh(c)
    case ClosedEvent => false
    case _ => true
  }

  function AcceptedId(c: Client, e: Event): seq<nat> {
    if e.UserPublish? && e.qos > 0 then [c.nextId] else []
  }

  lemma FreshIsNew(c: Client, pending: seq<nat>)
    requires Core(c, pending) && Fresh(c)
    ensures c.nextId !in pending
  {
    var n := |Completions(c.wire)|;
    forall k | 0 <= k < |pending| ensures pending[k] != c.nextId {
      if k >= n {
        FindAt(c.store, pending, n, k - n);
      }
    }
  }

  lemma DuringGrows(during: map<nat, bool>, pending: seq<nat>, done: nat, seen: nat, id: nat)
    requires DuringMatches(during, pending, done, seen) && id !in pending
    ensures DuringMatches(during[id := false], pending + [id], done, seen)
  {
    var p := pending + [id];
    assert forall k :: 0 <= k < |pending| ==> p[k] == pending[k];
  }

  lemma AcceptKeeps(c: Client, qos: nat, msg: Message, pending: seq<nat>)
    requires Replaying(c, pending) && Fresh(c) && qos > 0
    ensures Replaying(Accept(c, qos, msg), pending + [c.nextId])
  {
    AcceptCore(c, qos, msg, pending);
  }

  lemma AcceptCore(c: Client, qos: nat, msg: Message, pending: seq<nat>)
    requires Core(c, pending) && c.processing && Fresh(c) && qos > 0
    ensures Core(Accept(c, qos, msg), pending + [c.nextId])
  {
    var id, done := c.nextId, |Resents(c.wire)|;
    FreshIsNew(c, pending);
    DuringGrows(c.during, pending, done, done + |c.stream| - c.index, id);
    PutHolds(c.store, Publish(id, qos, msg), pending, |Completions(c.wire)|);
    PendingGrows(c.wire, c.stream, c.index, pending, done, id);
  }

  /** A new id behind the pending ones changes nothing for those before it. */
  lemma PendingGrows(w: seq<WireEvent>, stream: seq<Packet>, index: nat, pending: seq<nat>, done: nat, id: nat)
    requires WireMatches(w, pending) && StreamMatches(stream, index, pending, done) && Unique(pending)
    requires id !in pending && id !in SubscribeIds(w)
    ensures WireMatches(w, pending + [id]) && StreamMatches(stream, index, pending + [id], done) && Unique(pending + [id])
  {
    var p := pending + [id];
    assert forall k :: 0 <= k < |pending| ==> p[k] == pending[k];
  }

  /** A packet sent besides the replay leaves it alone. */
  lemma SentAside(w: seq<WireEvent>, p: Packet, pending: seq<nat>)
    requires WireMatches(w, pending)
    requires p.Kept() ==> p.id in Resents(w)
    requires p.Subscribe? ==> p.id !in pending
    ensures WireMatches(w + [Sent(p)], pending)
    ensures Resents(w + [Sent(p)]) == Resents(w) && Completions(w + [Sent(p)]) == Completions(w)
  {
    WireSnoc(w, Sent(p));
    InTurnNow(w);
  }

  lemma InTurnNow(w: seq<WireEvent>)
    requires InTurn(w)
    ensures Completions(w) <= Resents(w) && |Resents(w)| <= |Completions(w)| + 1
  {
  }

  lemma SubscribeKeeps(c: Client, pending: seq<nat>)
    requires Replaying(c, pending) && Fresh(c)
    ensures Replaying(AskSubscribe(c), pending)
  {
    FreshIsNew(c, pending);
    SentAside(c.wire, Subscribe(c.nextId), pending);
    assert Core(AskSubscribe(c), pending);
  }

  lemma {:induction false} StaleNoop(c: Client, cb: Callback)
    requires Stale(cb, c.firstEpoch)
    ensures RunCallback(c, cb) == c
    decreases cb
  {
    if cb.Resume? { StaleNoop(c, cb.inner); }
  }

  /** Only the packet in flight can be acknowledged. */
  lemma AckedIsInFlight(c: Client, id: nat, pending: seq<nat>)
    requires Replaying(c, pending) && id in KeptIds(c.wire) && id in c.outgoing
    ensures !c.waiting && InFlight(c) && id == Resents(c.wire)[|Completions(c.wire)|]
  {
    var r, d := Resents(c.wire), Completions(c.wire);
    var k :| 0 <= k < |r| && r[k] == id;
    assert forall j :: 0 <= j < |d| ==> d[j] == r[j] && d[j] in d;
  }

  lemma CompletesWire(w: seq<WireEvent>, pending: seq<nat>)
    requires WireMatches(w, pending) && |Resents(w)| == |Completions(w)| + 1
    ensures var w' := w + [Completed(Resents(w)[|Completions(w)|])];
      WireMatches(w', pending) && Resents(w') == Resents(w) == Completions(w')
  {
    var n := |Completions(w)|;
    WireSnoc(w, Completed(Resents(w)[n]));
    assert Completions(w) == Resents(w)[..n];
  }

  lemma CompleteKeeps(c: Client, id: nat, pending: seq<nat>)
    requires Core(c, pending) && InFlight(c) && id == Resents(c.wire)[|Completions(c.wire)|]
    ensures Core(Complete(c, id), pending) && Idle(Complete(c, id))
  {
    CompletesWire(c.wire, pending);
    DelFirst(c.store, pending, |Completions(c.wire)|);
  }

  lemma FinishKeeps(c: Client, id: nat, pending: seq<nat>)
    requires Replaying(c, pending) && id in KeptIds(c.wire)
    ensures var replaying := Replaying(Finish(c, id), pending); replaying
  {
    if id in c.outgoing {
      AckedIsInFlight(c, id, pending);
      CompleteKeeps(c, id, pending);
      StaleNoop(Complete(c, id), c.outgoing[id].inner);
      ReadsInOrder(Complete(c, id), pending);
    }
  }

  lemma ReceivedKeeps(c: Client, id: nat, pending: seq<nat>)
    requires Replaying(c, pending) && id in KeptIds(c.wire)
    ensures Replaying(Received(c, id), pending)
  {
    if id in c.outgoing {
      AckedIsInFlight(c, id, pending);
      var n := |Completions(c.wire)|;
      SentAside(c.wire, Pubrel(id), pending);
      FindAt(c.store, pending, n, 0);
      PutHolds(c.store, Pubrel(id), pending, n);
      assert Core(Received(c, id), pending);
    }
  }

  lemma SubackKeeps(c: Client, id: nat, pending: seq<nat>)
    requires Replaying(c, pending) && id in SubscribeIds(c.wire)
    ensures Replaying(Subscribed(c, id), pending)
  {
    if id in c.outgoing {
      assert id !in pending;
      var c1 := c.(outgoing := c.outgoing - {id});
      assert id !in Resents(c.wire);
      StaleNoop(c1, c.outgoing[id]);
    }
  }

  /** A packet of the other direction: its acknowledgement is sent, nothing else changes. */
  lemma AnswerKeeps(c: Client, p: Packet, pending: seq<nat>)
    requires Replaying(c, pending) && !p.Own()
    ensures Replaying(Send(c, p), pending)
  {
    SentAside(c.wire, p, pending);
    assert Core(Send(c, p), pending);
  }

  lemma NotAllMarked(during: map<nat, bool>, pending: seq<nat>, done: nat)
    requires DuringMatches(during, pending, done, done) && done < |pending|
    ensures !AllProcessed(during)
  {
    assert pending[done] in during && !during[pending[done]];
  }

  /** The end of a replay: everything pending was replayed, in order, one at a time, and completed. */
  ghost predicate IdsReplayed(c: Client, pending: seq<nat>) {
    Resents(c.wire) == Completions(c.wire) == pending && InTurn(c.wire) && Unique(pending) && c.store == []
  }

  lemma NewStreamKeeps(c: Client, pending: seq<nat>)
    requires Core(c, pending) && Idle(c) && c.index == |c.stream|
    ensures Core(NewStream(c), pending)
  {
    var c1, n := NewStream(c), |Resents(c.wire)|;
    assert StreamMatches(c1.stream, 0, pending, n);
    assert n + |c.store| == |pending|;
  }

  lemma RestartKeeps(c: Client, pending: seq<nat>)
    requires Core(c, pending) && Idle(c) && c.index == |c.stream| && !c.ready
    ensures var replaying := Replaying(StartStream(c), pending); replaying
  {
    NewStreamKeeps(c, pending);
    ReadsInOrder(NewStream(c), pending);
  }

  lemma EndKeeps(c: Client, pending: seq<nat>)
    requires Replaying(c, pending) && c.waiting
    ensures var replaying := Replaying(StreamEnd(c), pending);
      if StreamEnd(c).ready then IdsReplayed(StreamEnd(c), pending) else replaying
  {
    var done := |Resents(c.wire)|;
    if AllProcessed(c.during) {
      if done < |pending| {
        NotAllMarked(c.during, pending, done);
      }
      assert pending[..|pending|] == pending;
    } else {
      RestartKeeps(c, pending);
    }
  }

  lemma ArriveKeeps(c: Client, qos: nat, id: nat, msg: Message, pending: seq<nat>)
    requires Replaying(c, pending)
    ensures Replaying(Arrive(c, qos, id, msg), pending)
  {
    if qos == 2 {
      AnswerKeeps(c.(incoming := c.incoming[id := msg]), Pubrec(id), pending);
    } else if qos == 1 {
      AnswerKeeps(c.(delivered := c.delivered + [msg]), Puback(id), pending);
    }
  }

  lemma ReleaseKeeps(c: Client, id: nat, pending: seq<nat>)
    requires Replaying(c, pending)
    ensures Replaying(Release(c, id), pending)
  {
    if id in c.incoming {
      AnswerKeeps(c.(delivered := c.delivered + [c.incoming[id]], incoming := c.incoming - {id}), Pubcomp(id), pending);
    } else {
      AnswerKeeps(c, Pubcomp(id), pending);
    }
  }

  lemma PublishKeeps(c: Client, qos: nat, msg: Message, pending: seq<nat>)
    requires Replaying(c, pending) && Fresh(c)
    ensures Replaying(Accept(c, qos, msg), pending + AcceptedId(c, UserPublish(qos, msg)))
  {
    if qos > 0 {
      AcceptKeeps(c, qos, msg, pending);
    } else {
      assert pending + [] == pending;
    }
  }

  lemma StepKeeps(c: Client, e: Event, pending: seq<nat>)
    requires Replaying(c, pending) && Enabled(c, e) && Allowed(c, e)
    ensures var next, replaying := Step(c, e), Replaying(Step(c, e), pending + AcceptedId(c, e));
      if next.ready then AcceptedId(c, e) == [] && IdsReplayed(next, pending) else replaying
  {
    if !e.UserPublish? { assert pending + AcceptedId(c, e) == pending; }
    match e
    case UserPublish(qos, msg) => PublishKeeps(c, qos, msg, pending);
    case UserSubscribe => SubscribeKeeps(c, pending);
    case InPuback(id) => FinishKeeps(c, id, pending);
    case InPubcomp(id) => FinishKeeps(c, id, pending);
    case InPubrec(id) => ReceivedKeeps(c, id, pending);
    case InSuback(id) => SubackKeeps(c, id, pending);
    case InPublish(qos, id, msg) => ArriveKeeps(c, qos, id, msg, pending);
    case InPubrel(id) => ReleaseKeeps(c, id, pending);
    case StreamEndEvent => EndKeeps(c, pending);
    case _ =>
  }

  // ------------------------------------------------ what every run keeps

  /** Of every reachable client: the store is keyed by id, and no callback knows a future stream. */
  ghost predicate Reachable(c: Client) {
    && 1 <= c.nextId <= MAX_ID
    && Unique(Ids(c.store)) && (forall p <- c.store :: p.Kept())
    && (forall id <- c.outgoing :: Stale(c.outgoing[id], c.epoch + 1))
    && (forall k :: 0 <= k < |c.stream| ==> c.stream[k].Kept())
    && (forall q <- c.queue :: q.Publish? ==> q.qos == 0)
    && (!c.connected ==> !c.ready && !c.processing && !c.waiting && c.during == map[])
  }

  ghost predicate Initial(c: Client) {
    && 1 <= c.nextId <= MAX_ID && c.store == [] && c.outgoing == map[] && c.stream == []
    && c.queue == [] && c.incoming == map[]
    && !c.connected && !c.ready && !c.processing && !c.waiting && c.during == map[]
  }

  lemma PutUnique(s: seq<Packet>, p: Packet)
    requires Unique(Ids(s)) && (forall q <- s :: q.Kept()) && p.Kept()
    ensures Unique(Ids(Put(s, p))) && (forall q <- Put(s, p) :: q.Kept())
  {
    var i, t := Find(s, p.id), Put(s, p);
    if i < |s| {
      assert forall k :: 0 <= k < |s| ==> Ids(t)[k] == Ids(s)[k];
    } else {
      assert forall k :: 0 <= k < |s| ==> Ids(t)[k] == Ids(s)[k] != p.id;
    }
  }

  lemma DelUnique(s: seq<Packet>, id: nat)
    requires Unique(Ids(s)) && forall q <- s :: q.Kept()
    ensures Unique(Ids(Del(s, id))) && forall q <- Del(s, id) :: q.Kept()
  {
    var i, t := Find(s, id), Del(s, id);
    if i < |s| {
      assert forall k :: 0 <= k < |t| ==> Ids(t)[k] == Ids(s)[if k < i then k else k + 1];
    }
  }

  lemma SendReachable(c: Client, p: Packet, event: WireEvent)
    requires Reachable(c)
    ensures Reachable(SendPacket(c, p, event))
  {
    if p.Kept() { PutUnique(c.store, p); }
  }

  lemma {:induction false} ReadReachable(c: Client)
    requires Reachable(c) && c.connected
    ensures Reachable(ReadNext(c)) && ReadNext(c).epoch == c.epoch
    decreases |c.stream| - c.index
  {
    if c.index < |c.stream| {
      var p := c.stream[c.index];
      var c1 := c.(processing := true, index := c.index + 1);
      if p.id in c.during && c.during[p.id] {
        ReadReachable(c1);
      } else {
        PutUnique(c.store, p);
      }
    }
  }

  lemma {:induction false} CallbackReachable(c: Client, cb: Callback)
    requires Reachable(c)
    ensures Reachable(RunCallback(c, cb))
    decreases cb
  {
    if cb.Resume? {
      CallbackReachable(c, cb.inner);
      var c1 := RunCallback(c, cb.inner);
      if c1.connected && cb.epoch >= c1.epoch { ReadReachable(c1); }
    }
  }

  lemma {:induction false} StaleLater(cb: Callback, first: nat, later: nat)
    requires Stale(cb, first) && first <= later
    ensures Stale(cb, later)
    decreases cb
  {
    if cb.Resume? { StaleLater(cb.inner, first, later); }
  }

  lemma StartReachable(c: Client)
    requires Reachable(c) && c.connected
    ensures Reachable(StartStream(c))
  {
    var c1 := NewStream(c);
    forall id <- c.outgoing ensures Stale(c.outgoing[id], c1.epoch + 1) {
      StaleLater(c.outgoing[id], c.epoch + 1, c1.epoch + 1);
    }
    assert forall k :: 0 <= k < |c.store| ==> c.store[k] in c.store;
    ReadReachable(c1);
  }

  lemma AcceptReachable(c: Client, qos: nat, msg: Message)
    requires Reachable(c)
    ensures Reachable(Accept(c, qos, msg))
  {
    if qos > 0 { PutUnique(c.store, Publish(c.nextId, qos, msg)); }
  }

  lemma AskReachable(c: Client)
    requires Reachable(c)
    ensures Reachable(AskSubscribe(c))
  {
    SendReachable(c.(nextId := NextId(c.nextId), outgoing := c.outgoing[c.nextId := Volatile]), Subscribe(c.nextId),
                  Sent(Subscribe(c.nextId)));
  }

  lemma SubackReachable(c: Client, id: nat)
    requires Reachable(c)
    ensures Reachable(Subscribed(c, id))
  {
    if id in c.outgoing { CallbackReachable(c.(outgoing := c.outgoing - {id}), c.outgoing[id]); }
  }

  lemma ArriveReachable(c: Client, qos: nat, id: nat, msg: Message)
    requires Reachable(c)
    ensures var reachable := Reachable(Arrive(c, qos, id, msg)); reachable
  {
    if qos == 2 {
      SendReachable(c.(incoming := c.incoming[id := msg]), Pubrec(id), Sent(Pubrec(id)));
    } else if qos == 1 {
      SendReachable(c.(delivered := c.delivered + [msg]), Puback(id), Sent(Puback(id)));
    }
  }

  lemma ReleaseReachable(c: Client, id: nat)
    requires Reachable(c)
    ensures var reachable := Reachable(Release(c, id)); reachable
  {
    if id in c.incoming {
      SendReachable(c.(delivered := c.delivered + [c.incoming[id]], incoming := c.incoming - {id}), Pubcomp(id),
                    Sent(Pubcomp(id)));
    } else {
      SendReachable(c, Pubcomp(id), Sent(Pubcomp(id)));
    }
  }

  lemma CloseReachable(c: Client)
    requires Reachable(c)
    ensures Reachable(Close(c))
  {
  }

  lemma StepReachable(c: Client, e: Event)
    requires Reachable(c) && Enabled(c, e)
    ensures var reachable := Reachable(Step(c, e)); reachable
  {
    match e
    case UserPublish(qos, msg) => AcceptReachable(c, qos, msg);
    case UserSubscribe => AskReachable(c);
    case InPuback(id) => FinishReachable(c, id);
    case InPubcomp(id) => FinishReachable(c, id);
    case InPubrec(id) => SendReachable(c, Pubrel(id), Sent(Pubrel(id)));
    case InSuback(id) => SubackReachable(c, id);
    case InPublish(qos, id, msg) => ArriveReachable(c, qos, id, msg);
    case InPubrel(id) => ReleaseReachable(c, id);
    case ClosedEvent => CloseReachable(c);
    case ConnackEvent => StartReachable(NewConnection(c));
    case StreamEndEvent => StartReachable(c);
    case DrainEvent => SendReachable(c.(queue := c.queue[1..]), c.queue[0], Sent(c.queue[0]));
  }

  lemma FinishReachable(c: Client, id: nat)
    requires Reachable(c)
    ensures Reachable(Finish(c, id))
  {
    if id in c.outgoing {
      DelUnique(c.store, id);
      CallbackReachable(Complete(c, id), c.outgoing[id]);
    }
  }

  lemma {:induction false} RunReachable(c: Client, es: seq<Event>)
    requires Reachable(c) && Runs(c, es)
    ensures Reachable(After(c, es))
    decreases |es|
  {
    if |es| > 0 {
      StepReachable(c, es[0]);
      RunReachable(Step(c, es[0]), es[1..]);
    }
  }

  // ------------------------------------------------ replay on reconnect

  /** A run on one connection, up to 'connect': no close, a broker and ids as `Allowed` says. */
  ghost predicate ReplayRun(c: Client, es: seq<Event>)
    decreases |es|
  {
    |es| == 0 || (!c.ready && Enabled(c, es[0]) && Allowed(c, es[0]) && ReplayRun(Step(c, es[0]), es[1..]))
  }

  /** The ids of the QoS 1 and 2 publishes accepted along a run. */
  function AcceptedIds(c: Client, es: seq<Event>): seq<nat>
    requires Runs(c, es)
    decreases |es|
  {
    if |es| == 0 then [] else AcceptedId(c, es[0]) + AcceptedIds(Step(c, es[0]), es[1..])
  }

  lemma {:induction false} ReplayRuns(c: Client, es: seq<Event>)
    requires ReplayRun(c, es)
    ensures Runs(c, es)
    decreases |es|
  {
    if |es| > 0 { ReplayRuns(Step(c, es[0]), es[1..]); }
  }

  lemma {:induction false} ReplayEnds(c: Client, es: seq<Event>, pending: seq<nat>)
    requires Replaying(c, pending) && ReplayRun(c, es) && Runs(c, es) && After(c, es).ready
    ensures IdsReplayed(After(c, es), pending + AcceptedIds(c, es))
    decreases |es|
  {
    var c1, more := Step(c, es[0]), AcceptedId(c, es[0]);
    StepKeeps(c, es[0], pending);
    if c1.ready {
      assert es[1..] == [];
      assert pending + AcceptedIds(c, es) == pending;
    } else {
      ReplayEnds(c1, es[1..], pending + more);
      Associative(pending, more, AcceptedIds(c1, es[1..]));
    }
  }

  lemma ConnackCore(c: Client)
    requires Reachable(c) && !c.connected
    ensures Core(NewStream(NewConnection(c)), Ids(c.store)) && Idle(NewStream(NewConnection(c)))
  {
    assert forall k :: 0 <= k < |c.store| ==> c.store[k] in c.store;
    assert Holds(c.store, Ids(c.store), 0);
    assert StreamMatches(c.store, 0, Ids(c.store), 0);
  }

  lemma ConnackStarts(c: Client)
    requires Reachable(c) && !c.connected
    ensures var replaying := Replaying(Connack(c), Ids(c.store)); replaying
  {
    ConnackCore(c);
    ReadsInOrder(NewStream(NewConnection(c)), Ids(c.store));
  }

  lemma InitialReachable(c: Client)
    requires Initial(c)
    ensures Reachable(c)
  {
  }

  // ------------------------------------------------------- message ids

  /** The `j`-th id drawn after `id`. */
  function IdAfter(id: nat, j: nat): nat
    requires 1 <= id <= MAX_ID
  {
    (id - 1 + j) % MAX_ID + 1
  }

  /** Any 65535 consecutive ids are distinct and in 1..65535. */
  lemma IdsDistinct(id: nat, j: nat)
    requires 1 <= id <= MAX_ID
    ensures 1 <= IdAfter(id, j) <= MAX_ID && NextId(IdAfter(id, j)) == IdAfter(id, j + 1)
    ensures 0 < j < MAX_ID ==> IdAfter(id, j) != id
    ensures IdAfter(id, 0) == id
  {
  }

  predicate Draws(e: Event) { e.UserPublish? || e.UserSubscribe? }

  function DrawCount(es: seq<Event>): nat {
    if |es| == 0 then 0 else (if Draws(es[0]) then 1 else 0) + DrawCount(es[1..])
  }
}
