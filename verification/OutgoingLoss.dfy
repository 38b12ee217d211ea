/**
  * How a message is lost that was accepted while its id was in use: for every state in which that
  * can happen a run in which it does, and runs from a new client that lead to such states.
  */
module OutgoingLoss {
  import opened Session
  import opened OutgoingSafety

  // ------------------------------------------------------- the replay overwrites it

  /** The replay has not reached entry `k` yet, which is a packet under `id`. */
  ghost predicate Toward(c: Client, id: nat, k: nat) {
    && c.connected && c.firstEpoch <= c.epoch && Unique(Ids(c.stream))
    && c.index <= k < |c.stream| && c.stream[k].id == id && c.stream[k].Kept()
    && !(id in c.during && c.during[id])
  }

  /** The replay has written that packet over the one under `id`. */
  ghost predicate Gone(c: Client, id: nat, k: nat) {
    && c.connected && c.firstEpoch <= c.epoch && Unique(Ids(c.stream))
    && k < c.index && k < |c.stream| && c.stream[k].id == id
    && Find(c.store, id) < |c.store| && c.store[Find(c.store, id)] == c.stream[k]
  }

  /** On the same stream, and further along it. */
  ghost predicate Further(c: Client, c': Client) {
    c'.stream == c.stream && c'.epoch == c.epoch && c.index <= c'.index
  }

  lemma OtherId(c: Client, j: nat, k: nat)
    requires Unique(Ids(c.stream)) && j < |c.stream| && k < |c.stream| && j != k
    ensures c.stream[j].id != c.stream[k].id
  {
    var ids := Ids(c.stream);
    assert ids[j] != ids[k];
  }

  lemma PutOther(s: seq<Packet>, p: Packet, id: nat)
    requires p.id != id && Find(s, id) < |s|
    ensures Find(Put(s, p), id) == Find(s, id) && Put(s, p)[Find(s, id)] == s[Find(s, id)]
  {
    var i, t := Find(s, id), Put(s, p);
    assert t[i].id == id && forall k :: 0 <= k < i ==> t[k].id != id;
  }

  lemma ReadAt(c: Client, id: nat, k: nat)
    requires Toward(c, id, k) && c.index == k
    ensures Further(c, ReadNext(c)) && Gone(ReadNext(c), id, k)
  {
    PutSelf(c.store, c.stream[k]);
  }

  lemma ReadBefore(c: Client, id: nat, k: nat)
    requires Toward(c, id, k) && c.index < k
    requires var q := c.stream[c.index].id; q != id && !(q in c.during && c.during[q])
    ensures Further(c, ReadNext(c)) && ReadNext(c).index > c.index
    ensures Toward(ReadNext(c), id, k) && Resumable(ReadNext(c), id)
  {
    assert Live(ReadNext(c).outgoing[c.stream[c.index].id], c.epoch);
  }

  lemma {:induction false} ReadToward(c: Client, id: nat, k: nat)
    requires Toward(c, id, k)
    ensures Further(c, ReadNext(c)) && ReadNext(c).index > c.index
    ensures Gone(ReadNext(c), id, k) || (Toward(ReadNext(c), id, k) && Resumable(ReadNext(c), id))
    decreases |c.stream| - c.index
  {
    var q := c.stream[c.index];
    if c.index == k {
      ReadAt(c, id, k);
    } else {
      OtherId(c, c.index, k);
      if q.id in c.during && c.during[q.id] {
        ReadToward(c.(processing := true, index := c.index + 1), id, k);
      } else {
        ReadBefore(c, id, k);
      }
    }
  }

  lemma {:induction false} ReadGone(c: Client, id: nat, k: nat)
    requires Gone(c, id, k) && forall j :: 0 <= j < |c.stream| ==> c.stream[j].Kept()
    ensures Further(c, ReadNext(c)) && Gone(ReadNext(c), id, k)
    decreases |c.stream| - c.index
  {
    if c.index < |c.stream| {
      var q := c.stream[c.index];
      OtherId(c, c.index, k);
      if q.id in c.during && c.during[q.id] {
        ReadGone(c.(processing := true, index := c.index + 1), id, k);
      } else {
        PutOther(c.store, q, id);
      }
    }
  }

  /** A callback that resumes the stream gets it further, or to the entry. */
  lemma {:induction false} LiveCallback(c: Client, cb: Callback, id: nat, k: nat)
    requires Toward(c, id, k) && Live(cb, c.epoch) && Stale(cb, c.epoch + 1)
    requires forall j :: 0 <= j < |c.stream| ==> c.stream[j].Kept()
    ensures Further(c, RunCallback(c, cb)) && RunCallback(c, cb).index > c.index
    ensures Gone(RunCallback(c, cb), id, k) || (Toward(RunCallback(c, cb), id, k) && Resumable(RunCallback(c, cb), id))
    decreases cb
  {
    var c1 := RunCallback(c, cb.inner);
    if Live(cb.inner, c.epoch) {
      LiveCallback(c, cb.inner, id, k);
    } else {
      DeadCallback(c, cb.inner);
    }
    if cb.epoch == c.epoch {
      if Gone(c1, id, k) { ReadGone(c1, id, k); } else { ReadToward(c1, id, k); }
    }
  }

  /** Nothing is drawn, and nothing under `id` is acknowledged. */
  ghost predicate Quiet(es: seq<Event>, id: nat) {
    DrawCount(es) == 0 && (forall e <- es :: !Completes(e, id)) && InPubrec(id) !in es
  }

  /** One other acknowledgement after the other, until the replay reaches the entry. */
  lemma {:induction false} ReplayLoses(c: Client, id: nat, p: Packet, k: nat) returns (es: seq<Event>)
    requires Reachable(c) && Toward(c, id, k) && Resumable(c, id) && !Harmless(c.stream[k], id, p, false)
    ensures Runs(c, es) && Quiet(es, id) && InSuback(id) !in es && !Has(After(c, es).store, id, p, false)
    decreases k - c.index
  {
    var other :| other in c.outgoing && other != id && Live(c.outgoing[other], c.epoch);
    var e, c0 := InPuback(other), Complete(c, other);
    var c1 := Step(c, e);
    LiveCallback(c0, c.outgoing[other], id, k);
    StepReachable(c, e);
    if Gone(c1, id, k) {
      es := [e];
      assert es[1..] == [];
    } else {
      var more := ReplayLoses(c1, id, p, k);
      es := [e] + more;
      assert es[1..] == more;
    }
  }

  // ------------------------------------------------------- the queue overwrites it

  /** On a new connection, while its first stream is read: what is unread was not replayed yet. */
  ghost predicate Ahead(c: Client) {
    && c.connected && c.firstEpoch <= c.epoch && Unique(Ids(c.stream)) && c.index <= |c.stream| && AllProcessed(c.during)
    && forall k :: c.index <= k < |c.stream| ==> c.stream[k].id !in c.during && c.stream[k].Kept()
  }

  /** No acknowledgement resumes a stream of this connection. */
  ghost predicate Resting(c: Client) { forall x <- c.outgoing :: Stale(c.outgoing[x], c.firstEpoch) }

  /** The packet read last waits for its acknowledgement, which resumes the stream. */
  ghost predicate Awaiting(c: Client, x: nat) {
    && x in c.outgoing && Resumes(c, c.outgoing[x]) && Stale(c.outgoing[x].inner, c.firstEpoch)
    && forall y <- c.outgoing :: y != x ==> Stale(c.outgoing[y], c.firstEpoch)
  }

  ghost predicate Reading(c: Client) {
    && Ahead(c)
    && if c.waiting then Resting(c) else 0 < c.index && Awaiting(c, c.stream[c.index - 1].id)
  }

  lemma ReadsOn(c: Client)
    requires Ahead(c) && Resting(c) && !c.waiting
    ensures Reading(ReadNext(c)) && ReadNext(c).queue == c.queue
    ensures ReadNext(c).waiting || (ReadNext(c).stream == c.stream && ReadNext(c).index == c.index + 1)
  {
    if c.index < |c.stream| {
      var p := c.stream[c.index];
      ResendFields(c.(processing := true, index := c.index + 1), p);
      forall k | c.index < k < |c.stream| ensures c.stream[k].id != p.id { OtherId(c, c.index, k); }
    }
  }

  /** The acknowledgement that lets the replay go on: a SUBACK where it is for `id`. */
  function Nudge(x: nat, id: nat): Event { if x == id then InSuback(x) else InPuback(x) }

  lemma NudgeReads(c: Client, id: nat)
    requires Reading(c) && !c.waiting
    ensures var c1 := Step(c, Nudge(c.stream[c.index - 1].id, id));
      Reading(c1) && c1.queue == c.queue && (c1.waiting || (c1.stream == c.stream && c1.index == c.index + 1))
  {
    var x := c.stream[c.index - 1].id;
    var cb := c.outgoing[x];
    var c0 := if x == id then c.(outgoing := c.outgoing - {x}) else Complete(c, x);
    StaleNoop(c0, cb.inner);
    ReadsOn(c0);
    assert Step(c, Nudge(x, id)) == RunCallback(c0, cb) == ReadNext(c0);
  }

  lemma {:induction false} ReadsOut(c: Client, id: nat) returns (es: seq<Event>)
    requires Reading(c)
    ensures Runs(c, es) && Quiet(es, id) && After(c, es).ready && After(c, es).queue == c.queue && After(c, es).connected
    decreases !c.waiting, |c.stream| - c.index
  {
    if c.waiting {
      es := [StreamEndEvent];
      RunOne(c, StreamEndEvent);
    } else {
      var e := Nudge(c.stream[c.index - 1].id, id);
      NudgeReads(c, id);
      var more := ReadsOut(Step(c, e), id);
      es := [e] + more;
      assert es[1..] == more;
    }
  }

  /** A new connection starts such a replay. */
  lemma ConnectsReading(c: Client)
    requires Reachable(c) && !c.connected
    ensures Reading(Connack(c)) && Connack(c).queue == c.queue
  {
    var c1 := NewStream(NewConnection(c));
    assert forall k :: 0 <= k < |c.store| ==> c.store[k] in c.store;
    ReadsOn(c1);
  }

  /** From any state: a new connection, and everything acknowledged but the message under `id`. */
  lemma BecomesReady(c: Client, id: nat) returns (es: seq<Event>)
    requires Reachable(c)
    ensures Runs(c, es) && Quiet(es, id) && After(c, es).ready && After(c, es).queue == c.queue && After(c, es).connected
    ensures c.ready ==> es == []
  {
    if c.ready { return []; }
    var c1 := Close(c);
    CloseReachable(c);
    ConnectsReading(c1);
    var more := ReadsOut(Connack(c1), id);
    RunsFirst(c1, ConnackEvent, Connack(c1), more, [ConnackEvent] + more);
    RunsFirst(c, ClosedEvent, c1, [ConnackEvent] + more, [ClosedEvent] + ([ConnackEvent] + more));
    es := [ClosedEvent] + ([ConnackEvent] + more);
    assert es[1..] == [ConnackEvent] + more && es[1..][1..] == more;
  }

  /** The queue is sent until the PUBREL under `id` has been stored. */
  lemma {:induction false} QueueLoses(c: Client, id: nat, p: Packet) returns (es: seq<Event>)
    requires c.ready && c.connected && Pubrel(id) in c.queue && p != Pubrel(id)
    ensures Runs(c, es) && Quiet(es, id) && InSuback(id) !in es && !Has(After(c, es).store, id, p, false)
    decreases |c.queue|
  {
    var c1 := Drain(c);
    if c.queue[0] == Pubrel(id) {
      PutSelf(c.store, Pubrel(id));
      RunOne(c, DrainEvent);
      es := [DrainEvent];
    } else {
      var more := QueueLoses(c1, id, p);
      es := [DrainEvent] + more;
      assert es[1..] == more;
      RunsFirst(c, DrainEvent, c1, more, es);
    }
  }

  lemma QuietConcat(es: seq<Event>, fs: seq<Event>, id: nat)
    requires Quiet(es, id) && Quiet(fs, id)
    ensures Quiet(es + fs, id)
  {
    DrawsConcat(es, fs);
  }

  lemma {:induction false} DrawsConcat(es: seq<Event>, fs: seq<Event>)
    ensures DrawCount(es + fs) == DrawCount(es) + DrawCount(fs)
    decreases |es|
  {
    if |es| == 0 {
      assert es + fs == fs;
    } else {
      assert (es + fs)[1..] == es[1..] + fs;
      DrawsConcat(es[1..], fs);
    }
  }

  /**
    * An overwritable message can be lost without any acknowledgement of its own: another packet is
    * stored in its place. Only for a PUBREL queued while the client is not ready does that take a
    * SUBACK under the same id, which lets the replay pass the message.
    */
  lemma LossPossible(c: Client, qos: nat, msg: Message) returns (es: seq<Event>)
    requires Reachable(c) && Streaming(c) && qos > 0 && Overwritable(c, Publish(c.nextId, qos, msg))
    ensures Runs(Accept(c, qos, msg), es) && Quiet(es, c.nextId)
    ensures c.ready || Pubrel(c.nextId) !in c.queue ==> InSuback(c.nextId) !in es
    ensures !Has(After(Accept(c, qos, msg), es).store, c.nextId, Publish(c.nextId, qos, msg), InPubrec(c.nextId) in es)
  {
    var id, p, c1 := c.nextId, Publish(c.nextId, qos, msg), Accept(c, qos, msg);
    AcceptReachable(c, qos, msg);
    if Pubrel(id) in c.queue {
      var first := BecomesReady(c1, id);
      var last := QueueLoses(After(c1, first), id, p);
      RunsConcat(c1, first, last);
      QuietConcat(first, last, id);
      es := first + last;
    } else {
      var k :| c.index <= k < |c.stream| && !Harmless(c.stream[k], id, p, false);
      var other :| other in c.outgoing && other != id && Live(c.outgoing[other], c.epoch);
      assert other in c1.outgoing && c1.outgoing[other] == c.outgoing[other];
      es := ReplayLoses(c1, id, p, k);
    }
  }

  // ------------------------------------------------------- such a state is reached

  function Subscribes(n: nat): seq<Event> { if n == 0 then [] else [UserSubscribe] + Subscribes(n - 1) }

  /** Offline, subscriptions only draw ids and wait in the queue. */
  lemma {:induction false} SubscribesDraw(c: Client, n: nat)
    requires !c.connected && 1 <= c.nextId <= MAX_ID
    ensures Runs(c, Subscribes(n))
    ensures var r := After(c, Subscribes(n));
      && r.nextId == IdAfter(c.nextId, n) && !r.connected && r.store == c.store && r.during == c.during && r.epoch == c.epoch
    decreases n
  {
    if n > 0 {
      var es, c1 := Subscribes(n), AskSubscribe(c);
      assert es[1..] == Subscribes(n - 1);
      IdsDistinct(c.nextId, 0);
      SubscribesDraw(c1, n - 1);
    }
  }

  lemma {:induction false} RunsConcat(c: Client, es: seq<Event>, fs: seq<Event>)
    requires Runs(c, es) && Runs(After(c, es), fs)
    ensures Runs(c, es + fs) && After(c, es + fs) == After(After(c, es), fs)
    decreases |es|
  {
    if |es| == 0 {
      assert es + fs == fs;
    } else {
      assert (es + fs)[1..] == es[1..] + fs;
      RunsConcat(Step(c, es[0]), es[1..], fs);
      RunsFirst(c, es[0], Step(c, es[0]), es[1..] + fs, es + fs);
    }
  }

  lemma RunsFirst(c: Client, e: Event, c1: Client, es: seq<Event>, all: seq<Event>)
    requires Enabled(c, e) && c1 == Step(c, e) && Runs(c1, es) && |all| > 0 && all[0] == e && all[1..] == es
    ensures Runs(c, all) && After(c, all) == After(c1, es)
  {
  }

  lemma RunOne(c: Client, e: Event)
    requires Enabled(c, e)
    ensures Runs(c, [e]) && After(c, [e]) == Step(c, e)
  {
    assert [e][1..] == [];
    assert Runs(Step(c, e), []);
  }

  /** Offline, with the ids drawn once around: a message and a packet under the id to be drawn next. */
  ghost predicate Parked(c: Client, m1: Message, q: Packet) {
    !c.connected && c.during == map[] && c.store == [Publish(1, 1, m1), q] && q.id == 2 && q.Kept()
  }

  lemma StoresOffline(c: Client, m: Message)
    requires !c.connected && !c.processing && !Stored(c.store, c.nextId)
    ensures var r := Accept(c, 1, m);
      && r.store == c.store + [Publish(c.nextId, 1, m)] && r.nextId == NextId(c.nextId)
      && !r.connected && !r.processing && r.during == c.during
  {
  }

  /** Two messages published before the first connection. */
  lemma MessageParked(c: Client, m1: Message, m2: Message) returns (es: seq<Event>)
    requires Initial(c) && c.nextId == 1
    ensures Runs(c, es) && Parked(After(c, es), m1, Publish(2, 1, m2)) && After(c, es).nextId == 3
  {
    var c1 := Accept(c, 1, m1);
    StoresOffline(c, m1);
    assert c1.store[0].id == 1;
    StoresOffline(c1, m2);
    RunOne(c, UserPublish(1, m1));
    RunOne(c1, UserPublish(1, m2));
    RunsConcat(c, [UserPublish(1, m1)], [UserPublish(1, m2)]);
    es := [UserPublish(1, m1)] + [UserPublish(1, m2)];
  }

  lemma SendsOnline(c: Client, qos: nat, m: Message)
    requires c.connected && !c.processing && !Stored(c.store, c.nextId) && qos > 0
    ensures var r := Accept(c, qos, m);
      && r.store == c.store + [Publish(c.nextId, qos, m)] && r.nextId == NextId(c.nextId) && c.nextId in r.outgoing
      && r.connected && !r.processing
  {
  }

  lemma ConnectsEmpty(c: Client)
    requires Initial(c)
    ensures Connack(c).waiting && Connack(c).connected
    ensures var r := StreamEnd(Connack(c)); r.connected && !r.processing && r.store == [] && r.nextId == c.nextId
  {
  }

  /** A message sent with QoS 1 and one with QoS 2, whose PUBREC comes before the connection is lost. */
  lemma PubrelParked(c: Client, m1: Message, m2: Message) returns (es: seq<Event>)
    requires Initial(c) && c.nextId == 1
    ensures Runs(c, es) && Parked(After(c, es), m1, Pubrel(2)) && After(c, es).nextId == 3
  {
    var c1, c2 := Connack(c), StreamEnd(Connack(c));
    ConnectsEmpty(c);
    var c3, c4 := Accept(c2, 1, m1), Accept(Accept(c2, 1, m1), 2, m2);
    SendsOnline(c2, 1, m1);
    assert c3.store[0].id == 1;
    SendsOnline(c3, 2, m2);
    var c5 := Received(c4, 2);
    assert c4.store == [Publish(1, 1, m1), Publish(2, 2, m2)] && Find(c4.store, 2) == 1;
    var e5 := [ClosedEvent];
    RunOne(c5, ClosedEvent);
    var e4 := [InPubrec(2)] + e5;
    RunsFirst(c4, InPubrec(2), c5, e5, e4);
    var e3 := [UserPublish(2, m2)] + e4;
    RunsFirst(c3, UserPublish(2, m2), c4, e4, e3);
    var e2 := [UserPublish(1, m1)] + e3;
    RunsFirst(c2, UserPublish(1, m1), c3, e3, e2);
    var e1 := [StreamEndEvent] + e2;
    RunsFirst(c1, StreamEndEvent, c2, e2, e1);
    es := [ConnackEvent] + e1;
    RunsFirst(c, ConnackEvent, c1, e1, es);
  }

  /** CONNACK with the two packets stored: the first is replayed, the second waits its turn. */
  lemma ReplaysFirst(c: Client, m1: Message, q: Packet)
    requires Parked(c, m1, q)
    ensures var r := Connack(c);
      && r.connected && r.processing && r.nextId == c.nextId && r.stream == r.store == c.store && r.index == 1
      && r.during == map[1 := true] && r.wire == [Resent(Publish(1, 1, m1))]
      && r.epoch == r.firstEpoch == c.epoch + 1
      && 1 in r.outgoing && r.outgoing[1] == Resume(r.epoch, if 1 in c.outgoing then c.outgoing[1] else Plain)
  {
    var c1 := NewStream(NewConnection(c));
    assert c1.stream[0].id == 1;
    assert ReadNext(c1) == Resend(c1.(processing := true, index := 1), c1.stream[0]);
  }

  /** A message published now takes the place of the second one in the store ... */
  lemma TakesOver(c: Client, m1: Message, q: Packet, m: Message)
    requires Parked(c, m1, q) && c.nextId == 2
    ensures var r, r' := Connack(c), Accept(Connack(c), 1, m);
      r' == r.(nextId := 3, outgoing := r.outgoing[2 := Plain], during := map[1 := true, 2 := false],
               store := [Publish(1, 1, m1), Publish(2, 1, m)])
  {
    var r := Connack(c);
    ReplaysFirst(c, m1, q);
    assert r.store[0].id == 1 && r.store[1].id == 2;
  }

  /** ... until the replay of the second one takes it back. */
  lemma TakesBack(c: Client, m1: Message, q: Packet, m: Message)
    requires Reachable(c) && Parked(c, m1, q) && c.nextId == 2
    ensures var r := Finish(Accept(Connack(c), 1, m), 1);
      r.store == [q] && r.wire == [Resent(Publish(1, 1, m1)), Completed(1), Resent(q)]
  {
    var c1 := Accept(Connack(c), 1, m);
    ReplaysFirst(c, m1, q);
    TakesOver(c, m1, q, m);
    var c2 := Complete(c1, 1);
    assert c1.store[0].id == 1;
    assert c2.store == [Publish(2, 1, m)];
    StaleNoop(c2, c1.outgoing[1].inner);
    assert c2.stream[1] == q && ReadNext(c2) == Resend(c2.(processing := true, index := 2), q);
  }

  lemma StillOverwritable(c: Client, m1: Message, q: Packet, m: Message)
    requires Parked(c, m1, q) && c.nextId == 2 && q != Publish(2, 1, m)
    ensures Overwritable(Connack(c), Publish(2, 1, m))
  {
    var r := Connack(c);
    ReplaysFirst(c, m1, q);
    assert !Harmless(r.stream[1], 2, Publish(2, 1, m), false);
    assert Live(r.outgoing[1], r.epoch);
  }

  /** Offline, all other ids are drawn. */
  lemma DrawsAround(c: Client, m1: Message, q: Packet, n: nat) returns (es: seq<Event>)
    requires Parked(c, m1, q) && c.nextId == 3 && n == MAX_ID - 1
    ensures Runs(c, es) && Parked(After(c, es), m1, q) && After(c, es).nextId == 2
  {
    SubscribesDraw(c, n);
    LastDraw(n);
    es := Subscribes(n);
  }

  lemma LastDraw(n: nat)
    requires n == MAX_ID - 1
    ensures IdAfter(3, n) == 2
  {
  }

  /**
    * From a new client, a run to a state every run keeps, and then an accepted message that is
    * neither stored nor sent any more although nothing under its id was acknowledged: a message
    * published before the connection, or the PUBREL of one sent before it, is in its place. Two
    * packets are in the store when 65534 subscriptions use up the ids and the connection is made;
    * the message is accepted, and the first of the two is acknowledged.
    */
  lemma MessageLost(c: Client, m1: Message, m2: Message, m: Message, sent: bool, n: nat) returns (es: seq<Event>)
    requires Initial(c) && c.nextId == 1 && (sent || m != m2) && n == MAX_ID - 1
    ensures var q := if sent then Pubrel(2) else Publish(2, 1, m2);
      && Runs(c, es) && Reachable(After(c, es)) && Streaming(After(c, es)) && After(c, es).nextId == 2
      && Overwritable(After(c, es), Publish(2, 1, m))
      && var r := Finish(Accept(After(c, es), 1, m), 1);
      r.store == [q] && r.wire == [Resent(Publish(1, 1, m1)), Completed(1), Resent(q)]
  {
    var q, first := if sent then Pubrel(2) else Publish(2, 1, m2), [];
    if sent { first := PubrelParked(c, m1, m2); } else { first := MessageParked(c, m1, m2); }
    var draws := DrawsAround(After(c, first), m1, q, n);
    RunsConcat(c, first, draws);
    var c1 := After(c, first + draws);
    InitialReachable(c);
    InitialStreaming(c);
    RunReachable(c, first + draws);
    RunOne(c1, ConnackEvent);
    RunsConcat(c, first + draws, [ConnackEvent]);
    es := first + draws + [ConnackEvent];
    RunReachable(c, es);
    RunStreaming(c, es);
    ReplaysFirst(c1, m1, q);
    StillOverwritable(c1, m1, q, m);
    TakesBack(c1, m1, q, m);
  }
}
