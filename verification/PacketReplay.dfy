/**
  * What is replayed after a reconnect: not only the ids that were stored, but the packets stored
  * under them.
  */
module PacketReplay {
  import opened Basics
  import opened Session

  /** The packets replayed, in order. */
  function ResentPackets(w: seq<WireEvent>): (ps: seq<Packet>)
    ensures Ids(ps) == Resents(w)
  {
    if |w| == 0 then []
    else
      var e, ps := w[|w| - 1], ResentPackets(w[..|w| - 1]);
      ps + (if e.Resent? then [e.packet] else [])
  }

  lemma ResentSnoc(w: seq<WireEvent>, e: WireEvent)
    ensures ResentPackets(w + [e]) == ResentPackets(w) + (if e.Resent? then [e.packet] else [])
  {
    assert (w + [e])[..|w|] == w;
  }

  // ------------------------------------------------------- the invariant

  /** What is left of the stream are the next packets. */
  ghost predicate StreamHolds(stream: seq<Packet>, index: nat, pending: seq<Packet>, done: nat) {
    && index <= |stream| && done + (|stream| - index) <= |pending|
    && forall k :: index <= k < |stream| ==> stream[k] == pending[done + (k - index)]
  }

  /** The store holds the packets from `n` on; those from `done` on are as they were. */
  ghost predicate StoreHolds(s: seq<Packet>, pending: seq<Packet>, n: nat, done: nat) {
    && n + |s| == |pending|
    && forall k :: 0 <= k < |s| && n + k >= done ==> s[k] == pending[n + k]
  }

  /** Beside `Replaying`: replayed, unread and stored are the pending packets themselves. */
  ghost predicate Contents(c: Client, pending: seq<Packet>) {
    var done, n := |Resents(c.wire)|, |Completions(c.wire)|;
    && ResentPackets(c.wire) <= pending
    && StreamHolds(c.stream, c.index, pending, done)
    && StoreHolds(c.store, pending, n, done)
  }

  /** A packet sent besides the replay does not count. */
  lemma SentHolds(c: Client, c': Client, p: Packet, pending: seq<Packet>)
    requires Contents(c, pending) && c'.wire == c.wire + [Sent(p)]
    requires c'.stream == c.stream && c'.index == c.index
    requires StoreHolds(c'.store, pending, |Completions(c.wire)|, |Resents(c.wire)|)
    ensures Contents(c', pending)
  {
    WireSnoc(c.wire, Sent(p));
    ResentSnoc(c.wire, Sent(p));
  }

  lemma SameHolds(c: Client, c': Client, pending: seq<Packet>)
    requires Contents(c, pending) && c'.wire == c.wire && c'.stream == c.stream && c'.index == c.index && c'.store == c.store
    ensures Contents(c', pending)
  {
  }

  /** Unread and stored, the next packet is the pending one. */
  lemma NextContents(c: Client, pending: seq<Packet>)
    requires Core(c, Ids(pending)) && Idle(c) && Contents(c, pending) && c.index < |c.stream|
    ensures var p, k := c.stream[c.index], |Resents(c.wire)|;
      && k < |pending| && p == pending[k] && p.Kept() && !(p.id in c.during && c.during[p.id])
      && c.connected && Put(c.store, p) == c.store
  {
    var p, k := c.stream[c.index], |Resents(c.wire)|;
    NextUnread(c, Ids(pending), p);
    FindAt(c.store, Ids(pending), k, 0);
  }

  /** When it is read, it is what is written, and stays what is stored. */
  lemma ResendHolds(c: Client, c': Client, p: Packet, pending: seq<Packet>)
    requires Contents(c, pending) && c.index < |c.stream| && |Resents(c.wire)| < |pending| && p == pending[|Resents(c.wire)|]
    requires c'.wire == c.wire + [Resent(p)] && c'.stream == c.stream && c'.index == c.index + 1 && c'.store == c.store
    ensures Contents(c', pending)
  {
    WireSnoc(c.wire, Resent(p));
    ResentSnoc(c.wire, Resent(p));
    NextPacket(ResentPackets(c.wire), pending, p);
  }

  lemma ReadsContents(c: Client, pending: seq<Packet>)
    requires Core(c, Ids(pending)) && Idle(c) && Contents(c, pending) && c.index < |c.stream|
    ensures var contents := Contents(ReadNext(c), pending); contents
  {
    var p, c1 := c.stream[c.index], c.(processing := true, index := c.index + 1);
    NextContents(c, pending);
    ResendFields(c1, p);
    assert ReadNext(c) == Resend(c1, p);
    ResendHolds(c, ReadNext(c), p, pending);
  }

  lemma NextPacket(ps: seq<Packet>, pending: seq<Packet>, p: Packet)
    requires ps <= pending && |ps| < |pending| && p == pending[|ps|]
    ensures ps + [p] <= pending
  {
  }

  lemma GoesOn(c: Client, pending: seq<Packet>)
    requires Core(c, Ids(pending)) && Idle(c) && Contents(c, pending)
    ensures var contents := Contents(ReadNext(c), pending); contents
  {
    if c.index < |c.stream| {
      ReadsContents(c, pending);
    } else {
      SameHolds(c, ReadNext(c), pending);
    }
  }

  // ------------------------------------------------------- every step

  function AcceptedPacket(c: Client, e: Event): (ps: seq<Packet>)
    ensures Ids(ps) == AcceptedId(c, e)
  {
    if e.UserPublish? && e.qos > 0 then [Publish(c.nextId, e.qos, e.msg)] else []
  }

  /** A packet stored behind the others is replayed behind them. */
  lemma StoredHolds(c: Client, c': Client, p: Packet, pending: seq<Packet>)
    requires Contents(c, pending) && |Resents(c.wire)| <= |pending|
    requires c'.wire == c.wire && c'.stream == c.stream && c'.index == c.index && c'.store == c.store + [p]
    ensures Contents(c', pending + [p])
  {
    var all := pending + [p];
    assert forall k :: 0 <= k < |pending| ==> all[k] == pending[k];
  }

  lemma AcceptContents(c: Client, qos: nat, msg: Message, pending: seq<Packet>)
    requires c.processing && !Stored(c.store, c.nextId) && Contents(c, pending) && qos > 0
    ensures Contents(Accept(c, qos, msg), pending + [Publish(c.nextId, qos, msg)])
  {
    StoredHolds(c, Accept(c, qos, msg), Publish(c.nextId, qos, msg), pending);
  }

  lemma PublishContents(c: Client, qos: nat, msg: Message, pending: seq<Packet>)
    requires c.processing && !Stored(c.store, c.nextId) && Contents(c, pending)
    ensures Contents(Accept(c, qos, msg), pending + AcceptedPacket(c, UserPublish(qos, msg)))
  {
    if qos > 0 {
      AcceptContents(c, qos, msg, pending);
    } else {
      assert pending + [] == pending;
    }
  }

  lemma SubscribeContents(c: Client, pending: seq<Packet>)
    requires Contents(c, pending) && c.connected
    ensures Contents(AskSubscribe(c), pending)
  {
    SentHolds(c, AskSubscribe(c), Subscribe(c.nextId), pending);
  }

  lemma ReleaseContents(c: Client, id: nat, pending: seq<Packet>)
    requires Contents(c, pending) && c.connected
    ensures Contents(Release(c, id), pending)
  {
    SentHolds(c, Release(c, id), Pubcomp(id), pending);
  }

  lemma CompletedHolds(c: Client, c': Client, id: nat, pending: seq<Packet>)
    requires Contents(c, pending) && |Resents(c.wire)| == |Completions(c.wire)| + 1 && |c.store| > 0
    requires c'.wire == c.wire + [Completed(id)] && c'.stream == c.stream && c'.index == c.index && c'.store == c.store[1..]
    ensures Contents(c', pending)
  {
    WireSnoc(c.wire, Completed(id));
    ResentSnoc(c.wire, Completed(id));
  }

  /** The packet in flight is the first one stored. */
  lemma FirstInStore(c: Client, id: nat, pending: seq<nat>)
    requires Core(c, pending) && InFlight(c) && id == Resents(c.wire)[|Completions(c.wire)|]
    ensures |c.store| > 0 && Find(c.store, id) == 0 && id in c.outgoing && Resumes(c, c.outgoing[id]) && c.connected
    ensures |Resents(c.wire)| == |Completions(c.wire)| + 1
  {
    FindAt(c.store, pending, |Completions(c.wire)|, 0);
  }

  lemma CompleteContents(c: Client, id: nat, pending: seq<Packet>)
    requires Core(c, Ids(pending)) && InFlight(c) && Contents(c, pending) && id == Resents(c.wire)[|Completions(c.wire)|]
    ensures var contents := Contents(Complete(c, id), pending); contents
  {
    FirstInStore(c, id, Ids(pending));
    CompletedHolds(c, Complete(c, id), id, pending);
  }

  lemma FinishContents(c: Client, id: nat, pending: seq<Packet>)
    requires Replaying(c, Ids(pending)) && Contents(c, pending) && id in KeptIds(c.wire)
    ensures var contents := Contents(Finish(c, id), pending); contents
  {
    if id in c.outgoing {
      AckedIsInFlight(c, id, Ids(pending));
      CompleteKeeps(c, id, Ids(pending));
      CompleteContents(c, id, pending);
      StaleNoop(Complete(c, id), c.outgoing[id].inner);
      GoesOn(Complete(c, id), pending);
    }
  }

  /** A PUBREL takes the place of the packet in flight only. */
  lemma ReceivedContents(c: Client, id: nat, pending: seq<Packet>)
    requires Replaying(c, Ids(pending)) && Contents(c, pending) && id in KeptIds(c.wire)
    ensures Contents(Received(c, id), pending)
  {
    if id in c.outgoing {
      AckedIsInFlight(c, id, Ids(pending));
      FirstInStore(c, id, Ids(pending));
      assert Put(c.store, Pubrel(id)) == c.store[0 := Pubrel(id)];
      SentHolds(c, Received(c, id), Pubrel(id), pending);
    }
  }

  lemma SubackContents(c: Client, id: nat, pending: seq<Packet>)
    requires Replaying(c, Ids(pending)) && Contents(c, pending) && id in SubscribeIds(c.wire)
    ensures Contents(Subscribed(c, id), pending)
  {
    if id in c.outgoing {
      assert id !in Ids(pending) && id !in Resents(c.wire);
      StaleNoop(c.(outgoing := c.outgoing - {id}), c.outgoing[id]);
    }
  }

  lemma ArriveContents(c: Client, qos: nat, id: nat, msg: Message, pending: seq<Packet>)
    requires Contents(c, pending) && c.connected
    ensures Contents(Arrive(c, qos, id, msg), pending)
  {
    if qos == 2 {
      SentHolds(c, Arrive(c, qos, id, msg), Pubrec(id), pending);
    } else if qos == 1 {
      SentHolds(c, Arrive(c, qos, id, msg), Puback(id), pending);
    }
  }

  lemma EndContents(c: Client, pending: seq<Packet>)
    requires Replaying(c, Ids(pending)) && Contents(c, pending) && c.waiting
    ensures var contents := Contents(StreamEnd(c), pending); contents
  {
    if AllProcessed(c.during) {
      SameHolds(c, StreamEnd(c), pending);
    } else {
      NewStreamKeeps(c, Ids(pending));
      assert Contents(NewStream(c), pending);
      GoesOn(NewStream(c), pending);
    }
  }

  lemma StepContents(c: Client, e: Event, pending: seq<Packet>)
    requires Replaying(c, Ids(pending)) && Contents(c, pending) && Enabled(c, e) && Allowed(c, e)
    ensures var contents := Contents(Step(c, e), pending + AcceptedPacket(c, e)); contents
  {
    if !e.UserPublish? { assert pending + AcceptedPacket(c, e) == pending; }
    match e
    case UserPublish(qos, msg) => PublishContents(c, qos, msg, pending);
    case UserSubscribe => SubscribeContents(c, pending);
    case InPuback(id) => FinishContents(c, id, pending);
    case InPubcomp(id) => FinishContents(c, id, pending);
    case InPubrec(id) => ReceivedContents(c, id, pending);
    case InSuback(id) => SubackContents(c, id, pending);
    case InPublish(qos, id, msg) => ArriveContents(c, qos, id, msg, pending);
    case InPubrel(id) => ReleaseContents(c, id, pending);
    case StreamEndEvent => EndContents(c, pending);
    case _ =>
  }

  // ------------------------------------------------------- whole runs

  /** The QoS 1 and 2 messages accepted along a run, as the packets they are stored as. */
  function AcceptedPackets(c: Client, es: seq<Event>): (ps: seq<Packet>)
    requires Runs(c, es)
    ensures Ids(ps) == AcceptedIds(c, es)
    decreases |es|
  {
    if |es| == 0 then []
    else
      var now, more := AcceptedPacket(c, es[0]), AcceptedPackets(Step(c, es[0]), es[1..]);
      IdsConcat(now, more);
      now + more
  }

  lemma IdsConcat(a: seq<Packet>, b: seq<Packet>)
    ensures Ids(a + b) == Ids(a) + Ids(b)
  {
  }

  lemma {:induction false} RunContents(c: Client, es: seq<Event>, pending: seq<Packet>)
    requires Replaying(c, Ids(pending)) && Contents(c, pending) && ReplayRun(c, es) && Runs(c, es) && After(c, es).ready
    ensures Contents(After(c, es), pending + AcceptedPackets(c, es))
    decreases |es|
  {
    var c1, more := Step(c, es[0]), AcceptedPacket(c, es[0]);
    StepKeeps(c, es[0], Ids(pending));
    StepContents(c, es[0], pending);
    IdsConcat(pending, more);
    if c1.ready {
      assert es[1..] == [];
      assert AcceptedPackets(c, es) == more;
    } else {
      RunContents(c1, es[1..], pending + more);
      Associative(pending, more, AcceptedPackets(c1, es[1..]));
    }
  }

  /** Replayed one at a time, each completed before the next, and nothing is left in the store. */
  ghost predicate Replayed(c: Client, packets: seq<Packet>) {
    ResentPackets(c.wire) == packets && IdsReplayed(c, Ids(packets))
  }

  lemma NewContents(c: Client, pending: seq<Packet>)
    requires c.wire == [] && c.stream == c.store == pending && c.index == 0
    ensures Contents(c, pending)
  {
  }

  lemma ConnackContents(c: Client)
    requires Reachable(c) && !c.connected
    ensures var contents := Contents(Connack(c), c.store); contents
  {
    ConnackCore(c);
    NewContents(NewStream(NewConnection(c)), c.store);
    GoesOn(NewStream(NewConnection(c)), c.store);
  }

  /**
    * When 'connect' is emitted, the packets replayed on the connection are those in the store at
    * CONNACK, in store order, and then those accepted during the replay; each once, each only
    * after the one before completed. All of them have completed, and the store is empty.
    */
  lemma ReplayOnReconnect(c: Client, es: seq<Event>)
    requires Reachable(c) && !c.connected
    requires ReplayRun(Connack(c), es) && Runs(Connack(c), es) && After(Connack(c), es).ready
    ensures Replayed(After(Connack(c), es), c.store + AcceptedPackets(Connack(c), es))
  {
    var c1 := Connack(c);
    var all := c.store + AcceptedPackets(c1, es);
    ConnackStarts(c);
    ConnackContents(c);
    RunContents(c1, es, c.store);
    ReplayEnds(c1, es, Ids(c.store));
    IdsConcat(c.store, AcceptedPackets(c1, es));
    assert |ResentPackets(After(c1, es).wire)| == |Ids(all)|;
  }
}
