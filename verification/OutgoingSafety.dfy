/**
  * No loss of QoS 1 and 2 messages: an accepted message stays in the outgoing store until it is
  * acknowledged, unless a packet of another exchange under its id is left to be replayed or sent.
  */
module OutgoingSafety {
  import opened Session

  // ------------------------------------------------------- the replay stream

  /** Of every reachable client: the stream has each id once, and is read to its end before it ends. */
  ghost predicate Streaming(c: Client) {
    && Unique(Ids(c.stream))
    && (c.connected ==> c.firstEpoch <= c.epoch)
    && (c.connected && (!c.processing || c.waiting) ==> c.index >= |c.stream|)
  }

  lemma {:induction false} ReadStreaming(c: Client)
    requires c.connected && Unique(Ids(c.stream)) && c.firstEpoch <= c.epoch && (c.waiting ==> c.index >= |c.stream|)
    ensures Streaming(ReadNext(c))
    decreases |c.stream| - c.index
  {
    if c.index < |c.stream| && c.stream[c.index].id in c.during && c.during[c.stream[c.index].id] {
      ReadStreaming(c.(processing := true, index := c.index + 1));
    }
  }

  lemma {:induction false} CallbackStreaming(c: Client, cb: Callback)
    requires Streaming(c)
    ensures Streaming(RunCallback(c, cb))
    decreases cb
  {
    if cb.Resume? {
      CallbackStreaming(c, cb.inner);
      var c1 := RunCallback(c, cb.inner);
      if c1.connected { ReadStreaming(c1); }
    }
  }

  lemma FinishStreaming(c: Client, id: nat)
    requires Streaming(c)
    ensures Streaming(Finish(c, id))
  {
    if id in c.outgoing { CallbackStreaming(Complete(c, id), c.outgoing[id]); }
  }

  lemma SubackStreaming(c: Client, id: nat)
    requires Streaming(c)
    ensures Streaming(Subscribed(c, id))
  {
    if id in c.outgoing { CallbackStreaming(c.(outgoing := c.outgoing - {id}), c.outgoing[id]); }
  }

  lemma SendStreaming(c: Client, p: Packet)
    requires Streaming(c)
    ensures Streaming(Send(c, p))
  {
  }

  lemma EndStreaming(c: Client)
    requires Streaming(c) && Enabled(c, StreamEndEvent) && Unique(Ids(c.store))
    ensures Streaming(StreamEnd(c))
  {
    ReadStreaming(NewStream(c));
  }

  lemma ArriveStreaming(c: Client, qos: nat, id: nat, msg: Message)
    requires Streaming(c)
    ensures Streaming(Arrive(c, qos, id, msg))
  {
    SendStreaming(c.(incoming := c.incoming[id := msg]), Pubrec(id));
    SendStreaming(c.(delivered := c.delivered + [msg]), Puback(id));
  }

  lemma ReleaseStreaming(c: Client, id: nat)
    requires Streaming(c)
    ensures Streaming(Release(c, id))
  {
    SendStreaming(c, Pubcomp(id));
    if id in c.incoming {
      SendStreaming(c.(delivered := c.delivered + [c.incoming[id]], incoming := c.incoming - {id}), Pubcomp(id));
    }
  }

  lemma StepStreaming(c: Client, e: Event)
    requires Reachable(c) && Streaming(c) && Enabled(c, e)
    ensures var streaming := Streaming(Step(c, e)); streaming
  {
    match e
    case UserPublish(qos, msg) => AcceptStreaming(c, qos, msg);
    case UserSubscribe =>
      SendStreaming(c.(nextId := NextId(c.nextId), outgoing := c.outgoing[c.nextId := Volatile]), Subscribe(c.nextId));
    case InPuback(id) => FinishStreaming(c, id);
    case InPubcomp(id) => FinishStreaming(c, id);
    case InPubrec(id) => SendStreaming(c, Pubrel(id));
    case InSuback(id) => SubackStreaming(c, id);
    case InPublish(qos, id, msg) => ArriveStreaming(c, qos, id, msg);
    case InPubrel(id) => ReleaseStreaming(c, id);
    case ClosedEvent =>
    case ConnackEvent => ReadStreaming(NewStream(NewConnection(c)));
    case StreamEndEvent => EndStreaming(c);
    case DrainEvent => SendStreaming(c.(queue := c.queue[1..]), c.queue[0]);
  }

  lemma AcceptStreaming(c: Client, qos: nat, msg: Message)
    requires Streaming(c)
    ensures Streaming(Accept(c, qos, msg))
  {
  }

  /** What every run from a new client keeps. */
  lemma {:induction false} RunStreaming(c: Client, es: seq<Event>)
    requires Reachable(c) && Streaming(c) && Runs(c, es)
    ensures Streaming(After(c, es))
    decreases |es|
  {
    if |es| > 0 {
      StepReachable(c, es[0]);
      StepStreaming(c, es[0]);
      RunStreaming(Step(c, es[0]), es[1..]);
    }
  }

  lemma InitialStreaming(c: Client)
    requires Initial(c)
    ensures Streaming(c)
  {
  }

  // ------------------------------------------------------- what a replay can do

  /** The callback, or one it wraps, resumes the current stream. */
  predicate Live(cb: Callback, epoch: nat) { cb.Resume? && (cb.epoch == epoch || Live(cb.inner, epoch)) }

  /** No acknowledgement resumes the stream any more. */
  ghost predicate Stalled(c: Client) { forall id <- c.outgoing :: !Live(c.outgoing[id], c.epoch) }

  lemma {:induction false} DeadCallback(c: Client, cb: Callback)
    requires !Live(cb, c.epoch) && Stale(cb, c.epoch + 1)
    ensures RunCallback(c, cb) == c || RunCallback(c, cb) == c.(processing := true)
    decreases cb
  {
    if cb.Resume? { DeadCallback(c, cb.inner); }
  }

  lemma {:induction false} OfflineCallback(c: Client, cb: Callback)
    requires !c.connected
    ensures RunCallback(c, cb) == c
    decreases cb
  {
    if cb.Resume? { OfflineCallback(c, cb.inner); }
  }

  /** The packet under `id` is the message itself or, once a PUBREC for it came, its PUBREL. */
  ghost predicate Has(s: seq<Packet>, id: nat, p: Packet, received: bool) {
    Find(s, id) < |s| && (s[Find(s, id)] == p || (received && s[Find(s, id)] == Pubrel(id)))
  }

  /** `q` is no packet of another exchange under `id`. */
  ghost predicate Harmless(q: Packet, id: nat, p: Packet, received: bool) {
    q.Kept() && q.id == id ==> q == p || (received && q == Pubrel(id))
  }

  /** The stream has nothing of another exchange under `id` left to replay. */
  ghost predicate Clear(c: Client, id: nat, p: Packet, received: bool) {
    forall k :: c.index <= k < |c.stream| ==> Harmless(c.stream[k], id, p, received)
  }

  ghost predicate Safe(c: Client, id: nat, p: Packet, received: bool) {
    && Has(c.store, id, p, received)
    && (forall q <- c.queue :: Harmless(q, id, p, received))
    && (c.connected && !Clear(c, id, p, received) ==> Stalled(c))
  }

  lemma PutHas(s: seq<Packet>, q: Packet, id: nat, p: Packet, received: bool)
    requires Has(s, id, p, received) && Harmless(q, id, p, received) && q.Kept()
    ensures Has(Put(s, q), id, p, received)
  {
    var i, t := Find(s, id), Put(s, q);
    assert t[i].id == id && forall k :: 0 <= k < i ==> t[k].id != id;
    assert Find(t, id) == i;
  }

  lemma DelHas(s: seq<Packet>, other: nat, id: nat, p: Packet, received: bool)
    requires Has(s, id, p, received) && other != id
    ensures Has(Del(s, other), id, p, received)
  {
    var i, j, t := Find(s, id), Find(s, other), Del(s, other);
    var i' := if j < i then i - 1 else i;
    assert t[i'] == s[i] && forall k :: 0 <= k < i' ==> t[k].id != id;
    assert Find(t, id) == i';
  }

  lemma SendSafe(c: Client, q: Packet, event: WireEvent, id: nat, p: Packet, received: bool)
    requires Safe(c, id, p, received) && Harmless(q, id, p, received)
    ensures Safe(SendPacket(c, q, event), id, p, received)
  {
    if q.Kept() { PutHas(c.store, q, id, p, received); }
  }

  lemma {:induction false} ReadSafe(c: Client, id: nat, p: Packet, received: bool)
    requires Safe(c, id, p, received) && Clear(c, id, p, received) && forall k :: 0 <= k < |c.stream| ==> c.stream[k].Kept()
    ensures Safe(ReadNext(c), id, p, received) && Clear(ReadNext(c), id, p, received) && ReadNext(c).stream == c.stream
    decreases |c.stream| - c.index
  {
    if c.index < |c.stream| {
      var q := c.stream[c.index];
      var c1 := c.(processing := true, index := c.index + 1);
      if q.id in c.during && c.during[q.id] {
        ReadSafe(c1, id, p, received);
      } else {
        ResendSafe(c1, q, id, p, received);
      }
    }
  }

  lemma ResendSafe(c: Client, q: Packet, id: nat, p: Packet, received: bool)
    requires Safe(c, id, p, received) && Clear(c, id, p, received) && q.Kept() && Harmless(q, id, p, received)
    ensures Safe(Resend(c, q), id, p, received) && Clear(Resend(c, q), id, p, received) && Resend(c, q).stream == c.stream
  {
    var inner := if q.id in c.outgoing then c.outgoing[q.id] else Plain;
    SendSafe(c.(outgoing := c.outgoing[q.id := Resume(c.epoch, inner)], during := c.during[q.id := true]), q,
             Resent(q), id, p, received);
  }

  lemma {:induction false} CallbackReads(c: Client, cb: Callback, id: nat, p: Packet, received: bool)
    requires Safe(c, id, p, received) && Clear(c, id, p, received) && forall k :: 0 <= k < |c.stream| ==> c.stream[k].Kept()
    ensures Safe(RunCallback(c, cb), id, p, received) && Clear(RunCallback(c, cb), id, p, received)
    ensures RunCallback(c, cb).stream == c.stream
    decreases cb
  {
    if cb.Resume? {
      CallbackReads(c, cb.inner, id, p, received);
      ReadSafe(RunCallback(c, cb.inner), id, p, received);
    }
  }

  lemma CallbackSafe(c: Client, cb: Callback, id: nat, p: Packet, received: bool)
    requires Safe(c, id, p, received) && Stale(cb, c.epoch + 1) && forall k :: 0 <= k < |c.stream| ==> c.stream[k].Kept()
    requires c.connected && !Clear(c, id, p, received) ==> !Live(cb, c.epoch)
    ensures Safe(RunCallback(c, cb), id, p, received)
  {
    if !c.connected {
      OfflineCallback(c, cb);
    } else if !Clear(c, id, p, received) {
      DeadCallback(c, cb);
    } else {
      CallbackReads(c, cb, id, p, received);
    }
  }

  lemma StartSafe(c: Client, id: nat, p: Packet, received: bool)
    requires Has(c.store, id, p, received) && (forall q <- c.queue :: Harmless(q, id, p, received)) && Unique(Ids(c.store))
    requires forall q <- c.store :: q.Kept()
    ensures Safe(StartStream(c), id, p, received)
  {
    forall k | 0 <= k < |c.store| ensures Harmless(c.store[k], id, p, received) {
      var i := Find(c.store, id);
      assert Ids(c.store)[k] == c.store[k].id && Ids(c.store)[i] == id;
    }
    ReadSafe(NewStream(c), id, p, received);
  }

  /** Ends the life of `id`: the one acknowledgement that completes its exchange. */
  predicate Completes(e: Event, id: nat) { (e.InPuback? || e.InPubcomp?) && e.id == id }

  lemma FinishSafe(c: Client, other: nat, id: nat, p: Packet, received: bool)
    requires Reachable(c) && Safe(c, id, p, received) && other != id
    ensures Safe(Finish(c, other), id, p, received)
  {
    if other in c.outgoing {
      DelHas(c.store, other, id, p, received);
      CallbackSafe(Complete(c, other), c.outgoing[other], id, p, received);
    }
  }

  lemma SubackSafe(c: Client, other: nat, id: nat, p: Packet, received: bool)
    requires Reachable(c) && Safe(c, id, p, received)
    ensures Safe(Subscribed(c, other), id, p, received)
  {
    if other in c.outgoing {
      CallbackSafe(c.(outgoing := c.outgoing - {other}), c.outgoing[other], id, p, received);
    }
  }

  lemma AcceptSafe(c: Client, qos: nat, msg: Message, id: nat, p: Packet, received: bool)
    requires Safe(c, id, p, received) && c.nextId != id
    ensures Safe(Accept(c, qos, msg), id, p, received)
  {
    var q := Publish(c.nextId, qos, msg);
    if qos > 0 { PutHas(c.store, q, id, p, received); }
  }

  lemma ArriveSafe(c: Client, qos: nat, mid: nat, msg: Message, id: nat, p: Packet, received: bool)
    requires Safe(c, id, p, received)
    ensures var safe := Safe(Arrive(c, qos, mid, msg), id, p, received); safe
  {
    var c1 := TakeIn(c, qos, mid, msg);
    if qos == 2 {
      SendSafe(c1, Pubrec(mid), Sent(Pubrec(mid)), id, p, received);
    } else if qos == 1 {
      SendSafe(c1, Puback(mid), Sent(Puback(mid)), id, p, received);
    }
  }

  lemma ReleaseSafe(c: Client, mid: nat, id: nat, p: Packet, received: bool)
    requires Safe(c, id, p, received)
    ensures Safe(Release(c, mid), id, p, received)
  {
    if mid in c.incoming {
      SendSafe(c.(delivered := c.delivered + [c.incoming[mid]], incoming := c.incoming - {mid}),
               Pubcomp(mid), Sent(Pubcomp(mid)), id, p, received);
    } else {
      SendSafe(c, Pubcomp(mid), Sent(Pubcomp(mid)), id, p, received);
    }
  }

  lemma StepSafe(c: Client, e: Event, id: nat, p: Packet, received: bool)
    requires Reachable(c) && Streaming(c) && Safe(c, id, p, received) && Enabled(c, e) && !Completes(e, id)
    requires (Draws(e) ==> c.nextId != id) && (e == InPubrec(id) ==> received)
    ensures var safe := Safe(Step(c, e), id, p, received); safe
  {
    match e
    case UserPublish(qos, msg) => AcceptSafe(c, qos, msg, id, p, received);
    case InPuback(other) => FinishSafe(c, other, id, p, received);
    case InPubcomp(other) => FinishSafe(c, other, id, p, received);
    case InPubrec(other) => SendSafe(c, Pubrel(other), Sent(Pubrel(other)), id, p, received);
    case InSuback(other) => SubackSafe(c, other, id, p, received);
    case ConnackEvent => StartSafe(NewConnection(c), id, p, received);
    case StreamEndEvent => StartSafe(c, id, p, received);
    case DrainEvent => SendSafe(c.(queue := c.queue[1..]), c.queue[0], Sent(c.queue[0]), id, p, received);
    case InPublish(qos, mid, msg) => ArriveSafe(c, qos, mid, msg, id, p, received);
    case InPubrel(mid) => ReleaseSafe(c, mid, id, p, received);
    case UserSubscribe =>
      SendSafe(c.(nextId := NextId(c.nextId), outgoing := c.outgoing[c.nextId := Volatile]), Subscribe(c.nextId),
               Sent(Subscribe(c.nextId)), id, p, received);
    case ClosedEvent =>
  }

  /** Only the two user calls draw an id. */
  lemma StepNextId(c: Client, e: Event)
    requires Enabled(c, e)
    ensures Step(c, e).nextId == if Draws(e) then NextId(c.nextId) else c.nextId
  {
    match e
    case InPuback(id) => FinishNextId(c, id);
    case InPubcomp(id) => FinishNextId(c, id);
    case InSuback(id) => SubackNextId(c, id);
    case ConnackEvent => ReadNextId(NewStream(NewConnection(c)));
    case StreamEndEvent => ReadNextId(NewStream(c));
    case InPublish(qos, id, msg) => ArriveNextId(c, qos, id, msg);
    case InPubrel(id) => ReleaseNextId(c, id);
    case _ =>
  }

  lemma ArriveNextId(c: Client, qos: nat, id: nat, msg: Message)
    ensures Arrive(c, qos, id, msg).nextId == c.nextId
  {
    SendNextId(TakeIn(c, qos, id, msg), Pubrec(id));
    SendNextId(TakeIn(c, qos, id, msg), Puback(id));
  }

  lemma ReleaseNextId(c: Client, id: nat)
    ensures Release(c, id).nextId == c.nextId
  {
  }

  lemma SendNextId(c: Client, p: Packet)
    ensures Send(c, p).nextId == c.nextId
  {
  }

  lemma FinishNextId(c: Client, id: nat)
    ensures Finish(c, id).nextId == c.nextId
  {
    if id in c.outgoing { CallbackNextId(Complete(c, id), c.outgoing[id]); }
  }

  lemma SubackNextId(c: Client, id: nat)
    ensures Subscribed(c, id).nextId == c.nextId
  {
    if id in c.outgoing { CallbackNextId(c.(outgoing := c.outgoing - {id}), c.outgoing[id]); }
  }

  lemma {:induction false} ReadNextId(c: Client)
    ensures ReadNext(c).nextId == c.nextId
    decreases |c.stream| - c.index
  {
    if c.index < |c.stream| && c.stream[c.index].id in c.during && c.during[c.stream[c.index].id] {
      ReadNextId(c.(processing := true, index := c.index + 1));
    }
  }

  lemma {:induction false} CallbackNextId(c: Client, cb: Callback)
    ensures RunCallback(c, cb).nextId == c.nextId
    decreases cb
  {
    if cb.Resume? {
      CallbackNextId(c, cb.inner);
      ReadNextId(RunCallback(c, cb.inner));
    }
  }

  /** After a PUBREC nothing is asked that was not asked before. */
  lemma SafeReceived(c: Client, id: nat, p: Packet)
    requires Safe(c, id, p, false)
    ensures Safe(c, id, p, true)
  {
  }

  lemma {:induction false} RunSafe(c: Client, es: seq<Event>, id: nat, p: Packet, drawn: nat, received: bool)
    requires Reachable(c) && Streaming(c) && Safe(c, id, p, received) && Runs(c, es) && (forall e <- es :: !Completes(e, id))
    requires 1 <= id <= MAX_ID && c.nextId == IdAfter(id, drawn) && 0 < drawn && drawn + DrawCount(es) <= MAX_ID
    ensures Safe(After(c, es), id, p, received || InPubrec(id) in es)
    decreases |es|
  {
    if |es| > 0 {
      var now := received || es[0] == InPubrec(id);
      if now { if !received { SafeReceived(c, id, p); } }
      IdsDistinct(id, drawn);
      StepSafe(c, es[0], id, p, now);
      StepReachable(c, es[0]);
      StepStreaming(c, es[0]);
      StepNextId(c, es[0]);
      RunSafe(Step(c, es[0]), es[1..], id, p, if Draws(es[0]) then drawn + 1 else drawn, now);
      assert InPubrec(id) in es <==> es[0] == InPubrec(id) || InPubrec(id) in es[1..];
    }
  }

  /** An acknowledgement other than that of `id` resumes the stream. */
  ghost predicate Resumable(c: Client, id: nat) {
    exists other <- c.outgoing :: other != id && Live(c.outgoing[other], c.epoch)
  }

  /**
    * The id about to be drawn is still in use by another exchange, whose packet can take the place
    * of the new message: it is left to read in a replay that some acknowledgement will resume, or
    * it is a PUBREL in the queue.
    */
  ghost predicate Overwritable(c: Client, p: Packet) {
    || (c.connected && !Clear(c, c.nextId, p, false) && Resumable(c, c.nextId))
    || Pubrel(c.nextId) in c.queue
  }

  lemma PutSelf(s: seq<Packet>, p: Packet)
    ensures var i := Find(Put(s, p), p.id); i < |Put(s, p)| && Put(s, p)[i] == p
  {
    var i, t := Find(s, p.id), Put(s, p);
    assert t[i] == p && forall k :: 0 <= k < i ==> t[k].id != p.id;
    assert Find(t, p.id) == i;
  }

  lemma AcceptedSafe(c: Client, qos: nat, msg: Message)
    requires Reachable(c) && qos > 0 && !Overwritable(c, Publish(c.nextId, qos, msg))
    ensures Safe(Accept(c, qos, msg), c.nextId, Publish(c.nextId, qos, msg), false)
  {
    var id, p, c1 := c.nextId, Publish(c.nextId, qos, msg), Accept(c, qos, msg);
    PutSelf(c.store, p);
    assert c1.queue == c.queue && c1.stream == c.stream && c1.index == c.index;
  }

  /**
    * An accepted QoS 1 or 2 message stays in the store through acknowledgements of other messages,
    * closes and reconnects: it itself until a PUBREC with its id, it or its PUBREL from then on
    * until a PUBACK or PUBCOMP with its id; as long as fewer than 65535 further ids are drawn and
    * it was not overwritable when it was accepted. It may take over an id that is still stored. No
    * assumption is made about the broker.
    */
  lemma NoLoss(c: Client, qos: nat, msg: Message, es: seq<Event>)
    requires Reachable(c) && Streaming(c) && qos > 0 && !Overwritable(c, Publish(c.nextId, qos, msg))
    requires Runs(Accept(c, qos, msg), es) && DrawCount(es) < MAX_ID
    requires forall e <- es :: !Completes(e, c.nextId)
    ensures Has(After(Accept(c, qos, msg), es).store, c.nextId, Publish(c.nextId, qos, msg), InPubrec(c.nextId) in es)
  {
    AcceptedSafe(c, qos, msg);
    AcceptReachable(c, qos, msg);
    StepStreaming(c, UserPublish(qos, msg));
    IdsDistinct(c.nextId, 0);
    RunSafe(Accept(c, qos, msg), es, c.nextId, Publish(c.nextId, qos, msg), 1, false);
  }
}
