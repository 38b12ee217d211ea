/**
  * What is written under the id of a message: the message itself, its PUBREL once a PUBREC came,
  * and from then on the message never again.
  */
module OutgoingWrites {
  import opened Session
  import opened OutgoingSafety
  import opened Traffic

  /** From `c` to `c'` nothing of another exchange was written under `id`. */
  ghost predicate Writes(c: Client, c': Client, id: nat, p: Packet, received: bool) {
    && c.wire <= c'.wire
    && forall k :: |c.wire| <= k < |c'.wire| ==> Own(c'.wire[k], id, p, received)
  }

  ghost predicate Own(e: WireEvent, id: nat, p: Packet, received: bool) {
    e.Completed? || Harmless(e.packet, id, p, received)
  }

  lemma SendWrites(c: Client, q: Packet, event: WireEvent, id: nat, p: Packet, received: bool)
    requires (event == Sent(q) || event == Resent(q)) && Harmless(q, id, p, received)
    ensures Writes(c, SendPacket(c, q, event), id, p, received)
  {
  }

  lemma {:induction false} ReadWrites(c: Client, id: nat, p: Packet, received: bool)
    requires Clear(c, id, p, received)
    ensures Writes(c, ReadNext(c), id, p, received) && Clear(ReadNext(c), id, p, received)
    decreases |c.stream| - c.index
  {
    if c.index < |c.stream| {
      var q := c.stream[c.index];
      var c1 := c.(processing := true, index := c.index + 1);
      if q.id in c.during && c.during[q.id] {
        ReadWrites(c1, id, p, received);
      } else {
        ResendWrites(c1, q, id, p, received);
      }
    }
  }

  lemma ResendWrites(c: Client, q: Packet, id: nat, p: Packet, received: bool)
    requires Clear(c, id, p, received) && Harmless(q, id, p, received)
    ensures Writes(c, Resend(c, q), id, p, received) && Clear(Resend(c, q), id, p, received)
  {
    var inner := if q.id in c.outgoing then c.outgoing[q.id] else Plain;
    SendWrites(c.(outgoing := c.outgoing[q.id := Resume(c.epoch, inner)], during := c.during[q.id := true]), q,
               Resent(q), id, p, received);
  }

  lemma {:induction false} ClearCallback(c: Client, cb: Callback, id: nat, p: Packet, received: bool)
    requires Clear(c, id, p, received)
    ensures Writes(c, RunCallback(c, cb), id, p, received) && Clear(RunCallback(c, cb), id, p, received)
    decreases cb
  {
    if cb.Resume? {
      ClearCallback(c, cb.inner, id, p, received);
      ReadWrites(RunCallback(c, cb.inner), id, p, received);
    }
  }

  lemma CallbackWrites(c: Client, cb: Callback, id: nat, p: Packet, received: bool)
    requires Stale(cb, c.epoch + 1) && (c.connected && !Clear(c, id, p, received) ==> !Live(cb, c.epoch))
    ensures Writes(c, RunCallback(c, cb), id, p, received)
  {
    if !c.connected {
      OfflineCallback(c, cb);
    } else if !Clear(c, id, p, received) {
      DeadCallback(c, cb);
    } else {
      ClearCallback(c, cb, id, p, received);
    }
  }

  lemma FinishWrites(c: Client, other: nat, id: nat, p: Packet, received: bool)
    requires Reachable(c) && Safe(c, id, p, received)
    ensures Writes(c, Finish(c, other), id, p, received)
  {
    if other in c.outgoing { CallbackWrites(Complete(c, other), c.outgoing[other], id, p, received); }
  }

  lemma SubackWrites(c: Client, other: nat, id: nat, p: Packet, received: bool)
    requires Reachable(c) && Safe(c, id, p, received)
    ensures Writes(c, Subscribed(c, other), id, p, received)
  {
    if other in c.outgoing {
      CallbackWrites(c.(outgoing := c.outgoing - {other}), c.outgoing[other], id, p, received);
    }
  }

  lemma StartWrites(c: Client, id: nat, p: Packet, received: bool)
    requires Has(c.store, id, p, received) && Unique(Ids(c.store))
    ensures Writes(c, StartStream(c), id, p, received)
  {
    forall k | 0 <= k < |c.store| ensures Harmless(c.store[k], id, p, received) {
      var i := Find(c.store, id);
      assert Ids(c.store)[k] == c.store[k].id && Ids(c.store)[i] == id;
    }
    ReadWrites(NewStream(c), id, p, received);
  }

  lemma AcceptWrites(c: Client, qos: nat, msg: Message, id: nat, p: Packet, received: bool)
    requires c.nextId != id
    ensures Writes(c, Accept(c, qos, msg), id, p, received)
  {
  }

  lemma ArriveWrites(c: Client, qos: nat, mid: nat, msg: Message, id: nat, p: Packet, received: bool)
    ensures Writes(c, Arrive(c, qos, mid, msg), id, p, received)
  {
    var c1 := TakeIn(c, qos, mid, msg);
    SendWrites(c1, Pubrec(mid), Sent(Pubrec(mid)), id, p, received);
    SendWrites(c1, Puback(mid), Sent(Puback(mid)), id, p, received);
  }

  lemma StepWrites(c: Client, e: Event, id: nat, p: Packet, received: bool)
    requires Reachable(c) && Safe(c, id, p, received) && Enabled(c, e)
    requires (Draws(e) ==> c.nextId != id) && (e == InPubrec(id) ==> p == Pubrel(id) || received)
    ensures var writes := Writes(Before(c, e), Step(c, e), id, p, received); writes
  {
    match e
    case UserPublish(qos, msg) => AcceptWrites(c, qos, msg, id, p, received);
    case UserSubscribe =>
    case InPuback(other) => FinishWrites(c, other, id, p, received);
    case InPubcomp(other) => FinishWrites(c, other, id, p, received);
    case InPubrec(other) => SendWrites(c, Pubrel(other), Sent(Pubrel(other)), id, p, received);
    case InSuback(other) => SubackWrites(c, other, id, p, received);
    case InPublish(qos, mid, msg) => ArriveWrites(c, qos, mid, msg, id, p, received);
    case InPubrel(mid) =>
    case ClosedEvent =>
    case ConnackEvent => StartWrites(NewConnection(c), id, p, received);
    case StreamEndEvent => StartWrites(c, id, p, received);
    case DrainEvent => SendWrites(c.(queue := c.queue[1..]), c.queue[0], Sent(c.queue[0]), id, p, received);
  }

  lemma OwnReceived(e: WireEvent, id: nat, p: Packet, received: bool)
    requires Own(e, id, p, received)
    ensures Own(e, id, p, true)
  {
  }

  lemma {:induction false} RunWrites(c: Client, es: seq<Event>, id: nat, p: Packet, drawn: nat, received: bool)
    requires Reachable(c) && Streaming(c) && Safe(c, id, p, received) && Runs(c, es) && (forall e <- es :: !Completes(e, id))
    requires 1 <= id <= MAX_ID && c.nextId == IdAfter(id, drawn) && 0 < drawn && drawn + DrawCount(es) <= MAX_ID
    requires p == Pubrel(id) || received || InPubrec(id) !in es
    ensures forall e <- History(c, es) :: Own(e, id, p, received)
    decreases |es|
  {
    if |es| > 0 {
      var c1 := Step(c, es[0]);
      IdsDistinct(id, drawn);
      assert es[0] in es;
      StepWrites(c, es[0], id, p, received);
      StepSafeAny(c, es[0], id, p, received);
      StepReachable(c, es[0]);
      StepStreaming(c, es[0]);
      StepNextId(c, es[0]);
      RunWrites(c1, es[1..], id, p, if Draws(es[0]) then drawn + 1 else drawn, received);
      GrowthOwn(c, es[0], id, p, received);
    }
  }

  lemma GrowthOwn(c: Client, e: Event, id: nat, p: Packet, received: bool)
    requires Enabled(c, e) && Writes(Before(c, e), Step(c, e), id, p, received)
    ensures forall f <- Growth(c, e) :: Own(f, id, p, received)
  {
  }

  /** When the message is a PUBREL already, another PUBREC changes nothing. */
  lemma StepSafeAny(c: Client, e: Event, id: nat, p: Packet, received: bool)
    requires Reachable(c) && Streaming(c) && Safe(c, id, p, received) && Enabled(c, e) && !Completes(e, id)
    requires (Draws(e) ==> c.nextId != id) && (e == InPubrec(id) ==> p == Pubrel(id) || received)
    ensures var safe := Safe(Step(c, e), id, p, received); safe
  {
    if e == InPubrec(id) {
      SendSafe(c, Pubrel(id), Sent(Pubrel(id)), id, p, received);
    } else {
      StepSafe(c, e, id, p, received);
    }
  }

  /**
    * Under the conditions of `NoLoss`, until a PUBREC with its id nothing but the message itself is
    * written under its id; not a packet of an older exchange either.
    */
  lemma OnlyItself(c: Client, qos: nat, msg: Message, es: seq<Event>)
    requires Reachable(c) && Streaming(c) && qos > 0 && !Overwritable(c, Publish(c.nextId, qos, msg))
    requires Runs(Accept(c, qos, msg), es) && DrawCount(es) < MAX_ID
    requires forall e <- es :: !Completes(e, c.nextId) && e != InPubrec(c.nextId)
    ensures forall e <- History(Accept(c, qos, msg), es) :: Own(e, c.nextId, Publish(c.nextId, qos, msg), false)
  {
    AcceptedSafe(c, qos, msg);
    AcceptReachable(c, qos, msg);
    StepStreaming(c, UserPublish(qos, msg));
    IdsDistinct(c.nextId, 0);
    RunWrites(Accept(c, qos, msg), es, c.nextId, Publish(c.nextId, qos, msg), 1, false);
  }

  /** A replay that goes on has nothing under `id` left to read but PUBRELs. */
  ghost predicate Passed(c: Client, id: nat) { Clear(c, id, Pubrel(id), false) || Stalled(c) }

  /**
    * Once a PUBREC for it has come on a connection, and the replay has passed it, a message is not
    * sent again, by any replay of any later connection: what is written under its id until its
    * PUBCOMP are PUBRELs.
    */
  lemma NotSentAgain(c: Client, id: nat, es: seq<Event>, drawn: nat)
    requires Reachable(c) && Streaming(c) && c.connected && id in c.outgoing && Passed(c, id)
    requires Runs(Received(c, id), es) && forall e <- es :: !Completes(e, id)
    requires 1 <= id <= MAX_ID && c.nextId == IdAfter(id, drawn) && 0 < drawn && drawn + DrawCount(es) <= MAX_ID
    ensures Stored(After(Received(c, id), es).store, id)
    ensures forall e <- History(Received(c, id), es) :: Own(e, id, Pubrel(id), false)
  {
    var c1 := Received(c, id);
    StepReachable(c, InPubrec(id));
    StepStreaming(c, InPubrec(id));
    PutSelf(c.store, Pubrel(id));
    StepNextId(c, InPubrec(id));
    forall q <- c.queue ensures Harmless(q, id, Pubrel(id), false) {}
    assert Safe(c1, id, Pubrel(id), false);
    RunWrites(c1, es, id, Pubrel(id), drawn, false);
    RunSafe(c1, es, id, Pubrel(id), drawn, false);
  }

  // ------------------------------------------------------- the end of an exchange

  /** Nothing under `id` is stored, outstanding or left to read. */
  ghost predicate Forgotten(c: Client, id: nat) {
    && !Stored(c.store, id) && id !in c.outgoing
    && forall k :: c.index <= k < |c.stream| ==> c.stream[k].id != id
  }

  lemma PutElse(s: seq<Packet>, p: Packet, id: nat)
    requires !Stored(s, id) && p.id != id
    ensures !Stored(Put(s, p), id)
  {
    var t := Put(s, p);
    forall k | 0 <= k < |t| ensures t[k].id != id {
      if k < |s| { assert s[k].id != id; }
    }
  }

  lemma {:induction false} ReadForgotten(c: Client, id: nat)
    requires Forgotten(c, id)
    ensures Forgotten(ReadNext(c), id)
    decreases |c.stream| - c.index
  {
    if c.index < |c.stream| {
      var p := c.stream[c.index];
      if p.id in c.during && c.during[p.id] {
        ReadForgotten(c.(processing := true, index := c.index + 1), id);
      } else {
        PutElse(c.store, p, id);
      }
    }
  }

  lemma {:induction false} CallbackForgotten(c: Client, cb: Callback, id: nat)
    requires Forgotten(c, id)
    ensures Forgotten(RunCallback(c, cb), id)
    decreases cb
  {
    if cb.Resume? {
      CallbackForgotten(c, cb.inner, id);
      ReadForgotten(RunCallback(c, cb.inner), id);
    }
  }

  lemma DelForgets(s: seq<Packet>, id: nat)
    requires Unique(Ids(s))
    ensures !Stored(Del(s, id), id)
  {
    var i, t := Find(s, id), Del(s, id);
    forall k | 0 <= k < |t| ensures t[k].id != id {
      if i < |s| { assert Ids(s)[i] == id && t[k] == s[if k < i then k else k + 1]; }
    }
  }

  /**
    * PUBACK or PUBCOMP for an outstanding message that the replay has passed: it is neither stored
    * nor outstanding any more, so no later connection sends anything under its id again.
    */
  lemma AckForgets(c: Client, e: Event, id: nat)
    requires Reachable(c) && (e == InPuback(id) || e == InPubcomp(id)) && id in c.outgoing
    requires forall k :: c.index <= k < |c.stream| ==> c.stream[k].id != id
    ensures Forgotten(Step(c, e), id)
  {
    DelForgets(c.store, id);
    CallbackForgotten(Complete(c, id), c.outgoing[id], id);
  }

  /** A close forgets the subscriptions that wait for their SUBACK, and no other exchange. */
  lemma CloseForgets(c: Client, id: nat)
    ensures id in Close(c).outgoing <==> id in c.outgoing && c.outgoing[id] != Volatile
    ensures id in Close(c).outgoing ==> Close(c).outgoing[id] == c.outgoing[id]
    ensures Close(c).store == c.store && Close(c).queue == c.queue && Close(c).incoming == c.incoming
  {
  }
}
