/**
  * What the client writes: every packet an event calls for is written at once or queued for the
  * next 'connect', in order, and nothing else is written besides the replay.
  */
module Traffic {
  import opened Basics
  import opened Session

  // ------------------------------------------------------- what MQTT asks for

  /** The packet a call or a packet received calls for. */
  function Asks(c: Client, e: Event): seq<Packet> {
    match e
    case UserPublish(qos, msg) => [Publish(c.nextId, qos, msg)]
    case UserSubscribe => [Subscribe(c.nextId)]
    case InPublish(qos, id, _) => if qos == 1 then [Puback(id)] else if qos == 2 then [Pubrec(id)] else []
    case InPubrec(id) => if id in c.outgoing then [Pubrel(id)] else []
    case InPubrel(id) => [Pubcomp(id)]
    case _ => []
  }

  /** It is written at once on a connection, but a publish waits for the end of a replay. */
  predicate AtOnce(c: Client, e: Event) { c.connected && !(e.UserPublish? && c.processing) }

  function Direct(c: Client, e: Event): seq<Packet> { if AtOnce(c, e) then Asks(c, e) else [] }

  /** What has to wait is queued, except QoS 1 and 2 messages, which are in the store. */
  function Deferred(c: Client, e: Event): seq<Packet> {
    if AtOnce(c, e) || (e.UserPublish? && e.qos > 0) then [] else Asks(c, e)
  }

  // ------------------------------------------------------- what is written

  /** The packets written, without those replayed. */
  function Sents(w: seq<WireEvent>): seq<Packet> {
    if |w| == 0 then [] else Sents(w[..|w| - 1]) + (if w[|w| - 1].Sent? then [w[|w| - 1].packet] else [])
  }

  lemma SentsSnoc(w: seq<WireEvent>, e: WireEvent)
    ensures Sents(w + [e]) == Sents(w) + (if e.Sent? then [e.packet] else [])
  {
    assert (w + [e])[..|w|] == w;
  }

  lemma {:induction false} SentsConcat(w: seq<WireEvent>, v: seq<WireEvent>)
    ensures Sents(w + v) == Sents(w) + Sents(v)
    decreases |v|
  {
    if |v| == 0 {
      assert w + v == w;
    } else {
      assert (w + v)[..|w + v| - 1] == w + v[..|v| - 1];
      SentsConcat(w, v[..|v| - 1]);
    }
  }

  /** From `c` to `c'` these packets were written and these queued. */
  ghost predicate Moves(c: Client, c': Client, written: seq<Packet>, queued: seq<Packet>) {
    c.wire <= c'.wire && Sents(c'.wire) == Sents(c.wire) + written && c'.queue == c.queue + queued
  }

  lemma NothingMoves(c: Client, c': Client)
    requires c'.wire == c.wire && c'.queue == c.queue
    ensures Moves(c, c', [], [])
  {
  }

  lemma SendMoves(c: Client, p: Packet)
    ensures Moves(c, Send(c, p), if c.connected then [p] else [], if c.connected || Durable(p) then [] else [p])
  {
    SentsSnoc(c.wire, Sent(p));
  }

  /** A replay writes, but not this way. */
  lemma {:induction false} ReadMoves(c: Client)
    requires c.connected
    ensures Moves(c, ReadNext(c), [], []) && ReadNext(c).connected
    decreases |c.stream| - c.index
  {
    if c.index < |c.stream| {
      var p := c.stream[c.index];
      if p.id in c.during && c.during[p.id] {
        ReadMoves(c.(processing := true, index := c.index + 1));
      } else {
        SentsSnoc(c.wire, Resent(p));
      }
    }
  }

  lemma {:induction false} CallbackMoves(c: Client, cb: Callback)
    ensures Moves(c, RunCallback(c, cb), [], []) && RunCallback(c, cb).connected == c.connected
    decreases cb
  {
    if cb.Resume? {
      CallbackMoves(c, cb.inner);
      var c1 := RunCallback(c, cb.inner);
      if c1.connected { ReadMoves(c1); }
    }
  }

  lemma FinishMoves(c: Client, id: nat)
    ensures Moves(c, Finish(c, id), [], [])
  {
    if id in c.outgoing {
      SentsSnoc(c.wire, Completed(id));
      CallbackMoves(Complete(c, id), c.outgoing[id]);
    }
  }

  lemma SubackMoves(c: Client, id: nat)
    ensures Moves(c, Subscribed(c, id), [], [])
  {
    if id in c.outgoing { CallbackMoves(c.(outgoing := c.outgoing - {id}), c.outgoing[id]); }
  }

  lemma AcceptMoves(c: Client, qos: nat, msg: Message)
    ensures Moves(c, Accept(c, qos, msg), Direct(c, UserPublish(qos, msg)), Deferred(c, UserPublish(qos, msg)))
  {
    SentsSnoc(c.wire, Sent(Publish(c.nextId, qos, msg)));
  }

  lemma ArriveMoves(c: Client, qos: nat, id: nat, msg: Message)
    ensures Moves(c, Arrive(c, qos, id, msg), Direct(c, InPublish(qos, id, msg)), Deferred(c, InPublish(qos, id, msg)))
  {
    var c1 := TakeIn(c, qos, id, msg);
    if qos == 1 {
      SendMoves(c1, Puback(id));
    } else if qos == 2 {
      SendMoves(c1, Pubrec(id));
    }
  }

  lemma ReleaseMoves(c: Client, id: nat)
    ensures Moves(c, Release(c, id), Direct(c, InPubrel(id)), Deferred(c, InPubrel(id)))
  {
    SentsSnoc(c.wire, Sent(Pubcomp(id)));
  }

  /** The client a step starts from, on the connection it happens on. */
  function Before(c: Client, e: Event): Client { if e.ConnackEvent? then NewConnection(c) else c }

  /** Every event but the sending of a queued packet. */
  lemma StepMoves(c: Client, e: Event)
    requires Reachable(c) && Enabled(c, e) && !e.DrainEvent?
    ensures var moves := Moves(Before(c, e), Step(c, e), Direct(c, e), Deferred(c, e)); moves
  {
    match e
    case UserPublish(qos, msg) => AcceptMoves(c, qos, msg);
    case UserSubscribe =>
      SendMoves(c.(nextId := NextId(c.nextId), outgoing := c.outgoing[c.nextId := Volatile]), Subscribe(c.nextId));
    case InPuback(id) => FinishMoves(c, id);
    case InPubcomp(id) => FinishMoves(c, id);
    case InPubrec(id) => SendMoves(c, Pubrel(id));
    case InSuback(id) => SubackMoves(c, id);
    case InPublish(qos, id, msg) => ArriveMoves(c, qos, id, msg);
    case InPubrel(id) => ReleaseMoves(c, id);
    case ClosedEvent => NothingMoves(c, Close(c));
    case ConnackEvent => ReadMoves(NewStream(NewConnection(c)));
    case StreamEndEvent => EndMoves(c);
  }

  lemma EndMoves(c: Client)
    requires c.connected
    ensures Moves(c, StreamEnd(c), [], [])
  {
    ReadMoves(NewStream(c));
  }

  /** The first packet of the queue is sent. */
  lemma DrainMoves(c: Client)
    requires c.connected && |c.queue| > 0
    ensures var c' := Drain(c);
      c.wire <= c'.wire && Sents(c'.wire) == Sents(c.wire) + [c.queue[0]] && [c.queue[0]] + c'.queue == c.queue
  {
    SentsSnoc(c.wire, Sent(c.queue[0]));
  }

  // ------------------------------------------------------- whole runs

  /** What a step writes. */
  function Growth(c: Client, e: Event): seq<WireEvent>
    requires Enabled(c, e)
  {
    var now, n := Step(c, e).wire, |Before(c, e).wire|;
    if n <= |now| then now[n..] else []
  }

  /** All packets written along a run, over all its connections. */
  function History(c: Client, es: seq<Event>): seq<WireEvent>
    requires Runs(c, es)
    decreases |es|
  {
    if |es| == 0 then [] else Growth(c, es[0]) + History(Step(c, es[0]), es[1..])
  }

  /** What the events of a run call for, to be written or queued. */
  function Asked(c: Client, es: seq<Event>): seq<Packet>
    requires Runs(c, es)
    decreases |es|
  {
    if |es| == 0 then []
    else Direct(c, es[0]) + Deferred(c, es[0]) + Asked(Step(c, es[0]), es[1..])
  }

  function DeferredAll(c: Client, es: seq<Event>): seq<Packet>
    requires Runs(c, es)
    decreases |es|
  {
    if |es| == 0 then [] else Deferred(c, es[0]) + DeferredAll(Step(c, es[0]), es[1..])
  }

  /** The packets that left the queue. */
  function Drained(c: Client, es: seq<Event>): seq<Packet>
    requires Runs(c, es)
    decreases |es|
  {
    if |es| == 0 then []
    else (if es[0].DrainEvent? then Sents(Growth(c, es[0])) else []) + Drained(Step(c, es[0]), es[1..])
  }

  lemma GrowthSents(c: Client, e: Event)
    requires Enabled(c, e) && Before(c, e).wire <= Step(c, e).wire
    ensures Sents(Step(c, e).wire) == Sents(Before(c, e).wire) + Sents(Growth(c, e))
  {
    var past, now := Before(c, e).wire, Step(c, e).wire;
    assert now == past + now[|past|..];
    SentsConcat(past, now[|past|..]);
  }

  lemma StepTraffic(c: Client, e: Event)
    requires Reachable(c) && Enabled(c, e)
    ensures if e.DrainEvent? then Sents(Growth(c, e)) + Step(c, e).queue == c.queue && |Sents(Growth(c, e))| == 1
            else Sents(Growth(c, e)) == Direct(c, e) && Step(c, e).queue == c.queue + Deferred(c, e)
  {
    if e.DrainEvent? {
      DrainMoves(c);
      GrowthSents(c, e);
      Cancels(Sents(c.wire), Sents(Growth(c, e)), [c.queue[0]]);
    } else {
      StepMoves(c, e);
      GrowthSents(c, e);
      Cancels(Sents(Before(c, e).wire), Sents(Growth(c, e)), Direct(c, e));
    }
  }

  lemma Cancels(a: seq<Packet>, b: seq<Packet>, b': seq<Packet>)
    requires a + b == a + b'
    ensures b == b'
  {
    assert b == (a + b)[|a|..] == (a + b')[|a|..] == b';
  }

  /** The queue is first in, first out, over closes and reconnects. */
  lemma {:induction false} QueueInOrder(c: Client, es: seq<Event>)
    requires Reachable(c) && Runs(c, es)
    ensures Drained(c, es) + After(c, es).queue == c.queue + DeferredAll(c, es)
    decreases |es|
  {
    if |es| > 0 {
      var e, c1 := es[0], Step(c, es[0]);
      StepTraffic(c, e);
      StepReachable(c, e);
      QueueInOrder(c1, es[1..]);
      var left := if e.DrainEvent? then Sents(Growth(c, e)) else [];
      JoinQueue(left, Drained(c1, es[1..]), After(c, es).queue, c.queue, c1.queue, Deferred(c, e), DeferredAll(c1, es[1..]));
    }
  }

  lemma JoinQueue(left: seq<Packet>, later: seq<Packet>, last: seq<Packet>, q: seq<Packet>, q': seq<Packet>,
                  added: seq<Packet>, more: seq<Packet>)
    requires left + q' == q + added && later + last == q' + more
    ensures left + later + last == q + (added + more)
  {
    assert left + later + last == left + (later + last) == left + q' + more;
    assert q + added + more == q + (added + more);
  }

  /**
    * In every run, over all its connections: the packets written besides the replay and those still
    * queued are those the events called for and those queued before, each as often.
    */
  lemma {:induction false} NothingElseWritten(c: Client, es: seq<Event>)
    requires Reachable(c) && Runs(c, es)
    ensures multiset(Sents(History(c, es))) + multiset(After(c, es).queue) == multiset(c.queue) + multiset(Asked(c, es))
    decreases |es|
  {
    if |es| > 0 {
      var e, c1 := es[0], Step(c, es[0]);
      StepTraffic(c, e);
      StepReachable(c, e);
      NothingElseWritten(c1, es[1..]);
      SentsConcat(Growth(c, e), History(c1, es[1..]));
      StepCounts(c, e);
      JoinCounts(Sents(Growth(c, e)), Sents(History(c1, es[1..])), After(c, es).queue, c.queue, c1.queue,
                 Direct(c, e) + Deferred(c, e), Asked(c1, es[1..]));
    }
  }

  lemma StepCounts(c: Client, e: Event)
    requires Reachable(c) && Enabled(c, e)
    ensures multiset(Sents(Growth(c, e))) + multiset(Step(c, e).queue)
         == multiset(c.queue) + multiset(Direct(c, e) + Deferred(c, e))
  {
    StepTraffic(c, e);
    var w, q := Sents(Growth(c, e)), Step(c, e).queue;
    assert multiset(w + q) == multiset(w) + multiset(q);
    assert multiset(Direct(c, e) + Deferred(c, e)) == multiset(Direct(c, e)) + multiset(Deferred(c, e));
  }

  lemma JoinCounts(w: seq<Packet>, ws: seq<Packet>, last: seq<Packet>, q: seq<Packet>, q': seq<Packet>,
                   asked: seq<Packet>, more: seq<Packet>)
    requires multiset(w) + multiset(q') == multiset(q) + multiset(asked)
    requires multiset(ws) + multiset(last) == multiset(q') + multiset(more)
    ensures multiset(w + ws) + multiset(last) == multiset(q) + multiset(asked + more)
  {
    assert multiset(w + ws) == multiset(w) + multiset(ws);
    assert multiset(asked + more) == multiset(asked) + multiset(more);
    Balance(multiset(w), multiset(ws), multiset(last), multiset(q), multiset(q'), multiset(asked), multiset(more));
  }

  lemma Balance(a: multiset<Packet>, b: multiset<Packet>, last: multiset<Packet>, q: multiset<Packet>, q': multiset<Packet>,
                c: multiset<Packet>, d: multiset<Packet>)
    requires a + q' == q + c && b + last == q' + d
    ensures a + b + last == q + (c + d)
  {
    forall p: Packet ensures (a + b + last)[p] == (q + (c + d))[p] {
      assert (a + q')[p] == (q + c)[p] && (b + last)[p] == (q' + d)[p];
    }
  }
}
