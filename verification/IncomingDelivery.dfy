/**
  * Messages towards the client: what is delivered, and how every PUBREL is answered, over whole runs
  * of the session with any duplicates, closes and reconnects.
  */
module IncomingDelivery {
  import opened Basics
  import opened Session
  import opened Traffic

  /** By the packets received alone: the message a PUBREL with this id would deliver now. */
  function Undelivered(es: seq<Event>, id: nat): Option<Message> {
    if |es| == 0 then None
    else
      var e := es[|es| - 1];
      if e.InPublish? && e.qos == 2 && e.id == id then Some(e.msg)
      else if e.InPubrel? && e.id == id then None
      else Undelivered(es[..|es| - 1], id)
  }

  /** By the packets received alone: all messages delivered, in order. */
  function Expected(es: seq<Event>): seq<Message> {
    if |es| == 0 then []
    else
      var e, before := es[|es| - 1], es[..|es| - 1];
      Expected(before) +
      (if e.InPublish? && e.qos <= 1 then [e.msg]
       else if e.InPubrel? && Undelivered(before, e.id).Some? then [Undelivered(before, e.id).value]
       else [])
  }

  /** The incoming store and the messages delivered are what the packets received call for. */
  ghost predicate IncomingMatches(incoming: map<nat, Message>, delivered: seq<Message>, es: seq<Event>,
                                  start: seq<Message>)
  {
    && (forall id: nat :: id in incoming <==> Undelivered(es, id).Some?)
    && (forall id <- incoming :: Undelivered(es, id) == Some(incoming[id]))
    && delivered == start + Expected(es)
  }

  lemma {:induction false} ReadIncoming(c: Client)
    ensures ReadNext(c).incoming == c.incoming && ReadNext(c).delivered == c.delivered
    decreases |c.stream| - c.index
  {
    if c.index < |c.stream| && c.stream[c.index].id in c.during && c.during[c.stream[c.index].id] {
      ReadIncoming(c.(processing := true, index := c.index + 1));
    }
  }

  lemma {:induction false} CallbackIncoming(c: Client, cb: Callback)
    ensures RunCallback(c, cb).incoming == c.incoming && RunCallback(c, cb).delivered == c.delivered
    decreases cb
  {
    if cb.Resume? {
      CallbackIncoming(c, cb.inner);
      ReadIncoming(RunCallback(c, cb.inner));
    }
  }

  lemma FinishIncoming(c: Client, id: nat)
    ensures Finish(c, id).incoming == c.incoming && Finish(c, id).delivered == c.delivered
  {
    if id in c.outgoing { CallbackIncoming(Complete(c, id), c.outgoing[id]); }
  }

  lemma AcceptIncoming(c: Client, qos: nat, msg: Message)
    ensures Accept(c, qos, msg).incoming == c.incoming && Accept(c, qos, msg).delivered == c.delivered
  {
  }

  lemma SubackIncoming(c: Client, id: nat)
    ensures Subscribed(c, id).incoming == c.incoming && Subscribed(c, id).delivered == c.delivered
  {
    if id in c.outgoing { CallbackIncoming(c.(outgoing := c.outgoing - {id}), c.outgoing[id]); }
  }

  /** Nothing but PUBLISH and PUBREL touches the incoming store or delivers a message. */
  lemma StepIncoming(c: Client, e: Event)
    requires Enabled(c, e) && !e.InPublish? && !e.InPubrel?
    ensures Step(c, e).incoming == c.incoming && Step(c, e).delivered == c.delivered
  {
    match e
    case InPuback(id) => FinishIncoming(c, id);
    case InPubcomp(id) => FinishIncoming(c, id);
    case InSuback(id) => SubackIncoming(c, id);
    case UserPublish(qos, msg) => AcceptIncoming(c, qos, msg);
    case ConnackEvent => ReadIncoming(NewStream(NewConnection(c)));
    case StreamEndEvent => ReadIncoming(NewStream(c));
    case _ =>
  }

  /** What one more packet adds to the history. */
  lemma HistorySnoc(past: seq<Event>, e: Event)
    ensures forall id: nat ::
      (Undelivered(past + [e], id)
       == if e.InPublish? && e.qos == 2 && e.id == id then Some(e.msg)
          else if e.InPubrel? && e.id == id then None else Undelivered(past, id))
    ensures Expected(past + [e])
         == if e.InPublish? && e.qos <= 1 then Expected(past) + [e.msg]
            else if e.InPubrel? && Undelivered(past, e.id).Some? then Expected(past) + [Undelivered(past, e.id).value]
            else Expected(past)
  {
    var es := past + [e];
    assert es[..|past|] == past && es[|past|] == e && Expected(past) + [] == Expected(past);
  }

  lemma ArriveMatches(c: Client, past: seq<Event>, e: Event, start: seq<Message>)
    requires e.InPublish? && IncomingMatches(c.incoming, c.delivered, past, start)
    ensures var r := Arrive(c, e.qos, e.id, e.msg); IncomingMatches(r.incoming, r.delivered, past + [e], start)
  {
    HistorySnoc(past, e);
    ArriveFields(c, e.qos, e.id, e.msg);
    if e.qos < 2 { Associative(start, Expected(past), [e.msg]); }
  }

  lemma ArriveFields(c: Client, qos: nat, id: nat, msg: Message)
    ensures var r := Arrive(c, qos, id, msg);
      && r.incoming == (if qos == 2 then c.incoming[id := msg] else c.incoming)
      && r.delivered == (if qos <= 1 then c.delivered + [msg] else c.delivered)
  {
    SendKeepsIncoming(TakeIn(c, qos, id, msg), Pubrec(id));
    SendKeepsIncoming(TakeIn(c, qos, id, msg), Puback(id));
  }

  lemma SendKeepsIncoming(c: Client, p: Packet)
    ensures Send(c, p).incoming == c.incoming && Send(c, p).delivered == c.delivered
  {
  }

  lemma ReleaseMatches(c: Client, past: seq<Event>, id: nat, start: seq<Message>)
    requires IncomingMatches(c.incoming, c.delivered, past, start)
    ensures var r := Release(c, id); IncomingMatches(r.incoming, r.delivered, past + [InPubrel(id)], start)
  {
    HistorySnoc(past, InPubrel(id));
    if id in c.incoming { Associative(start, Expected(past), [c.incoming[id]]); }
  }

  lemma StepMatches(c: Client, past: seq<Event>, e: Event, start: seq<Message>)
    requires Enabled(c, e) && IncomingMatches(c.incoming, c.delivered, past, start)
    ensures var r := Step(c, e); IncomingMatches(r.incoming, r.delivered, past + [e], start)
  {
    if e.InPublish? {
      ArriveMatches(c, past, e, start);
    } else if e.InPubrel? {
      ReleaseMatches(c, past, e.id, start);
    } else {
      StepIncoming(c, e);
      HistorySnoc(past, e);
    }
  }

  /**
    * In every run, with any duplicates, closes and reconnects: what was delivered is `Expected` of
    * the packets received. A PUBREL delivers exactly when a PUBLISH with its id came since the
    * last PUBREL with that id, and it delivers the latest such message.
    */
  lemma {:induction false} ExactlyOnce(c: Client, past: seq<Event>, es: seq<Event>, start: seq<Message>)
    requires Runs(c, es) && IncomingMatches(c.incoming, c.delivered, past, start)
    ensures var r := After(c, es);
      var matches := IncomingMatches(r.incoming, r.delivered, past + es, start); matches
    decreases |es|
  {
    if |es| == 0 {
      assert past + es == past;
    } else {
      var e, more := es[0], es[1..];
      assert es == [e] + more;
      Associative(past, [e], more);
      StepMatches(c, past, e, start);
      ExactlyOnce(Step(c, e), past + [e], more, start);
    }
  }

  /** A PUBREL repeated without a new PUBLISH in between delivers nothing. */
  lemma {:induction false} NoSecondDelivery(past: seq<Event>, between: seq<Event>, id: nat)
    requires forall e <- between :: !(e.InPublish? && e.qos == 2 && e.id == id)
    ensures Undelivered(past + [InPubrel(id)] + between, id) == None
  {
    var es := past + [InPubrel(id)] + between;
    if |between| == 0 {
      assert es[|es| - 1] == InPubrel(id);
    } else {
      var last := between[|between| - 1];
      assert es[|es| - 1] == last && last in between;
      assert es[..|es| - 1] == past + [InPubrel(id)] + between[..|between| - 1];
      NoSecondDelivery(past, between[..|between| - 1], id);
    }
  }

  // ------------------------------------------------------- answers

  function Releases(es: seq<Event>, id: nat): nat {
    if |es| == 0 then 0 else (if es[0] == InPubrel(id) then 1 else 0) + Releases(es[1..], id)
  }

  predicate IsPublish(e: Event, qos: nat, id: nat) { e.InPublish? && e.qos == qos && e.id == id }

  function Publishes(es: seq<Event>, qos: nat, id: nat): nat {
    if |es| == 0 then 0 else (if IsPublish(es[0], qos, id) then 1 else 0) + Publishes(es[1..], qos, id)
  }

  /** How often `p` is written along a run, and how often it is queued. */
  function Written(c: Client, es: seq<Event>, p: Packet): nat
    requires Runs(c, es)
  {
    multiset(Sents(History(c, es)))[p]
  }

  function Queued(c: Client, p: Packet): nat { multiset(c.queue)[p] }

  /** In a run from `c` to `c'` these are written or queued `n` times. */
  ghost predicate Answered(c: Client, es: seq<Event>, c': Client, p: Packet, n: nat)
    requires Runs(c, es)
  {
    Written(c, es, p) + Queued(c', p) == Queued(c, p) + n
  }

  lemma StepAsks(c: Client, e: Event, id: nat)
    ensures var asked := multiset(Direct(c, e) + Deferred(c, e));
      && asked[Pubcomp(id)] == (if e == InPubrel(id) then 1 else 0)
      && asked[Puback(id)] == (if IsPublish(e, 1, id) then 1 else 0)
      && asked[Pubrec(id)] == (if IsPublish(e, 2, id) then 1 else 0)
  {
    var asked := Direct(c, e) + Deferred(c, e);
    assert asked == if e.UserPublish? && e.qos > 0 && !AtOnce(c, e) then [] else Asks(c, e);
    AsksWhat(c, e, id);
    OneCounts(asked, Pubcomp(id));
    OneCounts(asked, Puback(id));
    OneCounts(asked, Pubrec(id));
  }

  lemma OneCounts(s: seq<Packet>, p: Packet)
    requires |s| <= 1
    ensures multiset(s)[p] == if s == [p] then 1 else 0
  {
    if |s| == 1 { assert s == [s[0]]; }
  }

  lemma AsksWhat(c: Client, e: Event, id: nat)
    ensures |Asks(c, e)| <= 1 && (Asks(c, e) == [Pubcomp(id)] <==> e == InPubrel(id))
    ensures (Asks(c, e) == [Puback(id)] <==> IsPublish(e, 1, id)) && (Asks(c, e) == [Pubrec(id)] <==> IsPublish(e, 2, id))
  {
    if |Asks(c, e)| == 1 { assert Asks(c, e) == [Asks(c, e)[0]]; }
  }

  lemma {:induction false} RunAsks(c: Client, es: seq<Event>, id: nat)
    requires Runs(c, es)
    ensures var asked := multiset(Asked(c, es));
      && asked[Pubcomp(id)] == Releases(es, id)
      && asked[Puback(id)] == Publishes(es, 1, id) && asked[Pubrec(id)] == Publishes(es, 2, id)
    decreases |es|
  {
    if |es| > 0 {
      var now, more := Direct(c, es[0]) + Deferred(c, es[0]), Asked(Step(c, es[0]), es[1..]);
      StepAsks(c, es[0], id);
      RunAsks(Step(c, es[0]), es[1..], id);
      assert multiset(now + more) == multiset(now) + multiset(more);
    }
  }

  lemma Balanced(c: Client, es: seq<Event>, p: Packet)
    requires Reachable(c) && Runs(c, es)
    ensures Answered(c, es, After(c, es), p, multiset(Asked(c, es))[p])
  {
    NothingElseWritten(c, es);
    var written, queued := multiset(Sents(History(c, es))), multiset(After(c, es).queue);
    assert (written + queued)[p] == written[p] + queued[p];
    assert (multiset(c.queue) + multiset(Asked(c, es)))[p] == multiset(c.queue)[p] + multiset(Asked(c, es))[p];
  }

  /**
    * In every run, for every id: the PUBCOMPs written plus those still queued are as many as the
    * PUBRELs received, known or not, plus those queued before.
    */
  lemma EveryReleaseAnswered(c: Client, es: seq<Event>, id: nat)
    requires Reachable(c) && Runs(c, es)
    ensures Answered(c, es, After(c, es), Pubcomp(id), Releases(es, id))
  {
    Balanced(c, es, Pubcomp(id));
    RunAsks(c, es, id);
  }

  /** Likewise PUBACKs answer the QoS 1 PUBLISHes received, PUBRECs those with QoS 2, and nothing any other. */
  lemma EveryPublishAnswered(c: Client, es: seq<Event>, id: nat)
    requires Reachable(c) && Runs(c, es)
    ensures Answered(c, es, After(c, es), Puback(id), Publishes(es, 1, id))
    ensures Answered(c, es, After(c, es), Pubrec(id), Publishes(es, 2, id))
  {
    Balanced(c, es, Puback(id));
    Balanced(c, es, Pubrec(id));
    RunAsks(c, es, id);
  }
}
