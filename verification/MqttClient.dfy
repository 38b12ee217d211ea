/**
  * The client object itself: fields updated in place by the handlers of mqtt.js. Each handler keeps
  * the object valid and is a step of the session, so that a run of handlers is a run of the session,
  * with everything proved of those.
  */
module MqttClient {
  import opened Session
  import opened IncomingDelivery
  import opened OutgoingSafety
  import opened PacketReplay
  import opened Traffic

  /** What every reachable client satisfies. */
  ghost predicate Sound(c: Session.Client) { Reachable(c) && Streaming(c) }

  lemma StepSound(c: Session.Client, e: Event)
    requires Sound(c) && Enabled(c, e)
    ensures var sound := Sound(Step(c, e)); sound
  {
    StepReachable(c, e);
    StepStreaming(c, e);
  }

  class Client {
    var connected: bool
    var nextId: nat
    var outgoing: map<nat, Callback>
    var queue: seq<Packet>
    var outgoingStore: seq<Packet>
    var incomingStore: map<nat, Message>
    var storeProcessing: bool
    var packetIdsDuringStoreProcessing: map<nat, bool>
    var outStore: seq<Packet>   // the stream being replayed, and its state
    var position: nat
    var ended: bool
    var firstEpoch: nat
    var epoch: nat
    ghost var ready: bool       // observations only: events emitted and packets written
    ghost var wire: seq<WireEvent>
    ghost var delivered: seq<Message>

    ghost function Abs(): Session.Client
      reads this
    {
      Session.Client(connected, ready, nextId, outgoing, queue, outgoingStore, incomingStore, storeProcessing,
                     packetIdsDuringStoreProcessing, firstEpoch, epoch, outStore, position, ended, wire, delivered)
    }

    ghost predicate Valid()
      reads this
    {
      Sound(Abs())
    }

    constructor (random: nat)
      requires random <= 65534
      ensures Valid() && Initial(Abs())
    {
      connected, ready, storeProcessing, ended := false, false, false, false;
      nextId := if random < 1 then 1 else random;
      outgoing, queue, outgoingStore, incomingStore, outStore := map[], [], [], map[], [];
      packetIdsDuringStoreProcessing, position, firstEpoch, epoch := map[], 0, 0, 0;
      wire, delivered := [], [];
    }

    method DrawId() returns (id: nat)
      modifies this`nextId
      ensures id == old(nextId) && nextId == NextId(old(nextId))
    {
      id := nextId;
      nextId := nextId + 1;
      if nextId == 65536 { nextId := 1; }
    }

    method StorePacket(p: Packet)
      modifies this`queue, this`outgoingStore
      ensures Abs() == Session.StorePacket(old(Abs()), p)
    {
      if p.Publish? && p.qos > 0 {
        outgoingStore := Put(outgoingStore, p);
      } else {
        queue := queue + [p];
      }
    }

    method SendPacket(p: Packet, ghost event: WireEvent)
      modifies this`queue, this`outgoingStore, this`wire
      ensures Abs() == Session.SendPacket(old(Abs()), p, event)
    {
      if !connected {
        StorePacket(p);
        return;
      }
      if p.Kept() { outgoingStore := Put(outgoingStore, p); }
      wire := wire + [event];
    }

    /** A message under a new id, stored or sent. */
    method SendMessage(qos: nat, msg: Message)
      modifies this
      ensures Abs() == Accept(old(Abs()), qos, msg)
    {
      var id := DrawId();
      if qos > 0 { NoteOutgoing(id); }
      StoreOrSend(Packet.Publish(id, qos, msg));
    }

    method Publish(qos: nat, msg: Message)
      requires Valid()
      modifies this
      ensures Abs() == Accept(old(Abs()), qos, msg)
      ensures var valid := Valid(); valid
    {
      StepSound(Abs(), UserPublish(qos, msg));
      SendMessage(qos, msg);
    }

    /** The entry in `outgoing`, and the mark that the replay has to come back to it. */
    method NoteOutgoing(id: nat)
      modifies this`outgoing, this`packetIdsDuringStoreProcessing
      ensures Abs() == old(Abs()).(outgoing := old(outgoing)[id := Plain],
                                   during := if storeProcessing then old(packetIdsDuringStoreProcessing)[id := false]
                                             else old(packetIdsDuringStoreProcessing))
    {
      outgoing := outgoing[id := Plain];
      if storeProcessing {
        packetIdsDuringStoreProcessing := packetIdsDuringStoreProcessing[id := false];
      }
    }

    method StoreOrSend(p: Packet)
      modifies this`queue, this`outgoingStore, this`wire
      ensures Abs() == if storeProcessing then Session.StorePacket(old(Abs()), p) else Send(old(Abs()), p)
    {
      if storeProcessing {
        StorePacket(p);
      } else {
        SendPacket(p, Sent(p));
      }
    }

    method Subscribe()
      requires Valid()
      modifies this
      ensures Abs() == AskSubscribe(old(Abs()))
      ensures var valid := Valid(); valid
    {
      StepSound(Abs(), UserSubscribe);
      var id := DrawId();
      outgoing := outgoing[id := Volatile];
      SendPacket(Packet.Subscribe(id), Sent(Packet.Subscribe(id)));
    }

    /** `storeDeliver` of the stream `e`. */
    method StoreDeliver(e: nat)
      modifies this
      ensures Abs() == Session.StoreDeliver(old(Abs()), e)
    {
      if !connected || e < firstEpoch { return; }
      if e < epoch {
        storeProcessing := true;
        return;
      }
      ReadStream();
    }

    method ReadStream()
      modifies this
      ensures Abs() == ReadNext(old(Abs()))
      decreases |outStore| - position
    {
      storeProcessing := true;
      if position >= |outStore| {
        ended := true;
        return;
      }
      var p := outStore[position];
      position := position + 1;
      if p.id in packetIdsDuringStoreProcessing && packetIdsDuringStoreProcessing[p.id] {
        ReadStream();
      } else {
        ResendPacket(p);
      }
    }

    method ResendPacket(p: Packet)
      modifies this
      ensures Abs() == Resend(old(Abs()), p) && outStore == old(outStore) && position == old(position)
    {
      var cb := if p.id in outgoing then outgoing[p.id] else Plain;
      outgoing := outgoing[p.id := Resume(epoch, cb)];
      packetIdsDuringStoreProcessing := packetIdsDuringStoreProcessing[p.id := true];
      SendPacket(p, Resent(p));
    }

    method Call(cb: Callback)
      modifies this
      ensures Abs() == RunCallback(old(Abs()), cb)
      decreases cb
    {
      if cb.Resume? {
        Call(cb.inner);
        StoreDeliver(cb.epoch);
      }
    }

    /** The exchange under `id` is over: forget it, and run what waited for it. */
    method Acknowledge(id: nat)
      modifies this
      ensures Abs() == Finish(old(Abs()), id)
    {
      if id !in outgoing { return; }
      var cb := outgoing[id];
      wire := if Resumes(Abs(), cb) then wire + [Completed(id)] else wire;
      outgoing, outgoingStore := outgoing - {id}, Del(outgoingStore, id);
      Call(cb);
    }

    /** PUBACK and PUBCOMP in `_handleAck`. */
    method HandleAck(id: nat)
      requires Valid()
      modifies this
      ensures Abs() == Finish(old(Abs()), id)
      ensures var valid := Valid(); valid
    {
      StepSound(Abs(), InPuback(id));
      Acknowledge(id);
    }

    method HandlePubrec(id: nat)
      requires Valid()
      modifies this
      ensures Abs() == Received(old(Abs()), id)
      ensures var valid := Valid(); valid
    {
      StepSound(Abs(), InPubrec(id));
      if id in outgoing { SendPacket(Pubrel(id), Sent(Pubrel(id))); }
    }

    method HandleSuback(id: nat)
      requires Valid()
      modifies this
      ensures Abs() == Subscribed(old(Abs()), id)
      ensures var valid := Valid(); valid
    {
      StepSound(Abs(), InSuback(id));
      if id !in outgoing { return; }
      var cb := outgoing[id];
      outgoing := outgoing - {id};
      Call(cb);
    }

    method HandlePublish(qos: nat, id: nat, msg: Message)
      requires Valid()
      modifies this
      ensures Abs() == Arrive(old(Abs()), qos, id, msg)
      ensures var valid := Valid(); valid
    {
      StepSound(Abs(), InPublish(qos, id, msg));
      if qos == 2 {
        incomingStore := incomingStore[id := msg];
      } else if qos <= 1 {
        delivered := delivered + [msg];
      }
      if qos == 2 || qos == 1 {
        var answer := if qos == 2 then Pubrec(id) else Puback(id);
        SendPacket(answer, Sent(answer));
      }
    }

    method HandlePubrel(id: nat)
      requires Valid()
      modifies this
      ensures Abs() == Release(old(Abs()), id)
      ensures var valid := Valid(); valid
    {
      StepSound(Abs(), InPubrel(id));
      if id in incomingStore {
        delivered := delivered + [incomingStore[id]];
        incomingStore := incomingStore - {id};
      }
      SendPacket(Pubcomp(id), Sent(Pubcomp(id)));
    }

    method FlushVolatile()
      modifies this`outgoing
      ensures outgoing == Flushed(old(outgoing))
    {
      outgoing := map id | id in outgoing && !outgoing[id].Volatile? :: outgoing[id];
    }

    method ClearStoreProcessing()
      modifies this`storeProcessing, this`packetIdsDuringStoreProcessing, this`ended
      ensures !storeProcessing && packetIdsDuringStoreProcessing == map[] && !ended
    {
      storeProcessing, packetIdsDuringStoreProcessing, ended := false, map[], false;
    }

    /** `flushVolatile`, and the two other handlers of 'close'. */
    method FlushAndClose()
      modifies this
      ensures Abs() == Close(old(Abs()))
    {
      FlushVolatile();
      ClearStoreProcessing();
      connected, ready := false, false;
    }

    method OnClose()
      requires Valid()
      modifies this
      ensures Abs() == Close(old(Abs()))
      ensures var valid := Valid(); valid
    {
      StepSound(Abs(), ClosedEvent);
      FlushAndClose();
    }

    /** `outgoingStore.createStream()`: a snapshot of the store. */
    method OpenStream()
      modifies this`epoch, this`outStore, this`position, this`ended
      ensures Abs() == NewStream(old(Abs()))
    {
      epoch, outStore, position, ended := epoch + 1, outgoingStore, 0, false;
    }

    method StartStreamProcess()
      modifies this
      ensures Abs() == StartStream(old(Abs()))
    {
      OpenStream();
      ReadStream();
    }

    method BeginConnection()
      modifies this`wire, this`connected, this`firstEpoch
      ensures Abs() == NewConnection(old(Abs()))
    {
      wire := [];
      connected, firstEpoch := true, epoch + 1;
    }

    method OnConnect()
      requires Valid() && !connected
      modifies this
      ensures Abs() == Connack(old(Abs()))
      ensures var valid := Valid(); valid
    {
      StepSound(Abs(), ConnackEvent);
      BeginConnection();
      StartStreamProcess();
    }

    /** The replay is over, or starts again for what was stored meanwhile. */
    method EndStream()
      requires connected && ended
      modifies this
      ensures Abs() == StreamEnd(old(Abs()))
    {
      var allProcessed := true;
      var left := packetIdsDuringStoreProcessing.Keys;
      while left != {}
        invariant left <= packetIdsDuringStoreProcessing.Keys && Abs() == old(Abs())
        invariant allProcessed <==>
          forall id <- packetIdsDuringStoreProcessing :: id !in left ==> packetIdsDuringStoreProcessing[id]
      {
        var id :| id in left;
        if !packetIdsDuringStoreProcessing[id] { allProcessed := false; }
        left := left - {id};
      }
      if allProcessed {
        ClearStoreProcessing();
        ready := true;
      } else {
        StartStreamProcess();
      }
    }

    method OnStreamEnd()
      requires Valid() && connected && ended
      modifies this
      ensures Abs() == StreamEnd(old(Abs()))
      ensures var valid := Valid(); valid
    {
      StepSound(Abs(), StreamEndEvent);
      EndStream();
    }

    /** One entry of the queue, in the `deliver` loop that 'connect' starts. */
    method DeliverQueued()
      requires Valid() && ready && |queue| > 0
      modifies this
      ensures Abs() == Drain(old(Abs()))
      ensures var valid := Valid(); valid
    {
      StepSound(Abs(), DrainEvent);
      var p := queue[0];
      queue := queue[1..];
      SendPacket(p, Sent(p));
    }

    /** One event, handled by its handler: a step of the session. */
    method Handle(e: Event)
      requires Valid() && Enabled(Abs(), e)
      modifies this
      ensures Abs() == Step(old(Abs()), e)
      ensures var valid := Valid(); valid
    {
      match e
      case UserPublish(qos, msg) => Publish(qos, msg);
      case UserSubscribe => Subscribe();
      case InPuback(id) => HandleAck(id);
      case InPubcomp(id) => HandleAck(id);
      case InPubrec(id) => HandlePubrec(id);
      case InSuback(id) => HandleSuback(id);
      case InPublish(qos, id, msg) => HandlePublish(qos, id, msg);
      case InPubrel(id) => HandlePubrel(id);
      case ClosedEvent => OnClose();
      case ConnackEvent => OnConnect();
      case StreamEndEvent => OnStreamEnd();
      case DrainEvent => DeliverQueued();
    }

    /**
      * The events of a run, one after the other. What was proved of runs holds of the fields: which
      * messages were delivered, how packets were answered, what was written and queued, that a message
      * published first is still stored, and what was replayed when 'connect' is emitted.
      */
    method HandleAll(es: seq<Event>)
      requires Valid() && Runs(Abs(), es)
      modifies this
      ensures Abs() == After(old(Abs()), es)
      ensures var valid := Valid(); valid
      ensures RunResults(old(Abs()), es, Abs())
    {
      ghost var c := Abs();
      assert es[0..] == es;
      for i := 0 to |es|
        invariant Valid() && Runs(Abs(), es[i..]) && After(Abs(), es[i..]) == After(c, es)
      {
        assert es[i..][1..] == es[i + 1..];
        Handle(es[i]);
      }
      RunFacts(c, es, Abs());
    }
  }

  /** The run starts with a publish that nothing can overwrite and that is not completed in it. */
  ghost predicate PublishedFirst(c: Session.Client, es: seq<Event>) {
    && |es| > 0 && es[0].UserPublish? && es[0].qos > 0 && DrawCount(es[1..]) < MAX_ID
    && !Overwritable(c, Packet.Publish(c.nextId, es[0].qos, es[0].msg))
    && forall e <- es[1..] :: !Completes(e, c.nextId)
  }

  /** The run starts with a new connection and stays on it, with a broker as `Allowed` says. */
  ghost predicate ConnectedFirst(c: Session.Client, es: seq<Event>) {
    |es| > 0 && es[0].ConnackEvent? && !c.connected && ReplayRun(Connack(c), es[1..])
  }

  /** What the theorems about runs say of a run from `c` to `c'`. */
  ghost predicate RunResults(c: Session.Client, es: seq<Event>, c': Session.Client)
    requires Runs(c, es)
  {
    DeliveredIn(c, es, c') && (forall id: nat :: AnsweredIn(c, es, c', id)) && WrittenIn(c, es, c') && StoredIn(c, es, c')
    && (ConnectedFirst(c, es) && c'.ready ==> ReplayedIn(c, es[1..], c'))
  }

  /** What was delivered is what the packets received call for. */
  ghost predicate DeliveredIn(c: Session.Client, es: seq<Event>, c': Session.Client) {
    c.incoming == map[] ==> c'.delivered == c.delivered + Expected(es)
  }

  /** A message published first is still stored. */
  ghost predicate StoredIn(c: Session.Client, es: seq<Event>, c': Session.Client) {
    PublishedFirst(c, es) ==>
      Has(c'.store, c.nextId, Packet.Publish(c.nextId, es[0].qos, es[0].msg), InPubrec(c.nextId) in es[1..])
  }

  /** What was asked for was written or queued, and nothing else; the queue kept its order. */
  ghost predicate WrittenIn(c: Session.Client, es: seq<Event>, c': Session.Client)
    requires Runs(c, es)
  {
    && multiset(Sents(History(c, es))) + multiset(c'.queue) == multiset(c.queue) + multiset(Asked(c, es))
    && Drained(c, es) + c'.queue == c.queue + DeferredAll(c, es)
  }

  /** Every PUBREL and every PUBLISH got its answer, written or queued. */
  ghost predicate AnsweredIn(c: Session.Client, es: seq<Event>, c': Session.Client, id: nat)
    requires Runs(c, es)
  {
    && Answered(c, es, c', Pubcomp(id), Releases(es, id))
    && Answered(c, es, c', Puback(id), Publishes(es, 1, id)) && Answered(c, es, c', Pubrec(id), Publishes(es, 2, id))
  }

  /** The packets stored at CONNACK and since were replayed, in order. */
  ghost predicate ReplayedIn(c: Session.Client, es: seq<Event>, c': Session.Client) {
    Runs(Connack(c), es) && Replayed(c', c.store + AcceptedPackets(Connack(c), es))
  }

  lemma WrittenAll(c: Session.Client, es: seq<Event>, c': Session.Client)
    requires Sound(c) && Runs(c, es) && c' == After(c, es)
    ensures WrittenIn(c, es, c')
  {
    NothingElseWritten(c, es);
    QueueInOrder(c, es);
  }

  lemma RunFacts(c: Session.Client, es: seq<Event>, c': Session.Client)
    requires Sound(c) && Runs(c, es) && c' == After(c, es)
    ensures RunResults(c, es, c')
  {
    DeliveredAll(c, es, c');
    AnsweredAll(c, es, c');
    WrittenAll(c, es, c');
    StoredAll(c, es, c');
    if ConnectedFirst(c, es) && c'.ready { ReplayedAll(c, es, c'); }
  }

  lemma ReplayedAll(c: Session.Client, es: seq<Event>, c': Session.Client)
    requires Sound(c) && Runs(c, es) && c' == After(c, es) && ConnectedFirst(c, es) && c'.ready
    ensures ReplayedIn(c, es[1..], c')
  {
    assert Step(c, es[0]) == Connack(c);
    ReplayedFrom(c, Connack(c), es[1..], c');
  }

  lemma ReplayedFrom(c: Session.Client, c1: Session.Client, es: seq<Event>, c': Session.Client)
    requires Sound(c) && !c.connected && c1 == Connack(c) && ReplayRun(c1, es) && Runs(c1, es)
    requires c' == After(c1, es) && c'.ready
    ensures ReplayedIn(c, es, c')
  {
    ReplayOnReconnect(c, es);
  }

  lemma AnsweredAll(c: Session.Client, es: seq<Event>, c': Session.Client)
    requires Sound(c) && Runs(c, es) && c' == After(c, es)
    ensures forall id: nat :: AnsweredIn(c, es, c', id)
  {
    forall id: nat ensures AnsweredIn(c, es, c', id) {
      EveryReleaseAnswered(c, es, id);
      EveryPublishAnswered(c, es, id);
    }
  }

  lemma StoredAll(c: Session.Client, es: seq<Event>, c': Session.Client)
    requires Sound(c) && Runs(c, es) && c' == After(c, es)
    ensures StoredIn(c, es, c')
  {
    if PublishedFirst(c, es) { NoLoss(c, es[0].qos, es[0].msg, es[1..]); }
  }

  lemma DeliveredAll(c: Session.Client, es: seq<Event>, c': Session.Client)
    requires Runs(c, es) && c' == After(c, es)
    ensures DeliveredIn(c, es, c')
  {
    if c.incoming == map[] {
      assert c.delivered + [] == c.delivered && [] + es == es;
      ExactlyOnce(c, [], es, c.delivered);
    }
  }
}
