/**
  * UART reception by circular DMA: the idle interrupt and the half/full interrupts of the DMA channel
  * both report what arrived since the last report, through one shared index.
  */
module DmaRing {
  import opened Basics

  const WORD := 0x1_0000_0000

  /** Which mark of the buffer the DMA has passed without its interrupt having been serviced. */
  datatype Mark = NoMark | Half | Full

  datatype Report = Report(start: nat, length: nat)

  /**
    * `index` is where the DMA writes next, the buffer size minus its counter; `last` is the shared
    * index. The rest is observation: `wraps` counts how often the DMA came round since the last
    * report, `stream` is every byte ever received, and `delivered` is what the reported ranges of
    * the buffer held when they were reported.
    */
  datatype State = State(ring: seq<Byte>, index: nat, last: nat, mark: Mark, wraps: nat,
                         reports: seq<Report>, stream: seq<Byte>, delivered: seq<Byte>)

  datatype Event = Arrive(byte: Byte) | UartIdle | DmaMark

  /** `rt_size_t` subtraction. */
  function Minus(a: nat, b: nat): nat { (a as int - b) % WORD }

  /** The length `uart_isr` computes in its idle branch. */
  function IdleLength(s: State): nat { Minus(s.index, s.last) }

  /** The length `dma_isr` computes. */
  function MarkLength(s: State): nat {
    if s.index == 0 then Minus(|s.ring|, s.last) else Minus(s.index, s.last)
  }

  /** Both handlers move the shared index and report a length that is not zero. */
  function Reported(s: State, n: nat): State {
    var s1 := s.(last := s.index);
    if n == 0 then s1
    else s1.(wraps := 0, reports := s.reports + [Report(s.last, n)],
             delivered := s.delivered + (if s.last + n <= |s.ring| then s.ring[s.last..s.last + n] else []))
  }

  function Step(s: State, e: Event): State
    requires s.index < |s.ring|
  {
    match e
    case Arrive(b) =>
      var next := if s.index + 1 == |s.ring| then 0 else s.index + 1;
      s.(ring := s.ring[s.index := b], index := next, stream := s.stream + [b],
         wraps := if next == 0 then s.wraps + 1 else s.wraps,
         mark := if next == 0 then Full else if next == |s.ring| / 2 then Half else s.mark)
    case UartIdle => Reported(s, IdleLength(s))
    case DmaMark => Reported(s, MarkLength(s)).(mark := NoMark)
  }

  // ------------------------------------------------------ conservation

  function Total(rs: seq<Report>): nat { if |rs| == 0 then 0 else Total(rs[..|rs| - 1]) + rs[|rs| - 1].length }

  /** Where the next report has to start. */
  function End(rs: seq<Report>, size: nat): nat {
    if |rs| == 0 then 0
    else
      var e := rs[|rs| - 1].start + rs[|rs| - 1].length;
      if e == size then 0 else e
  }

  /** Ranges inside the buffer, each starting where the one before ended. */
  ghost predicate Contiguous(rs: seq<Report>, size: nat) {
    |rs| == 0
    || (var r := rs[|rs| - 1]; var before := rs[..|rs| - 1];
        && 0 < r.length && r.start + r.length <= size && r.start == End(before, size) && Contiguous(before, size))
  }

  function Laps(n: nat, size: nat): nat { if n == 0 then 0 else size + Laps(n - 1, size) }

  lemma LapsGrow(n: nat, size: nat)
    ensures (n > 0 ==> Laps(n, size) >= size) && (n > 1 ==> Laps(n, size) >= 2 * size) && Laps(1, size) == size
  {
  }

  /** The bytes received and not reported. */
  function Unread(s: State): int { Laps(s.wraps, |s.ring|) + s.index - s.last }

  /**
    * Nothing is lost, doubled or out of order: the reports follow one another in the buffer, hold a
    * prefix of the stream, and what is missing is unread. Until the DMA overtakes it, it is in the ring.
    */
  ghost predicate Conserves(s: State) {
    && s.index < |s.ring| < WORD && s.last < |s.ring| && (s.wraps == 0 ==> s.last <= s.index)
    && Contiguous(s.reports, |s.ring|) && End(s.reports, |s.ring|) == s.last && Total(s.reports) == |s.delivered|
    && s.delivered <= s.stream && |s.stream| == |s.delivered| + Unread(s)
    && (s.wraps == 0 ==> s.stream == s.delivered + s.ring[s.last..s.index])
    && (s.wraps == 1 && s.index == 0 ==> s.stream == s.delivered + s.ring[s.last..])
  }

  /** When a handler's arithmetic is right: it allows for no wrap, or for one that ends at index 0. */
  predicate Good(s: State, e: Event) {
    match e
    case Arrive(_) => true
    case UartIdle => s.wraps == 0 || s.index == s.last
    case DmaMark => if s.index == 0 then s.wraps == 1 else s.wraps == 0 || s.index == s.last
  }

  lemma MinusIs(a: nat, b: nat)
    requires a < WORD && b < WORD
    ensures Minus(a, b) == if b <= a then a - b else WORD + a - b
  {
  }

  lemma KeepsArrive(s: State, b: Byte)
    requires Conserves(s)
    ensures Conserves(Step(s, Arrive(b)))
  {
    var r := Step(s, Arrive(b));
    if s.wraps == 0 {
      assert r.ring[s.last..s.index + 1] == s.ring[s.last..s.index] + [b];
      Associative(s.delivered, s.ring[s.last..s.index], [b]);
    }
    assert s.delivered <= s.stream <= s.stream + [b];
    assert Laps(s.wraps + 1, |s.ring|) == |s.ring| + Laps(s.wraps, |s.ring|);
  }

  lemma OneMore(rs: seq<Report>, r: Report, size: nat)
    requires Contiguous(rs, size)
    ensures Contiguous(rs + [r], size) <==> r.start == End(rs, size) && 0 < r.length && r.start + r.length <= size
    ensures Total(rs + [r]) == Total(rs) + r.length
    ensures End(rs + [r], size) == if r.start + r.length == size then 0 else r.start + r.length
  {
    assert (rs + [r])[..|rs|] == rs;
  }

  /** A report conserves exactly when its length is the number of unread bytes, up to the buffer's end. */
  lemma ReportExact(s: State, n: nat)
    requires Conserves(s) && 0 < n
    requires s.index == if s.last + n == |s.ring| then 0 else (s.last + n) % WORD
    ensures Conserves(Reported(s, n)) <==> n == Unread(s) && s.last + n <= |s.ring|
    ensures Conserves(Reported(s, n)) ==> Reported(s, n).delivered == s.stream
  {
    var r := Reported(s, n);
    OneMore(s.reports, Report(s.last, n), |s.ring|);
    assert r.ring[r.last..r.index] == [];
    if n == Unread(s) && s.last + n <= |s.ring| { ReadsAll(s, n); }
  }

  lemma ReadsAll(s: State, n: nat)
    requires Conserves(s) && 0 < n == Unread(s) && s.last + n <= |s.ring|
    requires s.index == if s.last + n == |s.ring| then 0 else s.last + n
    ensures s.stream == s.delivered + s.ring[s.last..s.last + n]
  {
    LapsGrow(s.wraps, |s.ring|);
  }

  lemma IdleExact(s: State)
    requires Conserves(s)
    ensures Conserves(Step(s, UartIdle)) <==> Good(s, UartIdle)
    ensures Good(s, UartIdle) && s.wraps == 0 ==> Step(s, UartIdle).delivered == s.stream
  {
    MinusIs(s.index, s.last);
    LapsGrow(s.wraps, |s.ring|);
    if s.index != s.last {
      ReportExact(s, IdleLength(s));
    } else {
      assert s.ring[s.last..s.index] == [];
    }
  }

  lemma MarkExact(s: State)
    requires Conserves(s)
    ensures Conserves(Step(s, DmaMark)) <==> Good(s, DmaMark)
    ensures Good(s, DmaMark) && (s.wraps == 0 || s.index == 0) ==> Step(s, DmaMark).delivered == s.stream
  {
    MinusIs(s.index, s.last);
    MinusIs(|s.ring|, s.last);
    LapsGrow(s.wraps, |s.ring|);
    if s.index == 0 || s.index != s.last {
      ReportExact(s, MarkLength(s));
    } else {
      assert s.ring[s.last..s.index] == [];
    }
  }

  /** From a state that conserves, every event keeps it so if and only if it is good there. */
  lemma StepExact(s: State, e: Event)
    requires Conserves(s)
    ensures Conserves(Step(s, e)) <==> Good(s, e)
  {
    match e
    case Arrive(b) => KeepsArrive(s, b);
    case UartIdle => IdleExact(s);
    case DmaMark => MarkExact(s);
  }

  // ------------------------------------------------------ service in time

  /** As the interrupt priorities intend: a mark is serviced before the next byte and before an idle interrupt. */
  predicate InTime(s: State, e: Event) { if e.DmaMark? then !s.mark.NoMark? else s.mark.NoMark? }

  /** What service in time keeps: only a waiting full mark means a wrap, and it has just happened. */
  predicate Punctual(s: State) {
    && (if s.mark.Full? then s.index == 0 && s.wraps == 1 else s.wraps == 0)
    && (s.mark.Half? ==> s.index > 0)
  }

  lemma StepKeeps(s: State, e: Event)
    requires Conserves(s) && Punctual(s) && InTime(s, e)
    ensures Conserves(Step(s, e)) && Punctual(Step(s, e))
    ensures !e.Arrive? ==> Step(s, e).delivered == s.stream && Total(Step(s, e).reports) == |s.stream|
  {
    StepExact(s, e);
    MinusIs(s.index, s.last);
    MinusIs(|s.ring|, s.last);
    if e.UartIdle? { IdleExact(s); }
    if e.DmaMark? { MarkExact(s); }
  }

  // ------------------------------------------------------ runs

  ghost predicate Runs(s: State, es: seq<Event>)
    decreases |es|
  {
    |es| == 0 || (s.index < |s.ring| && Runs(Step(s, es[0]), es[1..]))
  }

  ghost function After(s: State, es: seq<Event>): State
    requires Runs(s, es)
    decreases |es|
  {
    if |es| == 0 then s else After(Step(s, es[0]), es[1..])
  }

  ghost predicate AllGood(s: State, es: seq<Event>)
    requires Runs(s, es)
    decreases |es|
  {
    |es| == 0 || (Good(s, es[0]) && AllGood(Step(s, es[0]), es[1..]))
  }

  ghost predicate AllInTime(s: State, es: seq<Event>)
    requires Runs(s, es)
    decreases |es|
  {
    |es| == 0 || (InTime(s, es[0]) && AllInTime(Step(s, es[0]), es[1..]))
  }

  /** Conservation at every moment of a run means that every event was good, however late. */
  ghost predicate AlwaysConserves(s: State, es: seq<Event>)
    requires Runs(s, es)
    decreases |es|
  {
    Conserves(s) && (|es| > 0 ==> AlwaysConserves(Step(s, es[0]), es[1..]))
  }

  lemma {:induction false} RunExact(s: State, es: seq<Event>)
    requires Conserves(s) && Runs(s, es)
    ensures AlwaysConserves(s, es) <==> AllGood(s, es)
    decreases |es|
  {
    if |es| > 0 {
      StepExact(s, es[0]);
      if Good(s, es[0]) { RunExact(Step(s, es[0]), es[1..]); }
    }
  }

  lemma {:induction false} RunKeeps(s: State, es: seq<Event>)
    requires Conserves(s) && Punctual(s) && Runs(s, es) && AllInTime(s, es)
    ensures Conserves(After(s, es)) && Punctual(After(s, es)) && AlwaysConserves(s, es)
    decreases |es|
  {
    if |es| > 0 {
      StepKeeps(s, es[0]);
      RunKeeps(Step(s, es[0]), es[1..]);
    }
  }

  /** The receiver as it starts, with a buffer of unknown contents. */
  function Start(ring: seq<Byte>): State { State(ring, 0, 0, NoMark, 0, [], [], []) }

  lemma StartConserves(ring: seq<Byte>)
    requires 0 < |ring| < WORD
    ensures Conserves(Start(ring)) && Punctual(Start(ring))
  {
    assert ring[0..0] == [];
  }

  /**
    * In every run where marks are serviced in time, the reports are ranges of the buffer that follow
    * one another without gap or overlap, hold the received bytes in order, and after each report add
    * up to all bytes received; no subtraction underflows.
    */
  lemma Conserved(ring: seq<Byte>, es: seq<Event>, e: Event)
    requires 0 < |ring| < WORD && Runs(Start(ring), es) && AllInTime(Start(ring), es)
    ensures var s := After(Start(ring), es);
      && Contiguous(s.reports, |s.ring|) && Total(s.reports) == |s.delivered| && s.delivered <= s.stream
      && s.index < |s.ring|
      && (InTime(s, e) && !e.Arrive? ==> Step(s, e).delivered == s.stream && Total(Step(s, e).reports) == |s.stream|)
  {
    StartConserves(ring);
    RunKeeps(Start(ring), es);
    var s := After(Start(ring), es);
    if InTime(s, e) { StepKeeps(s, e); }
  }

  // ------------------------------------------------------ when service is late

  /**
    * An idle interrupt served before a waiting mark does no harm exactly if no full mark waits, or
    * nothing was reported of its lap.
    */
  lemma LateIdle(s: State)
    requires Conserves(s) && Punctual(s)
    ensures Conserves(Step(s, UartIdle)) <==> !s.mark.Full? || s.last == 0
    ensures s.mark.Full? && s.last == 0 ==> Step(s, UartIdle) == s
  {
    IdleExact(s);
    MinusIs(s.index, s.last);
  }

  /** Then the idle handler reports 2^32 minus the index, and the mark handler the whole buffer again. */
  lemma LateIdleReports(s: State)
    requires Conserves(s) && Punctual(s) && s.mark.Full? && s.last > 0
    ensures Step(Step(s, UartIdle), DmaMark).reports
         == s.reports + [Report(s.last, WORD - s.last)] + [Report(0, |s.ring|)]
  {
    MinusIs(0, s.last);
    MinusIs(|s.ring|, 0);
  }

  /** Once a byte overtakes a full mark, no handler is right any more, unless the index happens to meet the old one. */
  lemma ByteBeforeMark(s: State, b: Byte)
    requires Conserves(s) && Punctual(s) && s.mark.Full? && |s.ring| > 1
    ensures var t := Step(s, Arrive(b));
      && Conserves(t) && Unread(t) == |s.ring| - s.last + 1
      && (Conserves(Step(t, UartIdle)) <==> s.last == 1) && (Conserves(Step(t, DmaMark)) <==> s.last == 1)
  {
    var t := Step(s, Arrive(b));
    KeepsArrive(s, b);
    LapsGrow(1, |s.ring|);
    IdleExact(t);
    MarkExact(t);
  }

  function Arrivals(bs: seq<Byte>): seq<Event> { if |bs| == 0 then [] else [Arrive(bs[0])] + Arrivals(bs[1..]) }

  /** Bytes that do not reach the end of the buffer, and pass the half mark only with their last. */
  lemma {:induction false} Receives(s: State, bs: seq<Byte>)
    requires s.index < |s.ring| && s.index + |bs| <= |s.ring|
    ensures Runs(s, Arrivals(bs))
    ensures var r := After(s, Arrivals(bs));
      && |r.ring| == |s.ring| && r.last == s.last && r.reports == s.reports
      && (s.index + |bs| < |s.ring| ==> r.index == s.index + |bs|)
      && (s.index + |bs| == |s.ring| && |bs| > 0 ==> r.index == 0 && r.mark == Full)
      && (s.index < |s.ring| / 2 == s.index + |bs| < |s.ring| ==> r.mark == Half)
    decreases |bs|
  {
    if |bs| > 0 {
      var es := Arrivals(bs);
      assert es[1..] == Arrivals(bs[1..]);
      if |bs| == 1 {
        assert Arrivals(bs[1..]) == [];
      } else {
        Receives(Step(s, es[0]), bs[1..]);
      }
    }
  }

  lemma {:induction false} Then(s: State, es: seq<Event>, fs: seq<Event>)
    requires Runs(s, es) && Runs(After(s, es), fs)
    ensures Runs(s, es + fs) && After(s, es + fs) == After(After(s, es), fs)
    decreases |es|
  {
    if |es| == 0 {
      assert es + fs == fs;
    } else {
      assert (es + fs)[1..] == es[1..] + fs;
      Then(Step(s, es[0]), es[1..], fs);
    }
  }

  lemma ThenOne(s: State, es: seq<Event>, e: Event)
    requires Runs(s, es) && After(s, es).index < |After(s, es).ring|
    ensures Runs(s, es + [e]) && After(s, es + [e]) == Step(After(s, es), e)
  {
    assert [e][1..] == [];
    Then(s, es, [e]);
  }

  /** Half a buffer, serviced, and the other half, with the idle interrupt served before the full mark. */
  function LateRun(first: seq<Byte>, second: seq<Byte>): seq<Event> {
    Arrivals(first) + [DmaMark] + Arrivals(second) + [UartIdle] + [DmaMark]
  }

  /**
    * In a buffer of any size above one (the driver's has 64) that run reports 2^32 minus half the
    * buffer and then the whole buffer a second time.
    */
  lemma LateServiceReportsTwice(ring: seq<Byte>, first: seq<Byte>, second: seq<Byte>)
    requires 1 < |ring| < WORD && |first| == |ring| / 2 && |second| == |ring| - |first|
    ensures Runs(Start(ring), LateRun(first, second))
    ensures After(Start(ring), LateRun(first, second)).reports
         == [Report(0, |first|), Report(|first|, WORD - |first|), Report(0, |ring|)]
  {
    var s, h := Start(ring), |first|;
    var es := Arrivals(first);
    Receives(s, first);
    ThenOne(s, es, DmaMark);
    var s1 := After(s, es + [DmaMark]);
    MinusIs(h, 0);
    assert s1.reports == [Report(0, h)] && s1.last == h == s1.index;
    Receives(s1, second);
    Then(s, es + [DmaMark], Arrivals(second));
    var es2 := es + [DmaMark] + Arrivals(second);
    MinusIs(0, h);
    ThenOne(s, es2, UartIdle);
    MinusIs(|ring|, 0);
    ThenOne(s, es2 + [UartIdle], DmaMark);
  }

  // ------------------------------------------------------ the handlers

  /** The receiving side of a UART; `counter` is the DMA channel's counter register. */
  class Uart {
    const size: nat
    var lastIndex: nat

    constructor (size: nat)
      ensures this.size == size && lastIndex == 0
    {
      this.size := size;
      lastIndex := 0;
    }

    /** This object is at the state `s`. */
    ghost predicate At(s: State, counter: nat)
      reads this
    {
      size == |s.ring| < WORD && s.index < size && counter == size - s.index && lastIndex == s.last < WORD
    }

    /** The idle branch of `uart_isr`: the length reported, zero for none. */
    method UartIsr(counter: nat, ghost s: State) returns (length: nat)
      requires At(s, counter)
      modifies this
      ensures length == IdleLength(s) && At(Step(s, UartIdle), counter)
      ensures Conserves(s) ==> (Conserves(Step(s, UartIdle)) <==> s.wraps == 0 || s.index == s.last)
    {
      var total := size - counter;
      length := (total - lastIndex) % WORD;
      lastIndex := total;
      if Conserves(s) { IdleExact(s); }
    }

    method DmaIsr(counter: nat, ghost s: State) returns (length: nat)
      requires At(s, counter)
      modifies this
      ensures length == MarkLength(s) && At(Step(s, DmaMark), counter)
      ensures Conserves(s) ==> (Conserves(Step(s, DmaMark)) <==> Good(s, DmaMark))
    {
      var total := size - counter;
      if total == 0 {
        length := (size - lastIndex) % WORD;
      } else {
        length := (total - lastIndex) % WORD;
      }
      lastIndex := total;
      if Conserves(s) { MarkExact(s); }
    }
  }
}
