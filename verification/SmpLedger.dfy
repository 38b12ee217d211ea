/**
  * The nesting counters as a ledger: over any run each of them is the calls made less the calls
  * undone, counted from the outside.
  */
module SmpLedger {
  import opened Basics
  import opened SmpLock

  predicate By(s: State, e: Event, t: nat) { e.cpu < |s.cpus| && s.cpus[e.cpu].current == Some(t) }

  /** `rt_cpus_lock` and `rt_cpus_unlock`; a switch out of an interrupt undoes one call too. */
  function LockCall(s: State, e: Event, t: nat): int {
    if !By(s, e, t) then 0 else if e.Lock? then 1 else if e.Unlock? || e.IrqSwitch? then -1 else 0
  }

  /** `rt_preempt_disable` and `rt_preempt_enable`. */
  function PreemptCall(s: State, e: Event, t: nat): int {
    if !By(s, e, t) then 0 else if e.PreemptDisable? then 1 else if e.PreemptEnable? then -1 else 0
  }

  ghost function LockCalls(s: State, es: seq<Event>, t: nat): int
    requires Runs(s, es)
    decreases |es|
  {
    if |es| == 0 then 0 else LockCall(s, es[0], t) + LockCalls(Step(s, es[0]), es[1..], t)
  }

  ghost function PreemptCalls(s: State, es: seq<Event>, t: nat): int
    requires Runs(s, es)
    decreases |es|
  {
    if |es| == 0 then 0 else PreemptCall(s, es[0], t) + PreemptCalls(Step(s, es[0]), es[1..], t)
  }

  function Share(t: Thread): int { if t.cpusNest > 0 then 1 else 0 }

  lemma StepCounts(s: State, e: Event, t: nat)
    requires Inv(s) && Enabled(s, e) && t < |s.threads|
    ensures var a, b := s.threads[t], Step(s, e).threads;
      && |b| == |s.threads| && b[t].cpusNest == a.cpusNest + LockCall(s, e, t)
      && b[t].schedulerNest - Share(b[t]) == a.schedulerNest - Share(a) + PreemptCall(s, e, t)
  {
  }

  /**
    * In every run: a thread's `cpus_lock_nest` grew by its lock calls less its unlock calls, and its
    * `scheduler_lock_nest`, its share of the lock aside, by the calls that disabled preemption less
    * those that enabled it.
    */
  lemma {:induction false} CountersCountCalls(s: State, es: seq<Event>, t: nat)
    requires Inv(s) && Runs(s, es) && t < |s.threads|
    ensures var a, b := s.threads[t], After(s, es).threads;
      && |b| == |s.threads| && b[t].cpusNest == a.cpusNest + LockCalls(s, es, t)
      && b[t].schedulerNest - Share(b[t]) == a.schedulerNest - Share(a) + PreemptCalls(s, es, t)
    decreases |es|
  {
    if |es| > 0 {
      StepCounts(s, es[0], t);
      StepKeeps(s, es[0]);
      CountersCountCalls(Step(s, es[0]), es[1..], t);
    }
  }

  /** So from power-on the lock is held for a thread that runs exactly while it made more lock than unlock calls. */
  lemma HeldWhileOpen(s: State, es: seq<Event>, c: nat)
    requires Initial(s) && Runs(s, es) && c < |After(s, es).cpus|
    requires var r := After(s, es); Running(r, c) && !r.cpus[c].waiting && r.cpus[c].current.value < |s.threads|
    ensures After(s, es).holder == Some(c) <==> LockCalls(s, es, After(s, es).cpus[c].current.value) > 0
  {
    var r := After(s, es);
    InitialInv(s);
    RunKeeps(s, es);
    CountersCountCalls(s, es, r.cpus[c].current.value);
    assert CpuOk(r, c);
  }

  /** An uncontended call takes the lock: the call, and the turn that acquires it. */
  lemma LockTakes(s: State, c: nat)
    requires Inv(s) && Enabled(s, Lock(c)) && Running(s, c) && Self(s, c).cpusNest == 0 && s.holder.None?
    ensures var s1 := Step(s, Lock(c));
      Enabled(s1, Acquire(c)) && Step(s1, Acquire(c)).holder == Some(c) && Inside(Step(s1, Acquire(c)), c)
  {
  }
}
