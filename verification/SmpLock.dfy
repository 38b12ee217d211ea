/**
  * The lock all CPUs share (`_cpus_lock`), its nesting counters and the spin locks of RT-Thread on
  * several CPUs, as a transition system: a CPU can be interleaved with the others between any two
  * accesses to shared state.
  */
module SmpLock {
  import opened Basics

  const NEST_MAX := 0xFFFF

  /**
    * The counters of a thread. `pending` counts its spin lock calls that are under way: past
    * `rt_preempt_disable` but not locked yet, or unlocked but not past `rt_preempt_enable` yet.
    */
  datatype Thread = Thread(cpusNest: nat, schedulerNest: int, pending: nat)

  /**
    * `waiting`: spinning on the lock inside `rt_cpus_lock`, interrupts off.
    * `starting`: took the lock with no thread yet, to start its first one.
    */
  datatype Cpu = Cpu(current: Option<nat>, waiting: bool, starting: bool)

  datatype Owner = ByThread(thread: nat) | ByCpu(cpu: nat)

  datatype State = State(cpus: seq<Cpu>, threads: seq<Thread>, holder: Option<nat>, spinlocks: seq<Option<Owner>>)

  datatype Event =
    | Lock(cpu: nat)
    | Acquire(cpu: nat)
    | Unlock(cpu: nat)
    | Start(cpu: nat)
    | Switch(cpu: nat, to: nat)
    | IrqSwitch(cpu: nat, to: nat)
    | PreemptDisable(cpu: nat)
    | SpinAcquire(cpu: nat, lock: nat)
    | SpinRelease(cpu: nat, lock: nat)
    | PreemptEnable(cpu: nat)

  // ------------------------------------------------------ steps


  predicate Running(s: State, c: nat)
    requires c < |s.cpus|
  {
    s.cpus[c].current.Some? && s.cpus[c].current.value < |s.threads|
  }

  function Self(s: State, c: nat): Thread
    requires c < |s.cpus| && Running(s, c)
  {
    s.threads[s.cpus[c].current.value]
  }

  function WithSelf(s: State, c: nat, t: Thread): State
    requires c < |s.cpus| && Running(s, c)
  {
    s.(threads := s.threads[s.cpus[c].current.value := t])
  }

  function WithCpu(s: State, c: nat, cpu: Cpu): State
    requires c < |s.cpus|
  {
    s.(cpus := s.cpus[c := cpu])
  }

  function OwnerOf(s: State, c: nat): Owner
    requires c < |s.cpus|
  {
    if s.cpus[c].current.Some? then ByThread(s.cpus[c].current.value) else ByCpu(c)
  }

  /**
    * What the callers and the scheduler see to: calls are paired and nest less than 65536 deep, and a
    * context switch happens inside a lock/unlock pair or to start a CPU's first thread, to a thread that
    * runs on no other CPU. Only taking the lock depends on who holds it.
    */
  predicate Enabled(s: State, e: Event) {
    && e.cpu < |s.cpus| && (s.cpus[e.cpu].current.Some? ==> Running(s, e.cpu))
    && var c, cpu := e.cpu, s.cpus[e.cpu];
    match e
    case Lock(_) =>
      !cpu.waiting && (cpu.current.Some? ==> Self(s, c).cpusNest < NEST_MAX && Self(s, c).schedulerNest < NEST_MAX)
    case Acquire(_) => cpu.waiting && s.holder.None?
    case Unlock(_) => !cpu.waiting && (cpu.current.Some? ==> Self(s, c).cpusNest > 0)
    case Start(_) => cpu.current.None? && !cpu.starting && s.holder.None?
    case Switch(_, to) => Inside(s, c) && Free(s, c, to)
    case IrqSwitch(_, to) =>
      && Inside(s, c) && Free(s, c, to)
      && cpu.current.Some? && cpu.current.value != to && Self(s, c).cpusNest == 1 && Self(s, c).schedulerNest == 1
    case PreemptDisable(_) => !cpu.waiting && (cpu.current.Some? ==> Self(s, c).schedulerNest < NEST_MAX)
    case SpinAcquire(_, l) =>
      !cpu.waiting && l < |s.spinlocks| && s.spinlocks[l].None? && (cpu.current.Some? ==> Self(s, c).pending > 0)
    case SpinRelease(_, l) => !cpu.waiting && l < |s.spinlocks| && s.spinlocks[l] == Some(OwnerOf(s, c))
    case PreemptEnable(_) => !cpu.waiting && (cpu.current.Some? ==> Self(s, c).pending > 0)
  }

  predicate Free(s: State, c: nat, t: nat) {
    t < |s.threads| && forall d | 0 <= d < |s.cpus| && d != c :: s.cpus[d].current != Some(t)
  }

  /** `rt_cpus_lock_status_restore`. */
  function Restore(s: State, c: nat, to: nat): State
    requires c < |s.cpus| && to < |s.threads|
  {
    var s1 := WithCpu(s, c, s.cpus[c].(current := Some(to), starting := false));
    if s.threads[to].cpusNest == 0 then s1.(holder := None) else s1
  }

  function Step(s: State, e: Event): State
    requires Enabled(s, e)
  {
    var c, cpu := e.cpu, s.cpus[e.cpu];
    match e
    case Lock(_) =>
      if cpu.current.None? then s
      else
        var t := Self(s, c);
        if t.cpusNest == 0 then
          WithCpu(WithSelf(s, c, t.(cpusNest := 1, schedulerNest := t.schedulerNest + 1)), c, cpu.(waiting := true))
        else WithSelf(s, c, t.(cpusNest := t.cpusNest + 1))
    case Acquire(_) => WithCpu(s, c, cpu.(waiting := false)).(holder := Some(c))
    case Unlock(_) =>
      if cpu.current.None? then s
      else
        var t := Self(s, c);
        if t.cpusNest == 1 then WithSelf(s, c, t.(cpusNest := 0, schedulerNest := t.schedulerNest - 1)).(holder := None)
        else WithSelf(s, c, t.(cpusNest := t.cpusNest - 1))
    case Start(_) => WithCpu(s, c, cpu.(starting := true)).(holder := Some(c))
    case Switch(_, to) => Restore(s, c, to)
    case IrqSwitch(_, to) =>
      var t := Self(s, c);
      Restore(WithSelf(s, c, t.(cpusNest := t.cpusNest - 1, schedulerNest := t.schedulerNest - 1)), c, to)
    case PreemptDisable(_) =>
      if cpu.current.None? then s
      else
        var t := Self(s, c);
        WithSelf(s, c, t.(schedulerNest := t.schedulerNest + 1, pending := t.pending + 1))
    case SpinAcquire(_, l) =>
      var s1 := s.(spinlocks := s.spinlocks[l := Some(OwnerOf(s, c))]);
      if cpu.current.None? then s1 else WithSelf(s1, c, Self(s, c).(pending := Self(s, c).pending - 1))
    case SpinRelease(_, l) =>
      var s1 := s.(spinlocks := s.spinlocks[l := None]);
      if cpu.current.None? then s1 else WithSelf(s1, c, Self(s, c).(pending := Self(s, c).pending + 1))
    case PreemptEnable(_) =>
      if cpu.current.None? then s
      else
        var t := Self(s, c);
        WithSelf(s, c, t.(schedulerNest := t.schedulerNest - 1, pending := t.pending - 1))
  }

  // ------------------------------------------------------ the invariant

  /** The CPU is inside the section `_cpus_lock` protects. */
  predicate Inside(s: State, c: nat)
    requires c < |s.cpus|
  {
    s.cpus[c].starting || (Running(s, c) && Self(s, c).cpusNest > 0 && !s.cpus[c].waiting)
  }

  function Owned(locks: seq<Option<Owner>>, t: nat): nat {
    if |locks| == 0 then 0 else (if locks[0] == Some(ByThread(t)) then 1 else 0) + Owned(locks[1..], t)
  }

  ghost predicate CpuOk(s: State, c: nat)
    requires c < |s.cpus|
  {
    var cpu := s.cpus[c];
    && (cpu.current.Some? ==> Running(s, c))
    && (cpu.waiting ==> Running(s, c) && Self(s, c).cpusNest == 1)
    && (cpu.starting ==> cpu.current.None?)
    && (s.holder == Some(c) <==> Inside(s, c))
  }

  ghost predicate Distinct(s: State) {
    forall c, d | 0 <= c < d < |s.cpus| && s.cpus[c].current.Some? :: s.cpus[c].current != s.cpus[d].current
  }

  ghost predicate Counted(s: State, t: nat)
    requires t < |s.threads|
  {
    s.threads[t].schedulerNest
      == Owned(s.spinlocks, t) + s.threads[t].pending + (if s.threads[t].cpusNest > 0 then 1 else 0)
  }

  ghost predicate Inv(s: State) {
    && (s.holder.Some? ==> s.holder.value < |s.cpus|)
    && Distinct(s)
    && (forall c | 0 <= c < |s.cpus| :: CpuOk(s, c))
    && (forall t | 0 <= t < |s.threads| :: Counted(s, t))
  }

  // ------------------------------------------------------ every step keeps it

  lemma {:induction false} OwnedUpdate(locks: seq<Option<Owner>>, i: nat, o: Option<Owner>, t: nat)
    requires i < |locks|
    ensures Owned(locks[i := o], t) + (if locks[i] == Some(ByThread(t)) then 1 else 0)
         == Owned(locks, t) + (if o == Some(ByThread(t)) then 1 else 0)
  {
    if i > 0 {
      assert locks[i := o][1..] == locks[1..][i - 1 := o];
      OwnedUpdate(locks[1..], i - 1, o, t);
    } else {
      assert locks[i := o][1..] == locks[1..];
    }
  }

  /** A step of CPU `c` that changes only its own thread's counters and leaves the others alone. */
  lemma OwnThread(s: State, s': State, c: nat)
    requires Inv(s) && c < |s.cpus| && |s'.cpus| == |s.cpus| && |s'.threads| == |s.threads|
    requires Running(s, c) && s'.cpus[c].current == s.cpus[c].current
    requires forall d | 0 <= d < |s.cpus| && d != c ::
      s'.cpus[d] == s.cpus[d] && (s'.holder == Some(d) <==> s.holder == Some(d))
    requires forall t | 0 <= t < |s.threads| && t != s.cpus[c].current.value :: s'.threads[t] == s.threads[t]
    ensures Distinct(s')
    ensures forall d | 0 <= d < |s.cpus| && d != c :: CpuOk(s', d)
  {
    forall d | 0 <= d < |s.cpus| && d != c
      ensures CpuOk(s', d)
    {
      assert CpuOk(s, d);
      assert s.cpus[d].current != s.cpus[c].current;
    }
  }

  lemma KeepsLock(s: State, c: nat)
    requires Inv(s) && Enabled(s, Lock(c)) && s.cpus[c].current.Some?
    ensures Inv(Step(s, Lock(c)))
  {
    var s' := Step(s, Lock(c));
    assert CpuOk(s, c);
    OwnThread(s, s', c);
    forall t | 0 <= t < |s.threads|
      ensures Counted(s', t)
    {
      assert Counted(s, t);
    }
  }

  lemma KeepsAcquire(s: State, c: nat)
    requires Inv(s) && Enabled(s, Acquire(c))
    ensures Inv(Step(s, Acquire(c)))
  {
    var s' := Step(s, Acquire(c));
    assert CpuOk(s, c);
    OwnThread(s, s', c);
    forall t | 0 <= t < |s.threads|
      ensures Counted(s', t)
    {
      assert Counted(s, t);
    }
  }

  lemma KeepsUnlock(s: State, c: nat)
    requires Inv(s) && Enabled(s, Unlock(c)) && s.cpus[c].current.Some?
    ensures Inv(Step(s, Unlock(c)))
  {
    var s' := Step(s, Unlock(c));
    assert CpuOk(s, c);
    OwnThread(s, s', c);
    forall t | 0 <= t < |s.threads|
      ensures Counted(s', t)
    {
      assert Counted(s, t);
    }
  }

  lemma KeepsStart(s: State, c: nat)
    requires Inv(s) && Enabled(s, Start(c))
    ensures Inv(Step(s, Start(c)))
  {
    var s' := Step(s, Start(c));
    forall d | 0 <= d < |s.cpus|
      ensures CpuOk(s', d)
    {
      assert CpuOk(s, d);
    }
    forall t | 0 <= t < |s.threads|
      ensures Counted(s', t)
    {
      assert Counted(s, t);
    }
  }

  lemma KeepsRestore(s: State, c: nat, to: nat)
    requires c < |s.cpus| && s.holder == Some(c) && !s.cpus[c].waiting && Free(s, c, to) && Distinct(s)
    requires forall d | 0 <= d < |s.cpus| && d != c :: CpuOk(s, d)
    requires forall t | 0 <= t < |s.threads| :: Counted(s, t)
    ensures Inv(Restore(s, c, to))
  {
    var s' := Restore(s, c, to);
    forall d | 0 <= d < |s.cpus| && d != c
      ensures CpuOk(s', d)
    {
      assert CpuOk(s, d);
    }
    forall t | 0 <= t < |s.threads|
      ensures Counted(s', t)
    {
      assert Counted(s, t);
    }
  }

  lemma KeepsIrqSwitch(s: State, c: nat, to: nat)
    requires Inv(s) && Enabled(s, IrqSwitch(c, to))
    ensures Inv(Step(s, IrqSwitch(c, to)))
  {
    assert CpuOk(s, c);
    var t := Self(s, c);
    var s1 := WithSelf(s, c, t.(cpusNest := t.cpusNest - 1, schedulerNest := t.schedulerNest - 1));
    OwnThread(s, s1, c);
    forall t | 0 <= t < |s.threads|
      ensures Counted(s1, t)
    {
      assert Counted(s, t);
    }
    KeepsRestore(s1, c, to);
  }

  lemma KeepsPreempt(s: State, c: nat, change: int)
    requires Inv(s) && c < |s.cpus| && Running(s, c) && (change == 1 || change == -1) && Self(s, c).pending + change >= 0
    ensures Inv(WithSelf(s, c, Self(s, c).(schedulerNest := Self(s, c).schedulerNest + change,
                                           pending := Self(s, c).pending + change)))
  {
    var s' := WithSelf(s, c, Self(s, c).(schedulerNest := Self(s, c).schedulerNest + change,
                                         pending := Self(s, c).pending + change));
    assert CpuOk(s, c);
    OwnThread(s, s', c);
    forall t | 0 <= t < |s.threads|
      ensures Counted(s', t)
    {
      assert Counted(s, t);
    }
  }

  lemma KeepsSpin(s: State, e: Event)
    requires Inv(s) && Enabled(s, e) && (e.SpinAcquire? || e.SpinRelease?)
    ensures Inv(Step(s, e))
  {
    var s' := Step(s, e);
    assert CpuOk(s, e.cpu);
    if s.cpus[e.cpu].current.Some? {
      OwnThread(s, s', e.cpu);
    } else {
      forall d | 0 <= d < |s.cpus|
        ensures CpuOk(s', d)
      {
        assert CpuOk(s, d);
      }
    }
    forall t | 0 <= t < |s.threads|
      ensures Counted(s', t)
    {
      assert Counted(s, t);
      OwnedUpdate(s.spinlocks, e.lock, if e.SpinAcquire? then Some(OwnerOf(s, e.cpu)) else None, t);
    }
  }

  /** Every step of every CPU keeps the invariant. */
  lemma StepKeeps(s: State, e: Event)
    requires Inv(s) && Enabled(s, e)
    ensures Inv(Step(s, e))
  {
    match e
    case Lock(c) => if s.cpus[c].current.Some? { KeepsLock(s, c); }
    case Acquire(c) => KeepsAcquire(s, c);
    case Unlock(c) => if s.cpus[c].current.Some? { KeepsUnlock(s, c); }
    case Start(c) => KeepsStart(s, c);
    case Switch(c, to) =>
      assert CpuOk(s, c);
      KeepsRestore(s, c, to);
    case IrqSwitch(c, to) => KeepsIrqSwitch(s, c, to);
    case PreemptDisable(c) => if s.cpus[c].current.Some? { KeepsPreempt(s, c, 1); }
    case SpinAcquire(_, _) => KeepsSpin(s, e);
    case SpinRelease(_, _) => KeepsSpin(s, e);
    case PreemptEnable(c) => if s.cpus[c].current.Some? { KeepsPreempt(s, c, -1); }
  }

  // ------------------------------------------------------ runs

  /** A run: every event is enabled when it happens. */
  ghost predicate Runs(s: State, es: seq<Event>)
    decreases |es|
  {
    |es| == 0 || (Enabled(s, es[0]) && Runs(Step(s, es[0]), es[1..]))
  }

  ghost function After(s: State, es: seq<Event>): State
    requires Runs(s, es)
    decreases |es|
  {
    if |es| == 0 then s else After(Step(s, es[0]), es[1..])
  }

  /** No thread runs anywhere, no lock is taken, and no counter is up. */
  ghost predicate Initial(s: State) {
    && s.holder.None?
    && (forall c | 0 <= c < |s.cpus| :: s.cpus[c] == Cpu(None, false, false))
    && (forall t | 0 <= t < |s.threads| :: s.threads[t] == Thread(0, 0, 0))
    && (forall l | 0 <= l < |s.spinlocks| :: s.spinlocks[l].None?)
  }

  lemma {:induction false} NoneOwned(locks: seq<Option<Owner>>, t: nat)
    requires forall l | 0 <= l < |locks| :: locks[l].None?
    ensures Owned(locks, t) == 0
  {
    if |locks| > 0 { NoneOwned(locks[1..], t); }
  }

  lemma InitialInv(s: State)
    requires Initial(s)
    ensures Inv(s)
  {
    forall t | 0 <= t < |s.threads|
      ensures Counted(s, t)
    {
      NoneOwned(s.spinlocks, t);
    }
  }

  lemma {:induction false} RunKeeps(s: State, es: seq<Event>)
    requires Inv(s) && Runs(s, es)
    ensures Inv(After(s, es))
    decreases |es|
  {
    if |es| > 0 {
      StepKeeps(s, es[0]);
      RunKeeps(Step(s, es[0]), es[1..]);
    }
  }

  /** The CPU executes `rt_hw_spin_unlock(&_cpus_lock)` in this step. */
  predicate Releases(s: State, e: Event)
    requires Enabled(s, e)
  {
    match e
    case Unlock(c) => s.cpus[c].current.Some? && Self(s, c).cpusNest == 1
    case Switch(_, to) => s.threads[to].cpusNest == 0
    case IrqSwitch(_, to) => s.threads[to].cpusNest == 0
    case _ => false
  }

  predicate Takes(e: Event) { e.Acquire? || e.Start? }

  /**
    * After any run from power-on: at most one CPU is inside, only the CPU that holds the lock
    * releases it, and every thread's scheduler count is its spin locks plus its share of the lock.
    */
  lemma RunSafe(s: State, es: seq<Event>, e: Event)
    requires Initial(s) && Runs(s, es)
    ensures var r := After(s, es);
      && (forall c, d | 0 <= c < d < |r.cpus| :: !(Inside(r, c) && Inside(r, d)))
      && (forall t | 0 <= t < |r.threads| :: Counted(r, t))
      && (Enabled(r, e) && Releases(r, e) ==> r.holder == Some(e.cpu))
      && (Enabled(r, e) && Takes(e) ==> r.holder.None?)
  {
    InitialInv(s);
    RunKeeps(s, es);
    var r := After(s, es);
    forall c, d | 0 <= c < d < |r.cpus|
      ensures !(Inside(r, c) && Inside(r, d))
    {
      assert CpuOk(r, c) && CpuOk(r, d);
    }
    if Enabled(r, e) { assert CpuOk(r, e.cpu); }
  }

  /** A context switch leaves the lock held exactly when the thread switched to counts on it. */
  lemma HandOff(s: State, e: Event)
    requires Inv(s) && Enabled(s, e) && (e.Switch? || e.IrqSwitch?)
    ensures var r := Step(s, e);
      && r.cpus[e.cpu].current == Some(e.to) && r.threads[e.to] == s.threads[e.to]
      && r.holder == if s.threads[e.to].cpusNest > 0 then Some(e.cpu) else None
  {
    assert CpuOk(s, e.cpu);
  }

  /** `rt_schedule` switches only when `scheduler_lock_nest` is 1: the thread then holds no spin lock. */
  lemma SchedulesWithoutSpinLocks(s: State, c: nat)
    requires Inv(s) && c < |s.cpus| && Running(s, c) && Inside(s, c)
    ensures Self(s, c).schedulerNest == 1
       <==> Owned(s.spinlocks, s.cpus[c].current.value) == 0 && Self(s, c).pending == 0
  {
    assert CpuOk(s, c) && Counted(s, s.cpus[c].current.value);
  }

  // ------------------------------------------------------ taking and releasing over a run

  ghost function Taken(s: State, es: seq<Event>): nat
    requires Runs(s, es)
    decreases |es|
  {
    if |es| == 0 then 0 else (if Takes(es[0]) then 1 else 0) + Taken(Step(s, es[0]), es[1..])
  }

  ghost function Released(s: State, es: seq<Event>): nat
    requires Runs(s, es)
    decreases |es|
  {
    if |es| == 0 then 0 else (if Releases(s, es[0]) then 1 else 0) + Released(Step(s, es[0]), es[1..])
  }

  function Held(s: State): nat { if s.holder.Some? then 1 else 0 }

  /** The lock is taken and released in turn: the two counts differ by whether it is held. */
  lemma {:induction false} TakenAndReleased(s: State, es: seq<Event>)
    requires Inv(s) && Runs(s, es)
    ensures Held(s) + Taken(s, es) == Held(After(s, es)) + Released(s, es)
    decreases |es|
  {
    if |es| > 0 {
      var e, s' := es[0], Step(s, es[0]);
      assert CpuOk(s, e.cpu);
      StepKeeps(s, e);
      assert Held(s) + (if Takes(e) then 1 else 0) == Held(s') + (if Releases(s, e) then 1 else 0);
      TakenAndReleased(s', es[1..]);
    }
  }

  /** Thread `t` stays on CPU `c` with its nest count up, from the first state to the last. */
  ghost predicate StaysInside(s: State, es: seq<Event>, c: nat, t: nat)
    requires Runs(s, es)
    decreases |es|
  {
    && c < |s.cpus| && t < |s.threads| && s.cpus[c].current == Some(t) && Inside(s, c)
    && (|es| > 0 ==> StaysInside(Step(s, es[0]), es[1..], c, t))
  }

  /**
    * However often the thread locks and unlocks inside the outermost pair, and whatever the other
    * CPUs do meanwhile, nobody takes or releases the lock and it stays with the CPU.
    */
  lemma {:induction false} NestedPairs(s: State, es: seq<Event>, c: nat, t: nat)
    requires Inv(s) && Runs(s, es) && StaysInside(s, es, c, t)
    ensures Taken(s, es) == 0 && Released(s, es) == 0 && After(s, es).holder == Some(c)
    decreases |es|
  {
    assert CpuOk(s, c);
    if |es| > 0 {
      assert CpuOk(s, es[0].cpu);
      StepKeeps(s, es[0]);
      assert CpuOk(Step(s, es[0]), c);
      NestedPairs(Step(s, es[0]), es[1..], c, t);
    }
  }

  // ------------------------------------------------------ the functions of cpu.c

  /**
    * The kernel's globals. Each method is the part of a function of cpu.c up to a point where it
    * waits for a lock, and is proved to be one step of the system above.
    */
  class Kernel {
    var cpus: seq<Cpu>
    var threads: seq<Thread>
    var cpusLock: Option<nat>
    var spinlocks: seq<Option<Owner>>

    ghost function View(): State
      reads this
    {
      State(cpus, threads, cpusLock, spinlocks)
    }

    /** `rt_cpus_lock` up to its spin lock; `spin` tells whether that is reached. */
    method CpusLock(c: nat) returns (spin: bool)
      requires Enabled(View(), Lock(c))
      modifies this
      ensures View() == Step(old(View()), Lock(c)) && spin == cpus[c].waiting
    {
      spin := false;
      if cpus[c].current.Some? {
        var t := cpus[c].current.value;
        var nest := threads[t].cpusNest;
        threads := threads[t := threads[t].(cpusNest := nest + 1)];
        if nest == 0 {
          threads := threads[t := threads[t].(schedulerNest := threads[t].schedulerNest + 1)];
          cpus := cpus[c := cpus[c].(waiting := true)];
          spin := true;
        }
      }
    }

    /** The spin lock inside `rt_cpus_lock`, once round. */
    method TryAcquire(c: nat) returns (got: bool)
      requires c < |cpus| && cpus[c].waiting && Running(View(), c)
      modifies this
      ensures got == Enabled(old(View()), Acquire(c))
      ensures View() == if got then Step(old(View()), Acquire(c)) else old(View())
    {
      got := cpusLock.None?;
      if got {
        cpusLock := Some(c);
        cpus := cpus[c := cpus[c].(waiting := false)];
      }
    }

    method CpusUnlock(c: nat)
      requires Enabled(View(), Unlock(c))
      modifies this
      ensures View() == Step(old(View()), Unlock(c))
    {
      if cpus[c].current.Some? {
        var t := cpus[c].current.value;
        threads := threads[t := threads[t].(cpusNest := threads[t].cpusNest - 1)];
        if threads[t].cpusNest == 0 {
          threads := threads[t := threads[t].(schedulerNest := threads[t].schedulerNest - 1)];
          cpusLock := None;
        }
      }
    }

    method CpusLockStatusRestore(c: nat, to: nat)
      requires c < |cpus| && to < |threads|
      modifies this
      ensures View() == Restore(old(View()), c, to)
    {
      cpus := cpus[c := cpus[c].(current := Some(to), starting := false)];
      if threads[to].cpusNest == 0 { cpusLock := None; }
    }

    /** `rt_preempt_disable`, the first half of `rt_spin_lock`. */
    method DisablePreemption(c: nat)
      requires Enabled(View(), PreemptDisable(c))
      modifies this
      ensures View() == Step(old(View()), PreemptDisable(c))
    {
      if cpus[c].current.None? { return; }
      var t := cpus[c].current.value;
      threads := threads[t := threads[t].(schedulerNest := threads[t].schedulerNest + 1, pending := threads[t].pending + 1)];
    }

    /** `rt_preempt_enable`, the second half of `rt_spin_unlock`. */
    method EnablePreemption(c: nat)
      requires Enabled(View(), PreemptEnable(c))
      modifies this
      ensures View() == Step(old(View()), PreemptEnable(c))
    {
      if cpus[c].current.None? { return; }
      var t := cpus[c].current.value;
      threads := threads[t := threads[t].(schedulerNest := threads[t].schedulerNest - 1, pending := threads[t].pending - 1)];
    }
  }
}
