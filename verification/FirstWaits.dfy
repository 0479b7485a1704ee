/** A semaphore initialised with value v lets exactly v waits through, over whole runs. */
module FirstWaits {
  import opened SchedSpec
  import opened SchedSteps
  import opened SchedInv
  import opened SchedRuns
  import opened SemTable

  /** Entering and leaving the kernel leaves the table alone. */
  lemma StatsKeepTable(s: Sched, u: Sched)
    requires Inv(s) && OnlyStats(s, u)
    ensures SemInv(u) && Table(u) == Table(s)
  {
    hide LinkInv, PidInv, OwnerInv, Table;
    assert forall i: Slot :: u.Blocked(i) == s.Blocked(i);
    SameTable(s, u);
  }

  /** What the body of a step does to the counter of a semaphore that is in use before and after it, if it is no
      signal of it. */
  lemma BodyCounter(s: Sched, e: Event, c: Clock, n: int)
    requires Inv(s) && Enabled(s, e) && n in Table(s) && e != SemSignalCall(n)
    ensures var u := if e == ClockTick then Schedule(s, c) else Body(s, e, c);
            && SemInv(u)
            && (n in Table(u) ==>
                  var k := Table(s)[n].counter;
                  Table(u)[n].counter == if e == SemWaitCall(n) && k > 0 then k - 1 else k)
  {
    hide LinkInv, PidInv, OwnerInv, Table, Schedule, SemInit, SemDestroy, SemSignal, SemWait, Fork, Clone, Exit;
    match e
    case ClockTick => OthersKeepTable(s, e, c);
    case ForkCall(o) => OthersKeepTable(s, e, c);
    case CloneCall(ok) => OthersKeepTable(s, e, c);
    case ExitCall => ExitCommutes(s, c);
    case SemInitCall(m, v) => InitCommutes(s, m, v);
    case SemDestroyCall(m) => DestroyCommutes(s, m);
    case SemSignalCall(m) => SignalCommutes(s, m);
    case SemWaitCall(m) => WaitCommutes(s, m, c);
    case SetQuantumCall(q) => SameTable(s, SetQuantum(s, q));
    case Quiet(q) =>
  }

  lemma StepCounter(s: Sched, d: Do, n: int)
    requires Inv(s) && Enabled(s, d.e) && n in Table(s) && d.e != SemSignalCall(n)
    ensures Inv(Step(s, d))
    ensures n in Table(Step(s, d)) ==>
              var k := Table(s)[n].counter;
              Table(Step(s, d))[n].counter == if d.e == SemWaitCall(n) && k > 0 then k - 1 else k
  {
    hide LinkInv, PidInv, OwnerInv, SemInv, Table, Schedule, Body, Step;
    StepInv(s, d);
    var u := StatsEntry(s, d.c.entry);
    EntryInv(s, u, d.c.entry);
    StepForm(s, d);
    StatsKeepTable(s, u);
    BodyCounter(u, d.e, d.c, n);
    BodyInvAny(u, d.e, d.c);
    StatsKeepTable(if d.e == ClockTick then Schedule(u, d.c) else Body(u, d.e, d.c), Step(s, d));
  }

  lemma BodyInvAny(s: Sched, e: Event, c: Clock)
    requires Inv(s) && Enabled(s, e)
    ensures Inv(if e == ClockTick then Schedule(s, c) else Body(s, e, c))
  {
    if e == ClockTick {
      ScheduleInv(s, c);
    } else {
      BodyInv(s, e, c);
    }
  }

  // ---- Runs ----

  /** Semaphore n is in use in every state of the run, and the run has no signal of it. */
  ghost predicate OnlyWaits(s: Sched, tr: seq<Do>, n: int)
    requires Inv(s) && CanRun(s, tr)
    decreases |tr|
  {
    && n in Table(s)
    && (tr == [] || (tr[0].e != SemSignalCall(n) && (StepInv(s, tr[0]); OnlyWaits(Step(s, tr[0]), tr[1..], n))))
  }

  function Waits(tr: seq<Do>, n: int): nat {
    if tr == [] then 0 else (if tr[0].e == SemWaitCall(n) then 1 else 0) + Waits(tr[1..], n)
  }

  lemma {:induction false} CountedDown(s: Sched, tr: seq<Do>, n: int)
    requires Inv(s) && CanRun(s, tr) && OnlyWaits(s, tr, n) && Table(s)[n].counter >= 0
    ensures n in Table(Run(s, tr))
    ensures var k := Table(s)[n].counter;
            Table(Run(s, tr))[n].counter == if Waits(tr, n) <= k then k - Waits(tr, n) else 0
    decreases |tr|
  {
    hide LinkInv, PidInv, OwnerInv, SemInv, Table, Step, Enabled, Forward;
    if tr != [] {
      StepCounter(s, tr[0], n);
      InUseAfter(Step(s, tr[0]), tr[1..], n);
      CountedDown(Step(s, tr[0]), tr[1..], n);
    }
  }

  lemma InUseAfter(s: Sched, tr: seq<Do>, n: int)
    requires Inv(s) && CanRun(s, tr) && OnlyWaits(s, tr, n)
    ensures n in Table(s)
  {
  }

  /** A wait blocks exactly if the counter is spent. */
  lemma BlocksIfSpent(s: Sched, n: int)
    requires Inv(s) && n in Table(s)
    ensures Blocks(s, n) <==> Table(s)[n].counter <= 0
  {
    FindIsLookup(s, n);
    hide Inv, Table;
  }

  /** After `sys_sem_init` of a new identifier n with value v, 1 <= v < 2 to the 31st, and as long as n is neither
      destroyed nor signalled, the first v waits for it complete at once and every later one blocks: at any state of
      the run a wait would block exactly if v waits have gone before. */
  lemma FirstWaitsPass(s: Sched, n: int, v: int, c: Clock, tr: seq<Do>)
    requires Inv(s) && Enabled(s, SemInitCall(n, v)) && n !in Table(s) && 1 <= v < 0x8000_0000
    requires var u := Step(s, Do(SemInitCall(n, v), c)); Inv(u) && CanRun(u, tr) && OnlyWaits(u, tr, n)
    ensures var w := Run(Step(s, Do(SemInitCall(n, v), c)), tr);
            Blocks(w, n) <==> Waits(tr, n) >= v
  {
    var d := Do(SemInitCall(n, v), c);
    NewCounter(s, n, v, c);
    hide LinkInv, PidInv, OwnerInv, SemInv, Table, Step, Enabled, CanRun, Run, Blocks;
    var u := Step(s, d);
    CountedDown(u, tr, n);
    BlocksIfSpent(Run(u, tr), n);
  }

  /** Right after the step the counter is v. */
  lemma NewCounter(s: Sched, n: int, v: int, c: Clock)
    requires Inv(s) && Enabled(s, SemInitCall(n, v)) && n !in Table(s) && 0 <= v < 0x8000_0000
    ensures var u := Step(s, Do(SemInitCall(n, v), c));
            Inv(u) && n in Table(u) && Table(u)[n].counter == v && Table(u)[n].waiters == []
  {
    hide LinkInv, PidInv, OwnerInv, SemInv, Table, Step, SemInit;
    var d := Do(SemInitCall(n, v), c);
    StepInv(s, d);
    var e := StatsEntry(s, c.entry);
    EntryInv(s, e, c.entry);
    StepForm(s, d);
    StatsKeepTable(s, e);
    InitCounter(e, n, v);
    SemInitInv(e, n, v);
    StatsKeepTable(SemInit(e, n, v), Step(s, d));
  }
}
