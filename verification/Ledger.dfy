/** The statistics to the tick: what each kernel entry charges to whom, and what the counters mean over runs. */
module Ledger {
  import opened Common
  import opened SchedSpec
  import opened SchedSteps
  import opened SchedInv
  import opened SchedRuns
  import opened Accounting
  import opened Population
  import opened UserTime

  /** Task t gets the processor, coming from a queue.  Idle's first activation is none: it was in no queue. */
  predicate Gets(s: Sched, u: Sched, t: Tid)
    requires s.Wf()
  {
    u.current == t && s.current != t && s.at[t] != NOWHERE
  }

  /** A clock interrupt ends the quantum of the running task with nobody ready, and the quantum is renewed. */
  predicate Renewed(s: Sched, e: Event, t: Tid)
    requires s.Wf()
  {
    e == ClockTick && s.current == t && s.qLeft == 1 && s.Ready() == []
  }

  /** Task t is made by the event, or lost by it. */
  predicate Made(s: Sched, e: Event, t: Tid)
    requires s.Wf()
  {
    (Spawns(s, e) || Loses(e)) && s.Free() != [] && t == s.Free()[0]
  }

  /** What the event does to the statistics of a task between `statsEntrySys` and `statsLeaveSys`. */
  function Bill(s: Sched, u: Sched, e: Event, c: Clock, t: Tid): Stats
    requires s.Wf()
  {
    var st := s.tasks[t].stats;
    if t == s.current then
      if u.current == t then Stats(st.user, st.system, st.blocked, st.ready, st.elapsed,
                                   if Renewed(s, e, t) then st.trans + 1 else st.trans)
      else if e == ExitCall then st
      else Stats(st.user, st.system + c.off.first - st.elapsed, st.blocked, st.ready, c.off.second, st.trans)
    else if Gets(s, u, t) then
      Stats(st.user, st.system + c.on1.first - st.elapsed, st.blocked, st.ready + c.on2.first - c.on1.second,
            c.on2.second, st.trans + 1)
    else st
  }

  ghost predicate Billed(s: Sched, u: Sched, e: Event, c: Clock)
    requires s.Wf() && u.Wf()
  {
    forall t: Tid | !Made(s, e, t) :: u.tasks[t].stats == Bill(s, u, e, c, t)
  }

  // ---- The body of a step ----

  lemma Off(s: Sched, q: Queue, r: Reads)
    requires LinkInv(s) && OnCpu(s)
    ensures s.Cur().estado == StRun
    ensures var st := s.Cur().stats;
            forall t: Tid :: ExitRunCurrent(s, q, r).tasks[t].stats ==
                             if t == s.current
                             then Stats(st.user, st.system + r.first - st.elapsed, st.blocked, st.ready,
                                        r.second, st.trans)
                             else s.tasks[t].stats
  {
  }

  lemma On(s: Sched, c: Clock)
    requires LinkInv(s) && !OnCpu(s)
    ensures var u := SchedNext(s, c);
            && u.current == (if s.Ready() == [] then IDLE else s.Ready()[0])
            && (s.Ready() != [] ==> s.at[s.Ready()[0]] == READY_QUEUE)
            && forall t: Tid ::
                 var st := s.tasks[t].stats;
                 u.tasks[t].stats ==
                 if s.Ready() != [] && t == s.Ready()[0]
                 then Stats(st.user, st.system + c.on1.first - st.elapsed, st.blocked,
                            st.ready + c.on2.first - c.on1.second, c.on2.second, st.trans + 1)
                 else st
  {
    NextForm(s, c);
    hide LinkInv, SchedNext;
  }

  /** Idle is not in the ready queue only while it runs or has never run. */
  lemma ReadyIsLinked(s: Sched)
    requires LinkInv(s) && OnCpu(s)
    ensures s.Ready() != [] ==> s.at[s.Ready()[0]] == READY_QUEUE && s.Ready()[0] != s.current
    ensures s.Ready() == [] ==> s.at[IDLE] == NOWHERE
  {
  }

  lemma TickBill(s: Sched, c: Clock)
    requires LinkInv(s) && OnCpu(s)
    ensures Billed(s, Schedule(s, c), ClockTick, c)
    ensures s.qLeft == 1 && s.Ready() == [] ==> Schedule(s, c).qLeft == s.tasks[s.current].quantum
  {
    hide Linked, ExitRunCurrent, SchedNext;
    ReadyIsLinked(s);
    var u := s.(qLeft := s.qLeft - 1);
    SameLinks(s, u);
    if u.qLeft == 0 && u.Ready() != [] {
      LeaveLinks(u, READY_QUEUE, c.off);
      Off(u, READY_QUEUE, c.off);
      On(ExitRunCurrent(u, READY_QUEUE, c.off), c);
      TailStays(s.Ready(), s.current);
    }
  }

  lemma TailStays(r: seq<Tid>, t: Tid)
    requires r != []
    ensures r + [t] != [] && (r + [t])[0] == r[0]
  {
  }

  lemma WaitBill(s: Sched, n: int, i: Slot, c: Clock)
    requires Inv(s) && s.current != IDLE && FindSem(s.sems, n, 0) == i && s.sems[i].counter <= 0
    ensures Billed(s, SemWait(s, n, c), SemWaitCall(n), c)
  {
    hide Linked, PidInv, SemInv, OwnerInv, ExitRunCurrent, SchedNext;
    ReadyIsLinked(s);
    var u := s.SetTask(s.current, s.Cur().(semRet := 0));
    SameLinks(s, u);
    LeaveLinks(u, SemQueue(i), c.off);
    Off(u, SemQueue(i), c.off);
    On(ExitRunCurrent(u, SemQueue(i), c.off), c);
  }

  /** The task that an exit hands the processor to was ready, or waited for a semaphore of the exiting one. */
  lemma ExitBill(s: Sched, c: Clock)
    requires Inv(s) && s.current != IDLE
    ensures Billed(s, Exit(s, c), ExitCall, c)
  {
    hide Linked, PidInv, SemInv, OwnerInv, Vacate, SchedNext;
    VacateStats(s);
    VacateLinks(s);
    On(Vacate(s), c);
    NextWasLinked(s);
  }

  lemma NextWasLinked(s: Sched)
    requires Inv(s) && s.current != IDLE
    ensures Vacate(s).Ready() != [] ==>
              s.at[Vacate(s).Ready()[0]] != NOWHERE && Vacate(s).Ready()[0] != s.current
    ensures Vacate(s).Ready() == [] ==> s.at[IDLE] == NOWHERE
  {
    hide PidInv, SemInv, OwnerInv, Vacate, OwnedWaiters;
    VacateWakes(s);
    ReadyIsLinked(s);
    WaitersLinked(s, s.Cur().pid, 0);
    WaitersNotCurrent(s, s.Cur().pid, 0);
  }

  lemma {:induction false} WaitersLinked(s: Sched, pid: int, i: nat)
    requires LinkInv(s) && i <= NR_SEMS
    ensures forall t | t in OwnedWaiters(s, pid, i) :: s.at[t] != NOWHERE
    decreases NR_SEMS - i
  {
    if i < NR_SEMS {
      WaitersLinked(s, pid, i + 1);
      forall t: Tid | t in s.Blocked(i)
        ensures s.at[t] != NOWHERE
      {
        AtIsMembership(s, t, SemQueue(i));
      }
      hide LinkInv;
    }
  }

  lemma SpawnBill(s: Sched, dir: Dir)
    requires LinkInv(s) && OnCpu(s) && s.Free() != []
    ensures Spawn(s, dir).tasks[s.Free()[0]].stats == Stats(0, 0, 0, 0, 0, 0)
    ensures forall t: Tid | t != s.Free()[0] ::
              Spawn(s, dir).tasks[t].stats == s.tasks[t].stats && Lose(s, dir).tasks[t].stats == s.tasks[t].stats
    ensures s.Free()[0] != s.current && Spawn(s, dir).current == s.current && Lose(s, dir).current == s.current
  {
    AtIsMembership(s, s.Free()[0], FREE_QUEUE);
    hide Linked;
  }

  lemma ForkBill(s: Sched, o: ForkOutcome, c: Clock)
    requires Inv(s) && (o == NoTask <==> s.Free() == [])
    ensures Billed(s, Fork(s, o), ForkCall(o), c)
    ensures o.Child? ==> Fork(s, o).tasks[s.Free()[0]].stats == Stats(0, 0, 0, 0, 0, 0)
  {
    hide LinkInv, PidInv, SemInv, OwnerInv, Spawn, Lose;
    match o {
      case NoTask =>
      case NoDirectory => SpawnBill(s, s.Cur().dir);
      case NoFrames(dir) => SpawnBill(s, dir);
      case Child(dir) => SpawnBill(s, dir);
    }
  }

  /** Events that touch no statistics and keep the running task cost nothing. */
  lemma NoBill(s: Sched, u: Sched, e: Event, c: Clock)
    requires s.Wf() && u.Wf() && e != ClockTick && u.current == s.current
    requires forall t: Tid :: u.tasks[t].stats == s.tasks[t].stats
    ensures Billed(s, u, e, c)
  {
  }

  lemma CloneBill(s: Sched, ok: bool, c: Clock)
    requires Inv(s)
    ensures Billed(s, Clone(s, ok), CloneCall(ok), c)
    ensures ok && s.Free() != [] ==> Clone(s, ok).tasks[s.Free()[0]].stats == Stats(0, 0, 0, 0, 0, 0)
  {
    hide LinkInv, PidInv, SemInv, OwnerInv, Spawn, Lose;
    if s.Free() != [] {
      SpawnBill(s, s.Cur().dir);
    }
  }

  lemma BodyBill(s: Sched, e: Event, c: Clock)
    requires Inv(s) && Enabled(s, e)
    ensures var u := if e == ClockTick then Schedule(s, c) else Body(s, e, c);
            && Billed(s, u, e, c)
            && (Spawns(s, e) ==> s.Free() != [] && u.tasks[s.Free()[0]].stats == Stats(0, 0, 0, 0, 0, 0))
  {
    hide LinkInv, PidInv, SemInv, OwnerInv, Exit, Schedule, Fork, Clone, Billed;
    match e
    case ClockTick => TickBill(s, c);
    case ForkCall(o) => ForkBill(s, o, c);
    case CloneCall(ok) => CloneBill(s, ok, c);
    case ExitCall => ExitBill(s, c);
    case SemWaitCall(n) =>
      var i := FindSem(s.sems, n, 0);
      if i != -1 && s.sems[i].counter <= 0 {
        WaitBill(s, n, i, c);
      } else {
        NoBill(s, SemWait(s, n, c), e, c);
      }
    case SemSignalCall(n) =>
      Signalling(s, n);
      NoBill(s, SemSignal(s, n), e, c);
    case SemDestroyCall(n) =>
      Signalling(s, n);
      NoBill(s, SemDestroy(s, n), e, c);
    case SemInitCall(n, v) => NoBill(s, SemInit(s, n, v), e, c);
    case SetQuantumCall(q) => NoBill(s, SetQuantum(s, q), e, c);
    case Quiet(q) => NoBill(s, s, e, c);
  }

  // ---- A whole step ----

  /** The statistics of the caller once it has entered the kernel. */
  function Entered(st: Stats, c: Clock): Stats {
    Stats(st.user + c.entry.first - st.elapsed, st.system, st.blocked, st.ready, c.entry.second, st.trans)
  }

  /** The statistics of the task that leaves the kernel, from what the body left. */
  function Left(st: Stats, c: Clock): Stats {
    Stats(st.user, st.system + c.leave.first - st.elapsed, st.blocked, st.ready, c.leave.second, st.trans)
  }

  /** The task that runs next leaves the kernel through `statsLeaveSys`: not after a call with a bad number, and not
      if it is idle in its first activation. */
  predicate Leaves(s: Sched, u: Sched, e: Event)
    requires s.Wf()
  {
    e != Quiet(BadNumber) && !(u.current == IDLE && s.current != IDLE && s.at[IDLE] == NOWHERE)
  }

  /** The statistics of task t after a step from s to u, from those before it. */
  function Settled(s: Sched, u: Sched, d: Do, t: Tid): Stats
    requires s.Wf()
  {
    var st := if t == s.current then Entered(s.tasks[t].stats, d.c) else s.tasks[t].stats;
    var paid := Bill(s.SetTask(t, s.tasks[t].(stats := st)), u, d.e, d.c, t);
    if t == u.current && Leaves(s, u, d.e) then Left(paid, d.c) else paid
  }

  /** Entry, bill and leaving put together. */
  lemma PutTogether(s: Sched, v: Sched, d: Do, t: Tid)
    requires s.Wf() && v.Wf() && !Made(s, d.e, t)
    requires v.tasks[t].stats == Bill(StatsEntry(s, d.c.entry), v, d.e, d.c, t)
    ensures var u := Leave(d.e, StatsEntry(s, d.c.entry), v, d.c.leave).(now := d.c.leave.second);
            u.tasks[t].stats == Settled(s, u, d, t)
  {
  }

  /** Every entry to the kernel, to the tick: between steps s and u, the caller is charged user time from its mark to
      its entry; whoever leaves the kernel is charged system time from its last mark to its leaving, and is marked
      there; and between the two the bill of the event is paid.  A new task starts with nothing. */
  lemma StepLedger(s: Sched, d: Do)
    requires Inv(s) && Enabled(s, d.e)
    ensures forall t: Tid | !Made(s, d.e, t) :: Step(s, d).tasks[t].stats == Settled(s, Step(s, d), d, t)
    ensures Spawns(s, d.e) ==> s.Free() != [] && Step(s, d).tasks[s.Free()[0]].stats == Stats(0, 0, 0, 0, 0, 0)
    ensures forall t: Tid | Made(s, d.e, t) :: t != Step(s, d).current && t != s.current
  {
    hide LinkInv, PidInv, SemInv, OwnerInv, Schedule, Body, Settled, Bill;
    var e := StatsEntry(s, d.c.entry);
    EntryInv(s, e, d.c.entry);
    StepForm(s, d);
    BodyBill(e, d.e, d.c);
    var v := if d.e == ClockTick then Schedule(e, d.c) else Body(e, d.e, d.c);
    MadeIsNotRunning(e, d.e, d.c);
    assert Step(s, d) == Leave(d.e, e, v, d.c.leave).(now := d.c.leave.second);
    forall t: Tid | !Made(s, d.e, t)
      ensures Step(s, d).tasks[t].stats == Settled(s, Step(s, d), d, t)
    {
      PutTogether(s, v, d, t);
    }
    assert forall t: Tid :: Made(e, d.e, t) == Made(s, d.e, t);
  }

  lemma MadeIsNotRunning(s: Sched, e: Event, c: Clock)
    requires Inv(s) && Enabled(s, e)
    ensures var u := if e == ClockTick then Schedule(s, c) else Body(s, e, c);
            forall t: Tid | Made(s, e, t) :: t != u.current && t != s.current
  {
    hide LinkInv, PidInv, SemInv, OwnerInv, Spawn, Lose, Exit, Schedule;
    if (Spawns(s, e) || Loses(e)) && s.Free() != [] {
      SpawnBill(s, s.Cur().dir);
      ForkStays(s, e, c);
    }
  }

  lemma ForkStays(s: Sched, e: Event, c: Clock)
    requires Inv(s) && Enabled(s, e) && (Spawns(s, e) || Loses(e)) && s.Free() != []
    ensures Body(s, e, c).current == s.current
  {
    AtIsMembership(s, s.Free()[0], FREE_QUEUE);
    hide LinkInv, PidInv, SemInv, OwnerInv;
  }

  /** Time in the kernel is nobody's user time: a step adds to the user ticks of its caller exactly the time from its
      mark to its entry, and nothing to anybody else's; and the mark of whoever then runs is the time it leaves. */
  lemma StepUser(s: Sched, d: Do)
    requires Inv(s) && Enabled(s, d.e)
    ensures var u := Step(s, d);
            && (forall t: Tid | !Made(s, d.e, t) ::
                  u.tasks[t].stats.user == s.tasks[t].stats.user +
                  if t == s.current then d.c.entry.first - s.tasks[t].stats.elapsed else 0)
            && (u.current != IDLE ==> u.Cur().stats.elapsed == WhenLeft(d))
  {
    StepLedger(s, d);
    BadNumberStays(s, d);
    hide Inv, Step, Spawns, Loses;
  }

  /** When the program that runs after a step went on: at the second read of the clock in `statsLeaveSys`, or after a
      call with a bad number at that in `statsEntrySys`. */
  function WhenLeft(d: Do): int {
    if d.e == Quiet(BadNumber) then d.c.entry.second else d.c.leave.second
  }

  lemma BadNumberStays(s: Sched, d: Do)
    requires Inv(s) && Enabled(s, d.e)
    ensures d.e == Quiet(BadNumber) ==> Step(s, d).current == s.current
  {
    hide LinkInv, PidInv, SemInv, OwnerInv;
    StepForm(s, d);
  }

  /** How often the processor is given: a step adds one to the transitions of a task that gets the processor from a
      queue, and of one whose quantum is renewed for want of others, and to no others'. */
  lemma StepTurns(s: Sched, d: Do)
    requires Inv(s) && Enabled(s, d.e)
    ensures var u := Step(s, d);
            forall t: Tid | !Made(s, d.e, t) ::
              u.tasks[t].stats.trans == s.tasks[t].stats.trans +
              if Gets(s, u, t) || (u.current == t && Renewed(s, d.e, t)) then 1 else 0
  {
    StepLedger(s, d);
    hide Inv, Step, Spawns, Loses;
  }

  /** A renewal leaves the processor with its task. */
  lemma RenewedStays(s: Sched, d: Do, t: Tid)
    requires Inv(s) && Enabled(s, d.e) && Renewed(s, d.e, t)
    ensures Step(s, d).current == t && Step(s, d).qLeft == s.tasks[t].quantum
  {
    hide PidInv, SemInv, OwnerInv, Linked;
    StepForm(s, d);
  }

  // ---- Runs ----

  /** Task t comes to life in the step. */
  predicate Born(s: Sched, e: Event, t: Tid)
    requires s.Wf()
  {
    Spawns(s, e) && s.Free() != [] && t == s.Free()[0]
  }

  /** The time that task t has spent outside the kernel on the processor since it was born, by the clock alone: the
      sum of the gaps between leaving and entering the kernel while it runs.  `so` is what it had at the start and
      `left` when the running program left the kernel last. */
  ghost function TimeOutside(s: Sched, tr: seq<Do>, t: Tid, so: int, left: int): int
    requires Inv(s) && CanRun(s, tr)
    decreases |tr|
  {
    if tr == [] then so
    else
      var d := tr[0];
      StepInv(s, d);
      var next := if Born(s, d.e, t) then 0 else if s.current == t then so + (d.c.entry.first - left) else so;
      TimeOutside(Step(s, d), tr[1..], t, next, WhenLeft(d))
  }

  /** The number of times that task t got the processor from a queue, or was left with it at the end of its quantum
      for want of others, since it was born. */
  ghost function Turns(s: Sched, tr: seq<Do>, t: Tid, so: int): int
    requires Inv(s) && CanRun(s, tr)
    decreases |tr|
  {
    if tr == [] then so
    else
      var d := tr[0];
      StepInv(s, d);
      var u := Step(s, d);
      var more := (if Gets(s, u, t) then 1 else 0) + (if Renewed(s, d.e, t) then 1 else 0);
      Turns(u, tr[1..], t, if Born(s, d.e, t) then 0 else so + more)
  }

  /** Neither the free queue nor the living ever win back a task. */
  lemma CountedBefore(s: Sched, d: Do, t: Tid)
    requires Inv(s) && Enabled(s, d.e) && Counted(Step(s, d), t)
    ensures Counted(s, t) && !(Loses(d.e) && Made(s, d.e, t))
  {
    StepInv(s, d);
    StepMoves(s, d);
    MovesCounted(s, Step(s, d), d.e, t);
    assert Alive(s, s.current);
    if Loses(d.e) && Made(s, d.e, t) {
      LoserGone(s, t);
    }
    hide Inv, Step, Alive;
  }

  lemma LoserGone(s: Sched, t: Tid)
    requires Inv(s) && s.Free() != [] && t == s.Free()[0]
    ensures t !in s.Free()[1..] && !Alive(s, t)
  {
    NotInRest(s);
  }

  lemma {:induction false} CountedAllAlong(s: Sched, tr: seq<Do>, t: Tid)
    requires Inv(s) && CanRun(s, tr) && Counted(Run(s, tr), t)
    ensures Counted(s, t)
    decreases |tr|
  {
    if tr != [] {
      StepInv(s, tr[0]);
      CountedAllAlong(Step(s, tr[0]), tr[1..], t);
      CountedBefore(s, tr[0], t);
    }
  }

  /** What one step does to the user ticks and the transitions of a task that is not lost, births included. */
  lemma StepCounters(s: Sched, d: Do, t: Tid)
    requires Inv(s) && Enabled(s, d.e) && (Counted(Step(s, d), t) || t == IDLE)
    ensures var u := Step(s, d);
            var gap := if s.current == t then d.c.entry.first - s.tasks[t].stats.elapsed else 0;
            u.tasks[t].stats.user == if Born(s, d.e, t) then 0 else s.tasks[t].stats.user + gap
    ensures var u := Step(s, d);
            var more := (if Gets(s, u, t) then 1 else 0) + (if Renewed(s, d.e, t) then 1 else 0);
            u.tasks[t].stats.trans == if Born(s, d.e, t) then 0 else s.tasks[t].stats.trans + more
  {
    hide LinkInv, PidInv, SemInv, OwnerInv, Step, Counted, Alive;
    StepLedger(s, d);
    StepUser(s, d);
    StepTurns(s, d);
    if Renewed(s, d.e, t) {
      RenewedStays(s, d, t);
    }
    if t == IDLE {
      IdleIsNotMade(s, d.e);
    } else {
      CountedBefore(s, d, t);
    }
  }

  lemma IdleIsNotMade(s: Sched, e: Event)
    requires Inv(s)
    ensures !Made(s, e, IDLE)
  {
    if s.Free() != [] {
      AtIsMembership(s, s.Free()[0], FREE_QUEUE);
    }
  }

  lemma CountedIsNotIdle(s: Sched, t: Tid)
    requires s.Wf() && Counted(s, t)
    ensures t != IDLE
  {
  }

  /** User time is user time: over every run the user ticks of a task other than idle, unless it is lost, are exactly
      the time that it has spent outside the kernel on the processor since it was born. */
  lemma {:induction false} UserIsTimeOutside(s: Sched, tr: seq<Do>, t: Tid, left: int)
    requires Inv(s) && CanRun(s, tr) && Counted(Run(s, tr), t)
    requires s.current != IDLE ==> s.Cur().stats.elapsed == left
    ensures Run(s, tr).tasks[t].stats.user == TimeOutside(s, tr, t, s.tasks[t].stats.user, left)
    decreases |tr|
  {
    hide LinkInv, PidInv, SemInv, OwnerInv, Step, Counted, Born, WhenLeft, Made, Enabled, Forward;
    if tr != [] {
      StepInv(s, tr[0]);
      CountedAllAlong(Step(s, tr[0]), tr[1..], t);
      CountedIsNotIdle(Step(s, tr[0]), t);
      StepCounters(s, tr[0], t);
      StepUser(s, tr[0]);
      UserIsTimeOutside(Step(s, tr[0]), tr[1..], t, WhenLeft(tr[0]));
    }
  }

  /** Transitions are turns: over every run `total_trans` of a task that is not lost is exactly the number of times it
      got the processor from a queue, or kept it for want of others, since it was born. */
  lemma {:induction false} TransIsTurns(s: Sched, tr: seq<Do>, t: Tid)
    requires Inv(s) && CanRun(s, tr) && (Counted(Run(s, tr), t) || t == IDLE)
    ensures Run(s, tr).tasks[t].stats.trans == Turns(s, tr, t, s.tasks[t].stats.trans)
    decreases |tr|
  {
    hide LinkInv, PidInv, SemInv, OwnerInv, Step, Counted, Born, Gets, Renewed, Made, Enabled, Forward;
    if tr != [] {
      StepInv(s, tr[0]);
      if t != IDLE {
        CountedAllAlong(Step(s, tr[0]), tr[1..], t);
      }
      StepCounters(s, tr[0], t);
      TransIsTurns(Step(s, tr[0]), tr[1..], t);
    }
  }

  /** Both from boot, where all counters and marks are 0. */
  lemma CountersFromBoot(now: int, tr: seq<Do>, t: Tid)
    requires CanRun(Booted(now), tr) && Counted(Run(Booted(now), tr), t)
    ensures var u := Run(Booted(now), tr);
            && u.tasks[t].stats.user == TimeOutside(Booted(now), tr, t, 0, 0)
            && u.tasks[t].stats.trans == Turns(Booted(now), tr, t, 0)
  {
    BootStats(now);
    hide Inv, CanRun, Run, Boot, TimeOutside, Turns, Counted;
    UserIsTimeOutside(Booted(now), tr, t, 0);
    TransIsTurns(Booted(now), tr, t);
  }

  lemma BootStats(now: int)
    ensures forall t: Tid :: Booted(now).tasks[t].stats == Stats(0, 0, 0, 0, 0, 0)
  {
    hide Inv;
  }
}
