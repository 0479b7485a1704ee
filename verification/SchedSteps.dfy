/** Steps of the scheduler machine, and what every run of it keeps.

    A step is one clock interrupt or one system call; both run with interrupts off, so each is atomic. */
module SchedSteps {
  import opened Common
  import opened SchedSpec

  /** What `sys_fork` meets: no free task, no free directory, too few frames (directory already taken),
      or success with a directory for the child. */
  datatype ForkOutcome = NoTask | NoDirectory | NoFrames(d: Dir) | Child(dir: Dir)

  /** Entries to the kernel that only pass through the statistics: any other system call, the keyboard interrupt,
      and a call of int 0x80 with a number out of range, which does not even run `statsLeaveSys`. */
  datatype Passage = OtherCall | Keyboard | BadNumber

  datatype Event =
    | ClockTick
    | ForkCall(outcome: ForkOutcome)
    | CloneCall(ok: bool)
    | ExitCall
    | SemInitCall(n: int, v: int)
    | SemDestroyCall(n: int)
    | SemWaitCall(n: int)
    | SemSignalCall(n: int)
    | SetQuantumCall(q: int)
    | Quiet(passage: Passage)

  datatype Do = Do(e: Event, c: Clock)

  function Fork(s: Sched, o: ForkOutcome): (after: Sched)
    requires LinkInv(s) && (o == NoTask <==> s.Free() == [])
    ensures after.Wf()
  {
    match o
    case NoTask => s
    case NoDirectory => Lose(s, s.Cur().dir)
    case NoFrames(d) => Lose(s, d)
    case Child(d) => Spawn(s, d)
  }

  function Clone(s: Sched, ok: bool): (after: Sched)
    requires LinkInv(s)
    ensures after.Wf()
  {
    if !ok || s.Free() == [] then s else Spawn(s, s.Cur().dir)
  }

  /** `set_quantum` sets the quantum of the current task, whatever task it is given. */
  function SetQuantum(s: Sched, q: int): (after: Sched)
    requires s.Wf()
    ensures after.Wf()
  {
    s.SetTask(s.current, s.Cur().(quantum := q))
  }

  /** The two interrupts may come at any time; the idle task makes no system calls, and `sys_sem_init` relies
      on a slot being free. */
  predicate Enabled(s: Sched, e: Event)
    requires s.Wf()
  {
    && (e != ClockTick && e != Quiet(Keyboard) ==> s.current != IDLE)
    && (e.ForkCall? ==> (e.outcome == NoTask <==> s.Free() == []))
    && (e.SemInitCall? ==> 0 <= e.v < 0x1_0000_0000 && (FindSem(s.sems, e.n, 0) == -1 ==> FindFreeSem(s.sems, 0) != -1))
  }

  /** The body of a system call, between `statsEntrySys` and `statsLeaveSys`. */
  function Body(s: Sched, e: Event, c: Clock): (after: Sched)
    requires LinkInv(s) && OnCpu(s) && Enabled(s, e) && e != ClockTick
    ensures after.Wf()
  {
    match e
    case ForkCall(o) => Fork(s, o)
    case CloneCall(ok) => Clone(s, ok)
    case ExitCall => Exit(s, c)
    case SemInitCall(n, v) => SemInit(s, n, v)
    case SemDestroyCall(n) => SemDestroy(s, n)
    case SemWaitCall(n) => SemWait(s, n, c)
    case SemSignalCall(n) => SemSignal(s, n)
    case SetQuantumCall(q) => SetQuantum(s, q)
    case Quiet(q) => s
  }

  /** The idle task starts in its own loop the first time it gets the processor: it has no system call to
      leave, so `statsLeaveSys` does not run. */
  predicate IdleStarts(before: Sched, after: Sched)
    requires before.Wf()
  {
    after.current == IDLE && before.at[IDLE] == NOWHERE && before.current != IDLE
  }

  function Leave(e: Event, before: Sched, after: Sched, r: Reads): (left: Sched)
    requires before.Wf() && after.Wf()
    ensures left.Wf()
  {
    if e == Quiet(BadNumber) || IdleStarts(before, after) then after else StatsLeave(after, r)
  }

  function Step(s: Sched, d: Do): (after: Sched)
    requires LinkInv(s) && OnCpu(s) && Enabled(s, d.e)
    ensures after.Wf()
  {
    EntryLinks(s, d.c.entry);
    var u := StatsEntry(s, d.c.entry);
    var v := if d.e == ClockTick then Schedule(u, d.c) else Body(u, d.e, d.c);
    StepBodyLinks(u, d.e, d.c);
    Leave(d.e, u, v, d.c.leave).(now := d.c.leave.second)
  }

  lemma SpawnLinks(s: Sched, dir: Dir)
    requires LinkInv(s) && OnCpu(s) && s.Free() != []
    ensures s.at[s.Free()[0]] == FREE_QUEUE
    ensures LinkInv(Spawn(s, dir)) && OnCpu(Spawn(s, dir))
    ensures LinkInv(Lose(s, dir)) && OnCpu(Lose(s, dir))
    ensures Lose(s, dir).at == s.at[s.Free()[0] := NOWHERE]
    ensures Lose(s, dir).queues == s.queues[FREE_QUEUE := s.Free()[1..]]
    ensures Spawn(s, dir).at == s.at[s.Free()[0] := READY_QUEUE]
    ensures Spawn(s, dir).queues == s.queues[FREE_QUEUE := s.Free()[1..]][READY_QUEUE := s.Ready() + [s.Free()[0]]]
  {
    var t := s.Free()[0];
    assert s.at[t] == FREE_QUEUE;
    var u := s.Unlink(t);
    UnlinkKeeps(s.queues, s.at, t);
    EnqueueKeeps(u.queues, u.at, t, READY_QUEUE);
    forall i: Slot | !s.sems[i].used
      ensures Spawn(s, dir).Blocked(i) == [] && Lose(s, dir).Blocked(i) == []
    {
      assert s.Blocked(i) == [];
    }
  }

  lemma ScheduleLinks(s: Sched, c: Clock)
    requires LinkInv(s) && OnCpu(s)
    ensures LinkInv(Schedule(s, c)) && OnCpu(Schedule(s, c))
  {
    var u := s.(qLeft := s.qLeft - 1);
    SameLinks(s, u);
    if u.qLeft == 0 {
      if u.Ready() == [] {
        SameLinks(s, Schedule(s, c));
      } else {
        LeaveLinks(u, READY_QUEUE, c.off);
        NextLinks(ExitRunCurrent(u, READY_QUEUE, c.off), c);
      }
    }
  }

  lemma SignalLinks(s: Sched, n: int)
    requires LinkInv(s) && OnCpu(s)
    ensures LinkInv(SemSignal(s, n)) && OnCpu(SemSignal(s, n))
  {
    var i := FindSem(s.sems, n, 0);
    if i != -1 {
      if s.Blocked(i) == [] {
        SameLinks(s, SemSignal(s, n));
      } else {
        assert s.at[s.Blocked(i)[0]] == SemQueue(i);
        MoveLinks(s, s.Blocked(i)[0], READY_QUEUE);
      }
    }
  }

  lemma WaitLinks(s: Sched, n: int, c: Clock)
    requires LinkInv(s) && OnCpu(s) && s.current != IDLE
    ensures LinkInv(SemWait(s, n, c)) && OnCpu(SemWait(s, n, c))
  {
    hide Linked, ExitRunCurrent, SchedNext;
    var i := FindSem(s.sems, n, 0);
    if i != -1 {
      var u := s.SetTask(s.current, s.Cur().(semRet := 0));
      SameLinks(s, u);
      if s.sems[i].counter <= 0 {
        LeaveLinks(u, SemQueue(i), c.off);
        NextLinks(ExitRunCurrent(u, SemQueue(i), c.off), c);
      } else {
        SameLinks(u, SemWait(s, n, c));
      }
    }
  }

  lemma SemLinks(s: Sched, e: Event, c: Clock)
    requires LinkInv(s) && OnCpu(s) && Enabled(s, e)
    requires e.SemInitCall? || e.SemDestroyCall? || e.SemWaitCall? || e.SemSignalCall?
    ensures LinkInv(Body(s, e, c)) && OnCpu(Body(s, e, c))
  {
    hide Linked, UpdateState, WakeAll;
    match e
    case SemInitCall(n, v) =>
      SameLinks(s, SemInit(s, n, v));
    case SemDestroyCall(n) =>
      SemDestroyLinks(s, n);
    case SemSignalCall(n) =>
      SignalLinks(s, n);
    case SemWaitCall(n) =>
      WaitLinks(s, n, c);
  }

  lemma StepBodyLinks(s: Sched, e: Event, c: Clock)
    requires LinkInv(s) && OnCpu(s) && Enabled(s, e)
    ensures var v := if e == ClockTick then Schedule(s, c) else Body(s, e, c);
            LinkInv(v) && OnCpu(v)
  {
    match e
    case ClockTick =>
      ScheduleLinks(s, c);
    case ForkCall(o) =>
      match o {
        case NoTask =>
        case NoDirectory => SpawnLinks(s, s.Cur().dir);
        case NoFrames(d) => SpawnLinks(s, d);
        case Child(d) => SpawnLinks(s, d);
      }
    case CloneCall(ok) =>
      if s.Free() != [] {
        SpawnLinks(s, s.Cur().dir);
      }
    case ExitCall =>
      VacateLinks(s);
      NextLinks(Vacate(s), c);
    case SetQuantumCall(q) =>
      SameLinks(s, SetQuantum(s, q));
    case Quiet(q) =>
    case _ =>
      SemLinks(s, e, c);
  }

  /** Every step starts and ends with true tags, proper links and one task on the processor. */
  lemma StepLinks(s: Sched, d: Do)
    requires LinkInv(s) && OnCpu(s) && Enabled(s, d.e)
    ensures LinkInv(Step(s, d)) && OnCpu(Step(s, d))
  {
    EntryLinks(s, d.c.entry);
    var u := StatsEntry(s, d.c.entry);
    var v := if d.e == ClockTick then Schedule(u, d.c) else Body(u, d.e, d.c);
    StepBodyLinks(u, d.e, d.c);
    EntryLinks(v, d.c.leave);
    SameLinks(Leave(d.e, u, v, d.c.leave), Step(s, d));
  }

  /** The two states differ at most in statistics and in the time. */
  ghost predicate OnlyStats(s: Sched, u: Sched) {
    && s.Wf() && u.Wf()
    && u == s.(tasks := u.tasks, now := u.now)
    && forall t: Tid :: u.tasks[t] == s.tasks[t].(stats := u.tasks[t].stats)
  }

  /** A step is its body between two updates of statistics. */
  lemma StepForm(s: Sched, d: Do)
    requires LinkInv(s) && OnCpu(s) && Enabled(s, d.e)
    ensures var u := StatsEntry(s, d.c.entry);
            && LinkInv(u) && OnCpu(u) && Enabled(u, d.e) && OnlyStats(s, u)
            && OnlyStats(if d.e == ClockTick then Schedule(u, d.c) else Body(u, d.e, d.c), Step(s, d))
  {
    EntryLinks(s, d.c.entry);
    var u := StatsEntry(s, d.c.entry);
    var v := if d.e == ClockTick then Schedule(u, d.c) else Body(u, d.e, d.c);
    hide LinkInv, Schedule, Body;
    assert Step(s, d) == Leave(d.e, u, v, d.c.leave).(now := d.c.leave.second);
  }
}
