/** Who is alive, who is free and which directory each live task uses, step by step. */
module Population {
  import opened Common
  import opened SchedSpec
  import opened SchedSteps
  import opened SchedInv

  /** Same free queue, same live tasks, same directories. */
  ghost predicate Settled(s: Sched, u: Sched) {
    && s.Wf() && u.Wf()
    && u.Free() == s.Free()
    && (forall t: Tid :: Alive(u, t) <==> Alive(s, t))
    && (forall t: Tid | Alive(s, t) :: u.tasks[t].dir == s.tasks[t].dir)
  }

  /** The first free task comes alive in directory dir. */
  ghost predicate Born(s: Sched, u: Sched, dir: Dir) {
    && s.Wf() && u.Wf()
    && s.Free() != []
    && u.Free() == s.Free()[1..]
    && (forall t: Tid :: Alive(u, t) <==> Alive(s, t) || t == s.Free()[0])
    && (forall t: Tid | Alive(s, t) :: u.tasks[t].dir == s.tasks[t].dir)
    && u.tasks[s.Free()[0]].dir == dir
  }

  /** The current task goes to the end of the free queue. */
  ghost predicate Gone(s: Sched, u: Sched) {
    && s.Wf() && u.Wf()
    && u.Free() == s.Free() + [s.current]
    && (forall t: Tid :: Alive(u, t) <==> Alive(s, t) && t != s.current)
    && (forall t: Tid | Alive(u, t) :: u.tasks[t].dir == s.tasks[t].dir)
  }

  /** The first free task leaves the free queue and does not come alive. */
  ghost predicate Dropped(s: Sched, u: Sched) {
    && s.Wf() && u.Wf()
    && s.Free() != []
    && u.Free() == s.Free()[1..]
    && (forall t: Tid :: Alive(u, t) <==> Alive(s, t))
    && (forall t: Tid | Alive(s, t) :: u.tasks[t].dir == s.tasks[t].dir)
  }

  /** The outcomes of `sys_fork` that lose a task. */
  predicate Loses(e: Event) {
    e.ForkCall? && (e.outcome.NoDirectory? || e.outcome.NoFrames?)
  }

  predicate Spawns(s: Sched, e: Event)
    requires s.Wf()
  {
    (e.ForkCall? && e.outcome.Child?) || (e.CloneCall? && e.ok && s.Free() != [])
  }

  function SpawnDir(s: Sched, e: Event): Dir
    requires s.Wf() && Spawns(s, e)
  {
    if e.ForkCall? then e.outcome.dir else s.Cur().dir
  }

  ghost predicate Moves(s: Sched, u: Sched, e: Event)
    requires s.Wf()
  {
    if Spawns(s, e) then Born(s, u, SpawnDir(s, e))
    else if e == ExitCall then Gone(s, u)
    else if Loses(e) then Dropped(s, u)
    else Settled(s, u)
  }

  lemma SpawnMoves(s: Sched, dir: Dir)
    requires LinkInv(s) && OnCpu(s) && s.Free() != []
    ensures Born(s, Spawn(s, dir), dir)
  {
    SpawnLinks(s, dir);
  }

  lemma LoseMoves(s: Sched, dir: Dir)
    requires LinkInv(s) && OnCpu(s) && s.Free() != []
    ensures Dropped(s, Lose(s, dir))
  {
    hide Linked;
    AtIsMembership(s, s.Free()[0], FREE_QUEUE);
    FirstFreeGoes(s, dir);
  }

  lemma FirstFreeGoes(s: Sched, dir: Dir)
    requires LinkInv(s) && s.Free() != []
    ensures Lose(s, dir).Free() == s.Free()[1..]
  {
    AtIsMembership(s, s.Free()[0], FREE_QUEUE);
    hide LinkInv;
  }

  lemma ScheduleMoves(s: Sched, c: Clock)
    requires LinkInv(s) && OnCpu(s)
    ensures Settled(s, Schedule(s, c))
  {
    SchedulePeople(s, c);
    var u := s.(qLeft := s.qLeft - 1);
    SameLinks(s, u);
    if u.qLeft == 0 && u.Ready() != [] {
      var v := ExitRunCurrent(u, READY_QUEUE, c.off);
      LeaveLinks(u, READY_QUEUE, c.off);
      assert forall t: Tid :: v.tasks[t].dir == s.tasks[t].dir;
      NextForm(v, c);
      assert Schedule(s, c) == SchedNext(v, c);
      hide LinkInv, ExitRunCurrent, SchedNext, Schedule;
    }
  }

  lemma BlockDirs(s: Sched, i: Slot, c: Clock)
    requires LinkInv(s) && OnCpu(s) && s.current != IDLE && s.sems[i].used
    ensures var v := ExitRunCurrent(s.SetTask(s.current, s.Cur().(semRet := 0)), SemQueue(i), c.off);
            && LinkInv(v) && !OnCpu(v)
            && SchedNext(v, c).Free() == s.Free()
            && forall t: Tid :: SchedNext(v, c).tasks[t].dir == s.tasks[t].dir
  {
    var v := ExitRunCurrent(s.SetTask(s.current, s.Cur().(semRet := 0)), SemQueue(i), c.off);
    BlockLinks(s, i, c);
    assert forall t: Tid :: v.tasks[t].dir == s.tasks[t].dir;
    NextForm(v, c);
    hide LinkInv, ExitRunCurrent, SchedNext;
  }

  lemma WaitMoves(s: Sched, n: int, c: Clock)
    requires Inv(s) && s.current != IDLE
    ensures Settled(s, SemWait(s, n, c))
  {
    SemWaitInv(s, n, c);
    var i := FindSem(s.sems, n, 0);
    if i != -1 && s.sems[i].counter <= 0 {
      BlockDirs(s, i, c);
    }
    hide PidInv, SemInv, OwnerInv, LinkInv, ExitRunCurrent, SchedNext;
  }

  lemma ExitMoves(s: Sched, c: Clock)
    requires Inv(s) && s.current != IDLE
    ensures Gone(s, Exit(s, c))
  {
    hide Linked, PidInv, SemInv, OwnerInv, Vacate, SchedNext, OwnedWaiters;
    ExitInv(s, c);
    ExitReleasesWaiters(s, c);
    VacateWakes(s);
    VacateLinks(s);
    NextForm(Vacate(s), c);
  }

  lemma SignalMoves(s: Sched, n: int)
    requires Inv(s)
    ensures Settled(s, SemSignal(s, n)) && Settled(s, SemDestroy(s, n))
  {
    hide Linked, PidInv, SemInv, OwnerInv;
    SemSignalInv(s, n);
    SemDestroyInv(s, n);
    var i := FindSem(s.sems, n, 0);
    if i != -1 && s.Blocked(i) != [] {
      WakeFirst(s, i);
    }
  }

  lemma BodyMoves(s: Sched, e: Event, c: Clock)
    requires Inv(s) && Enabled(s, e)
    ensures Moves(s, if e == ClockTick then Schedule(s, c) else Body(s, e, c), e)
  {
    assert s.Wf();
    hide LinkInv, PidInv, SemInv, OwnerInv, Spawn, Lose;
    match e
    case ClockTick => ScheduleMoves(s, c);
    case ForkCall(o) =>
      match o {
        case NoTask =>
        case NoDirectory => LoseMoves(s, s.Cur().dir);
        case NoFrames(d) => LoseMoves(s, d);
        case Child(d) => SpawnMoves(s, d);
      }
    case CloneCall(ok) => if s.Free() != [] { SpawnMoves(s, s.Cur().dir); }
    case ExitCall => ExitMoves(s, c);
    case SemDestroyCall(n) => SignalMoves(s, n);
    case SemSignalCall(n) => SignalMoves(s, n);
    case SemWaitCall(n) => WaitMoves(s, n, c);
    case SemInitCall(n, v) =>
    case SetQuantumCall(q) =>
    case Quiet(q) =>
  }

  /** Entering and leaving the kernel moves nobody. */
  lemma AroundMoves(s: Sched, u: Sched, v: Sched, w: Sched, e: Event)
    requires OnlyStats(s, u) && Moves(u, v, e) && OnlyStats(v, w)
    ensures Moves(s, w, e)
  {
    assert forall t: Tid :: Alive(u, t) <==> Alive(s, t);
    assert forall t: Tid :: Alive(w, t) <==> Alive(v, t);
  }

  lemma StepMoves(s: Sched, d: Do)
    requires Inv(s) && Enabled(s, d.e)
    ensures Moves(s, Step(s, d), d.e)
  {
    var u := StatsEntry(s, d.c.entry);
    EntryInv(s, u, d.c.entry);
    StepForm(s, d);
    hide StatsEntry, Step, PidInv, SemInv, OwnerInv;
    var v := if d.e == ClockTick then Schedule(u, d.c) else Body(u, d.e, d.c);
    BodyMoves(u, d.e, d.c);
    hide Schedule, Body, Moves;
    AroundMoves(s, u, v, Step(s, d), d.e);
  }
}
