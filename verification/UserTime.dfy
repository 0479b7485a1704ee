/** User time across tasks: what all tasks but idle are charged as user ticks fits into the clock, over every run. */
module UserTime {
  import opened Common
  import opened SchedSpec
  import opened SchedSteps
  import opened SchedInv
  import opened SchedRuns
  import opened Accounting
  import opened Population

  /** A task whose user ticks count: not idle, and in a queue or on the processor.  The structure of a lost task
      holds a copy of its parent's statistics. */
  predicate Counted(s: Sched, t: Tid)
    requires s.Wf()
  {
    t != IDLE && (Alive(s, t) || t in s.Free())
  }

  function Share(s: Sched, t: Tid): int
    requires s.Wf()
  {
    if Counted(s, t) then s.tasks[t].stats.user else 0
  }

  /** The user ticks of the tasks below n that count. */
  function UserTicks(s: Sched, n: nat): int
    requires s.Wf() && n <= NR_TASKS
  {
    if n == 0 then 0 else UserTicks(s, n - 1) + Share(s, n - 1)
  }

  lemma {:induction false} LessEach(s: Sched, u: Sched, n: nat)
    requires s.Wf() && u.Wf() && n <= NR_TASKS
    requires forall t: Tid :: Share(u, t) <= Share(s, t)
    ensures UserTicks(u, n) <= UserTicks(s, n)
  {
    if n > 0 {
      LessEach(s, u, n - 1);
      assert Share(u, n - 1) <= Share(s, n - 1);
    }
  }

  lemma {:induction false} OneMore(s: Sched, u: Sched, x: Tid, more: int, n: nat)
    requires s.Wf() && u.Wf() && n <= NR_TASKS
    requires forall t: Tid :: Share(u, t) == Share(s, t) + if t == x then more else 0
    ensures UserTicks(u, n) == UserTicks(s, n) + if x < n then more else 0
  {
    if n > 0 {
      OneMore(s, u, x, more, n - 1);
      assert Share(u, n - 1) == Share(s, n - 1) + if n - 1 == x then more else 0;
    }
  }

  /** All user ticks charged so far lie before the mark of the running task, or before now while idle runs. */
  ghost predicate UserInv(s: Sched, now: int)
    requires s.Wf()
  {
    && (forall t: Tid :: 0 <= s.tasks[t].stats.user && s.tasks[t].stats.elapsed <= now)
    && UserTicks(s, NR_TASKS) <= if s.current == IDLE then now else s.Cur().stats.elapsed
  }

  // ---- What the body of a step does to user ticks and marks ----

  ghost predicate KeepsUser(s: Sched, u: Sched)
    requires s.Wf() && u.Wf()
  {
    forall t: Tid ::
      || u.tasks[t].stats.user == s.tasks[t].stats.user
      || u.tasks[t].stats.user == 0
      || (u.tasks[t].stats.user == s.Cur().stats.user && !Counted(u, t))
  }

  /** Marks move forward only, into the time of the step; a task that takes over the processor has a new one. */
  ghost predicate KeepsMarks(s: Sched, u: Sched, now: int, later: int)
    requires s.Wf() && u.Wf()
  {
    && now <= later
    && (forall t: Tid ::
          var e := u.tasks[t].stats.elapsed;
          e == s.tasks[t].stats.elapsed || e == s.Cur().stats.elapsed || e == 0 || e <= later)
    && (|| u.current == IDLE
        || (u.current == s.current && u.Cur().stats.elapsed == s.Cur().stats.elapsed)
        || u.Cur().stats.elapsed >= now)
  }

  ghost predicate Passes(s: Sched, u: Sched, now: int, later: int)
    requires s.Wf() && u.Wf()
  {
    KeepsUser(s, u) && KeepsMarks(s, u, now, later)
  }

  lemma Leaving(s: Sched, q: Queue, r: Reads)
    requires LinkInv(s) && OnCpu(s)
    ensures s.Cur().estado == StRun
    ensures var u := ExitRunCurrent(s, q, r);
            && u.current == s.current
            && (forall t: Tid :: u.tasks[t].stats.user == s.tasks[t].stats.user)
            && (forall t: Tid ::
                  u.tasks[t].stats.elapsed == if t == s.current then r.second else s.tasks[t].stats.elapsed)
  {
  }

  lemma Dispatching(s: Sched, c: Clock)
    requires LinkInv(s) && !OnCpu(s)
    ensures var u := SchedNext(s, c);
            && (forall t: Tid :: u.tasks[t].stats.user == s.tasks[t].stats.user)
            && (forall t: Tid ::
                  u.tasks[t].stats.elapsed == s.tasks[t].stats.elapsed || u.tasks[t].stats.elapsed == c.on2.second)
            && (u.current == IDLE || u.Cur().stats.elapsed == c.on2.second)
  {
    NextForm(s, c);
    hide LinkInv, SchedNext;
  }

  lemma Scheduling(s: Sched, c: Clock, now: int)
    requires LinkInv(s) && OnCpu(s) && 0 <= now && Forward(c, now)
    ensures Passes(s, Schedule(s, c), c.entry.second, c.on2.second)
  {
    hide Linked, ExitRunCurrent, SchedNext;
    var u := s.(qLeft := s.qLeft - 1);
    SameLinks(s, u);
    if u.qLeft == 0 && u.Ready() != [] {
      LeaveLinks(u, READY_QUEUE, c.off);
      Leaving(u, READY_QUEUE, c.off);
      Dispatching(ExitRunCurrent(u, READY_QUEUE, c.off), c);
    }
  }

  lemma Blocking(s: Sched, i: Slot, c: Clock, now: int)
    requires LinkInv(s) && OnCpu(s) && s.current != IDLE && s.sems[i].used && 0 <= now && Forward(c, now)
    ensures var v := ExitRunCurrent(s.SetTask(s.current, s.Cur().(semRet := 0)), SemQueue(i), c.off);
            LinkInv(v) && !OnCpu(v) && Passes(s, SchedNext(v, c), c.entry.second, c.on2.second)
  {
    hide Linked, ExitRunCurrent, SchedNext;
    var u := s.SetTask(s.current, s.Cur().(semRet := 0));
    SameLinks(s, u);
    LeaveLinks(u, SemQueue(i), c.off);
    Leaving(u, SemQueue(i), c.off);
    Dispatching(ExitRunCurrent(u, SemQueue(i), c.off), c);
  }

  lemma Exiting(s: Sched, c: Clock, now: int)
    requires Inv(s) && s.current != IDLE && 0 <= now && Forward(c, now)
    ensures forall t: Tid :: Exit(s, c).tasks[t].stats.user == s.tasks[t].stats.user
    ensures Passes(s, Exit(s, c), c.entry.second, c.on2.second)
  {
    hide Linked, PidInv, SemInv, OwnerInv, Vacate, SchedNext;
    VacateStats(s);
    VacateLinks(s);
    Dispatching(Vacate(s), c);
  }

  lemma Spawning(s: Sched, dir: Dir, now: int, later: int)
    requires LinkInv(s) && OnCpu(s) && s.Free() != [] && 0 <= now <= later
    ensures Passes(s, Spawn(s, dir), now, later) && Passes(s, Lose(s, dir), now, later)
  {
    SpawnMoves(s, dir);
    LoseMoves(s, dir);
    NotInRest(s);
    hide Linked, LinkInv, Alive;
    AtIsMembership(s, s.Free()[0], FREE_QUEUE);
  }

  lemma NotInRest(s: Sched)
    requires LinkInv(s) && OnCpu(s) && s.Free() != []
    ensures s.at[s.Free()[0]] == FREE_QUEUE && s.Free()[0] !in s.Free()[1..] && !Alive(s, s.Free()[0])
  {
  }

  lemma BodyPasses(s: Sched, e: Event, c: Clock, now: int)
    requires Inv(s) && Enabled(s, e) && e != ClockTick && 0 <= now && Forward(c, now)
    ensures Passes(s, Body(s, e, c), c.entry.second, c.on2.second)
  {
    hide LinkInv, PidInv, SemInv, OwnerInv, Spawn, Lose, Exit;
    match e
    case ForkCall(o) =>
      match o {
        case NoTask =>
        case NoDirectory => Spawning(s, s.Cur().dir, c.entry.second, c.on2.second);
        case NoFrames(d) => Spawning(s, d, c.entry.second, c.on2.second);
        case Child(d) => Spawning(s, d, c.entry.second, c.on2.second);
      }
    case CloneCall(ok) => if s.Free() != [] { Spawning(s, s.Cur().dir, c.entry.second, c.on2.second); }
    case ExitCall => Exiting(s, c, now);
    case SemWaitCall(n) =>
      var i := FindSem(s.sems, n, 0);
      if i != -1 && s.sems[i].counter <= 0 {
        Blocking(s, i, c, now);
      }
    case SemSignalCall(n) => Signalling(s, n);
    case SemDestroyCall(n) => Signalling(s, n);
    case SemInitCall(n, v) =>
    case SetQuantumCall(q) =>
    case Quiet(q) =>
  }

  // ---- One step ----

  /** Nobody comes to count who did not: births and deaths move tasks between the free queue and the living. */
  lemma MovesCounted(s: Sched, u: Sched, e: Event, t: Tid)
    requires s.Wf() && u.Wf() && Moves(s, u, e) && Counted(u, t)
    ensures Alive(s, s.current) ==> Counted(s, t)
  {
    hide Alive;
    if s.Free() != [] {
      assert s.Free() == [s.Free()[0]] + s.Free()[1..];
    }
  }

  lemma EntryKeeps(s: Sched, r: Reads, now: int)
    requires s.Wf() && UserInv(s, now) && Ordered(r, now)
    ensures UserInv(StatsEntry(s, r), r.second)
  {
    var u := StatsEntry(s, r);
    var more := if s.current == IDLE then 0 else r.first - s.Cur().stats.elapsed;
    assert forall t: Tid :: Counted(u, t) == Counted(s, t);
    assert Counted(s, s.current) <==> s.current != IDLE;
    OneMore(s, u, s.current, more, NR_TASKS);
    hide Counted, UserTicks;
  }

  lemma LeaveKeeps(s: Sched, r: Reads, now: int)
    requires s.Wf() && UserInv(s, now) && Ordered(r, now)
    ensures UserInv(StatsLeave(s, r), r.second) && UserInv(s, r.second)
  {
    var u := StatsLeave(s, r);
    assert forall t: Tid :: Counted(u, t) == Counted(s, t);
    LessEach(s, u, NR_TASKS);
    hide Counted, UserTicks;
  }

  lemma PassKeeps(s: Sched, u: Sched, e: Event, now: int, later: int)
    requires s.Wf() && u.Wf() && UserInv(s, now) && 0 <= now
    requires Moves(s, u, e) && Passes(s, u, now, later)
    ensures UserInv(u, later)
  {
    assert Alive(s, s.current);
    hide Moves, Alive, UserTicks;
    forall t: Tid
      ensures Share(u, t) <= Share(s, t)
    {
      if Counted(u, t) {
        MovesCounted(s, u, e, t);
      }
    }
    LessEach(s, u, NR_TASKS);
  }

  lemma StepKeeps(s: Sched, d: Do)
    requires Inv(s) && Enabled(s, d.e) && 0 <= s.now && Forward(d.c, s.now) && UserInv(s, s.now)
    ensures UserInv(Step(s, d), Step(s, d).now)
  {
    hide LinkInv, PidInv, SemInv, OwnerInv, Schedule, Body, StatsEntry, StatsLeave, UserInv, Moves, Passes;
    var u := StatsEntry(s, d.c.entry);
    EntryInv(s, u, d.c.entry);
    EntryKeeps(s, d.c.entry, s.now);
    StepForm(s, d);
    var v := if d.e == ClockTick then Schedule(u, d.c) else Body(u, d.e, d.c);
    BodyMoves(u, d.e, d.c);
    if d.e == ClockTick {
      Scheduling(u, d.c, s.now);
    } else {
      BodyPasses(u, d.e, d.c, s.now);
    }
    PassKeeps(u, v, d.e, d.c.entry.second, d.c.on2.second);
    LeaveKeeps(v, d.c.leave, d.c.on2.second);
    var w := Leave(d.e, u, v, d.c.leave);
    TimeOnly(w, d.c.leave.second);
  }

  lemma TimeOnly(s: Sched, now: int)
    requires s.Wf() && UserInv(s, now)
    ensures UserInv(s.(now := now), now)
  {
    var u := s.(now := now);
    assert forall t: Tid :: Counted(u, t) == Counted(s, t);
    LessEach(s, u, NR_TASKS);
  }

  // ---- Runs ----

  lemma {:induction false} RunKeeps(s: Sched, tr: seq<Do>)
    requires Inv(s) && CanRun(s, tr) && 0 <= s.now && UserInv(s, s.now)
    ensures var u := Run(s, tr); s.now <= u.now && UserInv(u, u.now)
    decreases |tr|
  {
    if tr != [] {
      StepInv(s, tr[0]);
      StepKeeps(s, tr[0]);
      assert s.now <= Step(s, tr[0]).now;
      hide Inv, Step, UserInv;
      RunKeeps(Step(s, tr[0]), tr[1..]);
    }
  }

  /** No tick of the clock is charged as user time to two tasks other than idle: in every run from boot the user
      ticks of all these tasks together do not exceed the clock. */
  lemma UserTimeFromBoot(now: int, tr: seq<Do>)
    requires 0 <= now && CanRun(Booted(now), tr)
    ensures var u := Run(Booted(now), tr); UserTicks(u, NR_TASKS) <= u.now
  {
    BootUser(now, NR_TASKS);
    hide Inv, CanRun, Run, Boot, UserTicks;
    RunKeeps(Booted(now), tr);
  }

  lemma {:induction false} BootUser(now: int, n: nat)
    requires 0 <= now && n <= NR_TASKS
    ensures Booted(now).now == now && UserTicks(Booted(now), n) == 0
    ensures n == NR_TASKS ==> UserInv(Booted(now), now)
  {
    hide Inv;
    if n > 0 {
      BootUser(now, n - 1);
    }
  }

  // ---- Idle ----

  lemma {:induction false} NoOwned(s: Sched, pid: int, i: nat)
    requires s.Wf() && i <= NR_SEMS && forall j: Slot :: s.sems[j].owner != pid
    ensures OwnedWaiters(s, pid, i) == []
    decreases NR_SEMS - i
  {
    if i < NR_SEMS {
      NoOwned(s, pid, i + 1);
    }
  }

  /** All reads of the clock in a step at tick `at`. */
  function Moment(at: int): Clock {
    var r := Reads(at, at);
    Clock(r, r, r, r, r)
  }

  lemma BootAlone()
    ensures var s := Booted(0);
            && s.current == INIT && s.Ready() == [] && s.at[IDLE] == NOWHERE && s.now == 0 && s.Cur().pid == 1
            && s.Cur().stats == s.tasks[IDLE].stats == ZERO_STATS
            && forall j: Slot :: s.sems[j].owner == 0
  {
    hide Inv;
  }

  /** The initial process alone exits at tick `at`: it has been charged all of them, and idle runs. */
  lemma ExitAlone(at: int)
    requires 0 <= at
    ensures var s := Booted(0);
            && Inv(s) && Enabled(s, ExitCall) && Forward(Moment(at), s.now)
            && var u := Step(s, Do(ExitCall, Moment(at)));
               && Inv(u) && u.current == IDLE && u.Ready() == [] && u.now == at
               && u.tasks[INIT].stats.user == at && u.tasks[IDLE].stats == ZERO_STATS
  {
    hide LinkInv, PidInv, SemInv, OwnerInv, Boot, Exit, OwnedWaiters;
    var s, c := Booted(0), Moment(at);
    BootAlone();
    StepInv(s, Do(ExitCall, c));
    var e := StatsEntry(s, c.entry);
    EntryInv(s, e, c.entry);
    NoOwned(e, e.Cur().pid, 0);
    ExitReleasesWaiters(e, c);
    ExitStats(e, c);
    assert Step(s, Do(ExitCall, c)) == Leave(ExitCall, e, Exit(e, c), c.leave).(now := at);
  }

  lemma ExitStats(s: Sched, c: Clock)
    requires Inv(s) && s.current != IDLE && Exit(s, c).current == IDLE && s.Ready() == []
    requires OwnedWaiters(s, s.Cur().pid, 0) == []
    ensures forall t: Tid :: Exit(s, c).tasks[t].stats == s.tasks[t].stats
  {
    hide Linked, PidInv, SemInv, OwnerInv, Vacate, SchedNext, OwnedWaiters;
    VacateStats(s);
    VacateWakes(s);
    VacateLinks(s);
    NextForm(Vacate(s), c);
  }

  /** With idle it is not so: idle starts with a mark of 0, so its first entry to the kernel charges it every tick
      since the clock began, which the other tasks have been charged already. */
  lemma IdleCountsAgain(at: int) returns (tr: seq<Do>)
    requires 0 <= at
    ensures CanRun(Booted(0), tr)
    ensures var u := Run(Booted(0), tr);
            u.now == at && u.tasks[INIT].stats.user == at && u.tasks[IDLE].stats.user == at
  {
    var s, c := Booted(0), Moment(at);
    var d, tick := Do(ExitCall, c), Do(ClockTick, c);
    ExitAlone(at);
    var u := Step(s, d);
    StepInv(u, tick);
    IdleTick(u, c);
    hide Inv, LinkInv, Step;
    tr := [d, tick];
    assert tr[1..] == [tick] && [tick][1..] == [];
    assert CanRun(u, [tick]);
    assert Run(s, tr) == Run(u, [tick]) == Run(Step(u, tick), []);
  }

  lemma IdleTick(u: Sched, c: Clock)
    requires Inv(u) && u.current == IDLE && u.Ready() == [] && u.tasks[IDLE].stats == ZERO_STATS
    ensures Step(u, Do(ClockTick, c)).tasks[IDLE].stats.user == c.entry.first
    ensures Step(u, Do(ClockTick, c)).tasks[INIT].stats.user == u.tasks[INIT].stats.user
  {
    hide PidInv, SemInv, OwnerInv, Linked;
  }
}
