/** The accounting of ticks: no tick of the clock is charged twice to one task, whatever the run. */
module Accounting {
  import opened Common
  import opened SchedSpec
  import opened SchedSteps
  import opened SchedInv
  import opened SchedRuns

  function Charged(st: Stats): int {
    st.user + st.system + st.blocked + st.ready
  }

  /** Nothing is charged beyond the last mark, nor the last mark put beyond the clock; when `exact`, all the
      time up to the last mark is charged.  Nothing is ever charged as blocked time and, when `still`, nothing
      as ready time. */
  ghost predicate Fair(st: Stats, now: int, exact: bool, still: bool) {
    && Charged(st) <= st.elapsed <= now
    && (exact ==> Charged(st) == st.elapsed)
    && st.blocked == 0
    && (still ==> st.ready == 0)
  }

  ghost predicate FairAll(s: Sched, now: int, exact: bool, still: bool)
    requires s.Wf()
  {
    forall t: Tid :: Fair(s.tasks[t].stats, now, exact, still)
  }

  /** Within each update both reads of the clock return the same tick. */
  predicate Agree(c: Clock) {
    && c.entry.first == c.entry.second && c.off.first == c.off.second && c.on1.first == c.on1.second
    && c.on2.first == c.on2.second && c.leave.first == c.leave.second
  }

  /** The clock does not move between the two updates of a dispatch. */
  predicate Still(c: Clock) {
    c.on1.second == c.on2.first
  }

  /** A step replaces the statistics of some tasks by fair ones and may copy a task's. */
  ghost predicate Updates(s: Sched, u: Sched, now: int, later: int, exact: bool, still: bool)
    requires s.Wf() && u.Wf()
  {
    now <= later && (FairAll(s, now, exact, still) ==> FairAll(u, later, exact, still))
  }

  lemma Entering(s: Sched, r: Reads, now: int, exact: bool, still: bool)
    requires s.Wf() && Ordered(r, now) && (exact ==> r.first == r.second)
    ensures Updates(s, StatsEntry(s, r), now, r.second, exact, still)
    ensures Updates(s, StatsLeave(s, r), now, r.second, exact, still)
  {
  }

  lemma Leaving(s: Sched, q: Queue, r: Reads, now: int, exact: bool, still: bool)
    requires LinkInv(s) && OnCpu(s) && Ordered(r, now) && (exact ==> r.first == r.second)
    ensures s.Cur().estado == StRun
    ensures Updates(s, ExitRunCurrent(s, q, r), now, r.second, exact, still)
  {
  }

  lemma Dispatching(s: Sched, c: Clock, now: int, exact: bool, still: bool)
    requires LinkInv(s) && !OnCpu(s) && Ordered(c.on1, now) &&
             Ordered(c.on2, c.on1.second) && (exact ==> Agree(c)) && (still ==> Still(c))
    ensures s.Ready() != [] ==> s.at[s.Ready()[0]] == READY_QUEUE
    ensures Updates(s, SchedNext(s, c), now, c.on2.second, exact, still)
  {
    NextForm(s, c);
    hide LinkInv, SchedNext;
  }

  lemma Scheduling(s: Sched, c: Clock, now: int, exact: bool, still: bool)
    requires LinkInv(s) && OnCpu(s) && Forward(c, now) && (exact ==> Agree(c)) && (still ==> Still(c))
    ensures Updates(s, Schedule(s, c), c.entry.second, c.on2.second, exact, still)
  {
    var u := s.(qLeft := s.qLeft - 1);
    SameLinks(s, u);
    if u.qLeft == 0 && u.Ready() != [] {
      var v := ExitRunCurrent(u, READY_QUEUE, c.off);
      LeaveLinks(u, READY_QUEUE, c.off);
      NextLinks(v, c);
      Leaving(u, READY_QUEUE, c.off, c.entry.second, exact, still);
      Dispatching(v, c, c.off.second, exact, still);
      assert Schedule(s, c) == SchedNext(v, c);
      hide LinkInv, Linked, ExitRunCurrent, SchedNext, Schedule;
    }
  }

  lemma Blocking(s: Sched, i: Slot, c: Clock, now: int, exact: bool, still: bool)
    requires LinkInv(s) && OnCpu(s) && s.current != IDLE && s.sems[i].used
    requires Forward(c, now) && (exact ==> Agree(c)) && (still ==> Still(c))
    ensures var v := ExitRunCurrent(s.SetTask(s.current, s.Cur().(semRet := 0)), SemQueue(i), c.off);
            && LinkInv(v) && !OnCpu(v)
            && Updates(s, SchedNext(v, c), c.entry.second, c.on2.second, exact, still)
  {
    hide Linked, ExitRunCurrent, SchedNext;
    var u := s.SetTask(s.current, s.Cur().(semRet := 0));
    SameLinks(s, u);
    LeaveLinks(u, SemQueue(i), c.off);
    var v := ExitRunCurrent(u, SemQueue(i), c.off);
    NextLinks(v, c);
    Leaving(u, SemQueue(i), c.off, c.entry.second, exact, still);
    Dispatching(v, c, c.off.second, exact, still);
  }

  lemma Waiting(s: Sched, n: int, c: Clock, now: int, exact: bool, still: bool)
    requires Inv(s) && s.current != IDLE && Forward(c, now) && (exact ==> Agree(c)) && (still ==> Still(c))
    ensures Updates(s, SemWait(s, n, c), c.entry.second, c.on2.second, exact, still)
  {
    hide Linked, PidInv, SemInv, OwnerInv;
    var i := FindSem(s.sems, n, 0);
    if i != -1 && s.sems[i].counter <= 0 {
      Blocking(s, i, c, now, exact, still);
    }
  }

  lemma Exiting(s: Sched, c: Clock, now: int, exact: bool, still: bool)
    requires Inv(s) && s.current != IDLE && Forward(c, now) && (exact ==> Agree(c)) && (still ==> Still(c))
    ensures Updates(s, Exit(s, c), c.entry.second, c.on2.second, exact, still)
  {
    VacateStats(s);
    VacateLinks(s);
    Dispatching(Vacate(s), c, c.off.second, exact, still);
    hide Inv, LinkInv, Vacate, SchedNext;
  }

  lemma VacateStats(s: Sched)
    requires Inv(s) && s.current != IDLE
    ensures forall t: Tid :: Vacate(s).tasks[t].stats == s.tasks[t].stats
  {
    DestroyOwnedTasks(s, 0);
    VacateForm(s);
    hide Inv, LinkInv, Vacate, DestroyOwned;
  }

  lemma Signalling(s: Sched, n: int)
    requires LinkInv(s)
    ensures forall t: Tid :: SemSignal(s, n).tasks[t].stats == s.tasks[t].stats
    ensures forall t: Tid :: SemDestroy(s, n).tasks[t].stats == s.tasks[t].stats
  {
    var i := FindSem(s.sems, n, 0);
    if i != -1 && s.Blocked(i) != [] {
      WakeFirst(s, i);
    }
  }

  lemma Spawning(s: Sched, dir: Dir, now: int, later: int, exact: bool, still: bool)
    requires LinkInv(s) && s.Free() != [] && 0 <= now <= later
    ensures Updates(s, Spawn(s, dir), now, later, exact, still)
    ensures Updates(s, Lose(s, dir), now, later, exact, still)
  {
    hide Linked;
    AtIsMembership(s, s.Free()[0], FREE_QUEUE);
  }

  lemma BodyUpdates(s: Sched, e: Event, c: Clock, now: int, exact: bool, still: bool)
    requires Inv(s) && Enabled(s, e) && e != ClockTick && 0 <= now &&
             Forward(c, now) && (exact ==> Agree(c)) && (still ==> Still(c))
    ensures Updates(s, Body(s, e, c), c.entry.second, c.on2.second, exact, still)
  {
    hide PidInv, SemInv, OwnerInv;
    match e
    case ForkCall(o) =>
      match o {
        case NoTask =>
        case NoDirectory => Spawning(s, s.Cur().dir, c.entry.second, c.on2.second, exact, still);
        case NoFrames(d) => Spawning(s, d, c.entry.second, c.on2.second, exact, still);
        case Child(d) => Spawning(s, d, c.entry.second, c.on2.second, exact, still);
      }
    case CloneCall(ok) => if s.Free() != [] { Spawning(s, s.Cur().dir, c.entry.second, c.on2.second, exact, still); }
    case ExitCall => Exiting(s, c, now, exact, still);
    case SemWaitCall(n) => Waiting(s, n, c, now, exact, still);
    case SemSignalCall(n) => Signalling(s, n);
    case SemDestroyCall(n) => Signalling(s, n);
    case SemInitCall(n, v) =>
    case SetQuantumCall(q) =>
    case Quiet(q) =>
  }

  /** One step, from the clock before it to the clock after it. */
  lemma StepUpdates(s: Sched, d: Do, exact: bool, still: bool)
    requires Inv(s) && Enabled(s, d.e) && 0 <= s.now && Forward(d.c, s.now) &&
             (exact ==> Agree(d.c)) && (still ==> Still(d.c))
    ensures Updates(s, Step(s, d), s.now, Step(s, d).now, exact, still)
  {
    var u := StatsEntry(s, d.c.entry);
    Entering(s, d.c.entry, s.now, exact, still);
    EntryInv(s, u, d.c.entry);
    var v := if d.e == ClockTick then Schedule(u, d.c) else Body(u, d.e, d.c);
    if d.e == ClockTick {
      Scheduling(u, d.c, s.now, exact, still);
    } else {
      BodyUpdates(u, d.e, d.c, s.now, exact, still);
    }
    Entering(v, d.c.leave, d.c.on2.second, exact, still);
    assert Step(s, d) == Leave(d.e, u, v, d.c.leave).(now := d.c.leave.second);
    hide Inv, LinkInv, Step, Schedule, Body, StatsEntry, StatsLeave;
  }

  ghost predicate AgreeRun(tr: seq<Do>) {
    forall j | 0 <= j < |tr| :: Agree(tr[j].c)
  }

  ghost predicate StillRun(tr: seq<Do>) {
    forall j | 0 <= j < |tr| :: Still(tr[j].c)
  }

  /** In every run, for every task: user + system + blocked + ready ticks never exceed the task's last
      mark, which never exceeds the clock; and they are equal to it as long as the two reads inside each update
      agree.  The blocked counter stays 0, and the ready counter too unless the clock moves between the two
      updates of a dispatch: the time a task spends blocked or ready goes to its system counter. */
  lemma {:induction false} NoTickTwice(s: Sched, tr: seq<Do>, exact: bool, still: bool)
    requires Inv(s) && CanRun(s, tr) && 0 <= s.now && FairAll(s, s.now, exact, still) &&
             (exact ==> AgreeRun(tr)) && (still ==> StillRun(tr))
    ensures var u := Run(s, tr); s.now <= u.now && FairAll(u, u.now, exact, still)
    decreases |tr|
  {
    if tr != [] {
      StepInv(s, tr[0]);
      StepUpdates(s, tr[0], exact, still);
      hide Inv, Step;
      NoTickTwice(Step(s, tr[0]), tr[1..], exact, still);
    }
  }

  lemma BootIsFair(now: int, exact: bool, still: bool)
    requires 0 <= now
    ensures Inv(Booted(now)) && Booted(now).now == now && FairAll(Booted(now), now, exact, still)
  {
    hide Inv;
  }

  lemma NoTickTwiceFromBoot(now: int, tr: seq<Do>)
    requires 0 <= now && CanRun(Booted(now), tr)
    ensures var u := Run(Booted(now), tr); FairAll(u, u.now, AgreeRun(tr), StillRun(tr))
  {
    BootIsFair(now, AgreeRun(tr), StillRun(tr));
    hide Inv, CanRun, Run, FairAll, AgreeRun, StillRun, Boot;
    NoTickTwice(Booted(now), tr, AgreeRun(tr), StillRun(tr));
  }
}
