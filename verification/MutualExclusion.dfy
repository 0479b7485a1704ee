/** Mutual exclusion by a semaphore that starts at 1, for clients that bracket wait and signal. */
module MutualExclusion {
  import opened Sequences
  import opened SchedSpec
  import opened SchedSteps
  import opened SchedInv
  import opened SemTable
  import opened SemHistory

  /** A task stays alive in every step except its own `sys_exit`. */
  lemma StaysAlive(s: Sched, d: Do, t: Tid)
    requires Inv(s) && Enabled(s, d.e) && Alive(s, t)
    requires d.e == ExitCall ==> t != s.current
    ensures Alive(Step(s, d), t)
  {
    var u := StatsEntry(s, d.c.entry);
    EntryInv(s, u, d.c.entry);
    BodyStaysAlive(u, d.e, d.c, t);
    assert Step(s, d) == Leave(d.e, u, if d.e == ClockTick then Schedule(u, d.c)
           else Body(u, d.e, d.c), d.c.leave).(now := d.c.leave.second);
    hide Inv, LinkInv, Step, Schedule, Body;
  }

  lemma BodyStaysAlive(s: Sched, e: Event, c: Clock, t: Tid)
    requires Inv(s) && Enabled(s, e) && Alive(s, t)
    requires e == ExitCall ==> t != s.current
    ensures Alive(if e == ClockTick then Schedule(s, c) else Body(s, e, c), t)
  {
    match e
    case ClockTick => SchedulePeople(s, c);
    case ForkCall(o) =>
      match o {
        case NoTask =>
        case NoDirectory => SpawnLinks(s, s.Cur().dir);
        case NoFrames(d) => SpawnLinks(s, d);
        case Child(d) => SpawnLinks(s, d);
      }
    case CloneCall(ok) => if s.Free() != [] { SpawnLinks(s, s.Cur().dir); }
    case ExitCall => ExitInv(s, c);
    case SemDestroyCall(n) => SemDestroyInv(s, n);
    case SemSignalCall(n) => SemSignalInv(s, n);
    case SemWaitCall(n) => SemWaitInv(s, n, c);
    case SemInitCall(n, v) =>
    case SetQuantumCall(q) =>
    case Quiet(q) =>
  }

  /** Clients of slot i bracket: they signal only when they hold, wait only when they do not, and do not exit
      while they hold. */
  predicate Bracketed(a: Aug, e: Event, i: Slot)
    requires a.s.Wf() && |a.h| == NR_SEMS
  {
    match e
    case SemSignalCall(n) => FindSem(a.s.sems, n, 0) == i ==> a.s.current in a.h[i].holders
    case SemWaitCall(n) => FindSem(a.s.sems, n, 0) == i ==> a.s.current !in a.h[i].holders
    case ExitCall => a.s.current !in a.h[i].holders
    case _ => true
  }

  /** The holders are what the counter has handed out. */
  ghost predicate HolderInv(a: Aug, i: Slot)
    requires HInv(a)
  {
    a.s.sems[i].used ==>
      && |a.h[i].holders| + a.s.sems[i].counter == a.h[i].v
      && forall t: Tid | t in a.h[i].holders :: Alive(a.s, t) && a.s.at[t] != SemQueue(i)
  }

  /** The counter of slot i follows the history. */
  lemma CounterFollows(a: Aug, b: Aug, i: Slot)
    requires HInv(a) && HInv(b) && a.s.sems[i].used && b.s.sems[i].used
    requires b.h[i].v == a.h[i].v
    ensures b.s.sems[i].counter - a.s.sems[i].counter ==
            (b.h[i].signals - a.h[i].signals) - (Completed(b.h[i]) - Completed(a.h[i]))
  {
    assert Conserved(ValAt(a.s, i), a.h[i]) && Conserved(ValAt(b.s, i), b.h[i]);
  }

  /** A slot becomes used only by `sys_sem_init` of a free one. */
  lemma UsedBefore(s: Sched, d: Do, i: Slot)
    requires Inv(s) && Enabled(s, d.e)
    ensures Step(s, d).sems[i].used && !s.sems[i].used ==>
              d.e.SemInitCall? && FindSem(s.sems, d.e.n, 0) == -1 && FindFreeSem(s.sems, 0) == i
    ensures d.e.SemInitCall? && FindSem(s.sems, d.e.n, 0) == -1 && FindFreeSem(s.sems, 0) == i ==>
              Step(s, d).sems[i].used && !s.sems[i].used
  {
    var u := StatsEntry(s, d.c.entry);
    EntryInv(s, u, d.c.entry);
    assert Step(s, d) == Leave(d.e, u, if d.e == ClockTick then Schedule(u, d.c)
           else Body(u, d.e, d.c), d.c.leave).(now := d.c.leave.second);
    BodyUsed(u, d.e, d.c, i);
    hide Inv, LinkInv, Step, Schedule, Body;
  }

  lemma BodyUsed(s: Sched, e: Event, c: Clock, i: Slot)
    requires Inv(s) && Enabled(s, e)
    ensures var u := if e == ClockTick then Schedule(s, c) else Body(s, e, c);
            (u.sems[i].used && !s.sems[i].used) <==> (e.SemInitCall? &&
                FindSem(s.sems, e.n, 0) == -1 && FindFreeSem(s.sems, 0) == i)
  {
    hide PidInv, SemInv, OwnerInv;
    match e
    case ClockTick => SchedulePeople(s, c);
    case ForkCall(o) => ForkKeepsSems(s, o);
    case CloneCall(ok) => if s.Free() != [] { SpawnLinks(s, s.Cur().dir); }
    case ExitCall => ExitDestroysOwn(s, c);
    case SemWaitCall(n) =>
      if FindSem(s.sems, n, 0) != -1 {
        WaitOnlySlot(s, n, c);
      }
    case _ =>
  }

  lemma HolderStep(a: Aug, d: Do, i: Slot)
    requires HInv(a) && Enabled(a.s, d.e) && HolderInv(a, i) && Bracketed(a, d.e, i)
    ensures HInv(AugStep(a, d)) && HolderInv(AugStep(a, d), i)
  {
    AugStepInv(a, d);
    var b := AugStep(a, d);
    if b.s.sems[i].used {
      UsedBefore(a.s, d, i);
      HolderCount(a, d, i);
      forall t: Tid | t in b.h[i].holders
        ensures Alive(b.s, t) && b.s.at[t] != SemQueue(i)
      {
        HolderPlace(a, d, i, t);
      }
    }
  }

  lemma FirstWaits(a: Aug, i: Slot)
    requires HInv(a) && a.s.Blocked(i) != []
    ensures a.s.at[a.s.Blocked(i)[0]] == SemQueue(i)
  {
  }

  /** The holders follow the history too: one more for each completed wait, one less for each signal. */
  lemma HoldersFollow(s: Sched, e: Event, h: seq<Hist>, i: Slot)
    requires s.Wf() && |h| == NR_SEMS && Enabled(s, e) && s.sems[i].used
    requires s.Blocked(i) != [] ==> s.Blocked(i)[0] !in h[i].holders
    requires e.SemSignalCall? && FindSem(s.sems, e.n, 0) == i ==> s.current in h[i].holders
    requires e.SemWaitCall? && FindSem(s.sems, e.n, 0) == i ==> s.current !in h[i].holders
    ensures var x := Watch(s, e, h)[i];
            && x.v == h[i].v
            && |x.holders| - |h[i].holders| == (Completed(x) - Completed(h[i])) - (x.signals - h[i].signals)
  {
    hide FindSem, FindFreeSem;
    match e
    case SemSignalCall(n) =>
      var j := FindSem(s.sems, n, 0);
      if j == i && s.Blocked(i) != [] {
        var rest := h[i].holders - {s.current};
        assert |rest| == |h[i].holders| - 1 && |rest + {s.Blocked(i)[0]}| == |rest| + 1;
      }
    case SemWaitCall(n) =>
    case SemInitCall(n, v) =>
    case _ =>
  }

  lemma HolderCount(a: Aug, d: Do, i: Slot)
    requires HInv(a) && Enabled(a.s, d.e) && HolderInv(a, i) && Bracketed(a, d.e, i)
    requires HInv(AugStep(a, d)) && AugStep(a, d).s.sems[i].used
    ensures var b := AugStep(a, d); |b.h[i].holders| + b.s.sems[i].counter == b.h[i].v
  {
    var b := AugStep(a, d);
    UsedBefore(a.s, d, i);
    if a.s.sems[i].used {
      if a.s.Blocked(i) != [] {
        FirstWaits(a, i);
      }
      HoldersFollow(a.s, d.e, a.h, i);
      hide HInv, Step, Ends, Watch;
      CounterFollows(a, b, i);
    } else {
      assert Conserved(ValAt(b.s, i), b.h[i]);
      hide HInv, Inv, Step, Ends, Conserved;
    }
  }

  predicate BlocksOn(s: Sched, e: Event, i: Slot)
    requires s.Wf()
  {
    e.SemWaitCall? && FindSem(s.sems, e.n, 0) == i && s.sems[i].counter <= 0
  }

  predicate WakesFirstOf(s: Sched, e: Event, i: Slot)
    requires s.Wf()
  {
    e.SemSignalCall? && FindSem(s.sems, e.n, 0) == i && s.Blocked(i) != []
  }

  /** A task waits in slot i after a step only if it did before and was not woken, or it has just blocked. */
  lemma WhoWaits(a: Aug, d: Do, i: Slot, t: Tid)
    requires HInv(a) && Enabled(a.s, d.e) && HInv(AugStep(a, d)) && AugStep(a, d).s.at[t] == SemQueue(i)
    ensures (a.s.at[t] == SemQueue(i) && (WakesFirstOf(a.s, d.e, i) ==> t != a.s.Blocked(i)[0]))
            || (t == a.s.current && BlocksOn(a.s, d.e, i))
  {
    var b := AugStep(a, d);
    assert b.out[t] == Waiting(i);
    assert Ends(a.s, d.e, a.out)[t] == Waiting(i);
    assert a.out[t] == Waiting(i) ==> 2 <= a.s.at[t] < NR_QUEUES;
    hide LinkInv, PidInv, SemInv, OwnerInv, Step, AugStep, SlotInv;
  }

  /** A task holds after a step only if it did before, or its wait has just completed. */
  lemma WhoHolds(a: Aug, d: Do, i: Slot, t: Tid)
    requires HInv(a) && Enabled(a.s, d.e) && Bracketed(a, d.e, i) && a.s.sems[i].used
    requires t in Watch(a.s, d.e, a.h)[i].holders
    ensures || t in a.h[i].holders
            || (t == a.s.current && !BlocksOn(a.s, d.e, i))
            || (WakesFirstOf(a.s, d.e, i) && t == a.s.Blocked(i)[0])
  {
    assert a.s.Wf() && |a.h| == NR_SEMS;
    hide HInv, Enabled;
  }

  lemma HolderPlace(a: Aug, d: Do, i: Slot, t: Tid)
    requires HInv(a) && Enabled(a.s, d.e) && HolderInv(a, i) && Bracketed(a, d.e, i)
    requires HInv(AugStep(a, d)) && AugStep(a, d).s.sems[i].used && t in AugStep(a, d).h[i].holders
    ensures Alive(AugStep(a, d).s, t) && AugStep(a, d).s.at[t] != SemQueue(i)
  {
    UsedBefore(a.s, d, i);
    if a.s.sems[i].used {
      WhoHolds(a, d, i, t);
      if a.s.Blocked(i) != [] {
        FirstWaits(a, i);
      }
      assert a.s.at[a.s.current] == NOWHERE;
      assert Alive(a.s, t);
      StaysAlive(a.s, d, t);
      hide Inv, Step, Watch, Ends;
      if AugStep(a, d).s.at[t] == SemQueue(i) {
        WhoWaits(a, d, i, t);
      }
    }
  }

  ghost predicate BracketedRun(a: Aug, tr: seq<Do>, i: Slot)
    requires HInv(a) && AugCanRun(a, tr)
    decreases |tr|
  {
    tr == [] || (Bracketed(a, tr[0].e, i) && (AugStepInv(a, tr[0]); BracketedRun(AugStep(a, tr[0]), tr[1..], i)))
  }

  /** As long as its clients bracket, the tasks inside a semaphore are at most its initial value in every state
      of every run; for a semaphore that starts at 1, at most one task is inside. */
  lemma {:induction false} AtMostInitialValue(a: Aug, tr: seq<Do>, i: Slot)
    requires HInv(a) && AugCanRun(a, tr) && HolderInv(a, i) && BracketedRun(a, tr, i)
    ensures var b := AugRun(a, tr);
            HolderInv(b, i) && (b.s.sems[i].used && b.h[i].v >= 0 ==> |b.h[i].holders| <= b.h[i].v)
    decreases |tr|
  {
    if tr == [] {
      assert a.s.sems[i].used ==> Conserved(ValAt(a.s, i), a.h[i]);
    } else {
      AugStepInv(a, tr[0]);
      HolderStep(a, tr[0], i);
      AtMostInitialValue(AugStep(a, tr[0]), tr[1..], i);
    }
  }

  /** The slot that `sys_sem_init` of a new identifier takes starts with counter v and nobody inside. */
  lemma FreshSlot(a: Aug, n: int, v: int, c: Clock)
    requires HInv(a) && Enabled(a.s, SemInitCall(n, v)) && FindSem(a.s.sems, n, 0) == -1 && 0 <= v < 0x8000_0000
    ensures var i, b := FindFreeSem(a.s.sems, 0), AugStep(a, Do(SemInitCall(n, v), c));
            && 0 <= i < NR_SEMS && HInv(b) && HolderInv(b, i)
            && b.s.sems[i].used && b.s.sems[i].nSem == n && b.s.sems[i].counter == v
            && b.h[i].v == v && b.h[i].holders == {}
  {
    var d := Do(SemInitCall(n, v), c);
    var i := FindFreeSem(a.s.sems, 0);
    UsedBefore(a.s, d, i);
    AugStepInv(a, d);
    InitSlot(a.s, n, v, c);
    hide LinkInv, PidInv, SemInv, OwnerInv, Step, SlotInv, OutInv;
  }

  lemma InitSlot(s: Sched, n: int, v: int, c: Clock)
    requires Inv(s) && Enabled(s, SemInitCall(n, v)) && FindSem(s.sems, n, 0) == -1 && 0 <= v < 0x8000_0000
    ensures var x := Step(s, Do(SemInitCall(n, v), c)).sems[FindFreeSem(s.sems, 0)];
            x.used && x.nSem == n && x.counter == v
  {
    hide LinkInv, PidInv, SemInv, OwnerInv;
    StepForm(s, Do(SemInitCall(n, v), c));
  }

  /** Semaphores keep their promise: after any run from boot, `sys_sem_init` of a new identifier with a value v below
      2 to the 31st; from then on, as long as the semaphore is in use and its clients bracket, at most v tasks are
      inside it, whatever else happens. */
  lemma AtMostGivenValue(now: int, before: seq<Do>, n: int, v: int, c: Clock, tr: seq<Do>)
    requires AugCanRun(AugBoot(now), before)
    requires var a := AugRun(AugBoot(now), before);
             && Enabled(a.s, SemInitCall(n, v)) && FindSem(a.s.sems, n, 0) == -1 && 0 <= v < 0x8000_0000
             && var i, b := FindFreeSem(a.s.sems, 0), AugStep(a, Do(SemInitCall(n, v), c));
                && 0 <= i < NR_SEMS && HInv(b)
                && AugCanRun(b, tr) && InUse(b, tr, i) && BracketedRun(b, tr, i)
    ensures var a := AugRun(AugBoot(now), before);
            var w := AugRun(AugStep(a, Do(SemInitCall(n, v), c)), tr);
            |w.h[FindFreeSem(a.s.sems, 0)].holders| <= v
  {
    hide LinkInv, PidInv, SemInv, OwnerInv, SlotInv, OutInv, HolderInv;
    hide AugBoot, AugRun, AugCanRun, AugStep, InUse, BracketedRun;
    var a := AugRun(AugBoot(now), before);
    var i, b := FindFreeSem(a.s.sems, 0), AugStep(a, Do(SemInitCall(n, v), c));
    FreshSlot(a, n, v, c);
    AtMostInitialValue(b, tr, i);
    RunGrows(b, tr, i);
  }

  /** Mutual exclusion: with value 1, two tasks inside are the same task. */
  lemma MutualExclusionFromBoot(now: int, before: seq<Do>, n: int, c: Clock, tr: seq<Do>, t: Tid, u: Tid)
    requires AugCanRun(AugBoot(now), before)
    requires var a := AugRun(AugBoot(now), before);
             && Enabled(a.s, SemInitCall(n, 1)) && FindSem(a.s.sems, n, 0) == -1
             && var i, b := FindFreeSem(a.s.sems, 0), AugStep(a, Do(SemInitCall(n, 1), c));
                && 0 <= i < NR_SEMS && HInv(b)
                && AugCanRun(b, tr) && InUse(b, tr, i) && BracketedRun(b, tr, i)
    ensures var a := AugRun(AugBoot(now), before);
            var inside := AugRun(AugStep(a, Do(SemInitCall(n, 1), c)), tr).h[FindFreeSem(a.s.sems, 0)].holders;
            t in inside && u in inside ==> t == u
  {
    hide LinkInv, PidInv, SemInv, OwnerInv, SlotInv, OutInv, AugBoot, AugRun, AugCanRun, AugStep, InUse, BracketedRun;
    AtMostGivenValue(now, before, n, 1, c, tr);
    var a := AugRun(AugBoot(now), before);
    var inside := AugRun(AugStep(a, Do(SemInitCall(n, 1), c)), tr).h[FindFreeSem(a.s.sems, 0)].holders;
    if t in inside && u in inside && t != u {
      TwoMembers(inside, t, u);
    }
  }

  lemma TwoMembers(s: set<Tid>, t: Tid, u: Tid)
    requires t in s && u in s && t != u
    ensures |s| >= 2
  {
    assert {t, u} <= s;
    SubsetCount({t, u}, s);
  }
}
