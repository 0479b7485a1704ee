/** When `sys_fork` succeeds, when it loses a task, and what the initial process has to do with it. */
module ForkCapacity {
  import opened Common
  import opened SchedSpec
  import opened SchedSteps
  import opened SchedInv
  import opened Population
  import opened MemSpec
  import opened AddressSpaces
  import opened Machine
  import opened MachineRuns

  /** For every memory, reachable or not: `sys_fork` succeeds if and only if there are a free task, a directory
      nobody counts, and 20 frames to hand out. */
  lemma ForkExactly(k: K)
    requires k.s.Wf() && k.m.Wf() && k.m.refs[k.s.Cur().dir] != 0
    ensures ForkMeets(k).Child? <==>
              && k.s.Free() != [] && (exists d: Dir :: k.m.refs[d] == 0)
              && |Available(k.m.phys)| >= NUM_PAG_DATA
  {
    var d := FirstDir(k.m.refs, 0);
    var p := k.s.Cur().dir;
    if d != -1 {
      SharedEffect(k.m, p, d);
      ForkPagesOk(Shared(k.m, p, d), p, d, 0);
    }
  }

  // ---- Lost tasks ----

  /** A fork with a free task and all 15 directories counted. */
  predicate ForkWhenFull(k: K, ev: KEvent)
    requires k.s.Wf() && k.m.Wf()
  {
    ev.Kernel? && ev.d.e.ForkCall? && k.s.Free() != [] && forall d: Dir :: k.m.refs[d] != 0
  }

  /** A step loses a task exactly if it is a fork with a free task and all 15 directories counted; it loses the
      first free task, and a lost task is never found again. */
  lemma LostExactly(k: K, ev: KEvent, t: Tid)
    requires KInv(k) && KEnabled(k, ev)
    ensures Lost(KStep(k, ev).s, t) <==> Lost(k.s, t) || (ForkWhenFull(k, ev) && t == k.s.Free()[0])
  {
    hide LinkInv, PidInv, SemInv, OwnerInv, SpaceInv, RefInv, IdleDirInv, Step, MemStep, ForkMeets, Alive, Spawns;
    CurrentAlive(k.s);
    if k.s.Free() != [] {
      FreeIsNotAlive(k.s, k.s.Free()[0]);
      NoDupFree(k.s);
    }
    if ev.Kernel? {
      if k.s.current != IDLE {
        ForkOutcomes(k);
      }
      StepMoves(k.s, ev.d);
      WhoIsLost(k.s, KStep(k, ev).s, ev.d.e, t);
    }
  }

  lemma CurrentAlive(s: Sched)
    requires s.Wf()
    ensures Alive(s, s.current)
  {
  }

  lemma WhoIsLost(s: Sched, u: Sched, e: Event, t: Tid)
    requires s.Wf() && u.Wf() && Moves(s, u, e) && Alive(s, s.current)
    requires s.Free() != [] ==> !Alive(s, s.Free()[0]) && s.Free()[0] !in s.Free()[1..]
    ensures Lost(u, t) <==> Lost(s, t) || (Loses(e) && t == s.Free()[0])
  {
    hide Alive;
    if s.Free() != [] {
      assert s.Free() == [s.Free()[0]] + s.Free()[1..];
    }
  }

  lemma NoDupFree(s: Sched)
    requires Inv(s) && s.Free() != []
    ensures s.Free()[0] !in s.Free()[1..]
  {
  }

  /** No fork of the run finds a free task and all directories counted. */
  ghost predicate NeverFull(k: K, tr: seq<KEvent>)
    requires KInv(k) && KCanRun(k, tr)
    decreases |tr|
  {
    tr == [] || (!ForkWhenFull(k, tr[0]) && (KStepInv(k, tr[0]); NeverFull(KStep(k, tr[0]), tr[1..])))
  }

  lemma StepLoses(k: K, ev: KEvent)
    requires KInv(k) && KEnabled(k, ev)
    ensures KInv(KStep(k, ev))
    ensures NoneLost(KStep(k, ev).s) <==> NoneLost(k.s) && !ForkWhenFull(k, ev)
  {
    hide LinkInv, PidInv, SemInv, OwnerInv, TableInv, FrameInv, RefInv, IdleDirInv, KEnabled, KStep, Lost;
    KStepInv(k, ev);
    forall t: Tid
      ensures Lost(KStep(k, ev).s, t) <==> Lost(k.s, t) || (ForkWhenFull(k, ev) && t == k.s.Free()[0])
    {
      LostExactly(k, ev, t);
    }
    if ForkWhenFull(k, ev) {
      assert Lost(KStep(k, ev).s, k.s.Free()[0]);
    }
  }

  /** A run loses a task exactly if some fork in it finds a free task and all 15 directories counted. */
  lemma {:induction false} LosesExactly(k: K, tr: seq<KEvent>)
    requires KInv(k) && KCanRun(k, tr)
    ensures NoneLost(KRun(k, tr).s) <==> NoneLost(k.s) && NeverFull(k, tr)
    decreases |tr|
  {
    if tr != [] {
      StepLoses(k, tr[0]);
      hide NoneLost, ForkWhenFull, KEnabled, KStep, Inv, SpaceInv;
      LosesExactly(KStep(k, tr[0]), tr[1..]);
    }
  }

  // ---- While the initial process lives ----

  predicate InitExits(k: K, ev: KEvent) {
    ev.Kernel? && ev.d.e == ExitCall && k.s.current == INIT
  }

  /** The initial process does not exit in the run: its program ends in an endless loop. */
  ghost predicate InitStays(k: K, tr: seq<KEvent>)
    requires KInv(k) && KCanRun(k, tr)
    decreases |tr|
  {
    tr == [] || (!InitExits(k, tr[0]) && (KStepInv(k, tr[0]); InitStays(KStep(k, tr[0]), tr[1..])))
  }

  lemma InitUses(k: K)
    requires KInv(k) && InitLives(k.s)
    ensures Users(k.s, 1) != {}
  {
    assert INIT in Users(k.s, 1);
  }

  lemma InitLivesOn(k: K, ev: KEvent)
    requires KInv(k) && KEnabled(k, ev) && InitLives(k.s) && !InitExits(k, ev)
    ensures InitLives(KStep(k, ev).s)
  {
    if ev.Kernel? {
      StepMoves(k.s, ev.d);
      hide Inv, SpaceInv, RefInv, IdleDirInv, Step, ForkMeets, Alive;
    } else {
      hide Inv, SpaceInv;
    }
  }

  lemma NotFullWhileInitLives(k: K, ev: KEvent)
    requires KInv(k) && KEnabled(k, ev) && InitLives(k.s)
    ensures !ForkWhenFull(k, ev)
  {
    InitUses(k);
    if k.s.Free() != [] {
      DirectoryToSpare(k);
    }
    hide Inv, SpaceInv, RefInv, Users;
  }

  lemma {:induction false} InitKeepsAll(k: K, tr: seq<KEvent>)
    requires KInv(k) && KCanRun(k, tr) && InitStays(k, tr) && InitLives(k.s)
    ensures InitLives(KRun(k, tr).s) && NeverFull(k, tr)
    decreases |tr|
  {
    if tr != [] {
      KStepInv(k, tr[0]);
      InitLivesOn(k, tr[0]);
      NotFullWhileInitLives(k, tr[0]);
      hide InitLives, ForkWhenFull, InitExits, KEnabled, KStep, Inv, SpaceInv;
      InitKeepsAll(KStep(k, tr[0]), tr[1..]);
    }
  }

  /** The capacity theorem over runs: from boot, as long as the initial process does not exit, no task is ever lost
      and `sys_fork` succeeds exactly when the free queue is not empty. */
  lemma CapacityFromBoot(now: int, ram: seq<Byte>, tr: seq<KEvent>)
    requires |ram| == TOTAL_PAGES * PAGE_SIZE
    requires KCanRun(BootK(now, ram), tr) && InitStays(BootK(now, ram), tr)
    ensures var k := KRun(BootK(now, ram), tr);
            && NoneLost(k.s) && InitLives(k.s)
            && (k.s.current != IDLE ==> (ForkMeets(k).Child? <==> k.s.Free() != []))
  {
    BootPlaces(now);
    var k := KRun(BootK(now, ram), tr);
    InitKeepsAll(BootK(now, ram), tr);
    LosesExactly(BootK(now, ram), tr);
    InitUses(k);
    if k.s.current != IDLE {
      Capacity(k);
    }
    hide Inv, SpaceInv, RefInv, IdleDirInv, KRun, KCanRun, BootMem, ForkMeets, Users, InitStays, NeverFull;
  }

  // ---- If the initial process exits ----

  /** A clock that stands still. */
  function StillClock(now: int): Clock {
    var r := Reads(now, now);
    Clock(r, r, r, r, r)
  }

  /** The initial process is running, and n children have come from it, each with its own directory. */
  ghost predicate Filling(k: K, n: nat) {
    && KInv(k)
    && k.s.current == INIT && k.s.tasks[INIT].dir == 1
    && n <= NR_DIRS - 2
    && |k.s.Free()| == NR_DIRS - 2 - n
    && |k.s.Ready()| == n
    && IDLE !in k.s.Ready()
    && forall d: Dir :: if d < n + 2 then k.m.refs[d] > 0 else k.m.refs[d] == 0
  }

  function NextFork(k: K): KEvent
    requires k.s.Wf() && k.m.Wf()
  {
    Kernel(Do(ForkCall(ForkMeets(k)), StillClock(k.s.now)))
  }

  function NextExit(k: K): KEvent {
    Kernel(Do(ExitCall, StillClock(k.s.now)))
  }

  lemma SpawnKeepsCurrent(s: Sched, dir: Dir)
    requires LinkInv(s) && s.Free() != []
    ensures Spawn(s, dir).current == s.current && s.Free()[0] != IDLE
  {
    AtIsMembership(s, s.Free()[0], FREE_QUEUE);
    hide Linked;
  }

  /** A successful `sys_fork` moves one task from the free queue to the end of the ready queue. */
  lemma ForkQueues(s: Sched, d: Do)
    requires Inv(s) && Enabled(s, d.e) && d.e.ForkCall? && d.e.outcome.Child?
    ensures var u := Step(s, d);
            && u.current == s.current
            && u.Free() == s.Free()[1..]
            && u.Ready() == s.Ready() + [s.Free()[0]]
    ensures s.Free()[0] != IDLE
  {
    hide PidInv, SemInv, OwnerInv, Linked, Spawn;
    StepForm(s, d);
    SpawnLinks(StatsEntry(s, d.c.entry), d.e.outcome.dir);
    SpawnKeepsCurrent(StatsEntry(s, d.c.entry), d.e.outcome.dir);
  }

  lemma ForkRefs(k: K, n: nat)
    requires Filling(k, n) && n < NR_DIRS - 2
    ensures k.s.Wf() && k.m.Wf() && ForkMeets(k) == Child(n + 2)
    ensures ForkMem(k.m, k.s.Cur().dir, n + 2).m.refs == k.m.refs[n + 2 := 1]
  {
    hide LinkInv, PidInv, SemInv, OwnerInv, IdleDirInv, RefInv, TableInv, FrameInv, ForkMem;
    assert k.m.refs[n + 2] == 0;
    ForkOutcomes(k);
    LiveDirInUse(k, k.s.current);
    ForkMemEffect(k.m, k.s.Cur().dir, n + 2);
  }

  lemma InitStaysInOne(k: K, ev: KEvent)
    requires KInv(k) && KEnabled(k, ev) && k.s.current == INIT && k.s.tasks[INIT].dir == 1 && !InitExits(k, ev)
    ensures KStep(k, ev).s.tasks[INIT].dir == 1
  {
    InitLivesOn(k, ev);
  }

  lemma OneMoreFork(k: K, n: nat)
    requires Filling(k, n) && n < NR_DIRS - 2
    ensures KEnabled(k, NextFork(k)) && Filling(KStep(k, NextFork(k)), n + 1)
  {
    hide LinkInv, PidInv, SemInv, OwnerInv, SpaceInv, IdleDirInv, RefInv, Step, ForkMem, ForkMeets;
    ForkRefs(k, n);
    var ev := NextFork(k);
    KStepInv(k, ev);
    InitStaysInOne(k, ev);
    ForkQueues(k.s, ev.d);
  }

  /** With every directory counted, the initial process exits and a child of it forks. */
  lemma ExitThenFork(k: K)
    requires Filling(k, NR_DIRS - 2)
    ensures KEnabled(k, NextExit(k))
    ensures var u := KStep(k, NextExit(k));
            && KInv(u) && u.s.Wf() && u.m.Wf() && u.s.Free() == [INIT]
            && KEnabled(u, NextFork(u)) && ForkWhenFull(u, NextFork(u)) && ForkMeets(u).NoDirectory?
  {
    hide LinkInv, PidInv, SemInv, OwnerInv, SpaceInv, IdleDirInv, RefInv, Step, ForkMem, ExitMem;
    var ev := NextExit(k);
    KStepInv(k, ev);
    StepMoves(k.s, ev.d);
    ExitDispatches(k.s, ev.d);
    ExitRefs(k);
    var u := KStep(k, ev);
    ForkOutcomes(u);
    assert k.s.Free() == [];
    assert u.s.Free() == [INIT];
  }

  lemma ExitRefs(k: K)
    requires Filling(k, NR_DIRS - 2)
    ensures k.m.Wf() && ExitMem(k.m, 1).refs == k.m.refs[1 := k.m.refs[1] - 1] && k.m.refs[1] >= 2
  {
    assert INIT in Users(k.s, 1);
    ExitMemEffect(k.m, 1);
    hide Inv, SpaceInv, ExitMem;
  }

  /** After an exit the first ready task runs. */
  lemma ExitDispatches(s: Sched, d: Do)
    requires Inv(s) && Enabled(s, d.e) && d.e == ExitCall && s.Ready() != []
    ensures Step(s, d).current == s.Ready()[0]
  {
    hide LinkInv, PidInv, SemInv, OwnerInv, Exit, OwnedWaiters;
    StepForm(s, d);
    var u := StatsEntry(s, d.c.entry);
    EntryInv(s, u, d.c.entry);
    ExitReleasesWaiters(u, d.c);
  }

  lemma NextForkIs(k: K, n: nat)
    requires Filling(k, n)
    ensures KInv(k) && k.s.Wf() && k.m.Wf() && n <= NR_DIRS - 2
    ensures n < NR_DIRS - 2 ==> IsFork(NextFork(k), true)
  {
    if n < NR_DIRS - 2 {
      ForkRefs(k, n);
    }
    hide LinkInv, PidInv, SemInv, OwnerInv, SpaceInv, IdleDirInv, RefInv, ForkMem, ForkMeets;
  }

  predicate IsFork(ev: KEvent, child: bool) {
    ev.Kernel? && ev.d.e.ForkCall? && if child then ev.d.e.outcome.Child? else ev.d.e.outcome.NoDirectory?
  }

  /** n successful forks, an exit, and a fork that finds no directory. */
  predicate ForksExitFork(tr: seq<KEvent>, n: nat) {
    && |tr| == n + 2
    && (forall k | 0 <= k < n :: IsFork(tr[k], true))
    && tr[n].Kernel? && tr[n].d.e == ExitCall
    && IsFork(tr[n + 1], false)
  }

  lemma {:induction false} FillUp(k: K, n: nat) returns (tr: seq<KEvent>)
    requires Filling(k, n)
    ensures KCanRun(k, tr) && Lost(KRun(k, tr).s, INIT) && ForksExitFork(tr, NR_DIRS - 2 - n)
    decreases NR_DIRS - n
  {
    hide KInv, Filling, KEnabled, KStep, KCanRun, KRun, ForkMeets, Lost;
    NextForkIs(k, n);
    if n < NR_DIRS - 2 {
      OneMoreFork(k, n);
      var ev := NextFork(k);
      KStepInv(k, ev);
      var rest := FillUp(KStep(k, ev), n + 1);
      tr := Consed(k, ev, rest);
    } else {
      tr := LastSteps(k);
    }
  }

  lemma Consed(k: K, ev: KEvent, rest: seq<KEvent>) returns (tr: seq<KEvent>)
    requires KInv(k) && KEnabled(k, ev) && KInv(KStep(k, ev)) && KCanRun(KStep(k, ev), rest)
    ensures tr == [ev] + rest && KCanRun(k, tr) && KRun(k, tr) == KRun(KStep(k, ev), rest)
  {
    hide Inv, SpaceInv, KEnabled, KStep;
    tr := [ev] + rest;
    assert tr[0] == ev && tr[1..] == rest;
  }

  lemma EmptyRun(k: K)
    requires KInv(k)
    ensures KCanRun(k, []) && KRun(k, []) == k
  {
  }

  lemma LastSteps(k: K) returns (tr: seq<KEvent>)
    requires Filling(k, NR_DIRS - 2)
    ensures KCanRun(k, tr) && Lost(KRun(k, tr).s, INIT) && ForksExitFork(tr, 0)
  {
    hide KInv, Filling, KEnabled, KStep, KCanRun, KRun, ForkWhenFull, Lost, ForkMeets;
    NextForkIs(k, NR_DIRS - 2);
    ExitThenFork(k);
    var u := KStep(k, NextExit(k));
    KStepInv(u, NextFork(u));
    LostExactly(u, NextFork(u), INIT);
    EmptyRun(KStep(u, NextFork(u)));
    var rest := Consed(u, NextFork(u), []);
    tr := Consed(k, NextExit(k), rest);
  }

  lemma BootFills(now: int, ram: seq<Byte>)
    requires |ram| == TOTAL_PAGES * PAGE_SIZE
    ensures Filling(BootK(now, ram), 0)
  {
    hide KInv, LinkInv;
  }

  /** What the capacity theorem owes to the initial process.  There is a run from boot, 13 forks, the exit of the
      initial process and one more fork, that loses a task: directory 1 stays counted for ever, so the last fork
      finds a free task and no directory. */
  lemma InitMustLive(now: int, ram: seq<Byte>) returns (tr: seq<KEvent>)
    requires |ram| == TOTAL_PAGES * PAGE_SIZE
    ensures KCanRun(BootK(now, ram), tr) && Lost(KRun(BootK(now, ram), tr).s, INIT)
    ensures ForksExitFork(tr, 13)
  {
    BootFills(now, ram);
    tr := FillUp(BootK(now, ram), 0);
  }
}
