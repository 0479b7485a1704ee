/** Runs of the whole machine from boot: isolation, private memory and conservation in every state, whatever tasks
    exit. */
module MachineRuns {
  import opened Common
  import opened Sequences
  import opened SchedSpec
  import opened SchedSteps
  import opened SchedInv
  import opened SchedRuns
  import opened MemSpec
  import opened AddressSpaces
  import opened Machine

  // ---- Boot ----

  lemma BootDataFrame(m: Mem, f: Frame)
    requires m.Wf() && (forall d: Dir :: UserDir(m, d) <==> d == 1)
    requires forall j: DataPage :: m.Data(1, j).frame == NUM_PAG_KERNEL + 2 * (NUM_PAG_CODE + j)
    ensures BootUsed(f) <==> f < NUM_PAG_KERNEL || CodeFrame(f) || DataFrame(m, f)
  {
    if BootUsed(f) && NUM_PAG_KERNEL <= f && !CodeFrame(f) {
      var j: DataPage := (f - NUM_PAG_KERNEL - 2 * NUM_PAG_CODE) / 2;
      assert UserDir(m, 1) && m.Data(1, j).frame == f;
    }
  }

  lemma BootUserDir(ram: seq<Byte>)
    requires |ram| == TOTAL_PAGES * PAGE_SIZE
    ensures var m := BootMem(ram);
            && (forall d: Dir :: UserDir(m, d) <==> d == 1)
            && (forall f: Frame :: m.phys[f] == BootUsed(f))
            && (forall j: DataPage :: m.Data(1, j).frame == NUM_PAG_KERNEL + 2 * (NUM_PAG_CODE + j))
  {
    var m := BootMem(ram);
    forall j: DataPage
      ensures m.Data(1, j).frame == NUM_PAG_KERNEL + 2 * (NUM_PAG_CODE + j)
    {
      assert m.Data(1, j) == BootEntry(1, PAG_LOG_INIT_DATA + j);
    }
  }

  lemma BootFrames(ram: seq<Byte>)
    requires |ram| == TOTAL_PAGES * PAGE_SIZE
    ensures FrameInv(BootMem(ram))
  {
    hide BootMem, UserDir, BootUsed, DataFrame, CodeFrame;
    BootUserDir(ram);
    var m := BootMem(ram);
    forall f: Frame
      ensures BootUsed(f) <==> f < NUM_PAG_KERNEL || CodeFrame(f) || DataFrame(m, f)
    {
      BootDataFrame(m, f);
    }
  }

  lemma BootSpaces(ram: seq<Byte>)
    requires |ram| == TOTAL_PAGES * PAGE_SIZE
    ensures SpaceInv(BootMem(ram))
  {
    BootFrames(ram);
    var m := BootMem(ram);
    assert forall d: Dir :: UserDir(m, d) <==> d == 1;
    hide BootMem, FrameInv;
    assert forall d: Dir, j: DataPage :: m.Data(d, j) == BootEntry(d, PAG_LOG_INIT_DATA + j);
  }

  /** The machine when user code starts. */
  ghost function BootK(now: int, ram: seq<Byte>): (k: K)
    requires |ram| == TOTAL_PAGES * PAGE_SIZE
    ensures KInv(k)
  {
    BootKInv(now, ram);
    K(Booted(now), BootMem(ram))
  }

  lemma BootKInv(now: int, ram: seq<Byte>)
    requires |ram| == TOTAL_PAGES * PAGE_SIZE
    ensures KInv(K(Booted(now), BootMem(ram)))
  {
    BootSpaces(ram);
    BootPlaces(now);
    var s := Booted(now);
    hide SpaceInv, Inv, Booted;
    forall d: Dir
      ensures Users(s, d) == if d == 0 then {IDLE} else if d == 1 then {INIT} else {}
    {
    }
  }

  lemma BootPlaces(now: int)
    ensures var s := Booted(now);
            && NoneLost(s) && IdleDirInv(s) && InitLives(s)
            && (forall t: Tid :: Alive(s, t) <==> t == IDLE || t == INIT)
            && s.tasks[IDLE].dir == 0 && s.tasks[INIT].dir == 1
  {
    var s := Booted(now);
    hide Inv;
    forall t: Tid
      ensures !Lost(s, t)
    {
      if t < INIT {
        assert s.Free()[12 - t] == t;
      }
    }
  }

  // ---- Runs ----

  ghost predicate KCanRun(k: K, tr: seq<KEvent>)
    requires KInv(k)
    decreases |tr|
  {
    tr == [] || (KEnabled(k, tr[0]) && (KStepInv(k, tr[0]); KCanRun(KStep(k, tr[0]), tr[1..])))
  }

  /** Every state of every run satisfies the invariant. */
  ghost function KRun(k: K, tr: seq<KEvent>): (u: K)
    requires KInv(k) && KCanRun(k, tr)
    ensures KInv(u)
    decreases |tr|
  {
    if tr == [] then k else KStepInv(k, tr[0]); KRun(KStep(k, tr[0]), tr[1..])
  }

  /** The scheduler's part of a run. */
  function KernelSteps(tr: seq<KEvent>): seq<Do> {
    if tr == [] then [] else (if tr[0].Kernel? then [tr[0].d] else []) + KernelSteps(tr[1..])
  }

  /** Seen from the scheduler, a run of the machine is a run of the scheduler machine, so all that holds of
      those runs (bounded waiting, semaphores, accounting) holds here. */
  lemma {:induction false} SchedulerView(k: K, tr: seq<KEvent>)
    requires KInv(k) && KCanRun(k, tr)
    ensures CanRun(k.s, KernelSteps(tr)) && Run(k.s, KernelSteps(tr)) == KRun(k, tr).s
    decreases |tr|
  {
    if tr != [] {
      KStepInv(k, tr[0]);
      SchedulerView(KStep(k, tr[0]), tr[1..]);
      hide Inv, SpaceInv, Step, MemStep;
      var rest := KernelSteps(tr[1..]);
      if tr[0].Kernel? {
        assert KernelSteps(tr)[0] == tr[0].d && KernelSteps(tr)[1..] == rest;
        assert KStep(k, tr[0]).s == Step(k.s, tr[0].d);
      } else {
        assert KernelSteps(tr) == [] + rest == rest;
        assert KStep(k, tr[0]).s == k.s;
      }
    }
  }

  // ---- What holds in every state ----

  /** Isolation: live user tasks with different directories have no data frame in common; every data frame is
      used, above the kernel and apart from the shared code; and all user tasks share the code frames. */
  lemma Isolation(k: K, t: Tid, u: Tid, i: DataPage, j: DataPage)
    requires KInv(k) && Alive(k.s, t) && Alive(k.s, u) && t != IDLE && u != IDLE
    ensures var d, e := k.s.tasks[t].dir, k.s.tasks[u].dir;
            && (k.m.Data(d, i).frame == k.m.Data(e, j).frame <==> d == e && i == j)
            && k.m.Data(d, i).present && k.m.phys[k.m.Data(d, i).frame]
            && k.m.Data(d, i).frame >= NUM_PAG_KERNEL && !CodeFrame(k.m.Data(d, i).frame)
            && forall q: Page | 1 <= q < PAG_LOG_INIT_DATA :: k.m.Entry(d, q) == k.m.Entry(e, q)
  {
    LiveDirInUse(k, t);
    LiveDirInUse(k, u);
    DataUsed(k.m, k.s.tasks[t].dir, i);
  }

  /** `sys_exit` frees the data frames exactly when no other live task uses the directory; those of directory 1,
      which `init_task1` counts twice, it never frees. */
  lemma ExitFreesLast(k: K)
    requires KInv(k) && k.s.current != IDLE
    ensures var p := k.s.Cur().dir;
            k.m.refs[p] == 1 <==>
            p != 1 && forall t: Tid | Alive(k.s, t) && t != k.s.current :: k.s.tasks[t].dir != p
  {
    LiveDirInUse(k, k.s.current);
    var p := k.s.Cur().dir;
    hide Inv, SpaceInv;
    assert k.s.current in Users(k.s, p);
    assert (forall t: Tid | Alive(k.s, t) && t != k.s.current :: k.s.tasks[t].dir != p) ==>
        Users(k.s, p) == {k.s.current};
    if k.m.refs[p] == 1 {
      forall t: Tid | Alive(k.s, t) && t != k.s.current
        ensures k.s.tasks[t].dir != p
      {
        if k.s.tasks[t].dir == p {
          assert {t, k.s.current} <= Users(k.s, p);
          SubsetCount({t, k.s.current}, Users(k.s, p));
        }
      }
    }
  }

  /** Frame conservation: the directories with data frames are that of the initial process, for ever, and those of
      the live user tasks; and the used frames are the kernel's, the code's and 20 for each of them. */
  lemma FramesInUse(k: K)
    requires KInv(k)
    ensures |UsedFrames(k.m)| == 264 + 20 * Dirs(k.m, NR_DIRS)
    ensures forall d: Dir :: UserDir(k.m, d) <==> d == 1 || (d != 0 && Users(k.s, d) != {})
  {
    FrameConservation(k.m);
    hide Inv, SpaceInv;
  }

  // ---- Private memory ----

  /** One byte map for each directory, as if each had a memory of its own. */
  type Maps = (Dir, DataPage, Offset) -> Byte

  /** What an event does to such maps: a store changes one byte of one map, a successful fork copies the parent's
      map to the child, and nothing else touches any map. */
  function MapsStep(v: Maps, p: Dir, ev: KEvent): Maps {
    match ev
    case Store(j, o, b) =>
      (e: Dir, i: DataPage, x: Offset) => if e == p && i == j && x == o then b else v(e, i, x)
    case Kernel(d) =>
      if d.e.ForkCall? && d.e.outcome.Child? then
        (e: Dir, i: DataPage, x: Offset) => if e == d.e.outcome.dir then v(p, i, x) else v(e, i, x)
      else v
  }

  /** Every directory in use reads, through its page table, what its map says. */
  ghost predicate Shows(k: K, v: Maps)
    requires k.m.Wf()
  {
    forall e: Dir, i: DataPage, x: Offset | UserDir(k.m, e) :: k.m.ReadData(e, i, x) == v(e, i, x)
  }

  /** One step of private memory: no clock tick, exit, clone, failed fork or semaphore call is seen by any
      directory in use. */
  lemma MapsFollow(k: K, ev: KEvent, v: Maps)
    requires KInv(k) && KEnabled(k, ev) && Shows(k, v)
    ensures Shows(KStep(k, ev), MapsStep(v, k.s.Cur().dir, ev))
  {
    hide LinkInv, PidInv, SemInv, OwnerInv, SpaceInv, RefInv, IdleDirInv, KEnabled, Step, MemStep;
    KStepInv(k, ev);
    forall e: Dir, i: DataPage, x: Offset | UserDir(KStep(k, ev).m, e)
      ensures KStep(k, ev).m.ReadData(e, i, x) == MapsStep(v, k.s.Cur().dir, ev)(e, i, x)
    {
      match ev
      case Store(j, o, b) => StoreReads(k, j, o, b, e, i, x);
      case Kernel(d) => KernelReads(k, d, e, i, x);
    }
  }

  lemma StoreReads(k: K, j: DataPage, o: Offset, b: Byte, e: Dir, i: DataPage, x: Offset)
    requires KInv(k) && KEnabled(k, Store(j, o, b)) && UserDir(KStep(k, Store(j, o, b)).m, e)
    ensures UserDir(k.m, e)
    ensures KStep(k, Store(j, o, b)).m.ReadData(e, i, x) ==
            if e == k.s.Cur().dir && i == j && x == o then b else k.m.ReadData(e, i, x)
  {
    LiveDirInUse(k, k.s.current);
    StoreIsPrivate(k.m, k.s.Cur().dir, j, o, b);
    hide Inv, SpaceInv;
  }

  /** The directory of a successful fork's child, if the event is one. */
  predicate ForksInto(e: Event, d: Dir) {
    e.ForkCall? && e.outcome.Child? && e.outcome.dir == d
  }

  lemma KernelReads(k: K, d: Do, e: Dir, i: DataPage, x: Offset)
    requires KInv(k) && KEnabled(k, Kernel(d)) && UserDir(KStep(k, Kernel(d)).m, e)
    ensures ForksInto(d.e, e) ==> UserDir(k.m, k.s.Cur().dir)
    ensures !ForksInto(d.e, e) ==> UserDir(k.m, e)
    ensures KStep(k, Kernel(d)).m.ReadData(e, i, x) ==
            k.m.ReadData(if ForksInto(d.e, e) then k.s.Cur().dir else e, i, x)
  {
    hide LinkInv, PidInv, SemInv, OwnerInv, TableInv, FrameInv, RefInv, IdleDirInv, Step, ForkMem, ExitMem, ForkMeets;
    if d.e.ForkCall? {
      ForkReads(k, d.e, e, i, x);
    } else if d.e == ExitCall {
      ExitReads(k, e, i, x);
    } else if d.e.CloneCall? {
      LiveDirInUse(k, k.s.current);
    }
  }

  lemma ForkReads(k: K, ev: Event, e: Dir, i: DataPage, x: Offset)
    requires KInv(k) && k.s.current != IDLE && ev.ForkCall? && ev.outcome == ForkMeets(k)
    requires UserDir(MemStep(k, ev), e)
    ensures UserDir(k.m, k.s.Cur().dir) && (!ForksInto(ev, e) ==> UserDir(k.m, e))
    ensures MemStep(k, ev).ReadData(e, i, x) == k.m.ReadData(if ForksInto(ev, e) then k.s.Cur().dir else e, i, x)
  {
    ForkOutcomes(k);
    LiveDirInUse(k, k.s.current);
    if ev.outcome.Child? {
      var p, d := k.s.Cur().dir, ev.outcome.dir;
      ForkPreservesMeaning(k.m, p, d);
      ForkMemEffect(k.m, p, d);
      hide Inv, SpaceInv, ForkMem, ForkMeets;
      assert e != d ==> UserDir(k.m, e);
    }
  }

  lemma ExitReads(k: K, e: Dir, i: DataPage, x: Offset)
    requires KInv(k) && k.s.current != IDLE && UserDir(ExitMem(k.m, k.s.Cur().dir), e)
    ensures UserDir(k.m, e)
    ensures ExitMem(k.m, k.s.Cur().dir).ReadData(e, i, x) == k.m.ReadData(e, i, x)
  {
    var p := k.s.Cur().dir;
    LiveDirInUse(k, k.s.current);
    ExitPreservesMeaning(k.m, p);
    ExitMemEffect(k.m, p);
    hide Inv, SpaceInv, ExitMem;
    if e == p {
      var m0 := k.m.SetRefs(p, k.m.refs[p] - 1);
      assert m0.Data(p, i) == k.m.Data(p, i);
    }
  }

  /** The maps over a run: who runs comes from the machine, the bytes only from the maps. */
  ghost function MapsRun(k: K, tr: seq<KEvent>, v: Maps): Maps
    requires KInv(k) && KCanRun(k, tr)
    decreases |tr|
  {
    if tr == [] then v
    else KStepInv(k, tr[0]); MapsRun(KStep(k, tr[0]), tr[1..], MapsStep(v, k.s.Cur().dir, tr[0]))
  }

  /** Private memory: over every run, whatever exits, forks and clones come in it, paged memory shows each
      directory in use exactly the bytes it would have with a memory of its own. */
  lemma {:induction false} PrivateMemory(k: K, tr: seq<KEvent>, v: Maps)
    requires KInv(k) && KCanRun(k, tr) && Shows(k, v)
    ensures Shows(KRun(k, tr), MapsRun(k, tr, v))
    decreases |tr|
  {
    if tr != [] {
      KStepInv(k, tr[0]);
      MapsFollow(k, tr[0], v);
      hide Shows, MapsStep, KStep, Inv, SpaceInv, KEnabled;
      PrivateMemory(KStep(k, tr[0]), tr[1..], MapsStep(v, k.s.Cur().dir, tr[0]));
    }
  }

  // ---- Code and kernel ----

  /** Frame f holds the kernel or the code that all user tasks share. */
  predicate Fixed(f: Frame) {
    f < NUM_PAG_KERNEL || CodeFrame(f)
  }

  /** Fixed frames are used, and no directory in use has a data page in one. */
  lemma FixedApart(m: Mem, d: Dir, j: DataPage, f: Frame)
    requires SpaceInv(m) && Fixed(f)
    ensures m.phys[f]
    ensures UserDir(m, d) ==> m.Data(d, j).frame != f
  {
    hide TableInv;
  }

  /** No step writes to a fixed frame: forks write to fresh frames only, and stores to data pages. */
  lemma FixedStays(k: K, ev: KEvent, f: Frame, x: Offset)
    requires KInv(k) && KEnabled(k, ev) && Fixed(f)
    ensures KStep(k, ev).m.At(f, x) == k.m.At(f, x)
  {
    hide LinkInv, PidInv, SemInv, OwnerInv, TableInv, FrameInv, RefInv, IdleDirInv, Step, ForkMem, ExitMem, ForkMeets;
    hide Fixed;
    FixedApart(k.m, 1, 0, f);
    if k.s.current != IDLE {
      var p := k.s.Cur().dir;
      LiveDirInUse(k, k.s.current);
      match ev
      case Store(j, o, b) =>
        FixedApart(k.m, p, j, f);
      case Kernel(d) =>
        ForkOutcomes(k);
        if ForkMeets(k).Child? {
          ForkWritesFresh(k.m, p, ForkMeets(k).dir, f, x);
        }
        ExitMemEffect(k.m, p);
        ExitMemRam(k.m, p);
    }
  }

  lemma ForkWritesFresh(m: Mem, p: Dir, d: Dir, f: Frame, x: Offset)
    requires SpaceInv(m) && UserDir(m, p) && d != 0 && m.refs[d] == 0 && m.phys[f]
    ensures ForkMem(m, p, d).m.At(f, x) == m.At(f, x)
  {
    ForkMemEffect(m, p, d);
    hide ForkMem, TableInv, FrameInv;
    var m' := ForkMem(m, p, d).m;
    assert forall j: DataPage :: m'.Data(d, j).frame != f;
  }

  lemma ExitMemRam(m: Mem, d: Dir)
    requires m.Wf()
    ensures ExitMem(m, d).ram == m.ram
  {
    ExitMemEffect(m, d);
    hide ExitMem;
  }

  /** Over every run no store of a program and no copy of a page changes a byte of the kernel's frames or of the
      shared code. */
  lemma {:induction false} CodeStays(k: K, tr: seq<KEvent>, f: Frame, x: Offset)
    requires KInv(k) && KCanRun(k, tr) && Fixed(f)
    ensures KRun(k, tr).m.At(f, x) == k.m.At(f, x)
    decreases |tr|
  {
    if tr != [] {
      KStepInv(k, tr[0]);
      FixedStays(k, tr[0], f, x);
      hide KStep, KEnabled, Fixed, Inv;
      CodeStays(KStep(k, tr[0]), tr[1..], f, x);
    }
  }

  lemma CodeEntryOf(m: Mem, d: Dir, q: Page)
    requires SpaceInv(m) && UserDir(m, d) && PAG_LOG_INIT_CODE <= q < PAG_LOG_INIT_DATA
    ensures m.Entry(d, q).frame == NUM_PAG_KERNEL + 2 * (q - PAG_LOG_INIT_CODE)
  {
    hide FrameInv;
  }

  /** So every directory in use reads, in its code pages, what any directory read there at any time before: the code
      loaded at boot. */
  lemma SameCode(k: K, tr: seq<KEvent>, d: Dir, e: Dir, q: Page, x: Offset)
    requires KInv(k) && KCanRun(k, tr) && UserDir(k.m, d) && UserDir(KRun(k, tr).m, e)
    requires PAG_LOG_INIT_CODE <= q < PAG_LOG_INIT_DATA
    ensures KRun(k, tr).m.Read(e, q, x) == k.m.Read(d, q, x)
  {
    hide LinkInv, PidInv, SemInv, OwnerInv, TableInv, FrameInv, RefInv, IdleDirInv, KRun, KCanRun;
    var f := NUM_PAG_KERNEL + 2 * (q - PAG_LOG_INIT_CODE);
    assert Fixed(f);
    CodeStays(k, tr, f, x);
    CodeEntryOf(k.m, d, q);
    CodeEntryOf(KRun(k, tr).m, e, q);
  }

  // ---- Fork and exit restore the bytemap ----

  /** The same directories are in use: none is born and none dies. */
  ghost predicate SameDirs(m: Mem, m': Mem)
    requires m.Wf() && m'.Wf()
  {
    forall d: Dir :: m.refs[d] == 0 <==> m'.refs[d] == 0
  }

  /** A step in which no directory is born or dies leaves the bytemap and all tables alone. */
  lemma QuietStep(k: K, ev: KEvent)
    requires KInv(k) && KEnabled(k, ev) && SameDirs(k.m, KStep(k, ev).m)
    ensures KStep(k, ev).m.phys == k.m.phys && KStep(k, ev).m.pt == k.m.pt
  {
    hide LinkInv, PidInv, SemInv, OwnerInv, TableInv, FrameInv, RefInv, IdleDirInv, Step, ForkMem, ExitMem, ForkMeets;
    if k.s.current != IDLE {
      LiveDirInUse(k, k.s.current);
      ForkOutcomes(k);
      if ForkMeets(k).Child? {
        ForkMemEffect(k.m, k.s.Cur().dir, ForkMeets(k).dir);
      }
      ExitMemEffect(k.m, k.s.Cur().dir);
    }
  }

  ghost predicate QuietRun(k: K, tr: seq<KEvent>)
    requires KInv(k) && KCanRun(k, tr)
    decreases |tr|
  {
    tr == [] || (
      && SameDirs(k.m, KStep(k, tr[0]).m)
      && (KStepInv(k, tr[0]); QuietRun(KStep(k, tr[0]), tr[1..])))
  }

  lemma {:induction false} QuietRunKeeps(k: K, tr: seq<KEvent>)
    requires KInv(k) && KCanRun(k, tr) && QuietRun(k, tr)
    ensures KRun(k, tr).m.phys == k.m.phys && KRun(k, tr).m.pt == k.m.pt
    decreases |tr|
  {
    if tr != [] {
      KStepInv(k, tr[0]);
      QuietStep(k, tr[0]);
      hide KStep, Inv, SpaceInv, KEnabled, SameDirs;
      QuietRunKeeps(KStep(k, tr[0]), tr[1..]);
    }
  }

  /** What the last exit of a directory frees depends on tables and bytemap only. */
  lemma SameExit(m: Mem, n: Mem, d: Dir)
    requires m.Wf() && n.Wf() && m.pt == n.pt && m.phys == n.phys && m.refs[d] == n.refs[d] == 1
    ensures ExitMem(m, d).phys == ExitMem(n, d).phys
    ensures forall e: Dir, q: Page :: ExitMem(m, d).Entry(e, q) == ExitMem(n, d).Entry(e, q)
  {
    ExitMemEffect(m, d);
    ExitMemEffect(n, d);
    var m0, n0 := m.SetRefs(d, 0), n.SetRefs(d, 0);
    hide ExitMem;
    assert forall e: Dir, q: Page :: m0.Entry(e, q) == n0.Entry(e, q);
    assert forall f: Frame :: Backs(m0, d, 0, f) <==> Backs(n0, d, 0, f) by {
      forall f: Frame
        ensures Backs(m0, d, 0, f) <==> Backs(n0, d, 0, f)
      {
        SameBacks(m0, n0, d, f);
      }
    }
  }

  lemma SameBacks(m: Mem, n: Mem, d: Dir, f: Frame)
    requires m.Wf() && n.Wf() && m.pt == n.pt
    ensures Backs(m, d, 0, f) <==> Backs(n, d, 0, f)
  {
    assert forall j: DataPage :: m.Data(d, j) == n.Data(d, j);
    if Backs(m, d, 0, f) {
      var j: DataPage :| m.Data(d, j).frame == f;
      assert n.Data(d, j).frame == f;
    }
    if Backs(n, d, 0, f) {
      var j: DataPage :| n.Data(d, j).frame == f;
      assert m.Data(d, j).frame == f;
    }
  }

  /** A successful fork, then any run in which no directory is born or dies, with as many stores, clock ticks,
      clones and semaphore calls as may be, and then the exit of the last task in the child's directory, restore
      the bytemap exactly; the data pages of every other directory are where they were. */
  lemma ForkRunExitRestores(k: K, ev: KEvent, tr: seq<KEvent>, c: Clock)
    requires KInv(k) && KEnabled(k, ev) && ev.Kernel? && ev.d.e.ForkCall? && ev.d.e.outcome.Child?
    requires KInv(KStep(k, ev)) && KCanRun(KStep(k, ev), tr) && QuietRun(KStep(k, ev), tr)
    requires var w := KRun(KStep(k, ev), tr);
             && KEnabled(w, Kernel(Do(ExitCall, c)))
             && w.s.Cur().dir == ev.d.e.outcome.dir && w.m.refs[w.s.Cur().dir] == 1
    ensures var u := KStep(KRun(KStep(k, ev), tr), Kernel(Do(ExitCall, c)));
            && u.m.phys == k.m.phys
            && (forall e: Dir, q: Page | e != ev.d.e.outcome.dir :: u.m.Entry(e, q) == k.m.Entry(e, q))
            && (forall j: DataPage :: u.m.Data(ev.d.e.outcome.dir, j) == k.m.Data(ev.d.e.outcome.dir, j) == NO_ENTRY)
  {
    hide LinkInv, PidInv, SemInv, OwnerInv, TableInv, FrameInv, RefInv, IdleDirInv, Step, ForkMem, ExitMem, ForkMeets;
    hide KCanRun, KRun, QuietRun;
    var d := ev.d.e.outcome.dir;
    var n := KStep(k, ev);
    var w := KRun(n, tr);
    QuietRunKeeps(n, tr);
    ForkOutcomes(k);
    LiveDirInUse(k, k.s.current);
    ForkMemEffect(k.m, k.s.Cur().dir, d);
    ForkThenExitRestores(k.m, k.s.Cur().dir, d);
    SameExit(n.m, w.m, d);
    var u := KStep(w, Kernel(Do(ExitCall, c)));
    assert u.m == ExitMem(w.m, d);
    forall j: DataPage
      ensures u.m.Data(d, j) == k.m.Data(d, j) == NO_ENTRY
    {
      assert ExitMem(n.m, d).Data(d, j) == NO_ENTRY;
    }
  }

  // ---- Queues ----

  /** Queue partition: every task is in exactly one place.  It is in one queue, at one position, and in no other;
      or on the processor; or it is the idle task, parked before its first run; or a failed fork has lost it.
      Outside the free queue the tag "running" of a task that is not lost says exactly that it is linked nowhere,
      and tasks wait only in slots in use. */
  lemma QueuePartition(k: K, t: Tid)
    requires KInv(k)
    ensures (forall q: Queue :: t !in k.s.queues[q]) ==> t == k.s.current || t == IDLE || Lost(k.s, t)
    ensures forall q: Queue :: k.s.current !in k.s.queues[q]
    ensures Lost(k.s, t) ==> forall q: Queue :: t !in k.s.queues[q]
    ensures forall q: Queue, r: Queue | t in k.s.queues[q] && t in k.s.queues[r] :: q == r
    ensures forall q: Queue, i, j | 0 <= i < j < |k.s.queues[q]| :: k.s.queues[q][i] != k.s.queues[q][j]
    ensures t !in k.s.Free() ==> (k.s.tasks[t].estado == StRun <==> forall q: Queue :: t !in k.s.queues[q])
    ensures forall i: Slot | t in k.s.Blocked(i) :: k.s.sems[i].used && t != IDLE
  {
    forall q: Queue
      ensures t in k.s.queues[q] <==> k.s.at[t] == q
      ensures k.s.current in k.s.queues[q] <==> k.s.at[k.s.current] == q
    {
      AtIsMembership(k.s, t, q);
      AtIsMembership(k.s, k.s.current, q);
    }
    if k.s.at[t] != NOWHERE {
      AtIsMembership(k.s, t, k.s.at[t]);
    }
    hide PidInv, SemInv, OwnerInv, SpaceInv, IdleDirInv, RefInv;
  }
}
