/** The whole machine: scheduler and memory together, and what each of its steps keeps. */
module Machine {
  import opened Common
  import opened Sequences
  import opened SchedSpec
  import opened SchedSteps
  import opened SchedInv
  import opened Population
  import opened MemSpec
  import opened AddressSpaces

  datatype K = K(s: Sched, m: Mem)

  /** Data page, offset and value of a store of the running program; everything else that matters is a step of
      the scheduler machine. */
  datatype KEvent = Kernel(d: Do) | Store(j: DataPage, o: Offset, b: Byte)

  // ---- Invariants ----

  /** Directory 0 belongs to idle alone. */
  ghost predicate IdleDirInv(s: Sched)
    requires s.Wf()
  {
    forall t: Tid | Alive(s, t) :: (s.tasks[t].dir == 0 <==> t == IDLE)
  }

  /** The live tasks that use directory d. */
  ghost function Users(s: Sched, d: Dir): set<Tid>
    requires s.Wf()
  {
    set t: Tid | Alive(s, t) && s.tasks[t].dir == d
  }

  /** `init_idle` and `init_task1` count their directory once more than `allocate_DIR` does. */
  function Extra(d: Dir): int {
    if d < 2 then 1 else 0
  }

  /** Reference counts are true: live users, and one more for the directories of idle and init. */
  ghost predicate RefInv(k: K)
    requires k.s.Wf() && k.m.Wf()
  {
    forall d: Dir :: k.m.refs[d] == |Users(k.s, d)| + Extra(d)
  }

  /** What every step of every task keeps, `sys_exit` of the initial process and failed forks included. */
  ghost predicate KInv(k: K) {
    && Inv(k.s) && IdleDirInv(k.s)
    && SpaceInv(k.m)
    && RefInv(k)
  }

  /** Task t is neither free nor alive: no queue and no processor will ever see it again. */
  predicate Lost(s: Sched, t: Tid)
    requires s.Wf()
  {
    t !in s.Free() && !Alive(s, t)
  }

  ghost predicate NoneLost(s: Sched)
    requires s.Wf()
  {
    forall t: Tid :: !Lost(s, t)
  }

  /** The initial process lives, in directory 1. */
  predicate InitLives(s: Sched)
    requires s.Wf()
  {
    Alive(s, INIT) && s.tasks[INIT].dir == 1
  }

  /** The directory of a live task other than idle is in use. */
  lemma LiveDirInUse(k: K, t: Tid)
    requires KInv(k) && Alive(k.s, t) && t != IDLE
    ensures UserDir(k.m, k.s.tasks[t].dir)
  {
    assert t in Users(k.s, k.s.tasks[t].dir);
  }

  // ---- Steps ----

  /** What `sys_fork` meets. */
  function ForkMeets(k: K): ForkOutcome
    requires k.s.Wf() && k.m.Wf()
  {
    if k.s.Free() == [] then NoTask
    else
      var d := FirstDir(k.m.refs, 0);
      if d == -1 then NoDirectory
      else if ForkMem(k.m, k.s.Cur().dir, d).ok then Child(d) else NoFrames(d)
  }

  /** A successful `sys_clone` or `sys_fork` and `sys_exit` change memory, and the other steps do not. */
  function MemStep(k: K, e: Event): (m: Mem)
    requires k.s.Wf() && k.m.Wf()
    ensures m.Wf()
  {
    var p := k.s.Cur().dir;
    match e
    case ForkCall(o) =>
      if o.Child? then ForkMem(k.m, p, o.dir).m
      else if o.NoFrames? then ForkMem(k.m, p, o.d).m
      else k.m
    case CloneCall(ok) => if ok && k.s.Free() != [] then k.m.SetRefs(p, k.m.refs[p] + 1) else k.m
    case ExitCall => ExitMem(k.m, p)
    case _ => k.m
  }

  ghost predicate KEnabled(k: K, ev: KEvent)
    requires k.s.Wf() && k.m.Wf()
  {
    match ev
    case Kernel(d) =>
      && Enabled(k.s, d.e)
      && Forward(d.c, k.s.now)
      && (d.e.ForkCall? ==> d.e.outcome == ForkMeets(k))
    case Store(j, o, b) => k.s.current != IDLE && UserMayWrite(k.m.Data(k.s.Cur().dir, j))
  }

  /** Every program that runs may write each of its data pages. */
  lemma StoresAllowed(k: K, j: DataPage, o: Offset, b: Byte)
    requires KInv(k) && k.s.current != IDLE
    ensures KEnabled(k, Store(j, o, b))
  {
    LiveDirInUse(k, k.s.current);
    AccessRights(k.m, k.s.Cur().dir, PAG_LOG_INIT_DATA + j);
    hide Inv, SpaceInv;
  }

  ghost function KStep(k: K, ev: KEvent): K
    requires KInv(k) && KEnabled(k, ev)
  {
    match ev
    case Kernel(d) => K(Step(k.s, d), MemStep(k, d.e))
    case Store(j, o, b) => k.(m := k.m.SetByte(k.m.Data(k.s.Cur().dir, j).frame, o, b))
  }

  // ---- What sys_fork meets ----

  lemma FreeIsNotAlive(s: Sched, t: Tid)
    requires Inv(s) && t in s.Free()
    ensures !Alive(s, t)
  {
    AtIsMembership(s, t, FREE_QUEUE);
  }

  lemma IdleAndInitCounted(k: K)
    requires KInv(k)
    ensures k.m.refs[0] > 0 && k.m.refs[1] > 0
  {
    hide Inv, SpaceInv, IdleDirInv;
  }

  /** In every state: `sys_fork` succeeds exactly when a task is free and some directory is not counted; it fails
      for lack of a directory exactly when a task is free and all 15 are counted; and it never lacks frames. */
  lemma ForkOutcomes(k: K)
    requires KInv(k) && k.s.current != IDLE
    ensures ForkMeets(k).NoTask? <==> k.s.Free() == []
    ensures ForkMeets(k).Child? <==> k.s.Free() != [] && exists d: Dir :: k.m.refs[d] == 0
    ensures ForkMeets(k).NoDirectory? <==> k.s.Free() != [] && forall d: Dir :: k.m.refs[d] != 0
    ensures ForkMeets(k).Child? ==>
              var d := ForkMeets(k).dir; 1 < d && k.m.refs[d] == 0 && ForkMem(k.m, k.s.Cur().dir, d).ok
  {
    IdleAndInitCounted(k);
    LiveDirInUse(k, k.s.current);
    hide Inv, SpaceInv, IdleDirInv, RefInv, ForkMem;
    var d := FirstDir(k.m.refs, 0);
    if d != -1 {
      ForkMemOk(k.m, k.s.Cur().dir, d);
    }
  }

  // ---- Capacity ----

  /** The live tasks whose directory is below n. */
  ghost function UsersBelow(s: Sched, n: nat): set<Tid>
    requires s.Wf()
  {
    set t: Tid | Alive(s, t) && s.tasks[t].dir < n
  }

  lemma {:induction false} OneUserEach(s: Sched, n: nat)
    requires s.Wf() && n <= NR_DIRS
    requires forall d: Dir | d < n :: Users(s, d) != {}
    ensures |UsersBelow(s, n)| >= n
  {
    if n > 0 {
      OneUserEach(s, n - 1);
      var t :| t in Users(s, n - 1);
      assert UsersBelow(s, n - 1) !! {t} && UsersBelow(s, n - 1) + {t} <= UsersBelow(s, n);
      SubsetCount(UsersBelow(s, n - 1) + {t}, UsersBelow(s, n));
    }
  }

  /** While some task is not alive, at most 14 are. */
  lemma UsersAreFew(s: Sched, free: Tid)
    requires s.Wf() && !Alive(s, free)
    ensures |UsersBelow(s, NR_DIRS)| < NR_TASKS
  {
    hide Alive;
    UptoCount(NR_TASKS);
    var users: set<int> := UsersBelow(s, NR_DIRS);
    assert users <= Upto(NR_TASKS) - {free};
    SubsetCount(users, Upto(NR_TASKS) - {free});
  }

  /** While some task is free, fewer than 15 tasks are alive, so the 15 directories cannot all have a user. */
  lemma SomeDirUnused(s: Sched) returns (d: Dir)
    requires Inv(s) && s.Free() != []
    ensures Users(s, d) == {}
  {
    hide LinkInv, PidInv, SemInv, OwnerInv, Users, UsersBelow, Alive;
    FreeIsNotAlive(s, s.Free()[0]);
    UsersAreFew(s, s.Free()[0]);
    if forall d: Dir :: Users(s, d) != {} {
      OneUserEach(s, NR_DIRS);
      assert false;
    }
    d :| Users(s, d) == {};
  }

  lemma DirectoryToSpare(k: K)
    requires KInv(k) && Users(k.s, 1) != {} && k.s.Free() != []
    ensures exists d: Dir :: k.m.refs[d] == 0
  {
    var d := SomeDirUnused(k.s);
    assert IDLE in Users(k.s, 0);
    hide Inv, SpaceInv, Users;
    assert k.m.refs[d] == 0;
  }

  /** The capacity theorem: while the initial process lives, or any task in its directory, `sys_fork` succeeds
      exactly when some task is free; it never fails half way for lack of a directory or of frames. */
  lemma Capacity(k: K)
    requires KInv(k) && Users(k.s, 1) != {} && k.s.current != IDLE
    ensures ForkMeets(k).Child? <==> k.s.Free() != []
    ensures ForkMeets(k).NoTask? <==> k.s.Free() == []
  {
    ForkOutcomes(k);
    if k.s.Free() != [] {
      DirectoryToSpare(k);
    }
    hide Inv, SpaceInv, RefInv, ForkMeets, Users;
  }

  // ---- Every step keeps the invariant ----

  lemma SettledKeeps(k: K, u: Sched)
    requires KInv(k) && Inv(u) && (Settled(k.s, u) || Dropped(k.s, u))
    ensures KInv(K(u, k.m))
  {
    forall d: Dir
      ensures Users(u, d) == Users(k.s, d)
    {
    }
    hide Inv, SpaceInv;
  }

  lemma BornIn(s: Sched, u: Sched, dir: Dir)
    requires s.Wf() && Born(s, u, dir) && !Alive(s, s.Free()[0])
    ensures forall d: Dir :: |Users(u, d)| == |Users(s, d)| + (if d == dir then 1 else 0)
  {
    hide Alive;
    var t := s.Free()[0];
    forall d: Dir
      ensures |Users(u, d)| == |Users(s, d)| + (if d == dir then 1 else 0)
    {
      assert t !in Users(s, d);
      assert Users(u, d) == if d == dir then Users(s, d) + {t} else Users(s, d);
    }
  }

  lemma BornUsers(s: Sched, u: Sched, dir: Dir)
    requires Inv(s) && IdleDirInv(s) && Born(s, u, dir) && dir != 0
    ensures IdleDirInv(u)
    ensures forall d: Dir :: |Users(u, d)| == |Users(s, d)| + (if d == dir then 1 else 0)
  {
    assert Alive(s, IDLE);
    FreeIsNotAlive(s, s.Free()[0]);
    hide LinkInv, PidInv, SemInv, OwnerInv, Alive;
    BornIn(s, u, dir);
  }

  lemma GoneUsers(s: Sched, u: Sched)
    requires Inv(s) && IdleDirInv(s) && Gone(s, u) && s.current != IDLE
    ensures IdleDirInv(u)
    ensures forall d: Dir :: |Users(u, d)| == |Users(s, d)| - (if d == s.Cur().dir then 1 else 0)
  {
    assert Alive(s, s.current);
    hide Inv;
    forall d: Dir
      ensures |Users(u, d)| == |Users(s, d)| - (if d == s.Cur().dir then 1 else 0)
    {
      assert Users(u, d) == if d == s.Cur().dir then Users(s, d) - {s.current} else Users(s, d);
    }
  }

  lemma ForkKeeps(k: K, u: Sched)
    requires KInv(k) && k.s.current != IDLE && ForkMeets(k).Child? && Inv(u)
    requires Born(k.s, u, ForkMeets(k).dir)
    ensures KInv(K(u, ForkMem(k.m, k.s.Cur().dir, ForkMeets(k).dir).m))
  {
    ForkOutcomes(k);
    var d := ForkMeets(k).dir;
    var p := k.s.Cur().dir;
    LiveDirInUse(k, k.s.current);
    BornUsers(k.s, u, d);
    ForkMemEffect(k.m, p, d);
    var m' := ForkMem(k.m, p, d).m;
    ForkTables(k.m, m', p, d);
    ForkFrames(k.m, m', p, d);
    assert m'.refs == k.m.refs[d := 1];
    hide Inv, TableInv, FrameInv, ForkMem, ForkMeets, ForkEffect;
  }

  lemma CloneKeeps(k: K, u: Sched)
    requires KInv(k) && k.s.current != IDLE && Inv(u) && Born(k.s, u, k.s.Cur().dir)
    ensures var p := k.s.Cur().dir; KInv(K(u, k.m.SetRefs(p, k.m.refs[p] + 1)))
  {
    LiveDirInUse(k, k.s.current);
    BornUsers(k.s, u, k.s.Cur().dir);
    RefsOnly(k.m, k.s.Cur().dir, k.m.refs[k.s.Cur().dir] + 1);
    hide Inv, SpaceInv;
  }

  lemma ExitKeeps(k: K, u: Sched)
    requires KInv(k) && k.s.current != IDLE && Inv(u) && Gone(k.s, u)
    ensures KInv(K(u, ExitMem(k.m, k.s.Cur().dir)))
  {
    var p := k.s.Cur().dir;
    LiveDirInUse(k, k.s.current);
    GoneUsers(k.s, u);
    ExitMemEffect(k.m, p);
    if k.m.refs[p] == 1 {
      ExitTables(k.m, p);
      ExitFrames(k.m, p);
    } else {
      RefsOnly(k.m, p, k.m.refs[p] - 1);
    }
    hide Inv, TableInv, FrameInv, ExitMem;
  }

  lemma StoreKeeps(k: K, j: DataPage, o: Offset, b: Byte)
    requires KInv(k) && k.s.current != IDLE
    ensures KInv(k.(m := k.m.SetByte(k.m.Data(k.s.Cur().dir, j).frame, o, b)))
  {
    LiveDirInUse(k, k.s.current);
    StoreIsPrivate(k.m, k.s.Cur().dir, j, o, b);
    hide Inv, SpaceInv;
  }

  /** Every step keeps the whole invariant. */
  lemma KStepInv(k: K, ev: KEvent)
    requires KInv(k) && KEnabled(k, ev)
    ensures KInv(KStep(k, ev))
  {
    hide LinkInv, PidInv, SemInv, OwnerInv, SpaceInv, Step, ForkMem, ExitMem, ForkMeets, IdleDirInv, RefInv;
    match ev
    case Kernel(d) =>
      if k.s.current != IDLE {
        ForkOutcomes(k);
      }
      StepInv(k.s, d);
      StepMoves(k.s, d);
      var u := Step(k.s, d);
      if Spawns(k.s, d.e) {
        if d.e.ForkCall? {
          ForkKeeps(k, u);
        } else {
          CloneKeeps(k, u);
        }
      } else if d.e == ExitCall {
        ExitKeeps(k, u);
      } else {
        SettledKeeps(k, u);
      }
    case Store(j, o, b) =>
      StoreKeeps(k, j, o, b);
  }
}
