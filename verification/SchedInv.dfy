/** What every run of the scheduler machine keeps: identifiers, semaphores and their owners. */
module SchedInv {
  import opened Common
  import opened Sequences
  import opened SchedSpec
  import opened SchedSteps

  /** A task that may still run: linked in a queue other than the free one, on the processor, or idle. */
  predicate Alive(s: Sched, t: Tid)
    requires s.Wf()
  {
    s.at[t] > FREE_QUEUE || t == s.current || t == IDLE
  }

  /** Live tasks have different identifiers; only idle has 0. */
  ghost predicate PidInv(s: Sched)
    requires s.Wf()
  {
    && s.nextPid >= 2
    && (forall t: Tid | Alive(s, t) :: 0 <= s.tasks[t].pid < s.nextPid)
    && (forall t: Tid | Alive(s, t) :: s.tasks[t].pid == 0 <==> t == IDLE)
    && (forall t: Tid, u: Tid | Alive(s, t) && Alive(s, u) && t != u :: s.tasks[t].pid != s.tasks[u].pid)
  }

  /** Free slots have owner 0; used slots have different identifiers, and tasks wait only on a spent counter. */
  ghost predicate SemInv(s: Sched)
    requires s.Wf()
  {
    && (forall i: Slot | !s.sems[i].used :: s.sems[i].owner == 0)
    && (forall i: Slot | s.sems[i].used && s.Blocked(i) != [] :: s.sems[i].counter <= 0)
    && (forall i: Slot, j: Slot | s.sems[i].used && s.sems[j].used && i != j :: s.sems[i].nSem != s.sems[j].nSem)
  }

  predicate Owns(s: Sched, t: Tid, i: Slot)
    requires s.Wf()
  {
    t != IDLE && Alive(s, t) && s.tasks[t].pid == s.sems[i].owner
  }

  /** No semaphore outlives its owner. */
  ghost predicate OwnerInv(s: Sched)
    requires s.Wf()
  {
    forall i: Slot | s.sems[i].used :: exists t: Tid :: Owns(s, t, i)
  }

  ghost predicate Inv(s: Sched) {
    && s.Wf() && LinkInv(s) && OnCpu(s) && PidInv(s) && SemInv(s) && OwnerInv(s)
  }

  // ---- Frames ----

  /** Same identifiers and the same tasks alive. */
  ghost predicate SamePeople(s: Sched, u: Sched) {
    && s.Wf() && u.Wf()
    && u.nextPid == s.nextPid
    && (forall t: Tid :: Alive(u, t) <==> Alive(s, t))
    && (forall t: Tid | Alive(s, t) :: u.tasks[t].pid == s.tasks[t].pid)
  }

  lemma SamePeopleRefl(s: Sched)
    requires s.Wf()
    ensures SamePeople(s, s)
  {
  }

  lemma SamePeopleTrans(s: Sched, u: Sched, v: Sched)
    requires SamePeople(s, u) && SamePeople(u, v)
    ensures SamePeople(s, v)
  {
  }

  lemma PeopleKeepPids(s: Sched, u: Sched)
    requires SamePeople(s, u) && PidInv(s)
    ensures PidInv(u)
  {
  }

  /** Slots may be freed or may change their counter, but none gets another owner. */
  lemma PeopleKeepOwners(s: Sched, u: Sched)
    requires SamePeople(s, u) && OwnerInv(s)
    requires forall i: Slot | u.sems[i].used :: s.sems[i].used && u.sems[i].owner == s.sems[i].owner
    ensures OwnerInv(u)
  {
    forall i: Slot | u.sems[i].used
      ensures exists t: Tid :: Owns(u, t, i)
    {
      var t: Tid :| Owns(s, t, i);
      assert Owns(u, t, i);
    }
  }

  lemma SameSems(s: Sched, u: Sched)
    requires s.Wf() && u.Wf() && SemInv(s) && u.sems == s.sems
    requires forall i: Slot :: u.Blocked(i) == [] || s.Blocked(i) != []
    ensures SemInv(u)
  {
  }

  /** `sched_next_rr` in closed form. */
  lemma NextForm(s: Sched, c: Clock)
    requires LinkInv(s) && !OnCpu(s)
    ensures s.Ready() != [] ==> s.at[s.Ready()[0]] == READY_QUEUE
    ensures SchedNext(s, c) ==
            if s.Ready() == [] then s.(current := IDLE) else
              var n := s.Ready()[0];
              s.(tasks := s.tasks[n := s.tasks[n].(stats := Dispatched(s.tasks[n].stats, c), estado := StRun)],
                 queues := s.queues[READY_QUEUE := s.Ready()[1..]],
                 at := s.at[n := NOWHERE],
                 qLeft := s.Cur().quantum,
                 current := n)
  {
    if s.Ready() != [] {
      assert s.at[s.Ready()[0]] == READY_QUEUE;
    }
  }

  // ---- One step ----

  /** `schedule` in effect: nobody joins or leaves, and no blocked queue moves. */
  lemma SchedulePeople(s: Sched, c: Clock)
    requires LinkInv(s) && OnCpu(s)
    ensures SamePeople(s, Schedule(s, c))
    ensures Schedule(s, c).sems == s.sems
    ensures forall i: Slot :: Schedule(s, c).Blocked(i) == s.Blocked(i)
  {
    var u := s.(qLeft := s.qLeft - 1);
    SameLinks(s, u);
    if u.qLeft == 0 && u.Ready() != [] {
      var v := ExitRunCurrent(u, READY_QUEUE, c.off);
      LeaveLinks(u, READY_QUEUE, c.off);
      NextForm(v, c);
      assert forall t: Tid :: v.tasks[t].pid == s.tasks[t].pid;
      hide LinkInv, Linked, ExitRunCurrent, SchedNext;
    }
  }

  lemma ScheduleInv(s: Sched, c: Clock)
    requires Inv(s)
    ensures Inv(Schedule(s, c))
  {
    var v := Schedule(s, c);
    ScheduleLinks(s, c);
    SchedulePeople(s, c);
    hide Schedule;
    PeopleKeepPids(s, v);
    PeopleKeepOwners(s, v);
    SameSems(s, v);
  }

  lemma ChildInv(s: Sched, dir: Dir)
    requires Inv(s) && s.current != IDLE && s.Free() != []
    ensures Inv(Spawn(s, dir))
  {
    hide Linked;
    var t := s.Free()[0];
    SpawnLinks(s, dir);
    var u := Spawn(s, dir);
    assert forall x: Tid :: Alive(u, x) <==> Alive(s, x) || x == t;
    assert PidInv(u);
    forall i: Slot | u.sems[i].used
      ensures exists x: Tid :: Owns(u, x, i)
    {
      var x: Tid :| Owns(s, x, i);
      assert Owns(u, x, i);
    }
    SameSems(s, u);
  }

  lemma LostInv(s: Sched, dir: Dir)
    requires Inv(s) && s.Free() != []
    ensures Inv(Lose(s, dir))
  {
    hide Linked;
    SpawnLinks(s, dir);
    var l := Lose(s, dir);
    assert SamePeople(s, l);
    PeopleKeepPids(s, l);
    PeopleKeepOwners(s, l);
    SameSems(s, l);
  }

  lemma SpawnInv(s: Sched, dir: Dir)
    requires Inv(s) && s.current != IDLE && s.Free() != []
    ensures Inv(Spawn(s, dir)) && Inv(Lose(s, dir))
  {
    ChildInv(s, dir);
    LostInv(s, dir);
  }

  lemma SemInitInv(s: Sched, n: int, v: int)
    requires Inv(s) && s.current != IDLE && Enabled(s, SemInitCall(n, v))
    ensures Inv(SemInit(s, n, v))
  {
    var u := SemInit(s, n, v);
    if FindSem(s.sems, n, 0) == -1 {
      SameLinks(s, u);
      var i := FindFreeSem(s.sems, 0);
      assert s.Blocked(i) == [];
      assert SamePeople(s, u);
      PeopleKeepPids(s, u);
      forall j: Slot | u.sems[j].used
        ensures exists t: Tid :: Owns(u, t, j)
      {
        if j == i {
          assert Owns(u, s.current, j);
        } else {
          var t: Tid :| Owns(s, t, j);
          assert Owns(u, t, j);
        }
      }
    }
  }

  lemma AtIsMembership(s: Sched, t: Tid, q: Queue)
    requires LinkInv(s)
    ensures s.at[t] == q <==> t in s.queues[q]
  {
  }

  lemma WakeAllPeople(s: Sched, i: Slot)
    requires LinkInv(s)
    ensures SamePeople(s, FreeSlot(WakeAll(s, i), i))
  {
    hide Linked;
    forall t: Tid
      ensures t in s.Blocked(i) <==> s.at[t] == SemQueue(i)
    {
      AtIsMembership(s, t, SemQueue(i));
    }
  }

  /** Waking touches neither identifiers nor other slots' waiters. */
  lemma WakeAllInv(s: Sched, i: Slot)
    requires s.Wf() && LinkInv(s) && SemInv(s) && PidInv(s) && OwnerInv(s)
    ensures var u := FreeSlot(WakeAll(s, i), i);
            LinkInv(u) && SemInv(u) && PidInv(u) && OwnerInv(u) && SamePeople(s, u)
  {
    hide Linked, LinkInv;
    var u := FreeSlot(WakeAll(s, i), i);
    WakeAllLinks(s, i);
    WakeAllPeople(s, i);
    PeopleKeepPids(s, u);
    PeopleKeepOwners(s, u);
  }

  lemma SemDestroyInv(s: Sched, n: int)
    requires Inv(s)
    ensures Inv(SemDestroy(s, n)) && SamePeople(s, SemDestroy(s, n))
  {
    var i := FindSem(s.sems, n, 0);
    SemDestroyLinks(s, n);
    if i != -1 {
      WakeAllInv(s, i);
    }
  }

  /** The first waiter of slot i joins the end of the ready queue; nothing else moves. */
  lemma WakeFirst(s: Sched, i: Slot)
    requires LinkInv(s) && s.Blocked(i) != []
    ensures s.at[s.Blocked(i)[0]] == SemQueue(i)
    ensures var t := s.Blocked(i)[0];
            var u := UpdateState(s, t, READY_QUEUE);
            && LinkInv(u)
            && u == s.(tasks := s.tasks[t := s.tasks[t].(estado := StReady)],
                       queues := s.queues[SemQueue(i) := s.Blocked(i)[1..]][READY_QUEUE := s.Ready() + [t]],
                       at := s.at[t := READY_QUEUE])
  {
    assert s.at[s.Blocked(i)[0]] == SemQueue(i);
    MoveLinks(s, s.Blocked(i)[0], READY_QUEUE);
  }

  lemma WakeFirstInv(s: Sched, i: Slot)
    requires Inv(s) && s.Blocked(i) != []
    ensures s.at[s.Blocked(i)[0]] == SemQueue(i)
    ensures var u := UpdateState(s, s.Blocked(i)[0], READY_QUEUE); Inv(u) && SamePeople(s, u)
  {
    WakeFirst(s, i);
    var u := UpdateState(s, s.Blocked(i)[0], READY_QUEUE);
    PeopleKeepPids(s, u);
    PeopleKeepOwners(s, u);
    SameSems(s, u);
  }

  lemma CounterInv(s: Sched, i: Slot, n: int)
    requires s.Wf() && SemInv(s) && s.Blocked(i) == []
    ensures SemInv(s.SetSem(i, s.sems[i].(counter := n)))
  {
  }

  lemma CountUpInv(s: Sched, i: Slot)
    requires Inv(s) && s.Blocked(i) == []
    ensures var u := s.SetSem(i, s.sems[i].(counter := s.sems[i].counter + 1)); Inv(u) && SamePeople(s, u)
  {
    hide LinkInv, SemInv;
    var u := s.SetSem(i, s.sems[i].(counter := s.sems[i].counter + 1));
    CounterInv(s, i, s.sems[i].counter + 1);
    SameLinks(s, u);
    PeopleKeepPids(s, u);
    PeopleKeepOwners(s, u);
  }

  lemma SemSignalInv(s: Sched, n: int)
    requires Inv(s)
    ensures Inv(SemSignal(s, n)) && SamePeople(s, SemSignal(s, n))
  {
    hide PidInv, OwnerInv, SemInv, Linked, UpdateState;
    var i := FindSem(s.sems, n, 0);
    if i != -1 {
      if s.Blocked(i) == [] {
        CountUpInv(s, i);
      } else {
        WakeFirstInv(s, i);
      }
    } else {
      SamePeopleRefl(s);
    }
  }

  /** The caller of `sys_sem_wait` joins the end of the blocked queue and leaves the processor. */
  lemma BlockLinks(s: Sched, i: Slot, c: Clock)
    requires LinkInv(s) && OnCpu(s) && s.current != IDLE && s.sems[i].used
    ensures var u := ExitRunCurrent(s.SetTask(s.current, s.Cur().(semRet := 0)), SemQueue(i), c.off);
            && LinkInv(u)
            && u.at == s.at[s.current := SemQueue(i)]
            && u.queues == s.queues[SemQueue(i) := s.Blocked(i) + [s.current]]
            && u.current == s.current && u.sems == s.sems && u.nextPid == s.nextPid
            && forall t: Tid :: u.tasks[t].pid == s.tasks[t].pid
  {
    var u := s.SetTask(s.current, s.Cur().(semRet := 0));
    SameLinks(s, u);
    LeaveLinks(u, SemQueue(i), c.off);
  }

  lemma SemBlockInv(s: Sched, i: Slot, c: Clock)
    requires Inv(s) && s.current != IDLE && s.sems[i].used && s.sems[i].counter <= 0
    ensures var u := ExitRunCurrent(s.SetTask(s.current, s.Cur().(semRet := 0)), SemQueue(i), c.off);
            !OnCpu(u) && LinkInv(u) && Inv(SchedNext(u, c)) && SamePeople(s, SchedNext(u, c))
  {
    hide Linked, ExitRunCurrent, SchedNext;
    var u := ExitRunCurrent(s.SetTask(s.current, s.Cur().(semRet := 0)), SemQueue(i), c.off);
    BlockLinks(s, i, c);
    NextLinks(u, c);
    NextForm(u, c);
    var v := SchedNext(u, c);
    assert SamePeople(s, v);
    PeopleKeepPids(s, v);
    PeopleKeepOwners(s, v);
  }

  /** A wait that does not block takes one off the counter, leaves 0 as its result, and changes nothing else. */
  lemma WaitPasses(s: Sched, n: int, c: Clock)
    requires Inv(s) && s.current != IDLE && FindSem(s.sems, n, 0) != -1 && s.sems[FindSem(s.sems, n, 0)].counter > 0
    ensures var i, u := FindSem(s.sems, n, 0), SemWait(s, n, c);
            u == s.(tasks := s.tasks[s.current := s.tasks[s.current].(semRet := 0)],
                    sems := s.sems[i := Sem(true, n, s.sems[i].owner, s.sems[i].counter - 1)])
  {
    hide LinkInv, PidInv, SemInv, OwnerInv;
  }

  lemma CountDownInv(s: Sched, i: Slot)
    requires Inv(s) && s.sems[i].used && s.sems[i].counter > 0
    ensures var u := s.SetTask(s.current, s.Cur().(semRet := 0)).SetSem(i,
            s.sems[i].(counter := s.sems[i].counter - 1));
            Inv(u) && SamePeople(s, u)
  {
    hide Linked;
    var u := s.SetTask(s.current, s.Cur().(semRet := 0)).SetSem(i, s.sems[i].(counter := s.sems[i].counter - 1));
    SameLinks(s, u);
    hide LinkInv;
    PeopleKeepPids(s, u);
    PeopleKeepOwners(s, u);
  }

  lemma SemWaitInv(s: Sched, n: int, c: Clock)
    requires Inv(s) && s.current != IDLE
    ensures Inv(SemWait(s, n, c)) && SamePeople(s, SemWait(s, n, c))
  {
    hide PidInv, OwnerInv, Linked;
    var i := FindSem(s.sems, n, 0);
    if i != -1 {
      if s.sems[i].counter <= 0 {
        SemBlockInv(s, i, c);
      } else {
        CountDownInv(s, i);
      }
    } else {
      SamePeopleRefl(s);
    }
  }

  /** The loop of `sys_exit`, slot by slot: what is owned goes, what is not stays. */
  lemma {:induction false} DestroyOwnedInv(s: Sched, i: nat)
    requires Inv(s) && i <= NR_SEMS && s.current != IDLE
    ensures var u := DestroyOwned(s, s.Cur().pid, i);
            && Inv(u) && SamePeople(s, u) && u.Cur().pid == s.Cur().pid
            && (forall j: Slot | i <= j :: u.sems[j].owner != s.Cur().pid)
            && (forall j: Slot | s.sems[j].owner != s.Cur().pid ::
                  u.sems[j] == s.sems[j] && u.Blocked(j) == s.Blocked(j))
    decreases NR_SEMS - i
  {
    hide LinkInv, PidInv, SemInv, OwnerInv, SamePeople, SemDestroy;
    var pid := s.Cur().pid;
    CallerIsNotIdle(s);
    if i < NR_SEMS {
      if s.sems[i].owner == pid {
        DestroyOne(s, i);
        var u := SemDestroy(s, s.sems[i].nSem);
        DestroyOwnedInv(u, i + 1);
        SamePeopleTrans(s, u, DestroyOwned(u, pid, i + 1));
      } else {
        DestroyOwnedInv(s, i + 1);
      }
    } else {
      SamePeopleRefl(s);
    }
  }

  lemma CallerIsNotIdle(s: Sched)
    requires Inv(s) && s.current != IDLE
    ensures s.Cur().pid >= 1
  {
    assert Alive(s, s.current);
  }

  /** An owned slot is used, and looking up its identifier finds it. */
  lemma FindOwn(s: Sched, i: Slot)
    requires Inv(s) && s.current != IDLE && s.sems[i].owner == s.Cur().pid
    ensures s.sems[i].used && FindSem(s.sems, s.sems[i].nSem, 0) == i
  {
    assert Alive(s, s.current);
  }

  lemma DestroyOne(s: Sched, i: Slot)
    requires Inv(s) && s.current != IDLE && s.sems[i].owner == s.Cur().pid
    ensures var u := SemDestroy(s, s.sems[i].nSem);
            && Inv(u) && SamePeople(s, u) && u.current == s.current && u.Cur().pid == s.Cur().pid
            && u.sems == s.sems[i := Sem(false, -1, 0, s.sems[i].counter)]
            && u.queues == s.queues[READY_QUEUE := s.Ready() + s.Blocked(i)][SemQueue(i) := []]
            && u.qLeft == s.qLeft
            && (forall t: Tid :: u.tasks[t] == if t in s.Blocked(i) then Released(s.tasks[t]) else s.tasks[t])
            && (forall t: Tid :: u.at[t] == if t in s.Blocked(i) then READY_QUEUE else s.at[t])
  {
    FindOwn(s, i);
    SemDestroyInv(s, s.sems[i].nSem);
    assert Alive(s, s.current);
  }

  lemma VacateInv(s: Sched)
    requires Inv(s) && s.current != IDLE
    ensures var u := Vacate(s); LinkInv(u) && SemInv(u)
    ensures forall t: Tid :: (Vacate(s).at[t] > FREE_QUEUE || t == IDLE) <==> (Alive(s, t) && t != s.current)
    ensures forall t: Tid | t != s.current && Alive(s, t) :: Vacate(s).tasks[t].pid == s.tasks[t].pid
    ensures Vacate(s).nextPid == s.nextPid
    ensures forall i: Slot | Vacate(s).sems[i].used ::
              s.sems[i].used && Vacate(s).sems[i].owner == s.sems[i].owner != s.Cur().pid
  {
    var u := DestroyOwned(s, s.Cur().pid, 0);
    DestroyOwnedInv(s, 0);
    VacateLinks(s);
    assert forall t: Tid :: Alive(u, t) <==> Alive(s, t);
    var v := u.SetTask(u.current, u.Cur().(pid := -1));
    SameLinks(u, v);
    MoveLinks(v, v.current, FREE_QUEUE);
    forall i: Slot | Vacate(s).sems[i].used
      ensures s.sems[i].used && Vacate(s).sems[i].owner == s.sems[i].owner != s.Cur().pid
    {
      UsedBefore(s, i);
    }
  }

  lemma UsedBefore(s: Sched, i: Slot)
    requires Inv(s) && s.current != IDLE
    ensures var u := DestroyOwned(s, s.Cur().pid, 0);
            u.sems[i].used ==> s.sems[i].used && u.sems[i].owner == s.sems[i].owner
  {
    DestroyOwnedInv(s, 0);
    if s.sems[i].owner == s.Cur().pid {
      FindOwn(s, i);
      NeverReused(s, s.Cur().pid, 0, i);
    }
  }

  /** Destroying never makes a slot used, and never changes the owner of a slot that stays used. */
  lemma {:induction false} NeverReused(s: Sched, pid: int, k: nat, i: Slot)
    requires s.Wf() && k <= NR_SEMS
    ensures var u := DestroyOwned(s, pid, k);
            u.sems[i].used ==> s.sems[i].used && u.sems[i].owner == s.sems[i].owner
    decreases NR_SEMS - k
  {
    if k < NR_SEMS {
      NeverReused(if s.sems[k].owner == pid then SemDestroy(s, s.sems[k].nSem) else s, pid, k + 1, i);
    }
  }

  lemma ExitInv(s: Sched, c: Clock)
    requires Inv(s) && s.current != IDLE
    ensures Inv(Exit(s, c))
    ensures forall t: Tid :: Alive(Exit(s, c), t) <==> Alive(s, t) && t != s.current
  {
    hide Linked, Vacate, SchedNext;
    var u := Vacate(s);
    VacateInv(s);
    VacateLinks(s);
    NextLinks(u, c);
    NextForm(u, c);
    var v := Exit(s, c);
    forall t: Tid
      ensures Alive(v, t) <==> Alive(s, t) && t != s.current
    {
    }
    SameSems(u, v);
    forall i: Slot | v.sems[i].used
      ensures exists t: Tid :: Owns(v, t, i)
    {
      var t: Tid :| Owns(s, t, i);
      assert Owns(v, t, i);
    }
  }

  lemma EntryInv(s: Sched, u: Sched, r: Reads)
    requires Inv(s) && (u == StatsEntry(s, r) || u == StatsLeave(s, r))
    ensures Inv(u) && SamePeople(s, u)
  {
    EntryLinks(s, r);
    PeopleKeepPids(s, u);
    PeopleKeepOwners(s, u);
    SameSems(s, u);
  }

  lemma BodyInv(s: Sched, e: Event, c: Clock)
    requires Inv(s) && Enabled(s, e) && e != ClockTick
    ensures Inv(Body(s, e, c))
  {
    hide Linked;
    match e
    case ForkCall(o) =>
      match o {
        case NoTask =>
        case NoDirectory => SpawnInv(s, s.Cur().dir);
        case NoFrames(d) => SpawnInv(s, d);
        case Child(d) => SpawnInv(s, d);
      }
    case CloneCall(ok) =>
      if s.Free() != [] {
        SpawnInv(s, s.Cur().dir);
      }
    case ExitCall => ExitInv(s, c);
    case SemInitCall(n, v) => SemInitInv(s, n, v);
    case SemDestroyCall(n) => SemDestroyInv(s, n);
    case SemWaitCall(n) => SemWaitInv(s, n, c);
    case SemSignalCall(n) => SemSignalInv(s, n);
    case SetQuantumCall(q) =>
      var u := SetQuantum(s, q);
      SameLinks(s, u);
      PeopleKeepPids(s, u);
      PeopleKeepOwners(s, u);
      SameSems(s, u);
    case Quiet(q) =>
  }

  /** Every enabled step keeps the invariant. */
  lemma StepInv(s: Sched, d: Do)
    requires Inv(s) && Enabled(s, d.e)
    ensures Inv(Step(s, d))
  {
    var u := StatsEntry(s, d.c.entry);
    EntryInv(s, u, d.c.entry);
    var v := if d.e == ClockTick then Schedule(u, d.c) else Body(u, d.e, d.c);
    if d.e == ClockTick {
      ScheduleInv(u, d.c);
    } else {
      BodyInv(u, d.e, d.c);
    }
    EntryInv(v, StatsLeave(v, d.c.leave), d.c.leave);
    var w := Leave(d.e, u, v, d.c.leave);
    SameLinks(w, Step(s, d));
    PeopleKeepPids(w, Step(s, d));
    PeopleKeepOwners(w, Step(s, d));
    SameSems(w, Step(s, d));
  }

  // ---- What sys_exit does to the semaphores of the exiting task ----

  /** The waiters of the semaphores that `pid` owns, in slot order. */
  function OwnedWaiters(s: Sched, pid: int, i: nat): seq<Tid>
    requires s.Wf() && i <= NR_SEMS
    decreases NR_SEMS - i
  {
    if i == NR_SEMS then []
    else (if s.sems[i].owner == pid then s.Blocked(i) else []) + OwnedWaiters(s, pid, i + 1)
  }

  lemma {:induction false} SameOwnedWaiters(s: Sched, u: Sched, pid: int, i: nat)
    requires s.Wf() && u.Wf() && i <= NR_SEMS
    requires forall j: Slot | i <= j :: u.sems[j].owner == s.sems[j].owner && u.Blocked(j) == s.Blocked(j)
    ensures OwnedWaiters(u, pid, i) == OwnedWaiters(s, pid, i)
    decreases NR_SEMS - i
  {
    if i < NR_SEMS {
      SameOwnedWaiters(s, u, pid, i + 1);
    }
  }

  /** A task as a destroyed semaphore releases it. */
  function Released(x: Task): Task {
    x.(semRet := -1, estado := StReady)
  }

  /** The loop of `sys_exit` in closed form: the ready queue and the free queue. */
  lemma {:induction false} DestroyOwnedQueues(s: Sched, i: nat)
    requires Inv(s) && i <= NR_SEMS && s.current != IDLE
    ensures var u := DestroyOwned(s, s.Cur().pid, i);
            && u.Ready() == s.Ready() + OwnedWaiters(s, s.Cur().pid, i)
            && u.Free() == s.Free()
            && u.qLeft == s.qLeft
    decreases NR_SEMS - i
  {
    hide LinkInv, PidInv, SemInv, OwnerInv, SamePeople, SemDestroy;
    var pid := s.Cur().pid;
    if i < NR_SEMS {
      if s.sems[i].owner == pid {
        DestroyOne(s, i);
        var u := SemDestroy(s, s.sems[i].nSem);
        SameOwnedWaiters(s, u, pid, i + 1);
        DestroyOwnedQueues(u, i + 1);
        Associative(s.Ready(), s.Blocked(i), OwnedWaiters(s, pid, i + 1));
      } else {
        DestroyOwnedQueues(s, i + 1);
        assert [] + OwnedWaiters(s, pid, i + 1) == OwnedWaiters(s, pid, i + 1);
      }
    }
  }

  /** The loop of `sys_exit` in closed form: the tasks it releases. */
  lemma {:induction false} DestroyOwnedTasks(s: Sched, i: nat)
    requires Inv(s) && i <= NR_SEMS && s.current != IDLE
    ensures var u := DestroyOwned(s, s.Cur().pid, i);
            forall t: Tid :: u.tasks[t] == if t in OwnedWaiters(s, s.Cur().pid, i) then Released(s.tasks[t])
                else s.tasks[t]
    decreases NR_SEMS - i
  {
    hide LinkInv, PidInv, SemInv, OwnerInv, SamePeople, SemDestroy;
    var pid := s.Cur().pid;
    if i < NR_SEMS {
      if s.sems[i].owner == pid {
        DestroyOne(s, i);
        var u := SemDestroy(s, s.sems[i].nSem);
        DestroyOwnedTasks(u, i + 1);
        SameOwnedWaiters(s, u, pid, i + 1);
      } else {
        DestroyOwnedTasks(s, i + 1);
        assert [] + OwnedWaiters(s, pid, i + 1) == OwnedWaiters(s, pid, i + 1);
      }
    }
  }

  lemma VacateForm(s: Sched)
    requires Inv(s) && s.current != IDLE
    ensures var u := DestroyOwned(s, s.Cur().pid, 0);
            Vacate(s) == u.(tasks := u.tasks[s.current := u.Cur().(pid := -1, estado := StBlocked)],
                            queues := u.queues[FREE_QUEUE := u.Free() + [s.current]],
                            at := u.at[s.current := FREE_QUEUE])
  {
    DestroyOwnedLinks(s, s.Cur().pid, 0);
    var u := DestroyOwned(s, s.Cur().pid, 0);
    assert u.Cur().estado == StRun;
  }

  lemma VacateWakes(s: Sched)
    requires Inv(s) && s.current != IDLE
    ensures var u := Vacate(s);
            var w := OwnedWaiters(s, s.Cur().pid, 0);
            && u.Ready() == s.Ready() + w
            && u.Free() == s.Free() + [s.current]
            && u.qLeft == s.qLeft && u.current == s.current && u.Cur().quantum == s.Cur().quantum
            && u.Cur().pid == -1
            && (forall t: Tid | t != s.current :: u.tasks[t] == if t in w then Released(s.tasks[t]) else s.tasks[t])
  {
    hide PidInv, SemInv, OwnerInv, Linked, Vacate, DestroyOwned, OwnedWaiters;
    DestroyOwnedQueues(s, 0);
    DestroyOwnedTasks(s, 0);
    VacateForm(s);
    WaitersNotCurrent(s, s.Cur().pid, 0);
  }

  lemma VacateSlots(s: Sched)
    requires Inv(s) && s.current != IDLE
    ensures var u := Vacate(s);
            && (forall i: Slot :: u.Blocked(i) == if s.sems[i].owner == s.Cur().pid then [] else s.Blocked(i))
            && (forall i: Slot :: if s.sems[i].owner == s.Cur().pid then !u.sems[i].used else u.sems[i] == s.sems[i])
  {
    hide PidInv, SemInv, OwnerInv, Linked, Vacate, DestroyOwned, SamePeople;
    DestroyOwnedInv(s, 0);
    VacateForm(s);
    VacateLinks(s);
    var u := DestroyOwned(s, s.Cur().pid, 0);
    forall i: Slot
      ensures Vacate(s).Blocked(i) == if s.sems[i].owner == s.Cur().pid then [] else s.Blocked(i)
      ensures if s.sems[i].owner == s.Cur().pid then !u.sems[i].used else u.sems[i] == s.sems[i]
    {
      if s.sems[i].owner == s.Cur().pid {
        UsedBefore(s, i);
      }
    }
  }

  lemma {:induction false} WaitersNotCurrent(s: Sched, pid: int, i: nat)
    requires LinkInv(s) && OnCpu(s) && i <= NR_SEMS
    ensures s.current !in OwnedWaiters(s, pid, i)
    decreases NR_SEMS - i
  {
    if i < NR_SEMS {
      WaitersNotCurrent(s, pid, i + 1);
      assert s.current !in s.Blocked(i);
    }
  }

  /** `sys_exit` destroys exactly the semaphores its task owns: they end unused and empty, and every other
      slot and its queue are as before. */
  lemma ExitDestroysOwn(s: Sched, c: Clock)
    requires Inv(s) && s.current != IDLE
    ensures var v := Exit(s, c);
            var pid := s.Cur().pid;
            && (forall i: Slot | s.sems[i].owner == pid :: !v.sems[i].used && v.Blocked(i) == [])
            && (forall i: Slot | s.sems[i].owner != pid :: v.sems[i] == s.sems[i] && v.Blocked(i) == s.Blocked(i))
            && (forall i: Slot | v.sems[i].used :: v.sems[i].owner != pid)
  {
    hide PidInv, SemInv, OwnerInv, Linked, Vacate, SchedNext;
    VacateSlots(s);
    VacateLinks(s);
    NextForm(Vacate(s), c);
    assert forall i: Slot :: s.sems[i].owner == s.Cur().pid ==> !Vacate(s).sems[i].used;
  }

  /** The waiters of the destroyed semaphores, slot by slot, follow the tasks that were ready, with result -1;
      the first of all of them gets the processor, and the exiting task ends at the back of the free queue. */
  lemma ExitReleasesWaiters(s: Sched, c: Clock)
    requires Inv(s) && s.current != IDLE
    ensures var v := Exit(s, c);
            var w := OwnedWaiters(s, s.Cur().pid, 0);
            var r := s.Ready() + w;
            && v.Free() == s.Free() + [s.current]
            && v.current == (if r == [] then IDLE else r[0])
            && v.Ready() == (if r == [] then [] else r[1..])
            && (r != [] ==> v.qLeft == s.Cur().quantum)
            && forall t: Tid | t != s.current :: v.tasks[t].semRet == if t in w then -1 else s.tasks[t].semRet
  {
    hide PidInv, SemInv, OwnerInv, Linked, Vacate, SchedNext;
    VacateWakes(s);
    VacateLinks(s);
    NextForm(Vacate(s), c);
  }
}
