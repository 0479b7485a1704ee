/** The 20-slot semaphore table as a finite map from identifier to semaphore. */
module SemTable {
  import opened SchedSpec
  import opened SchedSteps
  import opened SchedInv
  import opened SchedRuns

  datatype SemVal = SemVal(owner: int, counter: int, waiters: seq<Tid>)

  function ValAt(s: Sched, i: Slot): SemVal
    requires s.Wf()
  {
    SemVal(s.sems[i].owner, s.sems[i].counter, s.Blocked(i))
  }

  predicate Uses(s: Sched, i: Slot, n: int)
    requires s.Wf()
  {
    s.sems[i].used && s.sems[i].nSem == n
  }

  /** `t` holds exactly the used slots. */
  ghost predicate Represents(s: Sched, t: map<int, SemVal>)
    requires s.Wf()
  {
    && (forall i: Slot, n | Uses(s, i, n) :: n in t && t[n] == ValAt(s, i))
    && (forall n | n in t :: exists i: Slot :: Uses(s, i, n))
  }

  /** The table of a state: a map because used slots have different identifiers. */
  ghost function Table(s: Sched): (t: map<int, SemVal>)
    requires s.Wf() && SemInv(s)
    ensures Represents(s, t)
  {
    var ids := set i: Slot | s.sems[i].used :: s.sems[i].nSem;
    map n | n in ids :: (assert exists i: Slot :: Uses(s, i, n) by {
                           var i: Slot :| s.sems[i].used && s.sems[i].nSem == n;
                           assert Uses(s, i, n);
                         }
                         var i: Slot :| Uses(s, i, n); ValAt(s, i))
  }

  lemma TableIsUnique(s: Sched, t: map<int, SemVal>)
    requires s.Wf() && SemInv(s) && Represents(s, t)
    ensures t == Table(s)
  {
    var u := Table(s);
    hide Table;
    forall n | n in t
      ensures n in u && u[n] == t[n]
    {
      var i: Slot :| Uses(s, i, n);
    }
    forall n | n in u
      ensures n in t
    {
      var i: Slot :| Uses(s, i, n);
    }
  }

  /** The linear search `cerca_sem` is map lookup. */
  lemma FindIsLookup(s: Sched, n: int)
    requires s.Wf() && SemInv(s)
    ensures FindSem(s.sems, n, 0) == -1 <==> n !in Table(s)
    ensures n in Table(s) ==> Table(s)[n] == ValAt(s, FindSem(s.sems, n, 0))
  {
    hide Table;
    var i := FindSem(s.sems, n, 0);
    if i != -1 {
      assert Uses(s, i, n);
    }
  }

  /** One used slot changes its value: one entry of the table changes. */
  lemma OneChanges(s: Sched, u: Sched, i: Slot)
    requires s.Wf() && u.Wf() && SemInv(s) && SemInv(u) && s.sems[i].used
    requires forall j: Slot, n :: Uses(u, j, n) <==> Uses(s, j, n)
    requires forall j: Slot | s.sems[j].used && j != i :: ValAt(u, j) == ValAt(s, j)
    ensures Table(u) == Table(s)[s.sems[i].nSem := ValAt(u, i)]
  {
    hide Table;
    var t := Table(s)[s.sems[i].nSem := ValAt(u, i)];
    forall j: Slot, n | Uses(u, j, n)
      ensures n in t && t[n] == ValAt(u, j)
    {
      assert Uses(s, j, n);
      assert j != i ==> n != s.sems[i].nSem;
    }
    forall n | n in t
      ensures exists j: Slot :: Uses(u, j, n)
    {
      assert n == s.sems[i].nSem ==> Uses(s, i, n);
      var j: Slot :| Uses(s, j, n);
      assert Uses(u, j, n);
    }
    TableIsUnique(u, t);
  }

  /** Nothing changes. */
  lemma SameTable(s: Sched, u: Sched)
    requires s.Wf() && u.Wf() && SemInv(s) && SemInv(u)
    requires forall j: Slot, n :: Uses(u, j, n) <==> Uses(s, j, n)
    requires forall j: Slot | s.sems[j].used :: ValAt(u, j) == ValAt(s, j)
    ensures Table(u) == Table(s)
  {
    hide Table;
    forall n | n in Table(s)
      ensures exists j: Slot :: Uses(u, j, n)
    {
      var j: Slot :| Uses(s, j, n);
      assert Uses(u, j, n);
    }
    TableIsUnique(u, Table(s));
  }

  /** The slots with an identifier in `gone` become free. */
  lemma OwnedGo(s: Sched, u: Sched, gone: set<int>)
    requires s.Wf() && u.Wf() && SemInv(s) && SemInv(u)
    requires forall j: Slot, n :: Uses(u, j, n) <==> Uses(s, j, n) && n !in gone
    requires forall j: Slot | u.sems[j].used :: ValAt(u, j) == ValAt(s, j)
    ensures Table(u) == Table(s) - gone
  {
    hide Table;
    var t := Table(s) - gone;
    forall j: Slot, n | Uses(u, j, n)
      ensures n in t && t[n] == ValAt(u, j)
    {
      assert Uses(s, j, n);
    }
    forall n | n in t
      ensures exists j: Slot :: Uses(u, j, n)
    {
      var j: Slot :| Uses(s, j, n);
      assert Uses(u, j, n);
    }
    TableIsUnique(u, t);
  }

  /** `sys_sem_init` adds a fresh identifier with the converted value, and refuses one in use. */
  lemma InitCommutes(s: Sched, n: int, v: int)
    requires Inv(s) && s.current != IDLE && Enabled(s, SemInitCall(n, v))
    ensures SemInv(SemInit(s, n, v))
    ensures Table(SemInit(s, n, v)) ==
            if n in Table(s) then Table(s) else Table(s)[n := SemVal(s.Cur().pid, ToSigned(v), [])]
  {
    FindIsLookup(s, n);
    SemInitInv(s, n, v);
    var u := SemInit(s, n, v);
    if n !in Table(s) {
      var i := FindFreeSem(s.sems, 0);
      assert s.Blocked(i) == [];
      var x := SemVal(s.Cur().pid, ToSigned(v), []);
      hide Table, LinkInv, PidInv, OwnerInv;
      var t := Table(s)[n := x];
      assert ValAt(u, i) == x && Uses(u, i, n);
      forall j: Slot, m | Uses(u, j, m)
        ensures m in t && t[m] == ValAt(u, j)
      {
        assert j != i ==> Uses(s, j, m);
      }
      forall m | m in t
        ensures exists j: Slot :: Uses(u, j, m)
      {
        if m != n {
          var j: Slot :| Uses(s, j, m);
          assert Uses(u, j, m);
        }
      }
      TableIsUnique(u, t);
    }
  }

  /** The counter of a new semaphore is the 32-bit integer congruent to the value it was given, and so that value
      itself if it is below 2 to the 31st. */
  lemma InitCounter(s: Sched, n: int, v: int)
    requires Inv(s) && s.current != IDLE && Enabled(s, SemInitCall(n, v)) && n !in Table(s)
    ensures SemInv(SemInit(s, n, v)) && n in Table(SemInit(s, n, v))
    ensures var x := Table(SemInit(s, n, v))[n];
            && -0x8000_0000 <= x.counter < 0x8000_0000 && (x.counter - v) % 0x1_0000_0000 == 0
            && (v < 0x8000_0000 ==> x.counter == v)
            && x.owner == s.Cur().pid && x.waiters == []
  {
    InitCommutes(s, n, v);
    hide Inv, SemInit, Table;
  }

  /** `sys_sem_destroy` removes the identifier if the caller owns it, and does nothing otherwise. */
  lemma DestroyCommutes(s: Sched, n: int)
    requires Inv(s)
    ensures SemInv(SemDestroy(s, n))
    ensures Table(SemDestroy(s, n)) ==
            if n in Table(s) && Table(s)[n].owner == s.Cur().pid then Table(s) - {n} else Table(s)
  {
    hide Table, LinkInv, PidInv, OwnerInv;
    FindIsLookup(s, n);
    SemDestroyInv(s, n);
    var i := FindSem(s.sems, n, 0);
    if i != -1 && s.sems[i].owner == s.Cur().pid {
      hide FindSem;
      OwnedGo(s, SemDestroy(s, n), {n});
    }
  }

  /** The value of slot i after a signal, and after a wait of task t. */
  function Signalled(x: SemVal): SemVal {
    if x.waiters == [] then x.(counter := x.counter + 1) else x.(waiters := x.waiters[1..])
  }

  function Waited(x: SemVal, t: Tid): SemVal {
    if x.counter > 0 then x.(counter := x.counter - 1) else x.(waiters := x.waiters + [t])
  }

  /** Only slot i changes, and its value is x. */
  ghost predicate OnlySlot(s: Sched, u: Sched, i: Slot, x: SemVal)
    requires s.Wf() && u.Wf()
  {
    && (forall j: Slot :: u.sems[j].used == s.sems[j].used && u.sems[j].nSem == s.sems[j].nSem)
    && (forall j: Slot | j != i :: ValAt(u, j) == ValAt(s, j))
    && ValAt(u, i) == x
  }

  lemma SignalSlots(s: Sched, n: int)
    requires Inv(s) && FindSem(s.sems, n, 0) != -1
    ensures var i := FindSem(s.sems, n, 0); OnlySlot(s, SemSignal(s, n), i, Signalled(ValAt(s, i)))
  {
    var i := FindSem(s.sems, n, 0);
    if s.Blocked(i) != [] {
      WakeFirst(s, i);
    }
    hide LinkInv, PidInv, OwnerInv, SemInv, UpdateState;
  }

  /** `sys_sem_signal` takes the first waiter off, or counts up when nobody waits. */
  lemma SignalCommutes(s: Sched, n: int)
    requires Inv(s)
    ensures SemInv(SemSignal(s, n))
    ensures Table(SemSignal(s, n)) == if n !in Table(s) then Table(s) else Table(s)[n := Signalled(Table(s)[n])]
  {
    FindIsLookup(s, n);
    SemSignalInv(s, n);
    var i := FindSem(s.sems, n, 0);
    if i != -1 {
      SignalSlots(s, n);
      hide LinkInv, PidInv, OwnerInv, Table, SemSignal, FindSem;
      OneChanges(s, SemSignal(s, n), i);
    }
  }

  lemma WaitSlots(s: Sched, i: Slot, c: Clock)
    requires Inv(s) && s.current != IDLE && s.sems[i].used && s.sems[i].counter <= 0
    ensures var u := ExitRunCurrent(s.SetTask(s.current, s.Cur().(semRet := 0)), SemQueue(i), c.off);
            && LinkInv(u) && !OnCpu(u)
            && SchedNext(u, c).sems == s.sems
            && (forall j: Slot :: SchedNext(u, c).Blocked(j) == if j == i then s.Blocked(i) + [s.current]
                else s.Blocked(j))
  {
    BlockLinks(s, i, c);
    NextForm(ExitRunCurrent(s.SetTask(s.current, s.Cur().(semRet := 0)), SemQueue(i), c.off), c);
    hide LinkInv, Inv, ExitRunCurrent, SchedNext;
  }

  lemma WaitOnlySlot(s: Sched, n: int, c: Clock)
    requires Inv(s) && s.current != IDLE && FindSem(s.sems, n, 0) != -1
    ensures var i := FindSem(s.sems, n, 0); OnlySlot(s, SemWait(s, n, c), i, Waited(ValAt(s, i), s.current))
  {
    hide Linked, PidInv, SemInv, OwnerInv, SchedNext, ExitRunCurrent;
    var i := FindSem(s.sems, n, 0);
    if s.sems[i].counter <= 0 {
      WaitSlots(s, i, c);
    }
  }

  /** `sys_sem_wait` counts down while the counter is positive, and otherwise puts the caller last in line. */
  lemma WaitCommutes(s: Sched, n: int, c: Clock)
    requires Inv(s) && s.current != IDLE
    ensures SemInv(SemWait(s, n, c))
    ensures Table(SemWait(s, n, c)) == if n !in Table(s) then Table(s)
            else Table(s)[n := Waited(Table(s)[n], s.current)]
  {
    FindIsLookup(s, n);
    SemWaitInv(s, n, c);
    var i := FindSem(s.sems, n, 0);
    if i != -1 {
      WaitOnlySlot(s, n, c);
      hide LinkInv, PidInv, OwnerInv, SemWait, Table, FindSem;
      OneChanges(s, SemWait(s, n, c), i);
    }
  }

  /** `sys_exit` removes the identifiers its task owns. */
  lemma ExitCommutes(s: Sched, c: Clock)
    requires Inv(s) && s.current != IDLE
    ensures SemInv(Exit(s, c))
    ensures Table(Exit(s, c)) == Table(s) - (set n | n in Table(s) && Table(s)[n].owner == s.Cur().pid)
  {
    ExitInv(s, c);
    ExitDestroysOwn(s, c);
    hide Exit, Table, Inv;
    var gone := set n | n in Table(s) && Table(s)[n].owner == s.Cur().pid;
    forall j: Slot, n
      ensures Uses(Exit(s, c), j, n) <==> Uses(s, j, n) && n !in gone
    {
      assert Uses(s, j, n) ==> Table(s)[n] == ValAt(s, j);
    }
    hide SemInv;
    OwnedGo(s, Exit(s, c), gone);
  }

  /** The clock interrupt, `sys_fork` and `sys_clone` leave the table alone. */
  lemma OthersKeepTable(s: Sched, e: Event, c: Clock)
    requires Inv(s) && Enabled(s, e)
    requires e.ClockTick? || e.ForkCall? || e.CloneCall?
    ensures var u := if e.ClockTick? then Schedule(s, c) else Body(s, e, c); SemInv(u) && Table(u) == Table(s)
  {
    match e
    case ClockTick =>
      ScheduleInv(s, c);
      SchedulePeople(s, c);
      SameTable(s, Schedule(s, c));
    case ForkCall(o) =>
      BodyInv(s, e, c);
      ForkKeepsSems(s, o);
      SameTable(s, Fork(s, o));
    case CloneCall(ok) =>
      BodyInv(s, e, c);
      if s.Free() != [] {
        SpawnLinks(s, s.Cur().dir);
      }
      SameTable(s, Clone(s, ok));
  }

  lemma ForkKeepsSems(s: Sched, o: ForkOutcome)
    requires LinkInv(s) && OnCpu(s) && (o == NoTask <==> s.Free() == [])
    ensures Fork(s, o).sems == s.sems && forall i: Slot :: Fork(s, o).Blocked(i) == s.Blocked(i)
  {
    if s.Free() != [] {
      assert s.at[s.Free()[0]] == FREE_QUEUE;
    }
  }

  /** Calls that are refused change nothing: of an identifier that is not in use, of a semaphore of somebody else to
      destroy, and of one in use to initialise. */
  lemma RefusedCalls(s: Sched, n: int, v: int, c: Clock)
    requires Inv(s) && s.current != IDLE
    ensures n !in Table(s) ==> SemWait(s, n, c) == SemSignal(s, n) == SemDestroy(s, n) == s
    ensures n in Table(s) && Table(s)[n].owner != s.Cur().pid ==> SemDestroy(s, n) == s
    ensures n in Table(s) ==> SemInit(s, n, v) == s
  {
    FindIsLookup(s, n);
    hide LinkInv, PidInv, SemInv, OwnerInv, Table;
  }

  // ---- The full table ----

  /** `sys_sem_init` does not look whether it found a slot.  The slot it writes lies in the table if and only if the
      identifier is in use, so that it writes none, or some slot is free. */
  lemma InitWritesInside(s: Sched, n: int)
    requires Inv(s)
    ensures (FindSem(s.sems, n, 0) == -1 ==> 0 <= FindFreeSem(s.sems, 0) < NR_SEMS) <==>
            n in Table(s) || exists i: Slot :: !s.sems[i].used
  {
    FindIsLookup(s, n);
    hide LinkInv, PidInv, SemInv, OwnerInv, Table;
    var i := FindFreeSem(s.sems, 0);
    assert i != -1 ==> !s.sems[i].used;
  }

  /** The initial process runs and has initialised slots 0 to m-1 with identifiers 0 to m-1. */
  ghost predicate Initialised(s: Sched, m: nat) {
    && Inv(s) && s.current == INIT && m <= NR_SEMS
    && forall i: Slot :: s.sems[i].used == (i < m) && (i < m ==> s.sems[i].nSem == i)
  }

  function NextInit(s: Sched, m: int): Do {
    var r := Reads(s.now, s.now);
    Do(SemInitCall(m, 1), Clock(r, r, r, r, r))
  }

  lemma OneMoreInit(s: Sched, m: nat)
    requires Initialised(s, m) && m < NR_SEMS
    ensures Enabled(s, SemInitCall(m, 1)) && Inv(Step(s, NextInit(s, m))) && Initialised(Step(s, NextInit(s, m)), m + 1)
  {
    assert !s.sems[m].used;
    assert FindSem(s.sems, m, 0) == -1 && FindFreeSem(s.sems, 0) == m;
    hide LinkInv, PidInv, SemInv, OwnerInv, Step, FindSem, FindFreeSem;
    StepInv(s, NextInit(s, m));
    StepForm(s, NextInit(s, m));
  }

  lemma {:induction false} FillTable(s: Sched, m: nat) returns (tr: seq<Do>)
    requires Initialised(s, m)
    ensures CanRun(s, tr) && Initialised(Run(s, tr), NR_SEMS)
    decreases NR_SEMS - m
  {
    tr := [];
    if m < NR_SEMS {
      OneMoreInit(s, m);
      var d := NextInit(s, m);
      var rest := FillTable(Step(s, d), m + 1);
      hide LinkInv, PidInv, SemInv, OwnerInv, Step, Initialised;
      tr := [d] + rest;
      assert tr[0] == d && tr[1..] == rest;
    }
  }

  /** The full table is reachable: from boot the initial process can fill it with 20 calls, and then the next
      `sys_sem_init` of any other identifier finds no slot. */
  lemma TableFills(now: int) returns (tr: seq<Do>)
    ensures CanRun(Booted(now), tr)
    ensures var s := Run(Booted(now), tr);
            && s.current == INIT && (forall i: Slot :: s.sems[i].used)
            && forall n | n !in Table(s) :: FindSem(s.sems, n, 0) == -1 && FindFreeSem(s.sems, 0) == -1
  {
    tr := FillTable(Booted(now), 0);
    var s := Run(Booted(now), tr);
    hide Inv, CanRun, Run, Table;
    forall n | n !in Table(s)
      ensures FindSem(s.sems, n, 0) == -1 && FindFreeSem(s.sems, 0) == -1
    {
      FindIsLookup(s, n);
    }
  }
}
