/** Semaphores over whole runs: conservation, first-come first-served wake-ups, truthful return codes and
    mutual exclusion.

    The scheduler machine is paired with history variables that only watch it: per slot what happened since its
    last `sys_sem_init`, and per task how its last blocked `sys_sem_wait` ended. */
module SemHistory {
  import opened Common
  import opened Sequences
  import opened SchedSpec
  import opened SchedSteps
  import opened SchedInv
  import opened SchedRuns
  import opened SemTable

  /** Since initialisation with value v: the signals, the waits that did not block, the tasks that blocked and
      the tasks that a signal woke, both in order, and the tasks between a completed wait and their signal. */
  datatype Hist = Hist(v: int, signals: nat, immediate: nat, blocked: seq<Tid>, woken: seq<Tid>, holders: set<Tid>)

  /** How the wait of a task stands or has ended, until the task runs again. */
  datatype Outcome = NotWaiting | Waiting(slot: Slot) | BySignal | ByDestroy

  datatype Aug = Aug(s: Sched, h: seq<Hist>, out: seq<Outcome>)

  /** Waits that have completed: at once, or woken by a signal. */
  function Completed(h: Hist): nat {
    h.immediate + |h.woken|
  }

  function Watch(s: Sched, e: Event, h: seq<Hist>): (h': seq<Hist>)
    requires s.Wf() && |h| == NR_SEMS && Enabled(s, e)
    ensures |h'| == NR_SEMS
  {
    match e
    case SemInitCall(n, v) =>
      if FindSem(s.sems, n, 0) != -1 then h else h[FindFreeSem(s.sems, 0) := Hist(ToSigned(v), 0, 0, [], [], {})]
    case SemSignalCall(n) =>
      var i := FindSem(s.sems, n, 0);
      if i == -1 then h
      else
        var x := h[i].(signals := h[i].signals + 1, holders := h[i].holders - {s.current});
        h[i := if s.Blocked(i) == [] then x
               else x.(woken := x.woken + [s.Blocked(i)[0]], holders := x.holders + {s.Blocked(i)[0]})]
    case SemWaitCall(n) =>
      var i := FindSem(s.sems, n, 0);
      if i == -1 then h
      else if s.sems[i].counter <= 0 then h[i := h[i].(blocked := h[i].blocked + [s.current])]
      else h[i := h[i].(immediate := h[i].immediate + 1, holders := h[i].holders + {s.current})]
    case _ => h
  }

  /** The slot whose queue task t waits in belongs to `pid`. */
  predicate WaitsFor(s: Sched, t: Tid, pid: int)
    requires s.Wf()
  {
    2 <= s.at[t] < NR_QUEUES && s.sems[s.at[t] - 2].owner == pid
  }

  function Ends(s: Sched, e: Event, out: seq<Outcome>): (out': seq<Outcome>)
    requires s.Wf() && |out| == NR_TASKS
    ensures |out'| == NR_TASKS
  {
    match e
    case SemSignalCall(n) =>
      var i := FindSem(s.sems, n, 0);
      if i == -1 || s.Blocked(i) == [] then out else out[s.Blocked(i)[0] := BySignal]
    case SemDestroyCall(n) =>
      var i := FindSem(s.sems, n, 0);
      if i == -1 || s.sems[i].owner != s.Cur().pid then out
      else seq(NR_TASKS, t requires 0 <= t < NR_TASKS => if s.at[t] == SemQueue(i) then ByDestroy else out[t])
    case SemWaitCall(n) =>
      if Blocks(s, n) then out[s.current := Waiting(FindSem(s.sems, n, 0))] else out
    case ExitCall =>
      seq(NR_TASKS, t requires 0 <= t < NR_TASKS => if WaitsFor(s, t, s.Cur().pid) then ByDestroy else out[t])
    case _ => out
  }

  // ---- Invariants ----

  /** Counter plus completed waits is initial value plus signals; whoever blocked was woken or still waits, in
      the order of arrival; and a counter that starts at 0 or more stays there. */
  ghost predicate Conserved(x: SemVal, h: Hist) {
    && x.counter + Completed(h) == h.v + h.signals
    && h.blocked == h.woken + x.waiters
    && (h.v >= 0 ==> x.counter >= 0)
  }

  ghost predicate SlotInv(s: Sched, h: seq<Hist>)
    requires s.Wf() && |h| == NR_SEMS
  {
    forall i: Slot | s.sems[i].used :: Conserved(ValAt(s, i), h[i])
  }

  /** The result a resumed `sys_sem_wait` returns, by how the wait ended. */
  function ResultOf(o: Outcome): int {
    if o == ByDestroy then -1 else 0
  }

  /** `out` tells truly who waits where; and `sem_ret` already holds what the wait will return. */
  ghost predicate OutInv(s: Sched, out: seq<Outcome>)
    requires s.Wf() && |out| == NR_TASKS
  {
    && (forall t: Tid | 2 <= s.at[t] < NR_QUEUES :: out[t] == Waiting(s.at[t] - 2))
    && (forall t: Tid | s.at[t] < 2 :: !out[t].Waiting?)
    && (forall t: Tid | out[t] != NotWaiting :: s.tasks[t].semRet == ResultOf(out[t]))
    && (forall t: Tid | out[t] == BySignal || out[t] == ByDestroy :: s.at[t] == READY_QUEUE || t == s.current)
  }

  ghost predicate HInv(a: Aug) {
    && Inv(a.s) && |a.h| == NR_SEMS && |a.out| == NR_TASKS
    && SlotInv(a.s, a.h)
    && OutInv(a.s, a.out)
    && a.out[a.s.current] == NotWaiting
  }

  /** One step of the machine with its history. */
  ghost function AugStep(a: Aug, d: Do): Aug
    requires HInv(a) && Enabled(a.s, d.e)
  {
    StepInv(a.s, d);
    var u := Step(a.s, d);
    Aug(u, Watch(a.s, d.e, a.h), Ends(a.s, d.e, a.out)[u.current := NotWaiting])
  }

  // ---- Slots ----

  lemma SameSlots(s: Sched, u: Sched, h: seq<Hist>)
    requires s.Wf() && u.Wf() && |h| == NR_SEMS && SlotInv(s, h)
    requires forall i: Slot | u.sems[i].used :: s.sems[i].used && ValAt(u, i) == ValAt(s, i)
    ensures SlotInv(u, h)
  {
  }

  lemma OneSlot(s: Sched, u: Sched, i: Slot, x: SemVal, h: seq<Hist>, y: Hist)
    requires s.Wf() && u.Wf() && |h| == NR_SEMS && SlotInv(s, h)
    requires OnlySlot(s, u, i, x) && Conserved(x, y)
    ensures SlotInv(u, h[i := y])
  {
  }

  lemma SignalSlotInv(s: Sched, n: int, h: seq<Hist>)
    requires Inv(s) && s.current != IDLE && |h| == NR_SEMS && SlotInv(s, h)
    ensures SlotInv(SemSignal(s, n), Watch(s, SemSignalCall(n), h))
  {
    var i := FindSem(s.sems, n, 0);
    if i != -1 {
      SignalSlots(s, n);
      var x := ValAt(s, i);
      assert Conserved(x, h[i]);
      hide Inv, SemSignal, FindSem, SlotInv;
      if s.Blocked(i) != [] {
        var b := s.Blocked(i);
        assert b == [b[0]] + b[1..];
        Associative(h[i].woken, [b[0]], b[1..]);
      }
      OneSlot(s, SemSignal(s, n), i, Signalled(x), h, Watch(s, SemSignalCall(n), h)[i]);
    }
  }

  lemma WaitSlotInv(s: Sched, n: int, c: Clock, h: seq<Hist>)
    requires Inv(s) && s.current != IDLE && |h| == NR_SEMS && SlotInv(s, h)
    ensures SlotInv(SemWait(s, n, c), Watch(s, SemWaitCall(n), h))
  {
    var i := FindSem(s.sems, n, 0);
    if i != -1 {
      WaitOnlySlot(s, n, c);
      var x := ValAt(s, i);
      assert Conserved(x, h[i]);
      hide PidInv, SemInv, OwnerInv, LinkInv, SemWait, FindSem, SlotInv;
      Associative(h[i].woken, s.Blocked(i), [s.current]);
      OneSlot(s, SemWait(s, n, c), i, Waited(x, s.current), h, Watch(s, SemWaitCall(n), h)[i]);
    }
  }

  lemma InitSlotInv(s: Sched, n: int, v: int, h: seq<Hist>)
    requires Inv(s) && s.current != IDLE && Enabled(s, SemInitCall(n, v)) && |h| == NR_SEMS && SlotInv(s, h)
    ensures SlotInv(SemInit(s, n, v), Watch(s, SemInitCall(n, v), h))
  {
    if FindSem(s.sems, n, 0) == -1 {
      var i := FindFreeSem(s.sems, 0);
      assert s.Blocked(i) == [];
    }
  }

  lemma BodySlotInv(s: Sched, e: Event, c: Clock, h: seq<Hist>)
    requires Inv(s) && Enabled(s, e) && e != ClockTick && |h| == NR_SEMS && SlotInv(s, h)
    ensures SlotInv(Body(s, e, c), Watch(s, e, h))
  {
    hide PidInv, SemInv, OwnerInv;
    match e
    case ForkCall(o) =>
      ForkKeepsSems(s, o);
      SameSlots(s, Fork(s, o), h);
    case CloneCall(ok) =>
      if s.Free() != [] {
        SpawnLinks(s, s.Cur().dir);
      }
      SameSlots(s, Clone(s, ok), h);
    case ExitCall =>
      ExitDestroysOwn(s, c);
      SameSlots(s, Exit(s, c), h);
    case SemInitCall(n, v) => InitSlotInv(s, n, v, h);
    case SemDestroyCall(n) => SameSlots(s, SemDestroy(s, n), h);
    case SemSignalCall(n) => SignalSlotInv(s, n, h);
    case SemWaitCall(n) => WaitSlotInv(s, n, c, h);
    case SetQuantumCall(q) => SameSlots(s, SetQuantum(s, q), h);
    case Quiet(q) =>
  }

  // ---- Outcomes ----

  /** Nobody enters or leaves a blocked queue, nobody leaves the ready queue except for the processor, and no
      result changes except for tasks that were not waiting. */
  lemma QuietOut(s: Sched, u: Sched, out: seq<Outcome>)
    requires LinkInv(s) && u.Wf() && |out| == NR_TASKS && OutInv(s, out) && out[s.current] == NotWaiting
    requires forall t: Tid :: u.at[t] == s.at[t] || (u.at[t] < 2 && s.at[t] < 2)
    requires forall t: Tid | s.at[t] == READY_QUEUE :: u.at[t] == READY_QUEUE || t == u.current
    requires forall t: Tid | s.at[t] >= READY_QUEUE :: u.tasks[t].semRet == s.tasks[t].semRet
    ensures OutInv(u, out)
  {
  }

  lemma ScheduleOut(s: Sched, c: Clock, out: seq<Outcome>)
    requires LinkInv(s) && OnCpu(s) && |out| == NR_TASKS && OutInv(s, out) && out[s.current] == NotWaiting
    ensures OutInv(Schedule(s, c), out)
  {
    var u := s.(qLeft := s.qLeft - 1);
    SameLinks(s, u);
    if u.qLeft == 0 && u.Ready() != [] {
      var v := ExitRunCurrent(u, READY_QUEUE, c.off);
      LeaveLinks(u, READY_QUEUE, c.off);
      assert forall t: Tid :: v.tasks[t].semRet == s.tasks[t].semRet;
      NextForm(v, c);
      assert Schedule(s, c) == SchedNext(v, c);
      hide ExitRunCurrent, SchedNext, Schedule, Linked;
    }
    QuietOut(s, Schedule(s, c), out);
  }

  lemma SpawnOut(s: Sched, dir: Dir, out: seq<Outcome>)
    requires LinkInv(s) && OnCpu(s) && s.Free() != []
    requires |out| == NR_TASKS && OutInv(s, out) && out[s.current] == NotWaiting
    ensures OutInv(Spawn(s, dir), out) && OutInv(Lose(s, dir), out)
  {
    SpawnLinks(s, dir);
    QuietOut(s, Spawn(s, dir), out);
    QuietOut(s, Lose(s, dir), out);
  }

  lemma SignalOut(s: Sched, n: int, out: seq<Outcome>)
    requires LinkInv(s) && |out| == NR_TASKS && OutInv(s, out)
    ensures OutInv(SemSignal(s, n), Ends(s, SemSignalCall(n), out))
  {
    var i := FindSem(s.sems, n, 0);
    if i != -1 && s.Blocked(i) != [] {
      WakeFirst(s, i);
      hide LinkInv, UpdateState, FindSem;
    }
  }

  lemma DestroyOut(s: Sched, n: int, out: seq<Outcome>)
    requires LinkInv(s) && |out| == NR_TASKS && OutInv(s, out)
    ensures OutInv(SemDestroy(s, n), Ends(s, SemDestroyCall(n), out))
  {
    var i := FindSem(s.sems, n, 0);
    if i != -1 && s.sems[i].owner == s.Cur().pid {
      assert forall t: Tid :: t in s.Blocked(i) <==> s.at[t] == SemQueue(i);
    }
  }

  lemma WaitOut(s: Sched, n: int, c: Clock, out: seq<Outcome>)
    requires LinkInv(s) && OnCpu(s) && s.current != IDLE
    requires |out| == NR_TASKS && OutInv(s, out) && out[s.current] == NotWaiting
    ensures OutInv(SemWait(s, n, c), Ends(s, SemWaitCall(n), out))
  {
    hide Linked, ExitRunCurrent, SchedNext;
    var i := FindSem(s.sems, n, 0);
    if i != -1 && s.sems[i].counter <= 0 {
      BlockOut(s, i, c, out);
    }
  }

  lemma BlockResults(s: Sched, i: Slot, c: Clock)
    requires LinkInv(s) && OnCpu(s) && s.current != IDLE
    ensures var v := ExitRunCurrent(s.SetTask(s.current, s.Cur().(semRet := 0)), SemQueue(i), c.off);
            forall t: Tid :: v.tasks[t].semRet == if t == s.current then 0 else s.tasks[t].semRet
  {
    hide Linked;
  }

  lemma BlockOut(s: Sched, i: Slot, c: Clock, out: seq<Outcome>)
    requires LinkInv(s) && OnCpu(s) && s.current != IDLE && s.sems[i].used
    requires |out| == NR_TASKS && OutInv(s, out)
    ensures var v := ExitRunCurrent(s.SetTask(s.current, s.Cur().(semRet := 0)), SemQueue(i), c.off);
            LinkInv(v) && !OnCpu(v) && OutInv(SchedNext(v, c), out[s.current := Waiting(i)])
  {
    hide Linked, ExitRunCurrent, SchedNext;
    var v := ExitRunCurrent(s.SetTask(s.current, s.Cur().(semRet := 0)), SemQueue(i), c.off);
    BlockLinks(s, i, c);
    BlockResults(s, i, c);
    NextForm(v, c);
  }

  lemma {:induction false} InOwnedWaiters(s: Sched, pid: int, t: Tid, i: nat)
    requires LinkInv(s) && i <= NR_SEMS
    ensures t in OwnedWaiters(s, pid, i) <==> WaitsFor(s, t, pid) && s.at[t] >= i + 2
    decreases NR_SEMS - i
  {
    if i < NR_SEMS {
      InOwnedWaiters(s, pid, t, i + 1);
      assert t in s.Blocked(i) <==> s.at[t] == SemQueue(i);
    }
  }

  /** Where `sys_exit` leaves the tasks that are ready or wait for the exiting one. */
  lemma ExitReady(s: Sched, c: Clock, t: Tid)
    requires Inv(s) && s.current != IDLE
    ensures s.at[t] == READY_QUEUE || WaitsFor(s, t, s.Cur().pid) ==>
              Exit(s, c).at[t] == READY_QUEUE || t == Exit(s, c).current
    ensures t != s.current ==>
              Exit(s, c).tasks[t].semRet == if WaitsFor(s, t, s.Cur().pid) then -1 else s.tasks[t].semRet
  {
    hide LinkInv, PidInv, SemInv, OwnerInv, Exit, OwnedWaiters;
    var v := Exit(s, c);
    var w := OwnedWaiters(s, s.Cur().pid, 0);
    ExitInv(s, c);
    ExitReleasesWaiters(s, c);
    InOwnedWaiters(s, s.Cur().pid, t, 0);
    AtIsMembership(s, t, READY_QUEUE);
    AtIsMembership(v, t, READY_QUEUE);
    assert t in s.Ready() + w <==> t in s.Ready() || t in w;
  }

  /** `sys_exit` keeps in a blocked queue exactly the tasks that wait there for another owner. */
  lemma ExitKeepsWaiting(s: Sched, c: Clock, t: Tid, i: Slot)
    requires Inv(s) && s.current != IDLE
    ensures Exit(s, c).at[t] == SemQueue(i) <==> s.at[t] == SemQueue(i) && s.sems[i].owner != s.Cur().pid
  {
    var v := Exit(s, c);
    assert LinkInv(v) by {
      ExitInv(s, c);
    }
    assert v.Blocked(i) == if s.sems[i].owner == s.Cur().pid then [] else s.Blocked(i) by {
      ExitDestroysOwn(s, c);
    }
    hide Exit, Inv, LinkInv;
    AtIsMembership(s, t, SemQueue(i));
    AtIsMembership(v, t, SemQueue(i));
  }

  lemma PlaceBound(s: Sched, t: Tid)
    requires LinkInv(s)
    ensures s.at[t] < NR_QUEUES
  {
  }

  lemma ExitBlocked(s: Sched, c: Clock, t: Tid)
    requires Inv(s) && s.current != IDLE
    ensures var v := Exit(s, c);
            && (2 <= v.at[t] < NR_QUEUES ==> v.at[t] == s.at[t] && !WaitsFor(s, t, s.Cur().pid))
            && (2 <= s.at[t] < NR_QUEUES && !WaitsFor(s, t, s.Cur().pid) ==> v.at[t] == s.at[t])
            && v.at[t] < NR_QUEUES
  {
    var v := Exit(s, c);
    ExitInv(s, c);
    hide LinkInv, PidInv, SemInv, OwnerInv, Exit;
    PlaceBound(v, t);
    if 2 <= s.at[t] < NR_QUEUES {
      ExitKeepsWaiting(s, c, t, s.at[t] - 2);
    }
    if 2 <= v.at[t] {
      ExitKeepsWaiting(s, c, t, v.at[t] - 2);
    }
  }

  /** What an exit does to a task as far as waiting goes: released with result -1 if it waits for the one that
      exits, and otherwise where it was or on the processor. */
  ghost predicate WaitsOn(s: Sched, v: Sched, t: Tid)
    requires s.Wf() && v.Wf()
  {
    var w := WaitsFor(s, t, s.Cur().pid);
    && s.at[t] < NR_QUEUES && v.at[t] < NR_QUEUES
    && (2 <= v.at[t] <==> 2 <= s.at[t] && !w)
    && (2 <= v.at[t] ==> v.at[t] == s.at[t])
    && (s.at[t] == READY_QUEUE || w ==> v.at[t] == READY_QUEUE || t == v.current)
    && (t != s.current ==> v.tasks[t].semRet == if w then -1 else s.tasks[t].semRet)
  }

  lemma ExitTask(s: Sched, c: Clock, t: Tid)
    requires Inv(s) && s.current != IDLE
    ensures WaitsOn(s, Exit(s, c), t)
  {
    assert s.at[t] < NR_QUEUES;
    hide LinkInv, PidInv, SemInv, OwnerInv, Exit;
    ExitReady(s, c, t);
    ExitBlocked(s, c, t);
  }

  lemma WaitsOnKeepsOut(s: Sched, v: Sched, out: seq<Outcome>)
    requires s.Wf() && v.Wf() && OnCpu(s)
    requires forall t: Tid {:trigger v.at[t]} {:trigger v.tasks[t]} {:trigger WaitsOn(s, v, t)} :: WaitsOn(s, v, t)
    requires |out| == NR_TASKS && OutInv(s, out) && out[s.current] == NotWaiting
    ensures OutInv(v, Ends(s, ExitCall, out))
  {
  }

  lemma ExitOut(s: Sched, c: Clock, out: seq<Outcome>)
    requires Inv(s) && s.current != IDLE
    requires |out| == NR_TASKS && OutInv(s, out) && out[s.current] == NotWaiting
    ensures OutInv(Exit(s, c), Ends(s, ExitCall, out))
  {
    hide LinkInv, PidInv, SemInv, OwnerInv, Exit, OutInv, Ends, WaitsOn;
    forall t: Tid
      ensures WaitsOn(s, Exit(s, c), t)
    {
      ExitTask(s, c, t);
    }
    WaitsOnKeepsOut(s, Exit(s, c), out);
  }

  lemma BodyOut(s: Sched, e: Event, c: Clock, out: seq<Outcome>)
    requires Inv(s) && Enabled(s, e) && e != ClockTick
    requires |out| == NR_TASKS && OutInv(s, out) && out[s.current] == NotWaiting
    ensures OutInv(Body(s, e, c), Ends(s, e, out))
  {
    hide PidInv, SemInv, OwnerInv;
    match e
    case ForkCall(o) =>
      match o {
        case NoTask =>
        case NoDirectory => SpawnOut(s, s.Cur().dir, out);
        case NoFrames(d) => SpawnOut(s, d, out);
        case Child(d) => SpawnOut(s, d, out);
      }
    case CloneCall(ok) => if s.Free() != [] { SpawnOut(s, s.Cur().dir, out); }
    case ExitCall => ExitOut(s, c, out);
    case SemDestroyCall(n) => DestroyOut(s, n, out);
    case SemSignalCall(n) => SignalOut(s, n, out);
    case SemWaitCall(n) => WaitOut(s, n, c, out);
    case SemInitCall(n, v) => QuietOut(s, SemInit(s, n, v), out);
    case SetQuantumCall(q) => QuietOut(s, SetQuantum(s, q), out);
    case Quiet(q) =>
  }

  // ---- Runs ----

  lemma StepSlotInv(s: Sched, d: Do, h: seq<Hist>)
    requires Inv(s) && Enabled(s, d.e) && |h| == NR_SEMS && SlotInv(s, h)
    ensures SlotInv(Step(s, d), Watch(s, d.e, h))
  {
    var u := StatsEntry(s, d.c.entry);
    EntryInv(s, u, d.c.entry);
    SameSlots(s, u, h);
    var v;
    if d.e == ClockTick {
      v := Schedule(u, d.c);
      SchedulePeople(u, d.c);
      SameSlots(u, v, h);
    } else {
      v := Body(u, d.e, d.c);
      BodySlotInv(u, d.e, d.c, h);
    }
    assert Watch(u, d.e, h) == Watch(s, d.e, h);
    assert Step(s, d) == Leave(d.e, u, v, d.c.leave).(now := d.c.leave.second);
    hide Inv, LinkInv, Step, Schedule, Body, Watch;
    SameSlots(v, Step(s, d), Watch(s, d.e, h));
  }

  /** After a step, before the new current task has consumed the outcome of its wait. */
  lemma StepOut(s: Sched, d: Do, out: seq<Outcome>)
    requires Inv(s) && Enabled(s, d.e) && |out| == NR_TASKS && OutInv(s, out) && out[s.current] == NotWaiting
    ensures OutInv(Step(s, d), Ends(s, d.e, out))
  {
    hide Linked, PidInv, SemInv, OwnerInv, Step, Schedule, Body, Ends, StatsEntry;
    var u := StatsEntry(s, d.c.entry);
    EntryInv(s, u, d.c.entry);
    StepForm(s, d);
    StatsKeepOut(s, u, out);
    EndsAfterEntry(s, d.c.entry, d.e, out);
    var v;
    if d.e == ClockTick {
      v := Schedule(u, d.c);
      ScheduleOut(u, d.c, out);
    } else {
      v := Body(u, d.e, d.c);
      BodyOut(u, d.e, d.c, out);
    }
    StatsKeepOut(v, Step(s, d), Ends(s, d.e, out));
  }

  lemma StatsKeepOut(s: Sched, u: Sched, out: seq<Outcome>)
    requires OnlyStats(s, u) && |out| == NR_TASKS && OutInv(s, out)
    ensures OutInv(u, out)
  {
  }

  lemma EndsAfterEntry(s: Sched, r: Reads, e: Event, out: seq<Outcome>)
    requires s.Wf() && |out| == NR_TASKS
    ensures Ends(StatsEntry(s, r), e, out) == Ends(s, e, out)
    ensures e == ClockTick ==> Ends(s, e, out) == out
  {
  }

  /** A resumed `sys_sem_wait` returns 0 exactly when a signal woke its task and -1 exactly when the semaphore
      was destroyed while it slept: whoever gets the processor after having waited holds that result, whatever
      happened in between, even if the identifier was initialised again. */
  lemma TruthfulReturn(a: Aug, d: Do)
    requires HInv(a) && Enabled(a.s, d.e)
    ensures var u := Step(a.s, d);
            var o := Ends(a.s, d.e, a.out)[u.current];
            && !o.Waiting?
            && (o != NotWaiting ==>
                  (o == BySignal <==> u.Cur().semRet == 0) && (o == ByDestroy <==> u.Cur().semRet == -1))
  {
    StepOut(a.s, d, a.out);
    StepInv(a.s, d);
    hide Step, Ends;
  }

  /** Every step keeps conservation, order and truth. */
  lemma AugStepInv(a: Aug, d: Do)
    requires HInv(a) && Enabled(a.s, d.e)
    ensures HInv(AugStep(a, d))
  {
    hide LinkInv, PidInv, SemInv, OwnerInv, Step, Ends, Watch;
    StepInv(a.s, d);
    StepSlotInv(a.s, d, a.h);
    StepOut(a.s, d, a.out);
  }

  ghost predicate AugCanRun(a: Aug, tr: seq<Do>)
    requires HInv(a)
    decreases |tr|
  {
    tr == [] || (
      && Enabled(a.s, tr[0].e)
      && Forward(tr[0].c, a.s.now)
      && (AugStepInv(a, tr[0]); AugCanRun(AugStep(a, tr[0]), tr[1..])))
  }

  /** In every state of every run the semaphores conserve, serve in order and answer truly. */
  ghost function AugRun(a: Aug, tr: seq<Do>): (b: Aug)
    requires HInv(a) && AugCanRun(a, tr)
    ensures HInv(b)
    decreases |tr|
  {
    if tr == [] then a else AugStepInv(a, tr[0]); AugRun(AugStep(a, tr[0]), tr[1..])
  }

  /** The history only watches: without it the run is the same. */
  lemma {:induction false} HistoryOnlyWatches(a: Aug, tr: seq<Do>)
    requires HInv(a)
    ensures AugCanRun(a, tr) <==> CanRun(a.s, tr)
    ensures CanRun(a.s, tr) ==> AugRun(a, tr).s == Run(a.s, tr)
    decreases |tr|
  {
    if tr != [] && Enabled(a.s, tr[0].e) {
      AugStepInv(a, tr[0]);
      HistoryOnlyWatches(AugStep(a, tr[0]), tr[1..]);
    }
  }

  /** The boot state with an empty history. */
  ghost function AugBoot(now: int): (a: Aug)
    ensures HInv(a)
  {
    Aug(Booted(now), seq(NR_SEMS, i => Hist(0, 0, 0, [], [], {})), seq(NR_TASKS, t => NotWaiting))
  }

  /** What the invariant says of one semaphore that starts at v >= 0: completed waits never exceed v plus the
      signals, and tasks wait only when exactly that many have completed. */
  lemma CompletedWaits(a: Aug, i: Slot)
    requires HInv(a) && a.s.sems[i].used && a.h[i].v >= 0
    ensures Completed(a.h[i]) <= a.h[i].v + a.h[i].signals
    ensures a.s.Blocked(i) != [] ==> Completed(a.h[i]) == a.h[i].v + a.h[i].signals
  {
    assert Conserved(ValAt(a.s, i), a.h[i]);
  }

  /** Signals wake in the order of arrival: the tasks woken so far are the first of those that blocked. */
  lemma FirstComeFirstServed(a: Aug, i: Slot)
    requires HInv(a) && a.s.sems[i].used
    ensures a.h[i].woken <= a.h[i].blocked
    ensures a.s.Blocked(i) == a.h[i].blocked[|a.h[i].woken|..]
  {
    assert Conserved(ValAt(a.s, i), a.h[i]);
  }

  /** Slot i is in use in every state of the run. */
  ghost predicate InUse(a: Aug, tr: seq<Do>, i: Slot)
    requires HInv(a) && AugCanRun(a, tr)
    decreases |tr|
  {
    && a.s.sems[i].used
    && (tr == [] || (AugStepInv(a, tr[0]); InUse(AugStep(a, tr[0]), tr[1..], i)))
  }

  /** The history of slot i only grows. */
  ghost predicate Grows(x: Hist, y: Hist) {
    && x.v == y.v
    && x.signals <= y.signals
    && Completed(x) <= Completed(y)
    && x.blocked <= y.blocked
    && x.woken <= y.woken
  }

  lemma StepGrows(a: Aug, d: Do, i: Slot)
    requires HInv(a) && Enabled(a.s, d.e) && a.s.sems[i].used
    ensures Grows(a.h[i], AugStep(a, d).h[i])
  {
    assert |a.h| == NR_SEMS && a.s.Wf();
    hide HInv, Step, Ends;
  }

  lemma GrowsTrans(x: Hist, y: Hist, z: Hist)
    requires Grows(x, y) && Grows(y, z)
    ensures Grows(x, z)
  {
  }

  lemma {:induction false} RunGrows(a: Aug, tr: seq<Do>, i: Slot)
    requires HInv(a) && AugCanRun(a, tr) && InUse(a, tr, i)
    ensures Grows(a.h[i], AugRun(a, tr).h[i]) && AugRun(a, tr).s.sems[i].used
    decreases |tr|
  {
    if tr != [] {
      AugStepInv(a, tr[0]);
      StepGrows(a, tr[0], i);
      RunGrows(AugStep(a, tr[0]), tr[1..], i);
      hide AugStep, Grows, Inv, SlotInv, OutInv;
      GrowsTrans(a.h[i], AugStep(a, tr[0]).h[i], AugRun(a, tr).h[i]);
    }
  }

  /** Fairness over runs: as long as the semaphore is in use, the tasks that signals wake from now on are those
      waiting now, in their order, before any task that blocks later; and those not woken yet still head the
      queue in that order. */
  lemma WakesInOrder(a: Aug, tr: seq<Do>, i: Slot)
    requires HInv(a) && AugCanRun(a, tr) && InUse(a, tr, i)
    ensures var b := AugRun(a, tr);
            var q := a.s.Blocked(i);
            var n := |b.h[i].woken| - |a.h[i].woken|;
            && 0 <= n
            && if n <= |q| then b.h[i].woken == a.h[i].woken + q[..n] && q[n..] <= b.s.Blocked(i)
               else a.h[i].woken + q <= b.h[i].woken
  {
    RunGrows(a, tr, i);
    FirstComeFirstServed(a, i);
    var b := AugRun(a, tr);
    FirstComeFirstServed(b, i);
    assert a.h[i].blocked == a.h[i].woken + a.s.Blocked(i);
    hide HInv, AugRun;
    OrderKept(a.h[i].woken, a.s.Blocked(i), b.h[i].woken, b.s.Blocked(i), b.h[i].blocked);
  }

  /** If w + q starts the sequence that w' + q' is, and w' continues w, then w' takes from q in order. */
  lemma OrderKept(w: seq<Tid>, q: seq<Tid>, w': seq<Tid>, q': seq<Tid>, all: seq<Tid>)
    requires w + q <= all && w <= w' <= all && q' == all[|w'|..]
    ensures var n := |w'| - |w|;
            if n <= |q| then w' == w + q[..n] && q[n..] <= q' else w + q <= w'
  {
    var n := |w'| - |w|;
    if n <= |q| {
      forall k | 0 <= k < |w'|
        ensures w'[k] == (w + q[..n])[k]
      {
        assert w'[k] == all[k] == (w + q)[k];
      }
      forall k | 0 <= k < |q| - n
        ensures q[n..][k] == q'[k]
      {
        assert q'[k] == all[|w'| + k] == (w + q)[|w'| + k];
      }
    }
  }

  /** What one step does to slot i, in use before and after: a signal wakes the first of the queue if there is one,
      and every other step may append to the queue and wakes nobody. */
  lemma StepSignals(a: Aug, d: Do, i: Slot)
    requires HInv(a) && Enabled(a.s, d.e) && a.s.sems[i].used && HInv(AugStep(a, d)) && AugStep(a, d).s.sems[i].used
    ensures var b := AugStep(a, d);
            var q := a.s.Blocked(i);
            var m := b.h[i].signals - a.h[i].signals;
            && 0 <= m <= 1
            && |b.h[i].woken| - |a.h[i].woken| == (if m == 1 && q != [] then 1 else 0)
            && |b.s.Blocked(i)| >= |q| - m
  {
    StepGrows(a, d, i);
    FirstComeFirstServed(a, i);
    FirstComeFirstServed(AugStep(a, d), i);
    assert |a.h| == NR_SEMS && a.s.Wf();
    hide HInv, Step, Ends;
  }

  /** As long as the tasks waiting now are not all awake, each signal has woken exactly one of them. */
  lemma {:induction false} SignalsWake(a: Aug, tr: seq<Do>, i: Slot)
    requires HInv(a) && AugCanRun(a, tr) && InUse(a, tr, i)
    ensures var b := AugRun(a, tr);
            var n, m := |b.h[i].woken| - |a.h[i].woken|, b.h[i].signals - a.h[i].signals;
            0 <= n <= m && (n < |a.s.Blocked(i)| ==> n == m)
    decreases |tr|
  {
    if tr != [] {
      AugStepInv(a, tr[0]);
      var u := AugStep(a, tr[0]);
      SignalsWake(u, tr[1..], i);
      StepSignals(a, tr[0], i);
      hide HInv, AugStep;
    }
  }

  /** The bound of every waiter: in every run in which the semaphore stays in use, the task at position p of the
      blocked queue is woken by signal number p + 1 from now on, neither earlier nor later, whatever else blocks,
      waits or signals. */
  lemma WokenBySignal(a: Aug, tr: seq<Do>, i: Slot, p: nat)
    requires HInv(a) && AugCanRun(a, tr) && InUse(a, tr, i) && p < |a.s.Blocked(i)|
    ensures var b := AugRun(a, tr);
            var first := |a.h[i].woken|;
            && (first + p < |b.h[i].woken| <==> b.h[i].signals - a.h[i].signals > p)
            && (first + p < |b.h[i].woken| ==> b.h[i].woken[first + p] == a.s.Blocked(i)[p])
  {
    hide LinkInv, PidInv, SemInv, OwnerInv, SlotInv, OutInv, AugRun, AugCanRun, InUse;
    SignalsWake(a, tr, i);
    WakesInOrder(a, tr, i);
    if |a.h[i].woken| + p < |AugRun(a, tr).h[i].woken| {
      PthOf(a.h[i].woken, a.s.Blocked(i), AugRun(a, tr).h[i].woken, p);
    }
  }

  lemma PthOf(w: seq<Tid>, q: seq<Tid>, w': seq<Tid>, p: nat)
    requires p < |q| && |w| + p < |w'|
    requires var n := |w'| - |w|; 0 <= n && if n <= |q| then w' == w + q[..n] else w + q <= w'
    ensures w'[|w| + p] == q[p]
  {
    if |w'| - |w| > |q| {
      assert w'[|w| + p] == (w + q)[|w| + p];
    }
  }
}
