/** The scheduler and the semaphores as a state machine over values.

    `Sched` is the state that sched.c and the system calls of sys.c keep in global variables; each
    function below is what one C function does to it.  The class `Kernel` is proved against them. */
module SchedSpec {
  import opened Common
  import opened Sequences

  const NR_TASKS := 15
  const NR_SEMS := 20

  /** The queues, numbered: free tasks, ready tasks, then the blocked queue of each semaphore slot. */
  const FREE_QUEUE := 0
  const READY_QUEUE := 1
  const NR_QUEUES := 22

  /** A task is linked in no queue. */
  const NOWHERE := -1

  /** `init_sched` pushes the tasks in ascending order on the front of the free queue,
      so `init_idle` takes the last one and `init_task1` the last but one. */
  const IDLE: Tid := 14
  const INIT: Tid := 13

  const DEFAULT_QUANTUM := 15

  type Tid = t: int | 0 <= t < 15
  type Slot = i: int | 0 <= i < 20
  type Queue = q: int | 0 <= q < 22

  function SemQueue(i: Slot): Queue {
    i + 2
  }

  datatype Estado = StRun | StReady | StBlocked

  /** `struct stats` without `remaining_ticks`, which only the copy given to the user holds. */
  datatype Stats = Stats(user: int, system: int, blocked: int, ready: int, elapsed: int, trans: int)

  const ZERO_STATS := Stats(0, 0, 0, 0, 0, 0)

  /** `struct task_struct`; `dir` is `n_directorio`. */
  datatype Task = Task(pid: int, dir: Dir, estado: Estado, stats: Stats, semRet: int, quantum: int)

  datatype Sem = Sem(used: bool, nSem: int, owner: int, counter: int)

  /** Two reads of the clock in one update of the statistics: one for the difference, one for the mark. */
  datatype Reads = Reads(first: int, second: int)

  /** Every value `get_ticks` can return during one step, in program order. */
  datatype Clock = Clock(entry: Reads, off: Reads, on1: Reads, on2: Reads, leave: Reads)

  predicate Ordered(r: Reads, from: int) {
    from <= r.first <= r.second
  }

  /** The clock never goes back. */
  predicate Forward(c: Clock, now: int) {
    && Ordered(c.entry, now)
    && Ordered(c.off, c.entry.second)
    && Ordered(c.on1, c.off.second)
    && Ordered(c.on2, c.on1.second)
    && Ordered(c.leave, c.on2.second)
  }

  /** `at[t]` is the queue in which task t is linked, or NOWHERE; `now` is the last value read from the clock. */
  datatype Sched = Sched(
    tasks: seq<Task>,
    queues: seq<seq<Tid>>,
    at: seq<int>,
    sems: seq<Sem>,
    current: Tid,
    qLeft: int,
    nextPid: int,
    now: int)
  {
    predicate Wf() {
      |tasks| == NR_TASKS && |queues| == NR_QUEUES && |at| == NR_TASKS && |sems| == NR_SEMS
    }

    function Free(): seq<Tid>
      requires Wf()
    {
      queues[FREE_QUEUE]
    }

    function Ready(): seq<Tid>
      requires Wf()
    {
      queues[READY_QUEUE]
    }

    function Blocked(i: Slot): seq<Tid>
      requires Wf()
    {
      queues[SemQueue(i)]
    }

    function Cur(): Task
      requires Wf()
    {
      tasks[current]
    }

    function SetTask(t: Tid, x: Task): Sched
      requires Wf()
    {
      this.(tasks := tasks[t := x])
    }

    function SetSem(i: Slot, x: Sem): Sched
      requires Wf()
    {
      this.(sems := sems[i := x])
    }

    /** `list_del` of task t: out of whatever queue it is linked in. */
    function Unlink(t: Tid): Sched
      requires Wf() && 0 <= at[t] < NR_QUEUES
    {
      this.(queues := queues[at[t] := Without(queues[at[t]], t)], at := at[t := NOWHERE])
    }

    /** `list_add_tail` of task t. */
    function Enqueue(t: Tid, q: Queue): Sched
      requires Wf()
    {
      this.(queues := queues[q := queues[q] + [t]], at := at[t := q])
    }
  }

  // ---- Links and states ----

  /** Each task is linked at most once, and `at` says where. */
  ghost predicate Linked(queues: seq<seq<Tid>>, at: seq<int>) {
    && |queues| == NR_QUEUES
    && |at| == NR_TASKS
    && (forall q: Queue :: NoDup(queues[q]))
    && (forall q: Queue, k | 0 <= k < |queues[q]| :: at[queues[q][k]] == q)
    && (forall t: Tid :: at[t] == NOWHERE || (0 <= at[t] < NR_QUEUES && t in queues[at[t]]))
  }

  /** The state tag that a task linked at `place` carries. */
  function TagOf(place: int): Estado {
    if place == NOWHERE then StRun else if place == READY_QUEUE then StReady else StBlocked
  }

  /** What every system call and interrupt relies on: the tag decides truly whether a task is linked. */
  ghost predicate LinkInv(s: Sched) {
    && s.Wf()
    && Linked(s.queues, s.at)
    && (forall t: Tid | s.at[t] != FREE_QUEUE :: s.tasks[t].estado == TagOf(s.at[t]))
    && (s.at[IDLE] == NOWHERE || s.at[IDLE] == READY_QUEUE)
    && (forall i: Slot | !s.sems[i].used :: s.Blocked(i) == [])
  }

  /** Some task has the processor. */
  ghost predicate OnCpu(s: Sched)
    requires s.Wf()
  {
    s.at[s.current] == NOWHERE
  }

  /** Taking a task out of its queue keeps every other task where it is. */
  lemma UnlinkKeeps(queues: seq<seq<Tid>>, at: seq<int>, t: Tid)
    requires Linked(queues, at) && at[t] != NOWHERE
    ensures Linked(queues[at[t] := Without(queues[at[t]], t)], at[t := NOWHERE])
  {
    var queues', at' := queues[at[t] := Without(queues[at[t]], t)], at[t := NOWHERE];
    WithoutMembers(queues[at[t]], t);
    forall q: Queue, k | 0 <= k < |queues'[q]|
      ensures at'[queues'[q][k]] == q
    {
      assert queues'[q][k] in queues[q];
    }
  }

  lemma EnqueueKeeps(queues: seq<seq<Tid>>, at: seq<int>, t: Tid, q: Queue)
    requires Linked(queues, at) && at[t] == NOWHERE
    ensures Linked(queues[q := queues[q] + [t]], at[t := q])
  {
    var queues', at' := queues[q := queues[q] + [t]], at[t := q];
    assert t !in queues[q];
    AppendNoDup(queues[q], t);
    forall x: Tid
      ensures at'[x] == NOWHERE || (0 <= at'[x] < NR_QUEUES && x in queues'[at'[x]])
    {
      if x == t {
        assert queues'[q][|queues[q]|] == t;
      } else if at[x] == q {
        assert x in queues[q];
      }
    }
  }

  // ---- sched.c ----

  function ChargeUser(st: Stats, r: Reads): Stats {
    st.(user := st.user + (r.first - st.elapsed), elapsed := r.second)
  }

  function ChargeSystem(st: Stats, r: Reads): Stats {
    st.(system := st.system + (r.first - st.elapsed), elapsed := r.second)
  }

  function ChargeReady(st: Stats, r: Reads): Stats {
    st.(ready := st.ready + (r.first - st.elapsed), elapsed := r.second)
  }

  /** `statsEntrySys` */
  function StatsEntry(s: Sched, r: Reads): (after: Sched)
    requires s.Wf()
    ensures after.Wf()
  {
    s.SetTask(s.current, s.Cur().(stats := ChargeUser(s.Cur().stats, r)))
  }

  /** `statsLeaveSys` */
  function StatsLeave(s: Sched, r: Reads): (after: Sched)
    requires s.Wf()
    ensures after.Wf()
  {
    s.SetTask(s.current, s.Cur().(stats := ChargeSystem(s.Cur().stats, r)))
  }

  /** `update_process_state_rr`: `dst` is NOWHERE for a null destination. */
  function UpdateState(s: Sched, t: Tid, dst: int): (after: Sched)
    requires s.Wf() && (dst == NOWHERE || 0 <= dst < NR_QUEUES)
    requires s.tasks[t].estado != StRun ==> 0 <= s.at[t] < NR_QUEUES
    ensures after.Wf()
  {
    var u := if s.tasks[t].estado != StRun then s.Unlink(t) else s;
    var v := if dst == NOWHERE then u else u.Enqueue(t, dst);
    v.SetTask(t, v.tasks[t].(estado := TagOf(dst)))
  }

  /** `update_process_state_rr` keeps the links and the tags together, whatever queue the task comes from. */
  lemma MoveLinks(s: Sched, t: Tid, dst: int)
    requires LinkInv(s) && s.at[t] != FREE_QUEUE
    requires dst == NOWHERE || 0 <= dst < NR_QUEUES
    requires t == IDLE ==> dst == NOWHERE || dst == READY_QUEUE
    requires dst >= 2 ==> s.sems[dst - 2].used
    ensures var u := UpdateState(s, t, dst); LinkInv(u) && u.at == s.at[t := dst]
  {
    var u := if s.tasks[t].estado != StRun then s.Unlink(t) else s;
    if s.tasks[t].estado != StRun {
      UnlinkKeeps(s.queues, s.at, t);
      WithoutMembers(s.queues[s.at[t]], t);
    }
    if dst != NOWHERE {
      EnqueueKeeps(u.queues, u.at, t, dst);
    }
    var v := UpdateState(s, t, dst);
    forall i: Slot | !v.sems[i].used
      ensures v.Blocked(i) == []
    {
      assert s.Blocked(i) == [];
    }
  }

  /** `exitRunCurrent` */
  function ExitRunCurrent(s: Sched, q: Queue, r: Reads): (after: Sched)
    requires s.Wf()
    requires s.Cur().estado != StRun ==> 0 <= s.at[s.current] < NR_QUEUES
    ensures after.Wf()
  {
    UpdateState(s.SetTask(s.current, s.Cur().(stats := ChargeSystem(s.Cur().stats, r))), s.current, q)
  }

  /** The statistics of a task that is given the processor: all the time since its last mark goes to the
      system counter, and the ready counter gets only what passes between two reads of the clock. */
  function Dispatched(st: Stats, c: Clock): Stats {
    var u := ChargeReady(ChargeSystem(st, c.on1), c.on2);
    u.(trans := u.trans + 1)
  }

  /** `sched_next_rr`.  The new quantum is that of the task that leaves: `get_quantum` ignores its argument. */
  function SchedNext(s: Sched, c: Clock): (after: Sched)
    requires LinkInv(s)
    ensures after.Wf()
  {
    if s.Ready() != [] then
      var n := s.Ready()[0];
      assert s.at[n] == READY_QUEUE;
      var x := s.tasks[n].(stats := Dispatched(s.tasks[n].stats, c));
      UpdateState(s.(qLeft := s.Cur().quantum).SetTask(n, x), n, NOWHERE).(current := n)
    else
      s.(current := IDLE)
  }

  /** Updates that touch neither links nor tags keep the link invariant. */
  lemma SameLinks(s: Sched, u: Sched)
    requires LinkInv(s) && u.Wf() && u.queues == s.queues && u.at == s.at
    requires forall t: Tid :: u.tasks[t].estado == s.tasks[t].estado
    requires forall i: Slot :: s.sems[i].used ==> u.sems[i].used
    ensures LinkInv(u)
  {
    forall i: Slot | !u.sems[i].used
      ensures u.Blocked(i) == []
    {
      assert s.Blocked(i) == [];
    }
  }

  lemma EntryLinks(s: Sched, r: Reads)
    requires LinkInv(s)
    ensures LinkInv(StatsEntry(s, r)) && LinkInv(StatsLeave(s, r))
  {
    SameLinks(s, StatsEntry(s, r));
    SameLinks(s, StatsLeave(s, r));
  }

  /** The running task leaves the processor for queue q. */
  lemma LeaveLinks(s: Sched, q: Queue, r: Reads)
    requires LinkInv(s) && OnCpu(s)
    requires s.current == IDLE ==> q == READY_QUEUE
    requires q >= 2 ==> s.sems[q - 2].used
    ensures var u := ExitRunCurrent(s, q, r);
            LinkInv(u) && u.at == s.at[s.current := q] && u.queues == s.queues[q := s.queues[q] + [s.current]] &&
                u.current == s.current
  {
    var u := s.SetTask(s.current, s.Cur().(stats := ChargeSystem(s.Cur().stats, r)));
    SameLinks(s, u);
    MoveLinks(u, u.current, q);
  }

  /** The processor goes to the head of the ready queue, or to the idle task if there is none. */
  lemma NextLinks(s: Sched, c: Clock)
    requires LinkInv(s) && !OnCpu(s)
    ensures s.Ready() != [] ==> s.at[s.Ready()[0]] == READY_QUEUE
    ensures var u := SchedNext(s, c);
            LinkInv(u) && OnCpu(u) && u.current == if s.Ready() == [] then IDLE else s.Ready()[0]
    ensures s.Ready() != [] ==>
              var u := SchedNext(s, c);
              && u.queues == s.queues[READY_QUEUE := s.Ready()[1..]]
              && u.at == s.at[s.Ready()[0] := NOWHERE]
  {
    if s.Ready() != [] {
      var n := s.Ready()[0];
      assert s.at[n] == READY_QUEUE;
      var x := s.tasks[n].(stats := Dispatched(s.tasks[n].stats, c));
      var u := s.(qLeft := s.Cur().quantum).SetTask(n, x);
      SameLinks(s, u);
      MoveLinks(u, n, NOWHERE);
      SameLinks(UpdateState(u, n, NOWHERE), SchedNext(s, c));
    } else {
      SameLinks(s, SchedNext(s, c));
    }
  }

  /** `schedule`, run by the clock interrupt. */
  function Schedule(s: Sched, c: Clock): (after: Sched)
    requires LinkInv(s) && OnCpu(s)
    ensures after.Wf()
  {
    var u := s.(qLeft := s.qLeft - 1);
    if u.qLeft != 0 then
      u
    else if u.Ready() == [] then
      var x := u.Cur();
      u.SetTask(u.current, x.(stats := x.stats.(trans := x.stats.trans + 1))).(qLeft := x.quantum)
    else
      SameLinks(s, u);
      LeaveLinks(u, READY_QUEUE, c.off);
      NextLinks(ExitRunCurrent(u, READY_QUEUE, c.off), c);
      SchedNext(ExitRunCurrent(u, READY_QUEUE, c.off), c)
  }

  // ---- sys.c: processes ----

  /** The common part of `sys_fork` and `sys_clone`: the first free task becomes a copy of the caller with a
      new identifier, cleared statistics and directory `dir`, at the end of the ready queue. */
  function Spawn(s: Sched, dir: Dir): (after: Sched)
    requires LinkInv(s) && s.Free() != []
    ensures after.Wf()
  {
    var t := s.Free()[0];
    assert s.at[t] == FREE_QUEUE;
    var u := s.Unlink(t);
    var child := u.Cur().(dir := dir, pid := u.nextPid, estado := StReady, stats := ZERO_STATS);
    u.SetTask(t, child).(nextPid := u.nextPid + 1).Enqueue(t, READY_QUEUE)
  }

  /** The state a failed `sys_fork` leaves: its task is off the free queue, is a copy of the caller up to the
      directory, and is linked nowhere. */
  function Lose(s: Sched, dir: Dir): (after: Sched)
    requires LinkInv(s) && s.Free() != []
    ensures after.Wf()
  {
    var t := s.Free()[0];
    assert s.at[t] == FREE_QUEUE;
    var u := s.Unlink(t);
    u.SetTask(t, u.Cur().(dir := dir))
  }

  // ---- sys.c: semaphores ----

  /** `cerca_sem`: the first used slot with this identifier, or -1. */
  function FindSem(sems: seq<Sem>, n: int, from: nat): (r: int)
    ensures r == -1 || (from <= r < |sems| && sems[r].used && sems[r].nSem == n)
    ensures forall i | from <= i < |sems| && sems[i].used && sems[i].nSem == n :: from <= r <= i
    decreases |sems| - from
  {
    if from >= |sems| then -1
    else if sems[from].nSem == n && sems[from].used then from
    else FindSem(sems, n, from + 1)
  }

  /** `cerca_sem_lliure`: the first free slot, or -1. */
  function FindFreeSem(sems: seq<Sem>, from: nat): (r: int)
    ensures r == -1 || (from <= r < |sems| && !sems[r].used)
    ensures forall i | from <= i < |sems| && !sems[i].used :: from <= r <= i
    decreases |sems| - from
  {
    if from >= |sems| then -1 else if !sems[from].used then from else FindFreeSem(sems, from + 1)
  }

  /** The conversion of the `unsigned int` argument of `sys_sem_init` to the `int` counter: the number of 32-bit
      two's complement that is congruent to it. */
  function ToSigned(v: int): (c: int)
    ensures 0 <= v < 0x1_0000_0000 ==> -0x8000_0000 <= c < 0x8000_0000 && (c - v) % 0x1_0000_0000 == 0
    ensures 0 <= v < 0x8000_0000 ==> c == v
  {
    if v < 0x8000_0000 then v else v - 0x1_0000_0000
  }

  function SemInit(s: Sched, n: int, v: int): (after: Sched)
    requires s.Wf()
    requires FindSem(s.sems, n, 0) == -1 ==> FindFreeSem(s.sems, 0) != -1
    ensures after.Wf()
  {
    if FindSem(s.sems, n, 0) != -1 then s
    else s.SetSem(FindFreeSem(s.sems, 0), Sem(true, n, s.Cur().pid, ToSigned(v)))
  }

  /** All tasks blocked on slot i go to the end of the ready queue, in order, with result -1. */
  function WakeAll(s: Sched, i: Slot): (after: Sched)
    requires s.Wf()
    ensures after.Wf()
  {
    var w := s.Blocked(i);
    s.(tasks := seq(NR_TASKS, t requires 0 <= t < NR_TASKS =>
                    if t in w then s.tasks[t].(semRet := -1, estado := StReady) else s.tasks[t]),
       queues := s.queues[READY_QUEUE := s.Ready() + w][SemQueue(i) := []],
       at := seq(NR_TASKS, t requires 0 <= t < NR_TASKS => if t in w then READY_QUEUE else s.at[t]))
  }

  function FreeSlot(s: Sched, i: Slot): (after: Sched)
    requires s.Wf()
    ensures after.Wf()
  {
    s.SetSem(i, s.sems[i].(used := false, nSem := -1, owner := 0))
  }

  /** `sys_sem_destroy` */
  function SemDestroy(s: Sched, n: int): (after: Sched)
    requires s.Wf()
    ensures after.Wf()
  {
    var i := FindSem(s.sems, n, 0);
    if i == -1 || s.sems[i].owner != s.Cur().pid then s else FreeSlot(WakeAll(s, i), i)
  }

  /** `sys_sem_signal` */
  function SemSignal(s: Sched, n: int): (after: Sched)
    requires LinkInv(s)
    ensures after.Wf()
  {
    var i := FindSem(s.sems, n, 0);
    if i == -1 then s
    else if s.Blocked(i) == [] then s.SetSem(i, s.sems[i].(counter := s.sems[i].counter + 1))
    else UpdateState(s, s.Blocked(i)[0], READY_QUEUE)
  }

  predicate Blocks(s: Sched, n: int)
    requires s.Wf()
  {
    var i := FindSem(s.sems, n, 0);
    i != -1 && s.sems[i].counter <= 0
  }

  /** `sys_sem_wait` up to the moment another task has the processor or the call returns. */
  function SemWait(s: Sched, n: int, c: Clock): (after: Sched)
    requires LinkInv(s) && OnCpu(s) && s.current != IDLE
    ensures after.Wf()
  {
    var i := FindSem(s.sems, n, 0);
    if i == -1 then s
    else
      var u := s.SetTask(s.current, s.Cur().(semRet := 0));
      if s.sems[i].counter <= 0 then
        SameLinks(s, u);
        LeaveLinks(u, SemQueue(i), c.off);
        NextLinks(ExitRunCurrent(u, SemQueue(i), c.off), c);
        SchedNext(ExitRunCurrent(u, SemQueue(i), c.off), c)
      else
        u.SetSem(i, s.sems[i].(counter := s.sems[i].counter - 1))
  }

  /** The loop of `sys_exit` from slot i on: destroy each semaphore whose owner is `pid`. */
  function DestroyOwned(s: Sched, pid: int, i: nat): (after: Sched)
    requires s.Wf() && i <= NR_SEMS
    ensures after.Wf() && after.current == s.current
    decreases NR_SEMS - i
  {
    if i == NR_SEMS then s
    else if s.sems[i].owner == pid then DestroyOwned(SemDestroy(s, s.sems[i].nSem), pid, i + 1)
    else DestroyOwned(s, pid, i + 1)
  }

  /** Waking every task of a used slot keeps links and tags together. */
  lemma WakeAllLinks(s: Sched, i: Slot)
    requires LinkInv(s)
    ensures LinkInv(WakeAll(s, i)) && LinkInv(FreeSlot(WakeAll(s, i), i))
    ensures OnCpu(s) ==> OnCpu(WakeAll(s, i))
  {
    var w := s.Blocked(i);
    var u := WakeAll(s, i);
    assert forall k | 0 <= k < |w| :: s.at[w[k]] == SemQueue(i);
    assert forall t: Tid :: t in w <==> s.at[t] == SemQueue(i);
    assert forall t: Tid :: t in s.Ready() <==> s.at[t] == READY_QUEUE;
    var r := s.Ready() + w;
    assert NoDup(r);
    forall q: Queue, k | 0 <= k < |u.queues[q]|
      ensures u.at[u.queues[q][k]] == q
    {
      if q == READY_QUEUE {
        assert u.queues[q][k] in r;
      } else {
        assert u.queues[q][k] in s.queues[q];
      }
    }
    forall t: Tid
      ensures u.at[t] == NOWHERE || (0 <= u.at[t] < NR_QUEUES && t in u.queues[u.at[t]])
    {
      if t in w {
        assert t in r;
      } else if s.at[t] == READY_QUEUE {
        assert t in r;
      }
    }
    forall j: Slot | !u.sems[j].used
      ensures u.Blocked(j) == []
    {
      assert s.Blocked(j) == [];
    }
    assert FreeSlot(u, i).Blocked(i) == [];
    forall j: Slot | !FreeSlot(u, i).sems[j].used
      ensures FreeSlot(u, i).Blocked(j) == []
    {
      assert j != i ==> s.Blocked(j) == [];
    }
  }

  lemma SemDestroyLinks(s: Sched, n: int)
    requires LinkInv(s)
    ensures LinkInv(SemDestroy(s, n))
    ensures OnCpu(s) ==> OnCpu(SemDestroy(s, n))
  {
    var i := FindSem(s.sems, n, 0);
    if i != -1 {
      WakeAllLinks(s, i);
    }
  }

  lemma {:induction false} DestroyOwnedLinks(s: Sched, pid: int, i: nat)
    requires LinkInv(s) && i <= NR_SEMS
    ensures LinkInv(DestroyOwned(s, pid, i))
    ensures OnCpu(s) ==> OnCpu(DestroyOwned(s, pid, i))
    decreases NR_SEMS - i
  {
    if i < NR_SEMS {
      if s.sems[i].owner == pid {
        SemDestroyLinks(s, s.sems[i].nSem);
        DestroyOwnedLinks(SemDestroy(s, s.sems[i].nSem), pid, i + 1);
      } else {
        DestroyOwnedLinks(s, pid, i + 1);
      }
    }
  }

  /** What `sys_exit` does to the exiting task: its semaphores go, its identifier goes, it joins the free
      queue.  The C code appends it to that queue twice; see `Lists.AppendTwice` for the second insertion. */
  function Vacate(s: Sched): (after: Sched)
    requires LinkInv(s) && OnCpu(s)
    ensures after.Wf()
  {
    var u := DestroyOwned(s, s.Cur().pid, 0);
    DestroyOwnedLinks(s, s.Cur().pid, 0);
    UpdateState(u.SetTask(u.current, u.Cur().(pid := -1)), u.current, FREE_QUEUE)
  }

  lemma VacateLinks(s: Sched)
    requires LinkInv(s) && OnCpu(s) && s.current != IDLE
    ensures LinkInv(Vacate(s)) && Vacate(s).at[s.current] == FREE_QUEUE && Vacate(s).current == s.current
  {
    var u := DestroyOwned(s, s.Cur().pid, 0);
    DestroyOwnedLinks(s, s.Cur().pid, 0);
    var v := u.SetTask(u.current, u.Cur().(pid := -1));
    SameLinks(u, v);
    MoveLinks(v, v.current, FREE_QUEUE);
  }

  /** `sys_exit`, scheduler part. */
  function Exit(s: Sched, c: Clock): (after: Sched)
    requires LinkInv(s) && OnCpu(s) && s.current != IDLE
    ensures after.Wf()
  {
    VacateLinks(s);
    NextLinks(Vacate(s), c);
    SchedNext(Vacate(s), c)
  }
}
