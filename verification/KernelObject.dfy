/** sched.c and the process and semaphore calls of sys.c over the kernel's global variables.

    Every method is proved against the function of the same name on abstract states, so what is proved of runs of
    the abstract machine holds of this kernel. */
module KernelObject {
  import opened Common
  import opened Sequences
  import opened SchedSpec
  import opened SchedSteps
  import opened SchedInv
  import opened SchedRuns
  import opened Lists
  import opened Queues
  import opened MemSpec
  import opened AddressSpaces
  import opened Memory
  import opened Machine
  import opened MachineRuns
  import opened Identifiers

  class Kernel {
    const queues: QueueTable
    const mem: PhysicalMemory

    /** `task` and `semaphores`, arrays of structures whose list nodes are in `queues`. */
    const task: array<Task>
    const semaphores: array<Sem>

    var current: Tid
    var qLeft: int
    var incrementalPID: int

    /** The last value read from the clock. */
    ghost var now: int

    ghost function S(): (s: Sched)
      reads this, queues, task, semaphores
    {
      Sched(task[..], queues.q, queues.at, semaphores[..], current, qLeft, incrementalPID, now)
    }

    ghost function Abs(): K
      requires mem.Valid()
      reads this, queues, task, semaphores, mem.refs, mem.pt, mem.phys, mem.ram
    {
      K(S(), mem.M())
    }

    /** The variables are in place, and the heads of all queues in use are initialised. */
    ghost predicate Wired()
      reads this, queues, queues.node, task, semaphores
    {
      && task.Length == NR_TASKS && semaphores.Length == NR_SEMS
      && task as object !in {mem.refs as object, mem.pt, mem.phys, mem.ram, semaphores}
      && semaphores as object !in {mem.refs as object, mem.pt, mem.phys, mem.ram}
      && queues.Valid() && mem.Valid()
      && FREE_QUEUE in queues.live && READY_QUEUE in queues.live
      && (forall i: Slot | semaphores[i].used :: SemQueue(i) in queues.live)
    }

    /** Between kernel entries: tags and links agree, one task runs, the processor uses its directory, and no
        cached translation is stale. */
    ghost predicate Valid()
      reads this, queues, queues.node, task, semaphores, mem, mem.pt
    {
      && Wired() && LinkInv(S()) && OnCpu(S())
      && mem.cr3 == task[current].dir && mem.Coherent()
    }

    /** Queue partition at pointer level: the node of each task lies on the ring of at most one queue head; and
        unless the task is free, its tag is "running" exactly if its node lies on none. */
    lemma NodeOnOneRing(t: Tid)
      requires Valid()
      ensures forall i: Queue, j: Queue, r: seq<ListHead>, s: seq<ListHead> |
                i in queues.live && j in queues.live && Ring(queues.Head(i), r) && Ring(queues.Head(j), s)
                && queues.node[t] in r && queues.node[t] in s :: i == j && r == s
      ensures (forall s: seq<ListHead> | Ring(queues.Head(FREE_QUEUE), s) :: queues.node[t] !in s) ==>
                (task[t].estado == StRun <==>
                 forall i: Queue, s: seq<ListHead> | i in queues.live && Ring(queues.Head(i), s) ::
                   queues.node[t] !in s)
    {
      hide Linked, LinkInv;
      forall i: Queue, s: seq<ListHead> | i in queues.live && Ring(queues.Head(i), s)
        ensures s == queues.Anchors(queues.q[i])
        ensures queues.node[t] in s <==> queues.at[t] == i
      {
        RingDeterminesSequence(queues.Head(i), s, queues.Anchors(queues.q[i]));
        queues.AnchoredAt(t, i);
      }
      TagTells(t);
      if queues.at[t] != NOWHERE {
        var s := queues.Anchors(queues.q[queues.at[t]]);
        assert Ring(queues.Head(queues.at[t]), s) && queues.node[t] in s;
      }
    }

    /** Outside the free queue the tag says whether the task is in a queue, and then that queue is in use. */
    lemma TagTells(t: Tid)
      requires Valid()
      ensures queues.at[t] != FREE_QUEUE ==> (task[t].estado == StRun <==> queues.at[t] == NOWHERE)
      ensures queues.at[t] != NOWHERE ==> 0 <= queues.at[t] < NR_QUEUES && queues.at[t] in queues.live
    {
      if queues.at[t] != NOWHERE {
        var i := queues.at[t];
        assert t in queues.q[i];
      }
    }

    // ---- Boot ----

    /** Boot: `init_mm`, `init_sched`, `init_idle`, `init_task1`. */
    constructor (ghost now: int)
      ensures Valid() && S() == Boot(now)
      ensures mem.M() == BootMem(mem.M().ram)
      ensures KInv(Abs()) && Abs() == BootK(now, mem.M().ram)
    {
      hide Linked, LinkInv, Boot, BootMem, Valid, KInv;
      queues := new QueueTable();
      mem := new PhysicalMemory();
      task := new Task[NR_TASKS](t => Task(0, 0, StRun, ZERO_STATS, 0, 0));
      semaphores := new Sem[NR_SEMS](i => Sem(false, 0, 0, 0));
      current := IDLE;
      qLeft := 0;
      incrementalPID := 2;
      this.now := now;
      new;
      StartUp();
      BootKInv(now, mem.M().ram);
    }

    /** Static storage, before `main`. */
    ghost predicate Unset()
      reads this, queues, queues.node, task, semaphores, mem.refs, mem.pt, mem.phys, mem.ram
    {
      && task.Length == NR_TASKS && semaphores.Length == NR_SEMS && queues.Valid() && mem.Valid()
      && task as object !in {mem.refs as object, mem.pt, mem.phys, mem.ram, semaphores}
      && semaphores as object !in {mem.refs as object, mem.pt, mem.phys, mem.ram}
      && queues.live == {} && queues.q == seq(NR_QUEUES, i => []) && queues.at == seq(NR_TASKS, t => NOWHERE)
      && mem.M().refs == seq(NR_DIRS, d => 0)
      && incrementalPID == 2
      && (forall t: Tid :: task[t] == Task(0, 0, StRun, ZERO_STATS, 0, 0))
      && (forall i: Slot :: semaphores[i] == Sem(false, 0, 0, 0))
    }

    /** `main` of system.c up to the return to user mode. */
    method StartUp()
      requires Unset()
      modifies this`current, this`qLeft, task, semaphores, queues, queues.node
      modifies mem`cr3, mem`tlb, mem.refs, mem.pt, mem.phys
      ensures Valid() && S() == Boot(now)
      ensures mem.M() == BootMem(mem.M().ram)
    {
      hide Linked, BootMem, Boot, LinkInv, OnlyFree, queues.Valid;
      NoQueues();
      var d := mem.InitMm();
      ghost var m := mem.M();
      assert Unmapped(m);
      task[0] := task[0].(dir := d);
      InitSched();
      InitIdle();
      StillUnmapped(m, mem.M());
      InitTask1();
      BootState();
      BootRuns(now);
    }

    static lemma BootRuns(now: int)
      ensures LinkInv(Boot(now)) && OnCpu(Boot(now)) && Boot(now).Cur().dir == 1
    {
      BootLinks(now);
      hide LinkInv;
    }

    lemma NoQueues()
      requires queues.q == seq(NR_QUEUES, i => []) && queues.at == seq(NR_TASKS, t => NOWHERE)
      ensures OnlyFree(0)
    {
    }

    /** The free queue while `init_sched` fills it: tasks n-1 down to 0. */
    static function Down(n: nat): (s: seq<Tid>)
      requires n <= NR_TASKS
    {
      if n == 0 then [] else [n - 1] + Down(n - 1)
    }

    ghost predicate OnlyFree(n: nat)
      requires n <= NR_TASKS
      reads queues`q, queues`at
    {
      && queues.q == seq(NR_QUEUES, i => if i == FREE_QUEUE then Down(n) else [])
      && queues.at == seq(NR_TASKS, t => if t < n then FREE_QUEUE else NOWHERE)
    }

    /** `init_sched` */
    method InitSched()
      requires task.Length == NR_TASKS && semaphores.Length == NR_SEMS && queues.Valid() && mem.Valid()
      requires task as object !in {mem.refs as object, mem.pt, mem.phys, mem.ram, semaphores}
      requires semaphores as object !in {mem.refs as object, mem.pt, mem.phys, mem.ram}
      requires queues.live == {} && OnlyFree(0)
      modifies task, semaphores, queues, queues.node, mem.refs
      ensures Wired() && OnlyFree(NR_TASKS)
      ensures mem.M() == old(mem.M()).(refs := mem.M().refs) && mem.FirstCounted(mem.M().refs, 0)
      ensures forall t: Tid :: task[t] == old(task[t]).(pid := -1)
      ensures forall i: Slot :: semaphores[i] == old(semaphores[i]).(used := false, counter := 0)
    {
      hide OnlyFree, Linked, queues.Valid;
      NothingQueued();
      queues.Init(FREE_QUEUE);
      PushAll();
      NothingReady();
      queues.Init(READY_QUEUE);
      mem.ResetRefs();
      ResetSems();
    }

    /** The first loop of `init_sched`. */
    method PushAll()
      requires task.Length == NR_TASKS && queues.Valid() && queues.live == {FREE_QUEUE} && OnlyFree(0)
      modifies task, queues`q, queues`at, queues.node
      ensures queues.Valid() && OnlyFree(NR_TASKS)
      ensures forall t: Tid :: task[t] == old(task[t]).(pid := -1)
    {
      hide OnlyFree, Linked, queues.Valid;
      var t := 0;
      while t < NR_TASKS
        invariant 0 <= t <= NR_TASKS && queues.Valid() && OnlyFree(t)
        invariant forall u: Tid :: task[u] == if u < t then old(task[u]).(pid := -1) else old(task[u])
      {
        task[t] := task[t].(pid := -1);
        PushFree(t);
        t := t + 1;
      }
    }

    /** The last loop of `init_sched`. */
    method ResetSems()
      requires semaphores.Length == NR_SEMS
      modifies semaphores
      ensures forall i: Slot :: semaphores[i] == old(semaphores[i]).(used := false, counter := 0)
    {
      var i := 0;
      while i < NR_SEMS
        invariant 0 <= i <= NR_SEMS
        invariant forall j: Slot ::
                    semaphores[j] == if j < i then old(semaphores[j]).(used := false, counter := 0)
                        else old(semaphores[j])
      {
        semaphores[i] := semaphores[i].(counter := 0, used := false);
        i := i + 1;
      }
    }

    lemma NothingQueued()
      requires OnlyFree(0)
      ensures |queues.q| == NR_QUEUES && queues.q[FREE_QUEUE] == []
    {
    }

    lemma NothingReady()
      requires OnlyFree(NR_TASKS)
      ensures |queues.q| == NR_QUEUES && queues.q[READY_QUEUE] == []
    {
    }

    method PushFree(t: Tid)
      requires queues.Valid() && FREE_QUEUE in queues.live && OnlyFree(t)
      modifies queues`q, queues`at, queues.node
      ensures queues.Valid() && OnlyFree(t + 1)
    {
      hide Linked;
      queues.Add(t, FREE_QUEUE);
    }

    /** The task at the front of the free queue while n tasks are in it. */
    method TakeLast(ghost n: nat) returns (t: Tid)
      requires Wired() && 0 < n <= NR_TASKS && OnlyFree(n)
      modifies queues, queues.node
      ensures Wired() && OnlyFree(n - 1) && t == n - 1
    {
      hide Linked;
      t := queues.First(FREE_QUEUE);
      queues.Del(t);
      assert Down(n)[1..] == Down(n - 1);
    }

    /** `init_idle`; `allocate_DIR` gives it directory 0. */
    method InitIdle()
      requires Wired() && OnlyFree(NR_TASKS) && mem.FirstCounted(mem.M().refs, 0)
      modifies task, queues, queues.node, mem.refs
      ensures Wired() && OnlyFree(NR_TASKS - 1)
      ensures mem.M() == old(mem.M()).SetRefs(0, 2) && mem.FirstCounted(mem.M().refs, 1)
      ensures forall t: Tid ::
                task[t] == if t == IDLE
                           then old(task[t]).(pid := 0, quantum := DEFAULT_QUANTUM, stats := ZERO_STATS, dir := 0)
                           else old(task[t])
    {
      hide OnlyFree, Linked, queues.Valid;
      var t := TakeLast(NR_TASKS);
      task[t] := task[t].(pid := 0, quantum := DEFAULT_QUANTUM, stats := ZERO_STATS);
      var d := mem.TakeDir(0);
      task[t] := task[t].(dir := d);
    }

    /** The tables and frames that `init_mm` leaves. */
    static ghost predicate Unmapped(m: Mem) {
      && m.Wf()
      && (forall d: Dir, q: Page :: m.Entry(d, q) == BootEntry(0, q))
      && (forall f: Frame :: m.phys[f] == (f < NUM_PAG_KERNEL))
    }

    static lemma StillUnmapped(m: Mem, n: Mem)
      requires Unmapped(m) && n.Wf() && n.pt == m.pt && n.phys == m.phys
      ensures Unmapped(n)
    {
      assert forall d: Dir, q: Page :: n.Entry(d, q) == m.Entry(d, q);
    }

    /** `init_task1`; `allocate_DIR` gives it directory 1 and `set_user_pages` its frames, and it has the processor
        from now on. */
    method InitTask1()
      requires Wired() && OnlyFree(NR_TASKS - 1) && mem.FirstCounted(mem.M().refs, 1) && Unmapped(mem.M())
      modifies this`current, this`qLeft, task, queues, queues.node, mem`cr3, mem`tlb, mem.refs, mem.pt, mem.phys
      ensures Wired() && OnlyFree(NR_TASKS - 2) && current == INIT && qLeft == DEFAULT_QUANTUM
      ensures mem.M() == BootMem(mem.M().ram) && mem.cr3 == 1 && mem.Coherent()
      ensures forall t: Tid ::
                task[t] == if t == INIT
                           then old(task[t]).(pid := 1, quantum := DEFAULT_QUANTUM, estado := StRun,
                                              stats := ZERO_STATS, dir := 1)
                           else old(task[t])
    {
      hide OnlyFree, Linked, BootMem, Unmapped, queues.Valid;
      var t := TakeLast(NR_TASKS - 1);
      task[t] := task[t].(pid := 1, quantum := DEFAULT_QUANTUM, estado := StRun);
      qLeft := task[t].quantum;
      task[t] := task[t].(stats := ZERO_STATS);
      var d := MapInit();
      task[t] := task[t].(dir := d);
      current := t;
    }

    /** The memory part of `init_task1`. */
    method MapInit() returns (d: Dir)
      requires mem.Valid() && mem.FirstCounted(mem.M().refs, 1) && Unmapped(mem.M())
      modifies mem`cr3, mem`tlb, mem.refs, mem.pt, mem.phys
      ensures d == 1 && mem.M() == BootMem(mem.M().ram) && mem.cr3 == 1 && mem.Coherent()
    {
      hide mem.UserMapped, BootMem;
      ghost var tables := mem.M();
      d := mem.TakeDir(1);
      ghost var m := mem.M();
      StillUnmapped(tables, m);
      mem.SetUserPages(d);
      mem.BootedMemory(m, mem.M());
      mem.SetCr3(d);
    }

    /** These variables are the abstract boot state. */
    lemma BootState()
      requires Wired() && OnlyFree(NR_TASKS - 2)
      requires current == INIT && qLeft == DEFAULT_QUANTUM && incrementalPID == 2
      requires forall t: Tid :: task[t] == BootTask(t)
      requires forall i: Slot :: semaphores[i] == Sem(false, 0, 0, 0)
      ensures S() == Boot(now)
    {
      hide Linked;
      DownBoot();
      var s, b := S(), Boot(now);
      assert s.tasks == b.tasks && s.queues == b.queues && s.at == b.at && s.sems == b.sems;
    }

    static lemma DownBoot()
      ensures Down(NR_TASKS - 2) == [12, 11, 10, 9, 8, 7, 6, 5, 4, 3, 2, 1, 0]
    {
      DownAt(NR_TASKS - 2);
    }

    static lemma {:induction false} DownAt(n: nat)
      requires n <= NR_TASKS
      ensures |Down(n)| == n && forall k | 0 <= k < n :: Down(n)[k] == n - 1 - k
    {
      if n > 0 {
        DownAt(n - 1);
      }
    }

    // ---- sched.c ----

    /** `get_quantum` returns the quantum of the current task, whatever task it is asked about. */
    function GetQuantum(t: Tid): int
      requires Wired()
      reads this, queues, queues.node, task, semaphores
    {
      task[current].quantum
    }

    /** `list_del` of the node in a task. */
    method Unlink(t: Tid)
      requires Wired() && queues.at[t] != NOWHERE
      modifies queues`q, queues`at, queues.node
      ensures Wired() && 0 <= old(queues.at[t]) < NR_QUEUES && S() == old(S()).Unlink(t)
      ensures queues.at[t] == NOWHERE
    {
      InSomeQueue(t);
      hide Linked;
      queues.Del(t);
    }

    lemma InSomeQueue(t: Tid)
      requires Wired() && queues.at[t] != NOWHERE
      ensures 0 <= queues.at[t] < NR_QUEUES
    {
    }

    /** `update_process_state_rr` */
    method UpdateProcessState(t: Tid, dst: int)
      requires Wired() && (dst == NOWHERE || (0 <= dst < NR_QUEUES && dst in queues.live))
      requires task[t].estado == TagOf(queues.at[t])
      modifies task, queues, queues.node
      ensures Wired() && S() == UpdateState(old(S()), t, dst)
    {
      hide Linked;
      if task[t].estado != StRun {
        Unlink(t);
      }
      if dst == NOWHERE {
        task[t] := task[t].(estado := StRun);
      } else {
        queues.AddTail(t, dst);
        task[t] := task[t].(estado := if dst == READY_QUEUE then StReady else StBlocked);
      }
    }

    /** `exitRunCurrent` */
    method ExitRunCurrent(q: Queue, r: Reads)
      requires Wired() && q in queues.live
      requires task[current].estado == TagOf(queues.at[current])
      modifies task, queues, queues.node
      ensures Wired() && S() == SchedSpec.ExitRunCurrent(old(S()), q, r)
    {
      task[current] := task[current].(stats := ChargeSystem(task[current].stats, r));
      UpdateProcessState(current, q);
    }

    /** `task_switch`: the processor goes on with task t, in its address space. */
    method TaskSwitch(t: Tid)
      requires Wired()
      modifies this`current, mem`cr3, mem`tlb
      ensures Wired() && S() == old(S()).(current := t)
      ensures mem.cr3 == task[t].dir && mem.Coherent()
    {
      mem.SetCr3(task[t].dir);
      current := t;
    }

    /** `sched_next_rr` */
    method SchedNextRr(c: Clock)
      requires Wired() && LinkInv(S()) && !OnCpu(S())
      modifies this`current, this`qLeft, task, queues, queues.node, mem`cr3, mem`tlb
      ensures Wired() && S() == SchedNext(old(S()), c)
      ensures mem.cr3 == task[current].dir && mem.Coherent()
    {
      var none := queues.Empty(READY_QUEUE);
      if !none {
        var n := queues.First(READY_QUEUE);
        assert queues.at[n] == READY_QUEUE;
        qLeft := GetQuantum(n);
        task[n] := task[n].(stats := Dispatched(task[n].stats, c));
        UpdateProcessState(n, NOWHERE);
        TaskSwitch(n);
      } else {
        TaskSwitch(IDLE);
      }
    }

    /** `schedule`, after `update_sched_data_rr` and with `needs_sched_rr` inside */
    method Schedule(c: Clock)
      requires Valid()
      modifies this`current, this`qLeft, task, queues, queues.node, mem`cr3, mem`tlb
      ensures Valid() && S() == SchedSpec.Schedule(old(S()), c)
    {
      hide Linked, SchedNext, SchedSpec.ExitRunCurrent;
      ScheduleLinks(S(), c);
      qLeft := qLeft - 1;
      SameLinks(old(S()), S());
      var needed := NeedsSched();
      if needed {
        Rotate(c);
      }
    }

    /** The current task goes to the end of the ready queue and its head gets the processor. */
    method Rotate(c: Clock)
      requires Wired() && LinkInv(S()) && OnCpu(S())
      modifies this`current, this`qLeft, task, queues, queues.node, mem`cr3, mem`tlb
      ensures LinkInv(SchedSpec.ExitRunCurrent(old(S()), READY_QUEUE, c.off))
      ensures Wired() && S() == SchedNext(SchedSpec.ExitRunCurrent(old(S()), READY_QUEUE, c.off), c)
      ensures mem.cr3 == task[current].dir && mem.Coherent()
    {
      hide Linked, SchedNext;
      LeaveLinks(S(), READY_QUEUE, c.off);
      ExitRunCurrent(READY_QUEUE, c.off);
      SchedNextRr(c);
    }

    /** `needs_sched_rr` */
    method NeedsSched() returns (needed: bool)
      requires Wired()
      modifies this`qLeft, task
      ensures Wired() && needed == (queues.q[READY_QUEUE] != [] && old(qLeft) == 0)
      ensures S() == if queues.q[READY_QUEUE] == [] && old(qLeft) == 0
                     then var x := old(S()).Cur();
                          old(S()).SetTask(current,
                              x.(stats := x.stats.(trans := x.stats.trans + 1))).(qLeft := x.quantum)
                     else old(S())
    {
      var none := queues.Empty(READY_QUEUE);
      if !none && qLeft == 0 {
        return true;
      }
      if none && qLeft == 0 {
        task[current] := task[current].(stats := task[current].stats.(trans := task[current].stats.trans + 1));
        qLeft := GetQuantum(current);
      }
      needed := false;
    }

    method StatsEntrySys(r: Reads)
      requires Wired()
      modifies task
      ensures Wired() && S() == StatsEntry(old(S()), r)
      ensures task[current].dir == old(task[current].dir)
    {
      task[current] := task[current].(stats := ChargeUser(task[current].stats, r));
    }

    method StatsLeaveSys(r: Reads)
      requires Wired()
      modifies task
      ensures Wired() && S() == StatsLeave(old(S()), r)
      ensures task[current].dir == old(task[current].dir)
    {
      task[current] := task[current].(stats := ChargeSystem(task[current].stats, r));
    }

    /** `set_quantum` */
    method SetQuantum(q: int)
      requires Wired()
      modifies task
      ensures Wired() && S() == SchedSteps.SetQuantum(old(S()), q)
      ensures task[current].dir == old(task[current].dir)
    {
      task[current] := task[current].(quantum := q);
    }

    // ---- sys.c: processes ----

    /** The start of `sys_fork` and `sys_clone`: the first free task leaves its queue and becomes a copy of the
        caller; NOWHERE if there is none. */
    method TakeFree() returns (t: int)
      requires Valid()
      modifies task, queues, queues.node
      ensures Wired() && mem.cr3 == task[current].dir
      ensures (t == NOWHERE) == (old(S()).Free() == [])
      ensures t == NOWHERE ==> S() == old(S())
      ensures t != NOWHERE ==> t == old(S()).Free()[0] && S() == Lose(old(S()), old(S()).Cur().dir)
    {
      var none := queues.Empty(FREE_QUEUE);
      if none {
        return NOWHERE;
      }
      t := queues.First(FREE_QUEUE);
      assert queues.at[t] == FREE_QUEUE;
      queues.Del(t);
      task[t] := task[current];
    }

    /** The end of `allocate_DIR`: the new task uses directory d. */
    method SetDir(t: Tid, d: Dir, ghost s: Sched)
      requires Wired() && LinkInv(s) && OnCpu(s) && s.Free() != [] && t == s.Free()[0] && S() == Lose(s, s.Cur().dir)
      modifies task
      ensures Wired() && S() == Lose(s, d) && task[current] == old(task[current])
    {
      assert s.at[t] == FREE_QUEUE;
      task[t] := task[t].(dir := d);
    }

    /** The end of both: the new task gets its identifier and cleared statistics and joins the ready queue. */
    method Launch(t: Tid, ghost s: Sched, ghost d: Dir) returns (pid: int)
      requires Wired() && LinkInv(s) && OnCpu(s) && s.Free() != [] && t == s.Free()[0] && S() == Lose(s, d)
      modifies this`incrementalPID, task, queues, queues.node
      ensures Wired() && S() == Spawn(s, d) && pid == s.nextPid
      ensures task[current].dir == old(task[current].dir)
    {
      assert s.at[t] == FREE_QUEUE;
      task[t] := task[t].(pid := incrementalPID, estado := StReady, stats := ZERO_STATS);
      pid := incrementalPID;
      incrementalPID := incrementalPID + 1;
      queues.AddTail(t, READY_QUEUE);
    }

    /** `sys_fork`.  The ghost result says what it met; after NoFrames the TLB may hold window pages. */
    method SysFork() returns (r: int, ghost o: ForkOutcome)
      requires Valid() && SpaceInv(mem.M()) && UserDir(mem.M(), mem.cr3)
      modifies this`incrementalPID, task, queues, queues.node, mem`cr3, mem`tlb, mem.refs, mem.pt, mem.phys, mem.ram
      ensures Wired() && mem.cr3 == task[current].dir && (!o.NoFrames? ==> mem.Coherent())
      ensures o == ForkMeets(old(Abs())) && (o == NoTask <==> old(S()).Free() == [])
      ensures S() == Fork(old(S()), o)
      ensures mem.M() == MemStep(old(Abs()), ForkCall(o))
      ensures r == if o.Child? then old(incrementalPID) else -ENOMEM
      ensures r > 0 ==>
                && old(S()).Free() != []
                && task[old(S()).Free()[0]].pid == r
                && task[old(S()).Free()[0]].quantum == old(task[current].quantum)
      ensures r > 0 && Inv(old(S())) ==>
                var t := old(S()).Free()[0];
                Alive(S(), t) && forall x: Tid | Alive(S(), x) && x != t :: task[x].pid != r
    {
      hide SpaceInv, ForkMem, Lose, Spawn, Linked, LinkInv, queues.Valid;
      ghost var k := Abs();
      var t := TakeFree();
      if t == NOWHERE {
        return -ENOMEM, NoTask;
      }
      var d := mem.AllocateDir();
      if d == -1 {
        return -ENOMEM, NoDirectory;
      }
      r, o := ForkInto(t, d, k);
      Numbered(k.s, o);
    }

    /** The task that a successful fork makes, by the number it returns. */
    static lemma Numbered(s: Sched, o: ForkOutcome)
      requires LinkInv(s) && s.Free() != [] && o != NoTask
      ensures o.Child? ==>
                var u, t := Fork(s, o), s.Free()[0];
                && u.tasks[t].pid == s.nextPid && u.tasks[t].quantum == s.Cur().quantum
                && (Inv(s) ==> Alive(u, t) && forall x: Tid | Alive(u, x) && x != t :: u.tasks[x].pid != s.nextPid)
    {
      hide LinkInv, PidInv, SemInv, OwnerInv, Spawn;
      if o.Child? {
        NewNumber(s, o.dir);
        if Inv(s) {
          NewTask(s, o.dir);
        }
      }
    }

    /** The rest of `sys_fork`, with the free task t and directory d taken from state k. */
    method ForkInto(t: Tid, d: Dir, ghost k: K) returns (r: int, ghost o: ForkOutcome)
      requires LinkInv(k.s) && OnCpu(k.s)
      requires Wired() && mem.Coherent() && mem.cr3 == task[current].dir == k.s.Cur().dir
      requires k.s.Free() != [] && t == k.s.Free()[0] && S() == Lose(k.s, k.s.Cur().dir)
      requires SpaceInv(k.m) && UserDir(k.m, mem.cr3) && k.m.refs[d] == 0 && mem.M() == k.m.SetRefs(d, k.m.refs[d] + 1)
      modifies this`incrementalPID, task, queues, queues.node, mem`cr3, mem`tlb, mem.pt, mem.phys, mem.ram
      ensures Wired() && mem.cr3 == task[current].dir && (!o.NoFrames? ==> mem.Coherent())
      ensures o == if ForkMem(k.m, k.s.Cur().dir, d).ok then Child(d) else NoFrames(d)
      ensures S() == Fork(k.s, o)
      ensures mem.M() == ForkMem(k.m, k.s.Cur().dir, d).m
      ensures r == if o.Child? then k.s.nextPid else -ENOMEM
    {
      hide SpaceInv, ForkMem, Lose, Spawn, Linked, LinkInv;
      SetDir(t, d, k.s);
      var ok := ForkSpace(d, k.m);
      if !ok {
        return -ENOMEM, NoFrames(d);
      }
      r := Launch(t, k.s, d);
      o := Child(d);
    }

    /** The memory part of `sys_fork` after `allocate_DIR` has counted directory d. */
    method ForkSpace(d: Dir, ghost m: Mem) returns (ok: bool)
      requires Wired() && mem.Coherent() && SpaceInv(m) && UserDir(m, mem.cr3) && m.refs[d] == 0
      requires mem.M() == m.SetRefs(d, m.refs[d] + 1)
      modifies mem`cr3, mem`tlb, mem.pt, mem.phys, mem.ram
      ensures Wired() && mem.cr3 == old(mem.cr3)
      ensures Forked(mem.M(), ok) == ForkMem(m, mem.cr3, d)
      ensures ok ==> mem.Coherent()
    {
      hide SpaceInv, ForkPages, ShareEntries;
      DataMapped(m);
      mem.ShareSpace(d);
      ok := mem.CopySpace(d);
    }

    /** At rest the data pages of the running program are mapped and the window is empty. */
    lemma DataMapped(m: Mem)
      requires mem.Valid() && SpaceInv(m) && UserDir(m, mem.cr3) && mem.M().pt == m.pt
      ensures forall q: Page | PAG_LOG_INIT_DATA <= q < WINDOW :: mem.Here(q).present
      ensures forall q: Page | WINDOW <= q < WINDOW + NUM_PAG_DATA :: !mem.Here(q).present
    {
      forall q: Page | PAG_LOG_INIT_DATA <= q < WINDOW + NUM_PAG_DATA
        ensures mem.Here(q).present == (q < WINDOW)
      {
        assert mem.Here(q) == m.Entry(mem.cr3, q);
        if q < WINDOW {
          assert m.Data(mem.cr3, q - PAG_LOG_INIT_DATA).present;
        }
      }
    }

    /** `sys_clone`; `ok` says whether `access_ok` accepts the stack and the function. */
    method SysClone(ok: bool) returns (r: int)
      requires Valid()
      modifies this`incrementalPID, task, queues, queues.node, mem.refs
      ensures Wired() && mem.cr3 == task[current].dir && mem.Coherent()
      ensures S() == Clone(old(S()), ok)
      ensures mem.M() == MemStep(old(Abs()), CloneCall(ok))
      ensures r == if !ok then -EFAULT else if old(S()).Free() == [] then -ENOMEM else old(incrementalPID)
      ensures r > 0 ==>
                && old(S()).Free() != []
                && task[old(S()).Free()[0]].pid == r
                && task[old(S()).Free()[0]].quantum == old(task[current].quantum)
      ensures r > 0 && Inv(old(S())) ==>
                var t := old(S()).Free()[0];
                Alive(S(), t) && forall x: Tid | Alive(S(), x) && x != t :: task[x].pid != r
    {
      hide Lose, Spawn, Linked, queues.Valid;
      if !ok {
        return -EFAULT;
      }
      ghost var s := S();
      var t := TakeFree();
      if t == NOWHERE {
        return -ENOMEM;
      }
      r := Thread(t, s);
      Numbered(s, Child(s.Cur().dir));
    }

    /** The rest of `sys_clone`, with the free task t taken from state s. */
    method Thread(t: Tid, ghost s: Sched) returns (pid: int)
      requires Wired() && LinkInv(s) && OnCpu(s) && s.Free() != [] && t == s.Free()[0] && S() == Lose(s, s.Cur().dir)
      requires task[current].dir == s.Cur().dir
      modifies this`incrementalPID, task, queues, queues.node, mem.refs
      ensures Wired() && S() == Spawn(s, s.Cur().dir) && pid == s.nextPid
      ensures task[current].dir == old(task[current].dir)
      ensures mem.M() == old(mem.M()).SetRefs(s.Cur().dir, old(mem.M()).refs[s.Cur().dir] + 1)
    {
      hide Lose, Spawn, Linked, queues.Valid;
      mem.CountDir(task[current].dir, 1);
      pid := Launch(t, s, s.Cur().dir);
    }

    // ---- sys.c: semaphores ----

    /** `cerca_sem` */
    method CercaSem(n: int) returns (i: int)
      requires Wired()
      ensures i == FindSem(semaphores[..], n, 0)
    {
      i := 0;
      while i < NR_SEMS
        invariant 0 <= i <= NR_SEMS
        invariant FindSem(semaphores[..], n, 0) == FindSem(semaphores[..], n, i)
      {
        if semaphores[i].nSem == n && semaphores[i].used {
          return;
        }
        i := i + 1;
      }
      i := -1;
    }

    /** `cerca_sem_lliure` */
    method CercaSemLliure() returns (i: int)
      requires Wired()
      ensures i == FindFreeSem(semaphores[..], 0)
    {
      i := 0;
      while i < NR_SEMS
        invariant 0 <= i <= NR_SEMS
        invariant FindFreeSem(semaphores[..], 0) == FindFreeSem(semaphores[..], i)
      {
        if !semaphores[i].used {
          return;
        }
        i := i + 1;
      }
      i := -1;
    }

    /** `sys_sem_init`; the C code writes outside the table when no slot is free. */
    method SysSemInit(n: int, value: int) returns (r: int)
      requires Valid() && (FindSem(semaphores[..], n, 0) == -1 ==> FindFreeSem(semaphores[..], 0) != -1)
      modifies semaphores, queues`live, queues.node
      ensures Wired() && S() == SemInit(old(S()), n, value)
      ensures r == if FindSem(old(semaphores[..]), n, 0) != -1 then -EBUSY else 0
      ensures r == 0 && 0 <= value < 0x1_0000_0000 ==>
                var i := FindSem(semaphores[..], n, 0);
                && i != -1 && semaphores[i].owner == task[current].pid
                && -0x8000_0000 <= semaphores[i].counter < 0x8000_0000
                && (semaphores[i].counter - value) % 0x1_0000_0000 == 0
    {
      var used := CercaSem(n);
      if used != -1 {
        return -EBUSY;
      }
      var i := CercaSemLliure();
      assert S().Blocked(i) == [];
      semaphores[i] := Sem(true, n, task[current].pid, ToSigned(value));
      queues.Init(SemQueue(i));
      r := 0;
    }

    /** `sys_sem_destroy` */
    method SysSemDestroy(n: int) returns (r: int)
      requires Wired() && LinkInv(S())
      modifies task, semaphores, queues, queues.node
      ensures Wired() && S() == SemDestroy(old(S()), n)
      ensures task[current].dir == old(task[current].dir)
      ensures r == var i := FindSem(old(semaphores[..]), n, 0);
                   if i == -1 then -EINVAL else if old(semaphores[i].owner) != old(task[current].pid) then -EPERM else 0
    {
      var i := CercaSem(n);
      if i == -1 {
        return -EINVAL;
      }
      if semaphores[i].owner != task[current].pid {
        return -EPERM;
      }
      ReleaseAll(i);
      semaphores[i] := semaphores[i].(used := false, nSem := -1, owner := 0);
      r := 0;
    }

    /** The loop of `sys_sem_destroy`, task by task; together, `WakeAll`. */
    method ReleaseAll(i: Slot)
      requires Wired() && LinkInv(S()) && semaphores[i].used
      modifies task, queues, queues.node
      ensures Wired() && S() == WakeAll(old(S()), i)
      ensures task[current].dir == old(task[current].dir)
    {
      hide WakeSome, LinkInv;
      ghost var s := S();
      ghost var n := 0;
      WakeNone(s, i);
      var done := queues.Empty(SemQueue(i));
      while !done
        invariant Wired() && semaphores[i].used
        invariant n <= |s.Blocked(i)| && S() == WakeSome(s, i, n)
        invariant done == (n == |s.Blocked(i)|)
        decreases |s.Blocked(i)| - n
      {
        ReleaseNext(i, s, n);
        n := n + 1;
        WakeRest(s, i, n);
        done := queues.Empty(SemQueue(i));
      }
      WakeEvery(s, i);
    }

    /** One turn of that loop, when n of the tasks that state s has blocked on slot i are released. */
    method ReleaseNext(i: Slot, ghost s: Sched, ghost n: nat)
      requires Wired() && semaphores[i].used
      requires LinkInv(s) && n < |s.Blocked(i)| && S() == WakeSome(s, i, n)
      modifies task, queues, queues.node
      ensures Wired() && semaphores[i].used && S() == WakeSome(s, i, n + 1)
    {
      hide WakeSome, LinkInv, Linked, UpdateState;
      WakeNext(s, i, n);
      var t := queues.First(SemQueue(i));
      task[t] := task[t].(semRet := -1);
      UpdateProcessState(t, READY_QUEUE);
    }

    /** `sys_sem_signal` */
    method SysSemSignal(n: int) returns (r: int)
      requires Wired() && LinkInv(S())
      modifies task, semaphores, queues, queues.node
      ensures Wired() && S() == SemSignal(old(S()), n)
      ensures task[current].dir == old(task[current].dir)
      ensures r == if FindSem(old(semaphores[..]), n, 0) == -1 then -EINVAL else 0
    {
      hide Linked, queues.Valid;
      var i := CercaSem(n);
      if i == -1 {
        return -EINVAL;
      }
      var none := queues.Empty(SemQueue(i));
      if none {
        semaphores[i] := semaphores[i].(counter := semaphores[i].counter + 1);
      } else {
        var t := queues.First(SemQueue(i));
        WakeFirst(S(), i);
        UpdateProcessState(t, READY_QUEUE);
      }
      r := 0;
    }

    /** `sys_sem_wait`: either the call returns r, or the task blocks and another one has the processor; the call
        then returns `sem_ret` when the task runs again. */
    method SysSemWait(n: int, c: Clock) returns (blocks: bool, r: int)
      requires Valid() && current != IDLE
      modifies this`current, this`qLeft, task, semaphores, queues, queues.node, mem`cr3, mem`tlb
      ensures Wired() && S() == SemWait(old(S()), n, c)
      ensures mem.cr3 == task[current].dir && mem.Coherent()
      ensures blocks == Blocks(old(S()), n)
      ensures !blocks ==> r == if FindSem(old(semaphores[..]), n, 0) == -1 then -EINVAL else 0
    {
      hide Linked, queues.Valid;
      var i := CercaSem(n);
      if i == -1 {
        return false, -EINVAL;
      }
      if semaphores[i].counter <= 0 {
        Block(i, c);
        return true, 0;
      }
      task[current] := task[current].(semRet := 0);
      semaphores[i] := semaphores[i].(counter := semaphores[i].counter - 1);
      return false, 0;
    }

    /** The caller blocks on slot i and another task gets the processor. */
    method Block(i: Slot, c: Clock)
      requires Valid() && current != IDLE && semaphores[i].used
      modifies this`current, this`qLeft, task, queues, queues.node, mem`cr3, mem`tlb
      ensures Wired() && mem.cr3 == task[current].dir && mem.Coherent()
      ensures var u := old(S()).SetTask(old(current), old(S()).Cur().(semRet := 0));
              u.Cur().estado == StRun
              && (var v := SchedSpec.ExitRunCurrent(u, SemQueue(i), c.off); LinkInv(v) && S() == SchedNext(v, c))
    {
      hide Linked;
      ghost var s := S();
      task[current] := task[current].(semRet := 0);
      SameLinks(s, S());
      LeaveLinks(S(), SemQueue(i), c.off);
      ExitRunCurrent(SemQueue(i), c.off);
      SchedNextRr(c);
    }

    // ---- sys_exit ----

    /** `sys_exit`, with one insertion into the free queue (see `Lists.AppendTwice` for the other). */
    method SysExit(c: Clock)
      requires Valid() && current != IDLE
      modifies this`current, this`qLeft, task, semaphores, queues, queues.node,
               mem`cr3, mem`tlb, mem.refs, mem.pt, mem.phys
      ensures Wired() && S() == Exit(old(S()), c)
      ensures mem.M() == ExitMem(old(mem.M()), old(task[current].dir))
      ensures mem.cr3 == task[current].dir && mem.Coherent()
    {
      hide Linked, SchedNext, DestroyOwned, UpdateState, ExitMem;
      ghost var s := S();
      mem.DropDir(task[current].dir);
      DestroyOwn();
      DestroyOwnedLinks(s, s.Cur().pid, 0);
      task[current] := task[current].(pid := -1);
      UpdateProcessState(current, FREE_QUEUE);
      VacateLinks(s);
      SchedNextRr(c);
    }

    /** The loop of `sys_exit` over the semaphore table. */
    method DestroyOwn()
      requires Wired() && LinkInv(S())
      modifies task, semaphores, queues, queues.node
      ensures Wired() && S() == DestroyOwned(old(S()), old(S()).Cur().pid, 0)
    {
      hide Linked, LinkInv, SemDestroy;
      ghost var s := S();
      ghost var pid := s.Cur().pid;
      var i := 0;
      while i < NR_SEMS
        invariant 0 <= i <= NR_SEMS && Wired() && LinkInv(S()) && task[current].pid == pid
        invariant DestroyOwned(s, pid, 0) == DestroyOwned(S(), pid, i)
      {
        if semaphores[i].owner == task[current].pid {
          SemDestroyLinks(S(), semaphores[i].nSem);
          DestroyKeepsCaller(S(), semaphores[i].nSem);
          var r := SysSemDestroy(semaphores[i].nSem);
        }
        i := i + 1;
      }
    }

    lemma DestroyKeepsCaller(s: Sched, n: int)
      requires LinkInv(s)
      ensures SemDestroy(s, n).Cur().pid == s.Cur().pid && SemDestroy(s, n).current == s.current
    {
    }

    // ---- One kernel entry ----

    /** The body of system call e. */
    method SystemCall(e: Event, c: Clock)
      requires Valid() && Enabled(S(), e) && e != ClockTick
      requires e.ForkCall? ==>
                 SpaceInv(mem.M()) && UserDir(mem.M(), mem.cr3) && e.outcome == ForkMeets(Abs()) && !e.outcome.NoFrames?
      modifies this, task, semaphores, queues, queues.node, mem, mem.refs, mem.pt, mem.phys, mem.ram
      ensures Wired() && S() == Body(old(S()), e, c)
      ensures mem.M() == MemStep(old(Abs()), e)
      ensures mem.cr3 == task[current].dir && mem.Coherent()
    {
      hide Fork, Clone, Exit, SemInit, SemDestroy, SemWait, SemSignal, SchedSteps.SetQuantum, ForkMem, ExitMem;
      hide SpaceInv, ForkMeets, Linked, LinkInv, Enabled;
      if e.ForkCall? {
        var r, met := SysFork();
      } else if e.CloneCall? {
        var r := SysClone(e.ok);
      } else if e.ExitCall? {
        ExitIsNotIdle(S(), e);
        SysExit(c);
      } else if e.SetQuantumCall? {
        SetQuantum(e.q);
      } else if !e.Quiet? {
        SemaphoreCall(e, c);
      }
    }

    lemma ExitIsNotIdle(s: Sched, e: Event)
      requires s.Wf() && Enabled(s, e) && e == ExitCall
      ensures s.current != IDLE
    {
    }

    method SemaphoreCall(e: Event, c: Clock)
      requires Valid() && Enabled(S(), e)
      requires e.SemInitCall? || e.SemDestroyCall? || e.SemWaitCall? || e.SemSignalCall?
      modifies this`current, this`qLeft, task, semaphores, queues, queues.node, mem`cr3, mem`tlb
      ensures Wired() && S() == Body(old(S()), e, c)
      ensures mem.cr3 == task[current].dir && mem.Coherent()
    {
      hide SemInit, SemDestroy, SemWait, SemSignal, Linked, LinkInv;
      match e
      case SemInitCall(n, v) =>
        var r := SysSemInit(n, v);
      case SemDestroyCall(n) =>
        var r := SysSemDestroy(n);
      case SemWaitCall(n) =>
        var blocks, r := SysSemWait(n, c);
      case SemSignalCall(n) =>
        var r := SysSemSignal(n);
    }

    /** One step of the machine: the clock interrupt or a system call with its accounting, or a store of the
        running program.  The kernel does what the abstract machine does, and leaves no stale translation behind. */
    method Step(ev: KEvent)
      requires Valid() && KInv(Abs()) && KEnabled(Abs(), ev)
      modifies this, task, semaphores, queues, queues.node, mem, mem.refs, mem.pt, mem.phys, mem.ram
      ensures Valid() && KInv(Abs()) && Abs() == KStep(old(Abs()), ev)
    {
      KStepInv(Abs(), ev);
      match ev
      case Store(j, o, b) =>
        LiveDirInUse(Abs(), current);
        DataMapped(mem.M());
        mem.Store(j, o, b);
      case Kernel(d) =>
        Enter(d);
    }

    /** A whole run: the kernel follows the abstract machine from any state, so every property of its runs, such as
        isolation, private memory and bounded waiting, is one of these variables. */
    method Run(tr: seq<KEvent>)
      requires Valid() && KInv(Abs()) && KCanRun(Abs(), tr)
      modifies this, task, semaphores, queues, queues.node, mem, mem.refs, mem.pt, mem.phys, mem.ram
      ensures Valid() && KInv(Abs()) && Abs() == KRun(old(Abs()), tr)
      decreases |tr|
    {
      hide KInv, KEnabled, KStep, LinkInv;
      if tr != [] {
        Step(tr[0]);
        Run(tr[1..]);
      }
    }

    /** A caller of system calls has a directory in use, and `sys_fork` never runs out of frames. */
    lemma CallerReady(k: K, e: Event)
      requires KInv(k)
      ensures k.s.current != IDLE ==>
                UserDir(k.m, k.s.Cur().dir) && !ForkMeets(k).NoFrames?
    {
      if k.s.current != IDLE {
        LiveDirInUse(k, k.s.current);
        ForkOutcomes(k);
      }
    }

    method Enter(d: Do)
      requires Valid() && KInv(Abs()) && KEnabled(Abs(), KEvent.Kernel(d))
      modifies this, task, semaphores, queues, queues.node, mem, mem.refs, mem.pt, mem.phys, mem.ram
      ensures Valid() && Abs() == KStep(old(Abs()), KEvent.Kernel(d))
    {
      hide LinkInv, PidInv, SemInv, OwnerInv, SpaceInv, IdleDirInv, RefInv;
      hide SchedSpec.Schedule, Body, MemStep, ForkMeets, StatsEntry, Leave, Linked, queues.Valid;
      ghost var k := Abs();
      var parked := task[IDLE].estado == StRun && current != IDLE;
      Parked(k.s);
      CallerReady(k, d.e);
      StatsEntrySys(d.c.entry);
      StepForm(k.s, d);
      AfterEntry(k, S(), d.e);
      StepBodyLinks(S(), d.e, d.c);
      Work(d);
      LeaveKernel(d.e, parked, d.c.leave, StatsEntry(k.s, d.c.entry));
      now := d.c.leave.second;
      StepLinks(k.s, d);
    }

    /** `statsLeaveSys`, unless the idle task has just started or the call's number was out of range. */
    method LeaveKernel(e: Event, parked: bool, r: Reads, ghost u: Sched)
      requires Wired() && u.Wf() && parked == (u.at[IDLE] == NOWHERE && u.current != IDLE)
      modifies task
      ensures Wired() && S() == Leave(e, u, old(S()), r)
      ensures task[current].dir == old(task[current].dir)
    {
      hide Linked, StatsLeave;
      if e != Quiet(BadNumber) && !(parked && current == IDLE) {
        StatsLeaveSys(r);
      }
    }

    /** Between `statsEntrySys` and `statsLeaveSys`. */
    method Work(d: Do)
      requires Valid() && Enabled(S(), d.e)
      requires d.e.ForkCall? ==>
                 SpaceInv(mem.M()) && UserDir(mem.M(), mem.cr3) &&
                     d.e.outcome == ForkMeets(Abs()) && !d.e.outcome.NoFrames?
      modifies this, task, semaphores, queues, queues.node, mem, mem.refs, mem.pt, mem.phys, mem.ram
      ensures Wired() && S() == if d.e == ClockTick then SchedSpec.Schedule(old(S()), d.c) else Body(old(S()), d.e, d.c)
      ensures mem.M() == MemStep(old(Abs()), d.e)
      ensures mem.cr3 == task[current].dir && mem.Coherent()
    {
      hide LinkInv, SpaceInv, SchedSpec.Schedule, Body, ForkMeets;
      if d.e == ClockTick {
        Schedule(d.c);
      } else {
        SystemCall(d.e, d.c);
      }
    }

    /** An idle task that is not running is parked exactly if its tag says "running". */
    lemma Parked(s: Sched)
      requires LinkInv(s)
      ensures s.tasks[IDLE].estado == StRun <==> s.at[IDLE] == NOWHERE
    {
    }

    /** `statsEntrySys` changes nothing that memory or `sys_fork` looks at. */
    lemma AfterEntry(k: K, s: Sched, e: Event)
      requires k.s.Wf() && k.m.Wf() && OnlyStats(k.s, s)
      ensures ForkMeets(K(s, k.m)) == ForkMeets(k) && MemStep(K(s, k.m), e) == MemStep(k, e)
    {
      hide ForkMem, ExitMem, FirstDir;
    }
  }

  // ---- Waking in turn ----

  /** The first n tasks blocked on slot i have gone to the end of the ready queue with result -1. */
  ghost function WakeSome(s: Sched, i: Slot, n: nat): (after: Sched)
    requires s.Wf() && n <= |s.Blocked(i)|
    ensures after.Wf()
  {
    var w := s.Blocked(i);
    s.(tasks := seq(NR_TASKS, t requires 0 <= t < NR_TASKS =>
                    if t in w[..n] then s.tasks[t].(semRet := -1, estado := StReady) else s.tasks[t]),
       queues := s.queues[READY_QUEUE := s.Ready() + w[..n]][SemQueue(i) := w[n..]],
       at := seq(NR_TASKS, t requires 0 <= t < NR_TASKS => if t in w[..n] then READY_QUEUE else s.at[t]))
  }

  lemma WakeNone(s: Sched, i: Slot)
    requires s.Wf()
    ensures WakeSome(s, i, 0) == s
  {
    var w := s.Blocked(i);
    assert w[..0] == [] && w[0..] == w && s.Ready() + [] == s.Ready();
    var u := WakeSome(s, i, 0);
    assert u.tasks == s.tasks && u.at == s.at && u.queues == s.queues;
  }

  lemma WakeEvery(s: Sched, i: Slot)
    requires s.Wf()
    ensures WakeSome(s, i, |s.Blocked(i)|) == WakeAll(s, i)
  {
    var w := s.Blocked(i);
    assert w[..|w|] == w && w[|w|..] == [];
  }

  lemma WakeRest(s: Sched, i: Slot, n: nat)
    requires s.Wf() && n <= |s.Blocked(i)|
    ensures WakeSome(s, i, n).Blocked(i) == s.Blocked(i)[n..]
    ensures WakeSome(s, i, n).sems == s.sems
  {
  }

  /** One turn of the loop. */
  lemma WakeNext(s: Sched, i: Slot, n: nat)
    requires LinkInv(s) && n < |s.Blocked(i)|
    ensures var u := WakeSome(s, i, n);
            var t := s.Blocked(i)[n];
            && u.Blocked(i) != [] && u.Blocked(i)[0] == t &&
                u.tasks[t].estado == TagOf(u.at[t]) && u.at[t] == SemQueue(i)
            && UpdateState(u.SetTask(t, u.tasks[t].(semRet := -1)), t, READY_QUEUE) == WakeSome(s, i, n + 1)
  {
    var w := s.Blocked(i);
    var t := w[n];
    var u := WakeSome(s, i, n);
    assert s.at[t] == SemQueue(i);
    assert t !in w[..n];
    assert w[..n + 1] == w[..n] + [t];
    Associative(s.Ready(), w[..n], [t]);
    var v := UpdateState(u.SetTask(t, u.tasks[t].(semRet := -1)), t, READY_QUEUE);
    var v' := WakeSome(s, i, n + 1);
    assert Without(w[n..], t) == w[n + 1..];
    assert v.queues == v'.queues;
    assert v.tasks == v'.tasks;
    assert v.at == v'.at;
  }
}
