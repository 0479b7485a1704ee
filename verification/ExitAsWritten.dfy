/** `sys_exit` as written, with both insertions into the free queue, on the variables of the kernel.

    The class `Kernel` makes the second insertion only.  Here is what the code does instead, from any state between
    kernel entries: it leaves a free queue that is no list. */
module ExitAsWritten {
  import opened Lists
  import opened SchedSpec
  import opened SchedSteps
  import opened SchedInv
  import opened Queues
  import opened MemSpec
  import opened Machine
  import opened KernelObject

  /** Destroying semaphores leaves the caller and the free queue alone once the caller is in that queue. */
  lemma {:induction false} DestroyKeepsFree(s: Sched, pid: int, i: nat)
    requires LinkInv(s) && s.at[s.current] == FREE_QUEUE && i <= NR_SEMS
    ensures var u := DestroyOwned(s, pid, i);
            u.Free() == s.Free() && u.Cur() == s.Cur() && u.at[u.current] == FREE_QUEUE
    decreases NR_SEMS - i
  {
    if i < NR_SEMS {
      var u := if s.sems[i].owner == pid then SemDestroy(s, s.sems[i].nSem) else s;
      if s.sems[i].owner == pid {
        SemDestroyLinks(s, s.sems[i].nSem);
        OneKeepsFree(s, s.sems[i].nSem);
      }
      DestroyKeepsFree(u, pid, i + 1);
    }
  }

  lemma OneKeepsFree(s: Sched, n: int)
    requires LinkInv(s) && s.at[s.current] == FREE_QUEUE
    ensures var u := SemDestroy(s, n);
            u.Free() == s.Free() && u.Cur() == s.Cur() && u.at[u.current] == FREE_QUEUE && u.current == s.current
  {
    var i := FindSem(s.sems, n, 0);
    if i != -1 {
      AtIsMembership(s, s.current, SemQueue(i));
    }
    hide LinkInv;
  }

  /** Destroying semaphores does the same to the other queues whether or not the caller is in the free queue. */
  lemma OneBeside(s: Sched, n: int)
    requires LinkInv(s) && OnCpu(s)
    ensures LinkInv(SemDestroy(s, n)) && OnCpu(SemDestroy(s, n)) && SemDestroy(s, n).current == s.current
    ensures SemDestroy(s.Enqueue(s.current, FREE_QUEUE), n) == SemDestroy(s, n).Enqueue(s.current, FREE_QUEUE)
  {
    SemDestroyLinks(s, n);
    var u := s.Enqueue(s.current, FREE_QUEUE);
    var i := FindSem(s.sems, n, 0);
    if i != -1 {
      AtIsMembership(s, s.current, SemQueue(i));
      hide LinkInv, FindSem;
      var v, w := WakeAll(u, i), WakeAll(s, i).Enqueue(s.current, FREE_QUEUE);
      assert v.tasks == w.tasks && v.queues == w.queues && v.at == w.at;
    }
  }

  lemma {:induction false} DestroyBeside(s: Sched, pid: int, i: nat)
    requires LinkInv(s) && OnCpu(s) && i <= NR_SEMS
    ensures DestroyOwned(s.Enqueue(s.current, FREE_QUEUE), pid, i).Ready() == DestroyOwned(s, pid, i).Ready()
    decreases NR_SEMS - i
  {
    if i < NR_SEMS {
      if s.sems[i].owner == pid {
        OneBeside(s, s.sems[i].nSem);
        DestroyBeside(SemDestroy(s, s.sems[i].nSem), pid, i + 1);
      } else {
        DestroyBeside(s, pid, i + 1);
      }
    } else {
      hide LinkInv;
    }
  }

  /** Who runs after an exit, and who is ready, by the queue that the destroyed semaphores leave. */
  lemma ExitByReady(s: Sched, c: Clock)
    requires LinkInv(s) && OnCpu(s) && s.current != IDLE
    ensures var r := DestroyOwned(s, s.Cur().pid, 0).Ready();
            && Exit(s, c).current == (if r == [] then IDLE else r[0])
            && Exit(s, c).Ready() == if r == [] then [] else r[1..]
  {
    VacateLinks(s);
    VacateReady(s);
    NextForm(Vacate(s), c);
    hide LinkInv, Vacate, SchedNext, DestroyOwned;
  }

  lemma VacateReady(s: Sched)
    requires LinkInv(s) && OnCpu(s) && s.current != IDLE
    ensures Vacate(s).Ready() == DestroyOwned(s, s.Cur().pid, 0).Ready()
  {
    DestroyOwnedLinks(s, s.Cur().pid, 0);
    hide Linked, DestroyOwned;
  }

  /** The first insertion: the task is in the free queue with its tag still "running". */
  lemma FirstInsertion(s: Sched)
    requires LinkInv(s) && OnCpu(s) && s.current != IDLE
    ensures s.Cur().estado == StRun
    ensures var u := s.Enqueue(s.current, FREE_QUEUE);
            LinkInv(u) && u.Cur() == s.Cur() && u.Free() == s.Free() + [s.current] && u.at[u.current] == FREE_QUEUE
  {
    EnqueueKeeps(s.queues, s.at, s.current, FREE_QUEUE);
    hide Linked;
  }

  /** Both insertions, with the destruction of the semaphores between them. */
  method Leave(k: Kernel)
    requires k.Wired() && LinkInv(k.S()) && OnCpu(k.S()) && k.current != IDLE
    modifies k.task, k.semaphores, k.queues, k.queues.node
    ensures k.queues.Fixed() && |k.queues.q| == NR_QUEUES && k.task.Length == NR_TASKS && READY_QUEUE in k.queues.live
    ensures Linked(k.queues.q, k.queues.at) && k.queues.at[k.current] == FREE_QUEUE
    ensures k.queues.q[FREE_QUEUE] == old(k.S()).Free() + [k.current]
    ensures Knotted(k.queues.Head(FREE_QUEUE), k.queues.Anchors(old(k.S()).Free()), k.queues.node[k.current])
    ensures Ring(k.queues.Head(READY_QUEUE), k.queues.Anchors(k.queues.q[READY_QUEUE]))
    ensures k.queues.q[READY_QUEUE] == DestroyOwned(old(k.S()), old(k.S()).Cur().pid, 0).Ready()
  {
    hide DestroyOwned, Knotted;
    var me := k.current;
    ghost var s := k.S();
    FirstInsertion(s);
    k.queues.AddTail(me, FREE_QUEUE);
    ghost var u := k.S();
    assert u == s.Enqueue(me, FREE_QUEUE);
    k.DestroyOwn();
    DestroyKeepsFree(u, u.Cur().pid, 0);
    DestroyBeside(s, s.Cur().pid, 0);
    k.task[me] := k.task[me].(pid := -1);
    // update_process_state_rr: the tag is still "running", so there is no list_del
    assert k.task[me].estado == StRun;
    assert s.Free() + [me] == k.queues.q[FREE_QUEUE] && (s.Free() + [me])[..|s.Free()|] == s.Free();
    k.queues.AddTailAgain(me, FREE_QUEUE);
    k.task[me] := k.task[me].(estado := StBlocked);
  }

  /** `sched_next_rr` while the free queue is knotted: it goes by the ready queue only. */
  method Dispatch(k: Kernel, c: Clock, ghost s: seq<Tid>, me: Tid)
    requires k.queues.Fixed() && |k.queues.q| == NR_QUEUES && k.task.Length == NR_TASKS && k.mem.Valid()
    requires Linked(k.queues.q, k.queues.at) && k.queues.q[FREE_QUEUE] == s + [me]
    requires Knotted(k.queues.Head(FREE_QUEUE), k.queues.Anchors(s), k.queues.node[me])
    requires Ring(k.queues.Head(READY_QUEUE), k.queues.Anchors(k.queues.q[READY_QUEUE]))
    modifies k`current, k`qLeft, k.task, k.queues.node, k.mem`cr3, k.mem`tlb
    ensures k.task.Length == NR_TASKS
    ensures var r := k.queues.q[READY_QUEUE];
            && k.current == (if r == [] then IDLE else r[0])
            && After(k, s, me, if r == [] then [] else r[1..])
  {
    hide Knotted;
    ghost var ready := k.queues.Anchors(k.queues.q[READY_QUEUE]);
    Apart(k.queues, s, me);
    var none := ListEmpty(k.queues.Head(READY_QUEUE), ready);
    if none {
      k.current := IDLE;
    } else {
      var n := ListFirst(k.queues.Head(READY_QUEUE), ready);
      assert n == k.queues.node[k.queues.q[READY_QUEUE][0]];
      var t := n.owner;
      k.qLeft := k.task[k.current].quantum;
      k.task[t] := k.task[t].(stats := Dispatched(k.task[t].stats, c), estado := StRun);
      DelFirstBeside(n, k.queues.Head(READY_QUEUE), ready,
                     k.queues.Head(FREE_QUEUE), k.queues.node[me], k.queues.Anchors(s));
      assert ready[1..] == k.queues.Anchors(k.queues.q[READY_QUEUE][1..]);
      k.current := t;
    }
    k.mem.SetCr3(k.task[k.current].dir);
  }

  /** The state of the queues after an exit as written: the free queue `s` knotted at task `me`, the ready queue `r`
      a list, and no node in both. */
  ghost predicate After(k: Kernel, s: seq<Tid>, me: Tid, r: seq<Tid>)
    reads k.queues.node
  {
    && k.queues.Fixed()
    && Knotted(k.queues.Head(FREE_QUEUE), k.queues.Anchors(s), k.queues.node[me])
    && Ring(k.queues.Head(READY_QUEUE), k.queues.Anchors(r))
    && Separate(k.queues.Head(FREE_QUEUE), k.queues.node[me], k.queues.Anchors(s),
                k.queues.Head(READY_QUEUE), k.queues.Anchors(r))
  }

  lemma Apart(q: QueueTable, s: seq<Tid>, me: Tid)
    requires q.Fixed() && Linked(q.q, q.at) && q.q[FREE_QUEUE] == s + [me]
    ensures Separate(q.Head(FREE_QUEUE), q.node[me], q.Anchors(s), q.Head(READY_QUEUE), q.Anchors(q.q[READY_QUEUE]))
    ensures var r := q.q[READY_QUEUE];
            r != [] ==> Separate(q.Head(FREE_QUEUE), q.node[me], q.Anchors(s), q.Head(READY_QUEUE), q.Anchors(r[1..]))
  {
    var nodes := q.Anchors(s + [me]);
    assert nodes == q.Anchors(s) + [q.node[me]];
    q.Apart(READY_QUEUE, FREE_QUEUE);
    hide Linked;
    assert q.node[me] in nodes && forall x | x in q.Anchors(s) :: x in nodes;
    var r := q.q[READY_QUEUE];
    assert r != [] ==> q.Anchors(r[1..]) == q.Anchors(r)[1..];
  }

  /** `sys_exit` as written.  The same task runs next and the same tasks are ready as with one insertion; but the
      free queue is knotted, for any sequence of tasks that was in it. */
  method SysExit(k: Kernel, c: Clock)
    requires k.Valid() && k.current != IDLE
    modifies k`current, k`qLeft, k.task, k.semaphores, k.queues, k.queues.node,
             k.mem`cr3, k.mem`tlb, k.mem.refs, k.mem.pt, k.mem.phys
    ensures k.task.Length == NR_TASKS && k.current == SchedSpec.Exit(old(k.S()), c).current
    ensures After(k, old(k.S()).Free(), old(k.current), SchedSpec.Exit(old(k.S()), c).Ready())
  {
    hide Linked, LinkInv, Knotted, Ring, ExitMem, SchedSpec.Exit, DestroyOwned;
    var me := k.current;
    ghost var s := k.S();
    ExitByReady(s, c);
    k.mem.DropDir(k.task[me].dir);
    Leave(k);
    Dispatch(k, c, s.Free(), me);
  }

  /** An exit and then a series of forks, each of which may be refused a directory or frames: they get the tasks that
      were free, and from then on the exited task every time, until one of these is refused. */
  method ExitThenForks(k: Kernel, c: Clock, accept: seq<bool>) returns (taken: seq<int>)
    requires k.Valid() && k.current != IDLE
    modifies k`current, k`qLeft, k.task, k.semaphores, k.queues, k.queues.node,
             k.mem`cr3, k.mem`tlb, k.mem.refs, k.mem.pt, k.mem.phys
    ensures |taken| == Made(|old(k.S()).Free()|, accept)
    ensures var free := old(k.S()).Free();
            forall i | 0 <= i < |taken| :: taken[i] == if i < |free| then free[i] else old(k.current)
    ensures |taken| < |accept| ==> k.queues.node[old(k.current)].next == null
  {
    hide LinkInv, Linked, Knotted, Ring, Separate, SchedSpec.Exit;
    var me := k.current;
    ghost var free := k.S().Free();
    ghost var ready := SchedSpec.Exit(k.S(), c).Ready();
    SysExit(k, c);
    ghost var s := k.queues.Anchors(free);
    var nodes := ForksAfterExit(k.queues.Head(FREE_QUEUE), k.queues.node[me], s,
                                k.queues.Head(READY_QUEUE), k.queues.Anchors(ready), accept);
    taken := seq(|nodes|, i requires 0 <= i < |nodes| => nodes[i].owner);
  }

  /** One step of the kernel as written.  The free queue is a list afterwards if and only if the step is not an
      exit. */
  method Step(k: Kernel, ev: KEvent)
    requires k.Valid() && KInv(k.Abs()) && KEnabled(k.Abs(), ev)
    modifies k, k.task, k.semaphores, k.queues, k.queues.node, k.mem, k.mem.refs, k.mem.pt, k.mem.phys, k.mem.ram
    ensures k.queues.Fixed()
    ensures (exists s: seq<ListHead> :: Ring(k.queues.Head(FREE_QUEUE), s)) <==> ev.Store? || ev.d.e != ExitCall
    ensures ev.Store? || ev.d.e != ExitCall ==> k.Valid() && k.Abs() == KStep(old(k.Abs()), ev)
  {
    if ev.Kernel? && ev.d.e == ExitCall {
      ghost var free := k.S().Free();
      ExitStep(k, ev.d.c);
    } else {
      k.Step(ev);
      assert Ring(k.queues.Head(FREE_QUEUE), k.queues.Anchors(k.queues.q[FREE_QUEUE]));
    }
  }

  /** An exit with its accounting; the task it switches to leaves the kernel where it entered it. */
  method ExitStep(k: Kernel, c: Clock)
    requires k.Valid() && k.current != IDLE
    modifies k, k.task, k.semaphores, k.queues, k.queues.node, k.mem, k.mem.refs, k.mem.pt, k.mem.phys
    ensures k.queues.Fixed()
    ensures forall s: seq<ListHead> :: !Ring(k.queues.Head(FREE_QUEUE), s)
  {
    hide Linked, Knotted, Ring, StatsEntry;
    ghost var before := k.S();
    var parked := k.task[IDLE].estado == StRun;
    k.StatsEntrySys(c.entry);
    EntryLinks(before, c.entry);
    ghost var free := k.S().Free();
    var me := k.current;
    SysExit(k, c);
    ghost var head := k.queues.Head(FREE_QUEUE);
    if !(parked && k.current == IDLE) {
      k.task[k.current] := k.task[k.current].(stats := ChargeSystem(k.task[k.current].stats, c.leave));
    }
    forall s: seq<ListHead>
      ensures !Ring(head, s)
    {
      KnottedIsNoRing(head, k.queues.Anchors(free), k.queues.node[me], s);
    }
  }
}
