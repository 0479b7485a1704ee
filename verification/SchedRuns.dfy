/** Runs of the scheduler machine: the boot state and the states reachable from it. */
module SchedRuns {
  import opened SchedSpec
  import opened SchedSteps
  import opened SchedInv

  /** What `init_sched`, `init_idle` and `init_task1` leave; `now` is the clock when user code starts. */
  function Boot(now: int): Sched {
    Sched(
      seq(NR_TASKS, t => BootTask(t)),
      seq(NR_QUEUES, q => if q == FREE_QUEUE then [12, 11, 10, 9, 8, 7, 6, 5, 4, 3, 2, 1, 0] else []),
      seq(NR_TASKS, t => if t < INIT then FREE_QUEUE else NOWHERE),
      seq(NR_SEMS, i => Sem(false, 0, 0, 0)),
      INIT, DEFAULT_QUANTUM, 2, now)
  }

  function BootTask(t: int): Task {
    if t == IDLE then Task(0, 0, StRun, ZERO_STATS, 0, DEFAULT_QUANTUM)
    else if t == INIT then Task(1, 1, StRun, ZERO_STATS, 0, DEFAULT_QUANTUM)
    else Task(-1, 0, StRun, ZERO_STATS, 0, 0)
  }

  lemma BootLinked(now: int)
    ensures Linked(Boot(now).queues, Boot(now).at)
  {
    var s := Boot(now);
    var f := s.queues[FREE_QUEUE];
    assert forall k | 0 <= k < |f| :: f[k] == 12 - k;
    forall t: Tid
      ensures s.at[t] == NOWHERE || (0 <= s.at[t] < NR_QUEUES && t in s.queues[s.at[t]])
    {
      if t < INIT {
        assert f[12 - t] == t;
      }
    }
  }

  lemma BootLinks(now: int)
    ensures LinkInv(Boot(now)) && OnCpu(Boot(now))
  {
    hide Linked;
    BootLinked(now);
  }

  /** The boot state in numbers: task 13 runs as process 1, task 14 is idle with identifier 0, both with quantum 15,
      and the other 13 are free, the highest first; no semaphore is in use. */
  lemma BootIs(now: int)
    ensures var s := Boot(now);
            && s.tasks[13] == Task(1, 1, StRun, Stats(0, 0, 0, 0, 0, 0), 0, 15)
            && s.tasks[14] == Task(0, 0, StRun, Stats(0, 0, 0, 0, 0, 0), 0, 15)
            && s.Free() == [12, 11, 10, 9, 8, 7, 6, 5, 4, 3, 2, 1, 0] && s.Ready() == []
            && s.current == 13 && s.qLeft == 15 && s.nextPid == 2
            && (forall t: Tid | t < 13 :: s.tasks[t].pid == -1)
            && (forall i: Slot :: !s.sems[i].used && s.Blocked(i) == [])
  {
  }

  lemma BootInv(now: int)
    ensures Inv(Boot(now))
  {
    BootLinks(now);
    hide LinkInv;
  }

  /** The boot state, known to satisfy the invariant. */
  ghost function Booted(now: int): (s: Sched)
    ensures Inv(s) && s == Boot(now)
  {
    BootInv(now);
    Boot(now)
  }

  /** The steps of `tr`, in order, are enabled from s on, under a clock that never goes back. */
  ghost predicate CanRun(s: Sched, tr: seq<Do>)
    requires Inv(s)
    decreases |tr|
  {
    tr == [] || (
      && Enabled(s, tr[0].e)
      && Forward(tr[0].c, s.now)
      && (StepInv(s, tr[0]); CanRun(Step(s, tr[0]), tr[1..])))
  }

  /** Every state of every run satisfies the invariant. */
  ghost function Run(s: Sched, tr: seq<Do>): (u: Sched)
    requires Inv(s) && CanRun(s, tr)
    ensures Inv(u)
    decreases |tr|
  {
    if tr == [] then s else StepInv(s, tr[0]); Run(Step(s, tr[0]), tr[1..])
  }

  lemma {:induction false} RunPrefix(s: Sched, tr: seq<Do>, j: nat)
    requires Inv(s) && CanRun(s, tr) && j <= |tr|
    ensures CanRun(s, tr[..j])
    decreases j
  {
    if j > 0 {
      StepInv(s, tr[0]);
      RunPrefix(Step(s, tr[0]), tr[1..], j - 1);
      assert tr[..j][1..] == tr[1..][..j - 1];
    }
  }
}
