/** Bounded waiting: round robin lets no ready task wait longer than the quanta of those before it. */
module Waiting {
  import opened Common
  import opened SchedSpec
  import opened SchedSteps
  import opened SchedInv
  import opened SchedRuns

  /** The quantum in use and the quanta of all live tasks lie between 1 and Q. */
  ghost predicate QuantumInv(s: Sched, Q: int)
    requires s.Wf()
  {
    1 <= s.qLeft <= Q && forall t: Tid | Alive(s, t) :: 1 <= s.tasks[t].quantum <= Q
  }

  predicate QuantumEvent(e: Event, Q: int) {
    e.SetQuantumCall? ==> 1 <= e.q <= Q
  }

  /** The ready queue is a queue: a step appends some tasks `w`, and then either nothing more happens to it or
      its head gets the processor with the quantum of the task that leaves. */
  ghost predicate Appends(s: Sched, u: Sched, w: seq<Tid>)
    requires s.Wf() && u.Wf()
  {
    u.Ready() == s.Ready() + w && u.qLeft == s.qLeft
  }

  ghost predicate Dispatches(s: Sched, u: Sched, w: seq<Tid>)
    requires s.Wf() && u.Wf()
  {
    && s.Ready() + w != []
    && u.Ready() == (s.Ready() + w)[1..]
    && u.current == (s.Ready() + w)[0]
    && u.qLeft == s.Cur().quantum
  }

  lemma ForkQueues(s: Sched, o: ForkOutcome) returns (w: seq<Tid>)
    requires LinkInv(s) && OnCpu(s) && (o == NoTask <==> s.Free() == [])
    ensures Appends(s, Fork(s, o), w)
  {
    w := [];
    match o
    case NoTask =>
    case NoDirectory => assert s.at[s.Free()[0]] == FREE_QUEUE;
    case NoFrames(d) => assert s.at[s.Free()[0]] == FREE_QUEUE;
    case Child(d) => SpawnLinks(s, d); w := [s.Free()[0]];
  }

  lemma CloneQueues(s: Sched, ok: bool) returns (w: seq<Tid>)
    requires LinkInv(s) && OnCpu(s)
    ensures Appends(s, Clone(s, ok), w)
  {
    w := [];
    if s.Free() != [] && ok {
      SpawnLinks(s, s.Cur().dir);
      w := [s.Free()[0]];
    }
  }

  lemma SignalQueues(s: Sched, n: int) returns (w: seq<Tid>)
    requires LinkInv(s)
    ensures Appends(s, SemSignal(s, n), w)
  {
    w := [];
    var i := FindSem(s.sems, n, 0);
    if i != -1 && s.Blocked(i) != [] {
      w := [s.Blocked(i)[0]];
      WakeFirst(s, i);
    }
  }

  lemma DestroyQueues(s: Sched, n: int) returns (w: seq<Tid>)
    requires LinkInv(s)
    ensures Appends(s, SemDestroy(s, n), w)
  {
    var i := FindSem(s.sems, n, 0);
    w := if i != -1 && s.sems[i].owner == s.Cur().pid then s.Blocked(i) else [];
  }

  lemma WaitQueues(s: Sched, n: int, c: Clock)
    requires Inv(s) && s.current != IDLE
    ensures Appends(s, SemWait(s, n, c), []) || Dispatches(s, SemWait(s, n, c), [])
  {
    var i := FindSem(s.sems, n, 0);
    if i != -1 && s.sems[i].counter <= 0 {
      var u := s.SetTask(s.current, s.Cur().(semRet := 0));
      SameLinks(s, u);
      var v := ExitRunCurrent(u, SemQueue(i), c.off);
      LeaveLinks(u, SemQueue(i), c.off);
      assert v.Cur().quantum == s.Cur().quantum && v.qLeft == s.qLeft;
      NextForm(v, c);
      assert SemWait(s, n, c) == SchedNext(v, c);
      hide LinkInv, Inv, ExitRunCurrent, SchedNext, SemWait;
    }
  }

  lemma ExitQueues(s: Sched, c: Clock) returns (w: seq<Tid>)
    requires Inv(s) && s.current != IDLE
    ensures Appends(s, Exit(s, c), w) || Dispatches(s, Exit(s, c), w)
  {
    w := OwnedWaiters(s, s.Cur().pid, 0);
    ExitReleasesWaiters(s, c);
    VacateWakes(s);
    VacateLinks(s);
    NextForm(Vacate(s), c);
    hide Inv, Vacate, LinkInv, SchedNext;
  }

  lemma BodyQueues(s: Sched, e: Event, c: Clock) returns (w: seq<Tid>)
    requires Inv(s) && Enabled(s, e) && e != ClockTick
    ensures Appends(s, Body(s, e, c), w) || Dispatches(s, Body(s, e, c), w)
  {
    w := [];
    hide LinkInv, PidInv, SemInv, OwnerInv;
    match e
    case ForkCall(o) => w := ForkQueues(s, o);
    case CloneCall(ok) => w := CloneQueues(s, ok);
    case ExitCall => w := ExitQueues(s, c);
    case SemDestroyCall(n) => w := DestroyQueues(s, n);
    case SemSignalCall(n) => w := SignalQueues(s, n);
    case SemWaitCall(n) => WaitQueues(s, n, c);
    case _ =>
  }

  /** A clock interrupt that finds the ready queue not empty takes one tick off the quantum, and at zero puts
      the current task at the end of the queue and gives the processor to the head. */
  lemma TickQueues(s: Sched, c: Clock)
    requires LinkInv(s) && OnCpu(s) && s.Ready() != []
    ensures var u := Schedule(s, c);
            if s.qLeft != 1 then u.Ready() == s.Ready() && u.qLeft == s.qLeft - 1
            else
              && u.Ready() == s.Ready()[1..] + [s.current]
              && u.current == s.Ready()[0]
              && u.qLeft == s.Cur().quantum
  {
    var u := s.(qLeft := s.qLeft - 1);
    SameLinks(s, u);
    if u.qLeft == 0 {
      LeaveLinks(u, READY_QUEUE, c.off);
      NextForm(ExitRunCurrent(u, READY_QUEUE, c.off), c);
    }
  }

  /** A clock interrupt that finds nobody ready takes one off the quantum, and at zero renews it and counts a
      transition; nothing else changes. */
  lemma TickAlone(s: Sched, c: Clock)
    requires LinkInv(s) && OnCpu(s) && s.Ready() == []
    ensures var x := s.tasks[s.current];
            Schedule(s, c) ==
            if s.qLeft != 1 then s.(qLeft := s.qLeft - 1)
            else
              s.(qLeft := x.quantum,
                 tasks := s.tasks[s.current := x.(stats := x.stats.(trans := x.stats.trans + 1))])
  {
    hide LinkInv, Linked;
  }

  function Ticks(e: Event): nat {
    if e == ClockTick then 1 else 0
  }

  function TicksIn(tr: seq<Do>): nat {
    if tr == [] then 0 else Ticks(tr[0].e) + TicksIn(tr[1..])
  }

  /** What one step does to the task at position k: it stays there while the quantum in use pays for the tick,
      or it moves up by one, or it gets the processor. */
  ghost predicate Advances(s: Sched, v: Sched, e: Event, k: nat, k': int)
    requires s.Wf() && v.Wf() && k < |s.Ready()|
  {
    var t := s.Ready()[k];
    if k' == -1 then v.current == t
    else
      && 0 <= k' < |v.Ready()| && v.Ready()[k'] == t
      && (|| (k' == k && v.qLeft == s.qLeft - Ticks(e))
          || (k' == k - 1 && v.qLeft == s.Cur().quantum && Ticks(e) <= 1 && (Ticks(e) == 1 ==> s.qLeft == 1)))
  }

  lemma AppendsAdvances(s: Sched, v: Sched, e: Event, w: seq<Tid>, k: nat) returns (k': int)
    requires s.Wf() && v.Wf() && k < |s.Ready()| && e != ClockTick
    requires Appends(s, v, w) || Dispatches(s, v, w)
    ensures Advances(s, v, e, k, k')
  {
    var r := s.Ready() + w;
    assert r[k] == s.Ready()[k];
    if Appends(s, v, w) {
      k' := k;
    } else {
      k' := k - 1;
      assert k > 0 ==> r[1..][k - 1] == r[k];
    }
  }

  lemma TickAdvances(s: Sched, c: Clock, k: nat) returns (k': int)
    requires LinkInv(s) && OnCpu(s) && k < |s.Ready()|
    ensures Advances(s, Schedule(s, c), ClockTick, k, k')
  {
    TickQueues(s, c);
    if s.qLeft != 1 {
      k' := k;
    } else {
      k' := k - 1;
      assert k > 0 ==> (s.Ready()[1..] + [s.current])[k - 1] == s.Ready()[k];
    }
  }

  lemma StepAdvances(s: Sched, d: Do, k: nat) returns (k': int)
    requires Inv(s) && Enabled(s, d.e) && k < |s.Ready()|
    ensures Advances(s, Step(s, d), d.e, k, k')
  {
    var u := StatsEntry(s, d.c.entry);
    EntryInv(s, u, d.c.entry);
    var v;
    if d.e == ClockTick {
      v := Schedule(u, d.c);
      k' := TickAdvances(u, d.c, k);
    } else {
      v := Body(u, d.e, d.c);
      var w := BodyQueues(u, d.e, d.c);
      k' := AppendsAdvances(u, v, d.e, w, k);
    }
    assert Step(s, d) == Leave(d.e, u, v, d.c.leave).(now := d.c.leave.second);
    hide Inv, LinkInv, Step, Schedule, Body;
  }

  // ---- Quanta ----

  /** The tasks alive afterwards were alive before and keep their quanta. */
  ghost predicate SameQuanta(s: Sched, u: Sched) {
    && s.Wf() && u.Wf()
    && forall t: Tid | Alive(u, t) :: Alive(s, t) && u.tasks[t].quantum == s.tasks[t].quantum
  }

  lemma SpawnQuanta(s: Sched, dir: Dir, Q: int)
    requires LinkInv(s) && OnCpu(s) && s.Free() != [] && QuantumInv(s, Q)
    ensures QuantumInv(Spawn(s, dir), Q) && QuantumInv(Lose(s, dir), Q)
  {
    SpawnLinks(s, dir);
    assert Alive(s, s.current);
  }

  /** Blocking in a semaphore changes no quantum, for whoever gets the processor. */
  lemma BlockQuanta(s: Sched, i: Slot, c: Clock)
    requires LinkInv(s) && OnCpu(s) && s.current != IDLE && s.sems[i].used
    ensures var v := ExitRunCurrent(s.SetTask(s.current, s.Cur().(semRet := 0)), SemQueue(i), c.off);
            && LinkInv(v) && !OnCpu(v)
            && forall t: Tid :: SchedNext(v, c).tasks[t].quantum == s.tasks[t].quantum
  {
    var v := ExitRunCurrent(s.SetTask(s.current, s.Cur().(semRet := 0)), SemQueue(i), c.off);
    BlockLinks(s, i, c);
    assert forall t: Tid :: v.tasks[t].quantum == s.tasks[t].quantum;
    NextForm(v, c);
    hide LinkInv, ExitRunCurrent, SchedNext;
  }

  lemma WaitQuanta(s: Sched, n: int, c: Clock)
    requires Inv(s) && s.current != IDLE
    ensures SameQuanta(s, SemWait(s, n, c))
  {
    SemWaitInv(s, n, c);
    var i := FindSem(s.sems, n, 0);
    if i != -1 && s.sems[i].counter <= 0 {
      BlockQuanta(s, i, c);
      hide LinkInv, Inv, ExitRunCurrent, SchedNext;
    }
  }

  lemma ExitQuanta(s: Sched, c: Clock)
    requires Inv(s) && s.current != IDLE
    ensures SameQuanta(s, Exit(s, c))
  {
    ExitInv(s, c);
    VacateWakes(s);
    VacateLinks(s);
    NextForm(Vacate(s), c);
    hide Inv, LinkInv, Vacate, SchedNext;
  }

  lemma SignalQuanta(s: Sched, n: int)
    requires Inv(s)
    ensures SameQuanta(s, SemSignal(s, n)) && SameQuanta(s, SemDestroy(s, n))
  {
    hide Linked, PidInv, SemInv, OwnerInv;
    SemSignalInv(s, n);
    SemDestroyInv(s, n);
    var i := FindSem(s.sems, n, 0);
    if i != -1 && s.Blocked(i) != [] {
      WakeFirst(s, i);
    }
  }

  lemma BodyQuanta(s: Sched, e: Event, c: Clock, Q: int)
    requires Inv(s) && Enabled(s, e) && e != ClockTick && QuantumInv(s, Q) && QuantumEvent(e, Q)
    ensures QuantumInv(Body(s, e, c), Q)
  {
    var w := BodyQueues(s, e, c);
    assert Alive(s, s.current);
    hide LinkInv, PidInv, SemInv, OwnerInv, Spawn, Lose;
    match e
    case ForkCall(o) =>
      match o {
        case NoTask =>
        case NoDirectory => SpawnQuanta(s, s.Cur().dir, Q);
        case NoFrames(d) => SpawnQuanta(s, d, Q);
        case Child(d) => SpawnQuanta(s, d, Q);
      }
    case CloneCall(ok) => if s.Free() != [] { SpawnQuanta(s, s.Cur().dir, Q); }
    case ExitCall => ExitQuanta(s, c);
    case SemDestroyCall(n) => SignalQuanta(s, n);
    case SemSignalCall(n) => SignalQuanta(s, n);
    case SemWaitCall(n) => WaitQuanta(s, n, c);
    case _ =>
  }

  lemma ScheduleQuanta(s: Sched, c: Clock, Q: int)
    requires LinkInv(s) && OnCpu(s) && QuantumInv(s, Q)
    ensures QuantumInv(Schedule(s, c), Q)
  {
    assert Alive(s, s.current);
    SchedulePeople(s, c);
    var u := s.(qLeft := s.qLeft - 1);
    SameLinks(s, u);
    if u.qLeft == 0 && u.Ready() != [] {
      var v := ExitRunCurrent(u, READY_QUEUE, c.off);
      LeaveLinks(u, READY_QUEUE, c.off);
      NextForm(v, c);
      assert forall t: Tid :: v.tasks[t].quantum == s.tasks[t].quantum;
      hide LinkInv, ExitRunCurrent, SchedNext;
    }
  }

  /** Between steps the quantum in use is never 0 and never more than the largest quantum. */
  lemma StepQuanta(s: Sched, d: Do, Q: int)
    requires Inv(s) && Enabled(s, d.e) && QuantumInv(s, Q) && QuantumEvent(d.e, Q)
    ensures QuantumInv(Step(s, d), Q)
  {
    var u := StatsEntry(s, d.c.entry);
    EntryInv(s, u, d.c.entry);
    var v := if d.e == ClockTick then Schedule(u, d.c) else Body(u, d.e, d.c);
    if d.e == ClockTick {
      ScheduleQuanta(u, d.c, Q);
    } else {
      BodyQuanta(u, d.e, d.c, Q);
    }
    assert Step(s, d) == Leave(d.e, u, v, d.c.leave).(now := d.c.leave.second);
    hide Inv, LinkInv, Step, Schedule, Body;
  }

  /** Quanta to the tick: a step gives the calling task the quantum of `set_quantum`, a new task that of its parent,
      and leaves all others alone. */
  lemma StepQuantum(s: Sched, d: Do, t: Tid)
    requires Inv(s) && Enabled(s, d.e) && Alive(Step(s, d), t)
    ensures Step(s, d).tasks[t].quantum ==
            if d.e.SetQuantumCall? && t == s.current then d.e.q
            else if !Alive(s, t) then s.tasks[s.current].quantum
            else s.tasks[t].quantum
  {
    hide LinkInv, PidInv, SemInv, OwnerInv, Schedule, Body;
    var u := StatsEntry(s, d.c.entry);
    EntryInv(s, u, d.c.entry);
    StepForm(s, d);
    BodyQuantum(u, d.e, d.c, t);
  }

  lemma BodyQuantum(s: Sched, e: Event, c: Clock, t: Tid)
    requires Inv(s) && Enabled(s, e)
    ensures var u := if e == ClockTick then Schedule(s, c) else Body(s, e, c);
            Alive(u, t) ==>
              u.tasks[t].quantum ==
              if e.SetQuantumCall? && t == s.current then e.q
              else if !Alive(s, t) then s.tasks[s.current].quantum
              else s.tasks[t].quantum
  {
    hide LinkInv, PidInv, SemInv, OwnerInv, Spawn, Lose, Exit, Schedule, SemWait, SemSignal, SemDestroy;
    match e
    case ClockTick => TickQuantum(s, c);
    case ForkCall(o) =>
      match o {
        case NoTask =>
        case NoDirectory => SpawnQuantum(s, s.Cur().dir, t);
        case NoFrames(d) => SpawnQuantum(s, d, t);
        case Child(d) => SpawnQuantum(s, d, t);
      }
    case CloneCall(ok) => if s.Free() != [] { SpawnQuantum(s, s.Cur().dir, t); }
    case ExitCall => ExitQuanta(s, c);
    case SemDestroyCall(n) => SignalQuanta(s, n);
    case SemSignalCall(n) => SignalQuanta(s, n);
    case SemWaitCall(n) => WaitQuanta(s, n, c);
    case SemInitCall(n, v) =>
    case SetQuantumCall(q) =>
    case Quiet(q) =>
  }

  lemma SpawnQuantum(s: Sched, dir: Dir, t: Tid)
    requires LinkInv(s) && OnCpu(s) && s.Free() != []
    ensures Alive(Spawn(s, dir), t) ==>
              Spawn(s, dir).tasks[t].quantum == if Alive(s, t) then s.tasks[t].quantum else s.Cur().quantum
    ensures Alive(Lose(s, dir), t) ==> Alive(s, t) && Lose(s, dir).tasks[t].quantum == s.tasks[t].quantum
  {
    hide Linked;
    SpawnLinks(s, dir);
  }

  lemma TickQuantum(s: Sched, c: Clock)
    requires LinkInv(s) && OnCpu(s)
    ensures forall t: Tid :: Schedule(s, c).tasks[t].quantum == s.tasks[t].quantum
    ensures forall t: Tid :: Alive(Schedule(s, c), t) <==> Alive(s, t)
  {
    SchedulePeople(s, c);
    var u := s.(qLeft := s.qLeft - 1);
    SameLinks(s, u);
    if u.qLeft == 0 && u.Ready() != [] {
      var v := ExitRunCurrent(u, READY_QUEUE, c.off);
      LeaveLinks(u, READY_QUEUE, c.off);
      NextForm(v, c);
      assert forall t: Tid :: v.tasks[t].quantum == s.tasks[t].quantum;
      hide LinkInv, ExitRunCurrent, SchedNext;
    }
  }

  // ---- The bound ----

  /** The ticks that may pass before the task at position k of the ready queue runs. */
  function Patience(s: Sched, k: nat, Q: int): int {
    s.qLeft + k * Q
  }

  lemma MovingUpPays(q: int, q': int, k: nat, k': nat, Q: int, ticks: nat)
    requires 1 <= q
    requires (k' == k && q' == q - ticks) || (k' == k - 1 && q' <= Q && (ticks == 0 || (ticks == 1 && q == 1)))
    ensures q' + k' * Q <= q + k * Q - ticks
  {
    if k' == k - 1 {
      assert k * Q == k' * Q + Q;
    }
  }

  /** The measure of the proof: a tick takes at least one off it, and no system call adds to it. */
  lemma StepPatience(s: Sched, d: Do, k: nat, Q: int) returns (k': int)
    requires Inv(s) && Enabled(s, d.e) && QuantumInv(s, Q)
    requires k < |s.Ready()|
    ensures Advances(s, Step(s, d), d.e, k, k')
    ensures k' == -1 ==> Step(s, d).current == s.Ready()[k]
    ensures k' != -1 ==> 0 <= k' < |Step(s, d).Ready()| && Step(s, d).Ready()[k'] == s.Ready()[k]
    ensures k' != -1 ==> Patience(Step(s, d), k', Q) <= Patience(s, k, Q) - Ticks(d.e)
  {
    k' := StepAdvances(s, d, k);
    assert Alive(s, s.current);
    if k' != -1 {
      MovingUpPays(s.qLeft, Step(s, d).qLeft, k, k', Q, Ticks(d.e));
    }
    hide Inv, LinkInv, Step, Alive;
  }

  ghost predicate QuantumRun(tr: seq<Do>, Q: int) {
    forall j | 0 <= j < |tr| :: QuantumEvent(tr[j].e, Q)
  }

  /** Bounded waiting.  Take any reachable state and any run from it in which every quantum lies between 1 and Q.
      The task at position k of the ready queue has the processor after at most qLeft + k * Q clock ticks,
      whatever system calls come between. */
  lemma {:induction false} BoundedWaiting(s: Sched, tr: seq<Do>, k: nat, Q: int) returns (j: nat)
    requires Inv(s) && CanRun(s, tr)
    requires QuantumInv(s, Q) && QuantumRun(tr, Q)
    requires k < |s.Ready()|
    requires TicksIn(tr) >= Patience(s, k, Q)
    ensures j <= |tr| && CanRun(s, tr[..j])
    ensures Run(s, tr[..j]).current == s.Ready()[k]
    ensures TicksIn(tr[..j]) <= Patience(s, k, Q)
    decreases |tr|
  {
    hide LinkInv, PidInv, SemInv, OwnerInv, Patience, Step, QuantumInv, Advances;
    PatienceIsPositive(s, k, Q);
    assert tr != [];
    var u := Step(s, tr[0]);
    StepInv(s, tr[0]);
    StepQuanta(s, tr[0], Q);
    var k' := StepPatience(s, tr[0], k, Q);
    if k' == -1 {
      j := 1;
      RunPrefix(s, tr, 1);
      assert tr[..1] == [tr[0]];
      RunOne(s, tr[0]);
      assert TicksIn([tr[0]]) == Ticks(tr[0].e) + TicksIn([]);
    } else {
      var i := BoundedWaiting(u, tr[1..], k', Q);
      j := i + 1;
      RunPrefix(s, tr, j);
      RunHead(s, tr[..j]);
      assert tr[..j][1..] == tr[1..][..i] && tr[..j][0] == tr[0];
    }
  }

  /** From boot on, as long as quanta are set between 1 and Q, the bound applies in every state: the quantum in
      use is never 0 between steps, and no live task has a quantum outside these limits. */
  lemma QuantaFromBoot(now: int, tr: seq<Do>, Q: int)
    requires DEFAULT_QUANTUM <= Q && CanRun(Booted(now), tr) && QuantumRun(tr, Q)
    ensures QuantumInv(Run(Booted(now), tr), Q)
  {
    BootQuanta(now, Q);
    hide Inv, CanRun, Run, QuantumInv, QuantumRun, Boot;
    RunQuanta(Booted(now), tr, Q);
  }

  lemma BootQuanta(now: int, Q: int)
    requires DEFAULT_QUANTUM <= Q
    ensures QuantumInv(Booted(now), Q)
  {
    hide Inv;
  }

  lemma {:induction false} RunQuanta(s: Sched, tr: seq<Do>, Q: int)
    requires Inv(s) && CanRun(s, tr) && QuantumInv(s, Q) && QuantumRun(tr, Q)
    ensures QuantumInv(Run(s, tr), Q)
    decreases |tr|
  {
    hide LinkInv, PidInv, SemInv, OwnerInv, Step, QuantumInv;
    if tr != [] {
      StepInv(s, tr[0]);
      StepQuanta(s, tr[0], Q);
      RunQuanta(Step(s, tr[0]), tr[1..], Q);
    }
  }

  lemma PatienceIsPositive(s: Sched, k: nat, Q: int)
    requires s.Wf() && QuantumInv(s, Q)
    ensures Patience(s, k, Q) >= 1
  {
    assert k * Q >= 0;
  }

  lemma RunOne(s: Sched, d: Do)
    requires Inv(s) && CanRun(s, [d])
    ensures Run(s, [d]) == Step(s, d)
  {
    StepInv(s, d);
    assert [d][1..] == [];
    assert Run(s, [d]) == Run(Step(s, d), []);
  }

  lemma RunHead(s: Sched, tr: seq<Do>)
    requires Inv(s) && CanRun(s, tr) && tr != []
    ensures Inv(Step(s, tr[0])) && CanRun(Step(s, tr[0]), tr[1..])
    ensures Run(s, tr) == Run(Step(s, tr[0]), tr[1..])
  {
    StepInv(s, tr[0]);
  }

  /** The bound needs quanta of at least 1: once the quantum in use is 0 or less, `needs_sched_rr` never sees it
      at 0 again, and no number of clock ticks takes the processor from the current task. */
  lemma {:induction false} ZeroQuantumStarves(s: Sched, tr: seq<Do>)
    requires Inv(s) && CanRun(s, tr) && s.qLeft <= 0
    requires forall j | 0 <= j < |tr| :: tr[j].e == ClockTick
    ensures var u := Run(s, tr); u.current == s.current && u.Ready() == s.Ready() && u.qLeft == s.qLeft - |tr|
    decreases |tr|
  {
    if tr != [] {
      RunHead(s, tr);
      ZeroQuantumStarves(Step(s, tr[0]), tr[1..]);
    }
  }
}
