/** Process identifiers: what `sys_fork` and `sys_clone` make and return, and that no identifier is given twice. */
module Identifiers {
  import opened Common
  import opened SchedSpec
  import opened SchedSteps
  import opened SchedInv
  import opened SchedRuns
  import opened Population

  /** The task that a successful fork or clone makes: it carries the next identifier, which no other live task has,
      the caller's quantum, cleared statistics and its directory, and waits last in the ready queue.  No other task
      changes. */
  lemma NewTask(s: Sched, dir: Dir)
    requires Inv(s) && s.Free() != []
    ensures var u, t := Spawn(s, dir), s.Free()[0];
            && Alive(u, t) && u.tasks[t].pid == s.nextPid
            && (forall x: Tid | Alive(u, x) && x != t :: u.tasks[x].pid != s.nextPid)
            && u.tasks[t].quantum == s.tasks[s.current].quantum && u.tasks[t].semRet == s.tasks[s.current].semRet
            && u.tasks[t].stats == Stats(0, 0, 0, 0, 0, 0)
            && u.tasks[t].dir == dir && u.tasks[t].estado == StReady
            && u.Ready() == s.Ready() + [t] && u.Free() == s.Free()[1..]
            && u.nextPid == s.nextPid + 1
            && (forall x: Tid | x != t :: u.tasks[x] == s.tasks[x])
            && u.sems == s.sems && u.current == s.current && u.qLeft == s.qLeft
  {
    hide Linked;
    SpawnLinks(s, dir);
  }

  /** The same without the invariant on identifiers: the new task carries the next one and the caller's quantum. */
  lemma NewNumber(s: Sched, dir: Dir)
    requires LinkInv(s) && s.Free() != []
    ensures var u, t := Spawn(s, dir), s.Free()[0];
            u.tasks[t].pid == s.nextPid && u.tasks[t].quantum == s.tasks[s.current].quantum
  {
    AtIsMembership(s, s.Free()[0], FREE_QUEUE);
    hide Linked;
  }

  /** A fork that fails half way gives no identifier away and changes no task but the one it loses, which is left
      a copy of the caller, identifier and statistics included. */
  lemma NoNewTask(s: Sched, dir: Dir)
    requires LinkInv(s) && s.Free() != []
    ensures var u, t := Lose(s, dir), s.Free()[0];
            && u.nextPid == s.nextPid
            && (forall x: Tid :: u.tasks[x] == if x == t then s.tasks[s.current].(dir := dir) else s.tasks[x])
            && u.sems == s.sems && u.current == s.current && u.qLeft == s.qLeft && u.Ready() == s.Ready()
  {
    AtIsMembership(s, s.Free()[0], FREE_QUEUE);
    hide Linked;
  }

  /** What one step does to the next identifier, and to whom it gives one. */
  lemma StepGives(s: Sched, d: Do)
    requires Inv(s) && Enabled(s, d.e)
    ensures Spawns(s, d.e) ==>
              && s.Free() != []
              && Step(s, d).nextPid == s.nextPid + 1
              && Step(s, d).tasks[s.Free()[0]].pid == s.nextPid
    ensures !Spawns(s, d.e) ==> Step(s, d).nextPid == s.nextPid
  {
    hide LinkInv, PidInv, SemInv, OwnerInv, Schedule, Body, Step, Spawn;
    var u := StatsEntry(s, d.c.entry);
    EntryInv(s, u, d.c.entry);
    StepForm(s, d);
    if d.e == ClockTick {
      SchedulePeople(u, d.c);
    } else {
      BodyGives(u, d.e, d.c);
    }
  }

  lemma BodyGives(s: Sched, e: Event, c: Clock)
    requires Inv(s) && Enabled(s, e) && e != ClockTick
    ensures Spawns(s, e) ==>
              && s.Free() != []
              && Body(s, e, c).nextPid == s.nextPid + 1
              && Body(s, e, c).tasks[s.Free()[0]].pid == s.nextPid
    ensures !Spawns(s, e) ==> Body(s, e, c).nextPid == s.nextPid
  {
    hide LinkInv, PidInv, SemInv, OwnerInv, Spawn, Lose, Exit;
    match e
    case ForkCall(o) =>
      match o {
        case NoTask =>
        case NoDirectory => NoNewTask(s, s.Cur().dir);
        case NoFrames(d) => NoNewTask(s, d);
        case Child(d) => NewTask(s, d);
      }
    case CloneCall(ok) => if s.Free() != [] { NewTask(s, s.Cur().dir); }
    case ExitCall => ExitGives(s, c);
    case SemDestroyCall(n) => SemDestroyInv(s, n);
    case SemSignalCall(n) => SemSignalInv(s, n);
    case SemWaitCall(n) => SemWaitInv(s, n, c);
    case SemInitCall(n, v) =>
    case SetQuantumCall(q) =>
    case Quiet(q) =>
  }

  lemma ExitGives(s: Sched, c: Clock)
    requires Inv(s) && s.current != IDLE
    ensures Exit(s, c).nextPid == s.nextPid
  {
    hide Linked, PidInv, SemInv, OwnerInv, Vacate, SchedNext;
    VacateInv(s);
    VacateLinks(s);
    NextForm(Vacate(s), c);
  }

  /** The identifiers that the tasks born in a run carry when they are born, in the order of their births. */
  ghost function Given(s: Sched, tr: seq<Do>): seq<int>
    requires Inv(s) && CanRun(s, tr)
    decreases |tr|
  {
    if tr == [] then []
    else
      StepInv(s, tr[0]);
      StepGives(s, tr[0]);
      var u := Step(s, tr[0]);
      (if Spawns(s, tr[0].e) then [u.tasks[s.Free()[0]].pid] else []) + Given(u, tr[1..])
  }

  /** The tasks born in a run get consecutive identifiers, from the next one on. */
  lemma {:induction false} GivenInOrder(s: Sched, tr: seq<Do>)
    requires Inv(s) && CanRun(s, tr)
    ensures Run(s, tr).nextPid == s.nextPid + |Given(s, tr)|
    ensures forall k | 0 <= k < |Given(s, tr)| :: Given(s, tr)[k] == s.nextPid + k
    decreases |tr|
  {
    hide LinkInv, PidInv, SemInv, OwnerInv, Step, Spawns, Enabled, Forward;
    if tr != [] {
      StepInv(s, tr[0]);
      StepGives(s, tr[0]);
      GivenInOrder(Step(s, tr[0]), tr[1..]);
    }
  }

  /** From boot: the next identifier is 2 plus the number of successful forks and clones, and no identifier is given
      twice, nor one of the two that boot gave. */
  lemma NeverTwice(now: int, tr: seq<Do>)
    requires CanRun(Booted(now), tr)
    ensures Run(Booted(now), tr).nextPid == 2 + |Given(Booted(now), tr)|
    ensures var g := Given(Booted(now), tr);
            && (forall k | 0 <= k < |g| :: g[k] >= 2)
            && (forall j, k | 0 <= j < k < |g| :: g[j] != g[k])
  {
    GivenInOrder(Booted(now), tr);
    hide Inv, CanRun, Run, Given;
  }
}
