/** Bounded waiting when processes are killed (Kernel/scheduler.c): a kill marks a process DEAD,
    and the next switch takes it out of the ring, so places move. A waiting process is followed
    by its pid. As in the ring of nodes, one kill is pending at a time. */
module SchedulerKills {
  import opened Options
  import opened Scheduling
  import opened SchedulerRing
  import opened SchedulerRuns
  import opened Sequences
  import opened Statuses

  /** `dead` is the place of a killed process that is still linked. */
  datatype Killable = Killable(s: Sched, dead: Option<nat>)

  datatype Call = Plain(e: Event) | Kill(pid: int)

  predicate WellKept(k: Killable) {
    && k.s.current < |k.s.ring| && k.s.ticks <= QUANTUM && DistinctPids(k.s.ring)
    && (k.dead.Some? ==> k.dead.value < |k.s.ring| && k.s.ring[k.dead.value].state == Dead)
  }

  /** runScheduler, which unlinks the dead process only when it switches. */
  function Scheduled(k: Killable): Killable
    requires WellKept(k) && CanSchedule(k.s)
  {
    Killable(RunSchedulerWithDead(k.s, k.dead), if k.s.ticks < QUANTUM then k.dead else None)
  }

  /** No new process comes, and no thread of the dead process blocks. */
  predicate Permitted(k: Killable, c: Call) {
    && WellKept(k)
    && match c
       case Kill(pid) => pid != 0 && pid != 1 && k.dead == None && IndexOfPid(k.s.ring, pid) < |k.s.ring|
       case Plain(e) =>
         && Enabled(k.s, e) && !e.AddProcess?
         && (e.Block? ==> k.dead != Some(IndexOfPid(k.s.ring, e.pid)))
  }

  function After(k: Killable, c: Call): Killable
    requires Permitted(k, c)
  {
    match c
    case Kill(pid) =>
      var i := IndexOfPid(k.s.ring, pid);
      Killable(k.s.(ring := k.s.ring[i := k.s.ring[i].(state := Dead)]), Some(i))
    case Plain(Tick) => Scheduled(k)
    case Plain(Yield) => if BeforeYield(k.s).Some? then Scheduled(Yielding(k)) else k
    case Plain(e) => Killable(Step(k.s, e), k.dead)
  }

  function Yielding(k: Killable): (y: Killable)
    requires WellKept(k) && k.s.ring[k.s.current].current < |k.s.ring[k.s.current].threads|
    requires BeforeYield(k.s).Some?
    ensures WellKept(y) && y.dead == k.dead && |y.s.ring| == |k.s.ring| && y.s.current == k.s.current
    ensures y.s.ticks >= k.s.ticks && forall i | 0 <= i < |k.s.ring| :: Same(y.s.ring[i], k.s.ring[i])
  {
    Killable(BeforeYield(k.s).value, k.dead)
  }

  /** The two agree in what the ring is about. */
  predicate Same(p: Process, q: Process) {
    p.pid == q.pid && p.state == q.state
  }

  predicate CanDo(k: Killable, run: seq<Call>)
    decreases |run|
  {
    run == [] || (Permitted(k, run[0]) && CanDo(After(k, run[0]), run[1..]))
  }

  /** Whether the call runs the scheduler. */
  function SchedulerCalls(k: Killable, c: Call): nat
    requires Permitted(k, c)
  {
    if c.Plain? then Calls(k.s, c.e) else 0
  }

  function SchedulerCallCount(k: Killable, run: seq<Call>): nat
    requires CanDo(k, run)
    decreases |run|
  {
    if run == [] then 0 else SchedulerCalls(k, run[0]) + SchedulerCallCount(After(k, run[0]), run[1..])
  }

  predicate IsWaiting(s: Sched, pid: int) {
    var x := IndexOfPid(s.ring, pid);
    x < |s.ring| && s.current < |s.ring| && s.current != x && s.ring[x].state == Ready
  }

  /** The process is ready in every state of the run and never becomes current. */
  predicate KeepsWaiting(k: Killable, run: seq<Call>, pid: int)
    requires CanDo(k, run)
    decreases |run|
  {
    IsWaiting(k.s, pid) && (run == [] || KeepsWaiting(After(k, run[0]), run[1..], pid))
  }

  function BudgetOf(s: Sched, pid: int): int
    requires IsWaiting(s, pid)
  {
    Budget(s, IndexOfPid(s.ring, pid))
  }

  // ---------------------------------------------------------------- one process leaves the ring

  lemma UnlinkingBringsNearer(i: nat, x: nat, d: nat, n: nat)
    requires i < n && x < n && d < n && i != d && x != d && i != x
    ensures PlaceAfter(i, Some(d)) < n - 1 && PlaceAfter(x, Some(d)) < n - 1
    ensures PlaceAfter(i, Some(d)) != PlaceAfter(x, Some(d))
    ensures Distance(PlaceAfter(i, Some(d)), PlaceAfter(x, Some(d)), n - 1) <= Distance(i, x, n)
  {
  }

  /** A process keeps its identity when another leaves. */
  lemma UnlinkedIndex(ps: seq<Process>, d: nat, x: nat)
    requires DistinctPids(ps) && d < |ps| && x < |ps| && x != d
    ensures DistinctPids(Without(ps, d))
    ensures PlaceAfter(x, Some(d)) < |ps| - 1 && Without(ps, d)[PlaceAfter(x, Some(d))] == ps[x]
    ensures IndexOfPid(Without(ps, d), ps[x].pid) == PlaceAfter(x, Some(d))
  {
    UnlinkedPids(ps, d);
    OnlyIndexOfPid(Without(ps, d), PlaceAfter(x, Some(d)));
  }

  lemma SamePids(a: seq<Process>, b: seq<Process>)
    requires |a| == |b| && DistinctPids(a) && forall i | 0 <= i < |a| :: a[i].pid == b[i].pid
    ensures DistinctPids(b) && forall i: nat | i < |a| :: IndexOfPid(b, a[i].pid) == i == IndexOfPid(a, a[i].pid)
  {
    forall i: nat | i < |a| ensures IndexOfPid(b, a[i].pid) == i == IndexOfPid(a, a[i].pid) {
      OnlyIndexOfPid(a, i);
      OnlyIndexOfPid(b, i);
    }
  }

  lemma SwitchKeepsPids(s: Sched)
    requires s.current < |s.ring| && Pick(s).Some?
    ensures var t := Switch(s);
            && |t.ring| == |s.ring| && t.current < |t.ring| && t.ticks == 0
            && forall i | 0 <= i < |s.ring| :: t.ring[i].pid == s.ring[i].pid &&
                 (s.ring[i].state == Dead || (s.ring[i].state == Ready && t.current != i)
                  ==> t.ring[i].state == s.ring[i].state)
  {
    FirstReadyIsNearest(States(Demote(s)), s.current);
    assert States(Demote(s))[Pick(s).value] == Demote(s)[Pick(s).value].state;
  }

  /** One call of runScheduler uses up budget, whether or not a dead process leaves the ring. */
  lemma ScheduledUsesBudget(k: Killable, pid: int)
    requires WellKept(k) && CanSchedule(k.s) && IsWaiting(k.s, pid)
    requires IsWaiting(Scheduled(k).s, pid)
    ensures WellKept(Scheduled(k)) && |Scheduled(k).s.ring| <= |k.s.ring|
    ensures BudgetOf(Scheduled(k).s, pid) + 1 <= BudgetOf(k.s, pid)
  {
    var s, x := k.s, IndexOfPid(k.s.ring, pid);
    if s.ticks < QUANTUM {
      TickKeepsPids(s);
      SamePids(s.ring, RunScheduler(s).ring);
    } else {
      SwitchUsesBudget(k, pid, x);
    }
  }

  lemma TickKeepsPids(s: Sched)
    requires CanSchedule(s) && s.ticks < QUANTUM
    ensures var t := RunScheduler(s);
            && |t.ring| == |s.ring| && t.current == s.current && t.ticks == s.ticks + 1
            && forall i | 0 <= i < |s.ring| :: Same(t.ring[i], s.ring[i])
  {
  }

  lemma SwitchUsesBudget(k: Killable, pid: int, x: nat)
    requires WellKept(k) && CanSchedule(k.s) && k.s.ticks >= QUANTUM && IsWaiting(k.s, pid)
    requires x == IndexOfPid(k.s.ring, pid) && IsWaiting(Scheduled(k).s, pid)
    ensures WellKept(Scheduled(k)) && |Scheduled(k).s.ring| <= |k.s.ring|
    ensures BudgetOf(Scheduled(k).s, pid) + 1 <= BudgetOf(k.s, pid)
  {
    var s, t := k.s, Switch(k.s);
    SwitchKeepsPids(s);
    SamePids(s.ring, t.ring);
    SwitchBringsNearer(s, x);
    SwitchedThenUnlinked(k);
    hide Scheduled, Switch, DistinctPids, FirstReady, Pick, CanSchedule, Distance;
    if k.dead.Some? {
      LeavingUsesBudget(t, k.dead.value, pid, x);
    }
  }

  lemma SwitchedThenUnlinked(k: Killable)
    requires WellKept(k) && CanSchedule(k.s) && k.s.ticks >= QUANTUM
    ensures k.dead.Some? ==> Switch(k.s).current != k.dead.value
    ensures Scheduled(k).dead == None && Switch(k.s).current < |Switch(k.s).ring|
    ensures Scheduled(k).s == if k.dead.Some? then WithoutProcess(Switch(k.s), k.dead.value) else Switch(k.s)
  {
    if k.dead.Some? {
      SwitchLeavesDead(k.s, k.dead.value);
    }
  }

  lemma LeavingUsesBudget(t: Sched, d: nat, pid: int, x: nat)
    requires t.current < |t.ring| && d < |t.ring| && t.current != d && DistinctPids(t.ring)
    requires x < |t.ring| && x != d && t.ring[x].pid == pid && IsWaiting(WithoutProcess(t, d), pid)
    ensures t.current != x && IndexOfPid(t.ring, pid) == x
    ensures DistinctPids(WithoutProcess(t, d).ring)
    ensures BudgetOf(WithoutProcess(t, d), pid) <= Budget(t, x)
  {
    OnlyIndexOfPid(t.ring, x);
    UnlinkedIndex(t.ring, d, x);
    UnlinkedIndex(t.ring, d, t.current);
    hide DistinctPids;
    if t.current != x {
      UnlinkingBringsNearer(t.current, x, d, |t.ring|);
    }
  }

  // ---------------------------------------------------------------- every call

  lemma PlainKeepsPids(k: Killable, e: Event)
    requires Permitted(k, Plain(e)) && !e.Tick? && !e.Yield?
    ensures var t := Step(k.s, e);
            && |t.ring| == |k.s.ring| && t.current == k.s.current && k.s.ticks <= t.ticks <= QUANTUM
            && forall i | 0 <= i < |t.ring| :: t.ring[i].pid == k.s.ring[i].pid &&
                 (k.s.ring[i].state == Dead && k.dead == Some(i) ==> t.ring[i].state == Dead)
  {
    if e.UnblockAll? {
      UnblockAllKeepsIdentity(k.s.ring[IndexOfPid(k.s.ring, e.pid)], 0, e.cause);
    }
  }

  lemma CallUsesBudget(k: Killable, c: Call, pid: int)
    requires Permitted(k, c) && IsWaiting(k.s, pid) && IsWaiting(After(k, c).s, pid)
    ensures WellKept(After(k, c))
    ensures BudgetOf(After(k, c).s, pid) + SchedulerCalls(k, c) <= BudgetOf(k.s, pid)
  {
    hide Scheduled;
    if c.Kill? {
      SamePids(k.s.ring, After(k, c).s.ring);
    } else if c.e.Tick? {
      ScheduledUsesBudget(k, pid);
    } else if c.e.Yield? {
      if BeforeYield(k.s).Some? {
        var y := Yielding(k);
        SamePids(k.s.ring, y.s.ring);
        ScheduledUsesBudget(y, pid);
      }
    } else {
      PlainKeepsPids(k, c.e);
      SamePids(k.s.ring, After(k, c).s.ring);
    }
  }

  lemma {:induction false} WaitingUsesBudgetOf(k: Killable, run: seq<Call>, pid: int)
    requires WellKept(k) && CanDo(k, run) && KeepsWaiting(k, run, pid)
    ensures SchedulerCallCount(k, run) <= BudgetOf(k.s, pid)
    decreases |run|
  {
    hide Permitted, After, SchedulerCalls, BudgetOf, WellKept;
    if run == [] {
      WaitingHasBudget(k, pid);
    } else {
      var next := After(k, run[0]);
      assert KeepsWaiting(next, run[1..], pid);
      assert IsWaiting(next.s, pid);
      CallUsesBudget(k, run[0], pid);
      WaitingUsesBudgetOf(next, run[1..], pid);
    }
  }

  lemma WaitingHasBudget(k: Killable, pid: int)
    requires WellKept(k) && IsWaiting(k.s, pid)
    ensures 0 <= BudgetOf(k.s, pid) < (|k.s.ring| - 1) * (QUANTUM + 1)
  {
  }

  /** Bounded waiting with kills: with n processes at the start, one that stays ready becomes
      current within (n - 1) * (QUANTUM + 1) calls of runScheduler, although killed processes
      leave the ring on the way, the current one included. */
  lemma BoundedWaitingWithKills(k: Killable, run: seq<Call>, pid: int)
    requires WellKept(k) && CanDo(k, run)
    requires SchedulerCallCount(k, run) >= (|k.s.ring| - 1) * (QUANTUM + 1)
    ensures !KeepsWaiting(k, run, pid)
  {
    if KeepsWaiting(k, run, pid) {
      WaitingUsesBudgetOf(k, run, pid);
      WaitingHasBudget(k, pid);
    }
  }
}
