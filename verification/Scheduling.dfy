/** The two-level round-robin scheduler (Kernel/scheduler.c) on values: a ring of processes,
    each with a ring of threads. SchedulerRing.dfy proves the linked-list code against it. */
module Scheduling {
  import opened Options
  import opened Sequences
  import opened Statuses

  const QUANTUM: nat := 5
  const THREAD_QUANTUM: nat := 1

  datatype Thread = Thread(pthread: int, state: Status)

  /** `current` is the place of currentThread in the thread ring. */
  datatype Process = Process(pid: int, state: Status, threads: seq<Thread>, current: nat, threadTick: nat)

  /** ring[0] is processQueue, `current` the place of currentProcess, `ticks` numberOfTicks. */
  datatype Sched = Sched(ring: seq<Process>, current: nat, ticks: nat)

  // ---------------------------------------------------------------- rings

  function Next(i: nat, n: nat): (k: nat)
    ensures i < n ==> k < n
  {
    if i + 1 == n then 0 else i + 1
  }

  /** How many steps lead from i to j, at least one: from i to itself is the whole way round. */
  function Distance(i: nat, j: nat, n: nat): nat
    requires i < n && j < n
  {
    if i < j then j - i else j + n - i
  }

  /** The first Ready node after i, looking at `steps` nodes. */
  function Search(states: seq<Status>, i: nat, steps: nat): (j: Option<nat>)
    requires i < |states|
    ensures j.Some? ==> j.value < |states|
    decreases steps
  {
    if steps == 0 then None
    else
      var k := Next(i, |states|);
      if states[k] == Ready then Some(k) else Search(states, k, steps - 1)
  }

  function FirstReady(states: seq<Status>, i: nat): (j: Option<nat>)
    requires i < |states|
    ensures j.Some? ==> j.value < |states|
  {
    Search(states, i, |states|)
  }

  lemma {:induction false} SearchFinds(states: seq<Status>, i: nat, steps: nat)
    requires i < |states| && steps <= |states|
    ensures var r := Search(states, i, steps);
            && (r.Some? ==> states[r.value] == Ready && Distance(i, r.value, |states|) <= steps)
            && (forall k | 0 <= k < |states| && states[k] == Ready && Distance(i, k, |states|) <= steps ::
                  r.Some? && Distance(i, r.value, |states|) <= Distance(i, k, |states|))
    decreases steps
  {
    if steps == 0 {
    } else {
      SearchFinds(states, Next(i, |states|), steps - 1);
    }
  }

  /** FirstReady is the Ready node nearest in ring order, and None exactly when none is Ready. */
  lemma FirstReadyIsNearest(states: seq<Status>, i: nat)
    requires i < |states|
    ensures var r := FirstReady(states, i);
            && (r.Some? <==> exists k :: 0 <= k < |states| && states[k] == Ready)
            && (r.Some? ==> states[r.value] == Ready)
            && (forall k | 0 <= k < |states| && states[k] == Ready ::
                  r.Some? && Distance(i, r.value, |states|) <= Distance(i, k, |states|))
  {
    SearchFinds(states, i, |states|);
  }

  // ---------------------------------------------------------------- threads of one process

  function ThreadStates(threads: seq<Thread>): seq<Status> {
    seq(|threads|, i requires 0 <= i < |threads| => threads[i].state)
  }

  function DemoteThread(p: Process): seq<Thread>
    requires p.current < |p.threads|
  {
    if p.threads[p.current].state == Running
    then p.threads[p.current := p.threads[p.current].(state := Ready)] else p.threads
  }

  function PickThread(p: Process): Option<nat>
    requires p.current < |p.threads|
  {
    FirstReady(ThreadStates(DemoteThread(p)), p.current)
  }

  function NextThread(p: Process): Process
    requires p.current < |p.threads| && PickThread(p).Some?
  {
    var j := PickThread(p).value;
    p.(threads := DemoteThread(p)[j := DemoteThread(p)[j].(state := Running)], current := j)
  }

  predicate CanCheck(p: Process) {
    p.current < |p.threads| && (p.threadTick >= THREAD_QUANTUM ==> PickThread(p).Some?)
  }

  function ThreadCheck(p: Process): Process
    requires CanCheck(p)
  {
    if p.threadTick < THREAD_QUANTUM then p.(threadTick := p.threadTick + 1)
    else NextThread(p).(threadTick := 0)
  }

  predicate HasReadyThread(p: Process) {
    exists j :: 0 <= j < |p.threads| && p.threads[j].state == Ready
  }

  function WithThreadState(p: Process, j: nat, state: Status): Process
    requires j < |p.threads|
  {
    p.(threads := p.threads[j := p.threads[j].(state := state)])
  }

  /** unblockProcess: only a process blocked for this very cause becomes ready. */
  function UnblockProcess(p: Process, cause: Cause): Process {
    if p.state == Blocked(cause) then p.(state := Ready) else p
  }

  function UnblockThread(p: Process, j: nat, cause: Cause): Process
    requires j < |p.threads|
  {
    UnblockProcess(if p.threads[j].state == Blocked(cause) then WithThreadState(p, j, Ready) else p, cause)
  }

  function UnblockAllFrom(p: Process, j: nat, cause: Cause): Process
    requires j <= |p.threads|
    decreases |p.threads| - j
  {
    if j == |p.threads| then p
    else if p.threads[j].state == Blocked(cause) then UnblockAllFrom(UnblockThread(p, j, cause), j + 1, cause)
    else UnblockAllFrom(p, j + 1, cause)
  }

  // ---------------------------------------------------------------- events

  datatype Event =
    | Tick
    | Yield
    | Block(pid: int, pthread: int, cause: Cause)
    | Unblock(pid: int, pthread: int, cause: Cause)
    | UnblockAll(pid: int, cause: Cause)
    | AddThread(pid: int, pthread: int)
    | AddProcess(pid: int, pthread: int)

  function States(ring: seq<Process>): seq<Status> {
    seq(|ring|, i requires 0 <= i < |ring| => ring[i].state)
  }

  function Demote(s: Sched): seq<Process>
    requires s.current < |s.ring|
  {
    if s.ring[s.current].state == Running
    then s.ring[s.current := s.ring[s.current].(state := Ready)] else s.ring
  }

  function Pick(s: Sched): Option<nat>
    requires s.current < |s.ring|
  {
    FirstReady(States(Demote(s)), s.current)
  }

  function Switch(s: Sched): Sched
    requires s.current < |s.ring| && Pick(s).Some?
  {
    var j := Pick(s).value;
    Sched(Demote(s)[j := Demote(s)[j].(state := Running)], j, 0)
  }

  /** runScheduler comes to an end: the search loop it enters finds a Ready node. */
  predicate CanSchedule(s: Sched) {
    && s.current < |s.ring|
    && if s.ticks < QUANTUM then CanCheck(s.ring[s.current]) else Pick(s).Some?
  }

  function RunScheduler(s: Sched): Sched
    requires CanSchedule(s)
  {
    if s.ticks < QUANTUM
    then s.(ring := s.ring[s.current := ThreadCheck(s.ring[s.current])], ticks := s.ticks + 1)
    else Switch(s)
  }

  function IndexOfPid(ring: seq<Process>, pid: int): (i: nat)
    ensures i <= |ring|
    ensures i < |ring| ==> ring[i].pid == pid
    ensures forall k | 0 <= k < i :: ring[k].pid != pid
  {
    if ring == [] || ring[0].pid == pid then 0 else 1 + IndexOfPid(ring[1..], pid)
  }

  function IndexOfThread(threads: seq<Thread>, pthread: int): (i: nat)
    ensures i <= |threads|
    ensures i < |threads| ==> threads[i].pthread == pthread
    ensures forall k | 0 <= k < i :: threads[k].pthread != pthread
  {
    if threads == [] || threads[0].pthread == pthread then 0 else 1 + IndexOfThread(threads[1..], pthread)
  }

  predicate HasThread(s: Sched, pid: int, pthread: int) {
    var i := IndexOfPid(s.ring, pid);
    i < |s.ring| && IndexOfThread(s.ring[i].threads, pthread) < |s.ring[i].threads|
  }

  function BlockThread(s: Sched, pid: int, pthread: int, cause: Cause): Sched
    requires HasThread(s, pid, pthread)
  {
    var i := IndexOfPid(s.ring, pid);
    var p := WithThreadState(s.ring[i], IndexOfThread(s.ring[i].threads, pthread), Blocked(cause))
             .(threadTick := THREAD_QUANTUM);
    if HasReadyThread(p) then s.(ring := s.ring[i := p])
    else s.(ring := s.ring[i := p.(state := Blocked(cause))], ticks := QUANTUM)
  }

  function InsertSecond<T>(s: seq<T>, x: T): seq<T>
    requires s != []
  {
    [s[0], x] + s[1..]
  }

  /** A node that is not the head moves up one place when another is linked in after the head. */
  function ShiftedBy(current: nat): nat {
    if current == 0 then 0 else current + 1
  }

  predicate IsBlocked(state: Status) {
    state.Blocked?
  }

  /** The call yieldSwitch makes, if any: a blocked process or thread gives up its turn. */
  function BeforeYield(s: Sched): Option<Sched>
    requires s.current < |s.ring| && s.ring[s.current].current < |s.ring[s.current].threads|
  {
    var p := s.ring[s.current];
    if IsBlocked(p.state) || p.state == Dead then Some(s.(ticks := QUANTUM))
    else if IsBlocked(p.threads[p.current].state) || p.threads[p.current].state == Dead
    then Some(s.(ring := s.ring[s.current := p.(threadTick := THREAD_QUANTUM)]))
    else None
  }

  predicate Enabled(s: Sched, e: Event) {
    && s.current < |s.ring|
    && match e
       case Tick => CanSchedule(s)
       case Yield =>
         && s.ring[s.current].current < |s.ring[s.current].threads|
         && (BeforeYield(s).Some? ==> CanSchedule(BeforeYield(s).value))
       case Block(pid, pthread, _) => HasThread(s, pid, pthread)
       case Unblock(pid, pthread, _) => HasThread(s, pid, pthread)
       case UnblockAll(pid, _) => IndexOfPid(s.ring, pid) < |s.ring|
       case AddThread(pid, pthread) =>
         var i := IndexOfPid(s.ring, pid);
         i < |s.ring| && s.ring[i].threads != [] && IndexOfThread(s.ring[i].threads, pthread) == |s.ring[i].threads|
       case AddProcess(pid, _) => IndexOfPid(s.ring, pid) == |s.ring|
  }

  function Step(s: Sched, e: Event): Sched
    requires Enabled(s, e)
  {
    match e
    case Tick => RunScheduler(s)
    case Yield => if BeforeYield(s).Some? then RunScheduler(BeforeYield(s).value) else s
    case Block(pid, pthread, cause) => BlockThread(s, pid, pthread, cause)
    case Unblock(pid, pthread, cause) =>
      var i := IndexOfPid(s.ring, pid);
      s.(ring := s.ring[i := UnblockThread(s.ring[i], IndexOfThread(s.ring[i].threads, pthread), cause)])
    case UnblockAll(pid, cause) =>
      var i := IndexOfPid(s.ring, pid);
      s.(ring := s.ring[i := UnblockAllFrom(s.ring[i], 0, cause)])
    case AddThread(pid, pthread) =>
      var i := IndexOfPid(s.ring, pid);
      var p := s.ring[i];
      s.(ring := s.ring[i := p.(threads := InsertSecond(p.threads, Thread(pthread, Ready)),
                                current := ShiftedBy(p.current))])
    case AddProcess(pid, pthread) =>
      s.(ring := InsertSecond(s.ring, Process(pid, Ready, [Thread(pthread, Ready)], 0, 0)),
         current := ShiftedBy(s.current))
  }

  predicate CanRun(s: Sched, trace: seq<Event>)
    decreases |trace|
  {
    trace != [] ==> Enabled(s, trace[0]) && CanRun(Step(s, trace[0]), trace[1..])
  }

  function Run(s: Sched, trace: seq<Event>): Sched
    requires CanRun(s, trace)
    decreases |trace|
  {
    if trace == [] then s else Run(Step(s, trace[0]), trace[1..])
  }

  // ---------------------------------------------------------------- dead processes

  /** The state once the process at place d, which is not current, has left the ring. */
  function WithoutProcess(s: Sched, d: nat): Sched
    requires d < |s.ring| && s.current != d && s.current < |s.ring|
  {
    s.(ring := Without(s.ring, d), current := if s.current > d then s.current - 1 else s.current)
  }

  lemma SwitchLeavesDead(s: Sched, d: nat)
    requires s.current < |s.ring| && d < |s.ring| && s.ring[d].state == Dead && Pick(s).Some?
    ensures Switch(s).current != d
  {
    FirstReadyIsNearest(States(Demote(s)), s.current);
  }

  /** What runScheduler does with a dead process still linked in: a tick changes nothing about
      it, a switch takes it out of the ring. */
  function RunSchedulerWithDead(s: Sched, dead: Option<nat>): Sched
    requires CanSchedule(s)
    requires dead.Some? ==> dead.value < |s.ring| && s.ring[dead.value].state == Dead
  {
    if dead.None? || s.ticks < QUANTUM then RunScheduler(s)
    else
      SwitchLeavesDead(s, dead.value);
      WithoutProcess(Switch(s), dead.value)
  }
}
