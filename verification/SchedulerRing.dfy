/** The scheduler as the kernel runs it (Kernel/scheduler.c): process nodes linked in a circle,
    two pointers into it, and loops that walk it. */
module SchedulerRing {
  import opened Options
  import opened Scheduling
  import opened Sequences
  import opened Statuses

  class Node {
    var process: Process
    var next: Node?

    constructor (process: Process)
      ensures this.process == process
    {
      this.process := process;
      next := null;
    }
  }

  // ---------------------------------------------------------------- loops over one thread ring

  /** nextThread's walk: the nearest ready thread after the current one. */
  method FindReadyThread(threads: seq<Thread>, current: nat) returns (found: nat)
    requires current < |threads| && FirstReady(ThreadStates(threads), current).Some?
    ensures found == FirstReady(ThreadStates(threads), current).value
  {
    var i: nat := current;
    ghost var steps: nat := |threads|;
    ghost var states := ThreadStates(threads);
    while threads[Next(i, |threads|)].state != Ready
      invariant i < |threads|
      invariant Search(states, i, steps) == FirstReady(states, current)
      decreases steps
    {
      i := Next(i, |threads|);
      steps := steps - 1;
    }
    found := Next(i, |threads|);
  }

  /** nextThread, once dead threads are gone. */
  method SwitchThread(p: Process) returns (q: Process)
    requires p.current < |p.threads| && PickThread(p).Some?
    ensures q == NextThread(p)
  {
    q := p;
    if q.threads[q.current].state == Running {
      q := WithThreadState(q, q.current, Ready);
    }
    var j := FindReadyThread(q.threads, q.current);
    q := WithThreadState(q, j, Running).(current := j);
  }

  method AllThreadsAreBlocked(p: Process) returns (all: bool)
    ensures all <==> !HasReadyThread(p)
  {
    for i := 0 to |p.threads|
      invariant forall j | 0 <= j < i :: p.threads[j].state != Ready
    {
      if p.threads[i].state == Ready {
        return false;
      }
    }
    return true;
  }

  method UnblockAllThreadsOf(p: Process, cause: Cause) returns (q: Process)
    ensures q == UnblockAllFrom(p, 0, cause)
  {
    q := p;
    var count := 0;
    while count < |p.threads|
      invariant |q.threads| == |p.threads| && 0 <= count <= |p.threads|
      invariant UnblockAllFrom(q, count, cause) == UnblockAllFrom(p, 0, cause)
    {
      if q.threads[count].state == Blocked(cause) {
        q := UnblockThread(q, count, cause);
      }
      count := count + 1;
    }
  }

  // ---------------------------------------------------------------- the ring

  ghost predicate Distinct(nodes: seq<Node>) {
    forall i, j | 0 <= i < j < |nodes| :: nodes[i] != nodes[j]
  }

  ghost predicate Circle(nodes: seq<Node>)
    reads nodes
  {
    forall i {:trigger nodes[i].next} | 0 <= i < |nodes| :: nodes[i].next == nodes[Next(i, |nodes|)]
  }

  ghost predicate Holds(nodes: seq<Node>, ps: seq<Process>)
    reads nodes
  {
    |ps| == |nodes| && forall i {:trigger nodes[i].process} | 0 <= i < |nodes| :: nodes[i].process == ps[i]
  }

  predicate DistinctPids(ps: seq<Process>) {
    forall i, j | 0 <= i < j < |ps| :: ps[i].pid != ps[j].pid
  }

  lemma OnlyIndexOfPid(ps: seq<Process>, i: nat)
    requires i < |ps| && DistinctPids(ps)
    ensures IndexOfPid(ps, ps[i].pid) == i
  {
    var k := IndexOfPid(ps, ps[i].pid);
    assert k <= i && ps[k].pid == ps[i].pid;
  }

  /** One circle from pid 0 at the head to pid 1 at the end, pids below the counter, no two alike. */
  ghost predicate RingOk(ps: seq<Process>, currentPid: int) {
    && DistinctPids(ps) && currentPid >= 0
    && (ps == [] <==> currentPid == 0) && (|ps| == 1 <==> currentPid == 1)
    && (ps != [] ==> ps[0].pid == 0)
    && (|ps| > 1 ==> ps[|ps| - 1].pid == 1)
    && (forall i | 0 <= i < |ps| :: 0 <= ps[i].pid < currentPid)
  }

  /** At most one dead process is linked, strictly inside the ring, and queueSize leaves it out. */
  ghost predicate DeadOk(ps: seq<Process>, dead: Option<nat>, queueSize: int) {
    && (dead.Some? ==> 0 < dead.value < |ps| - 1)
    && (forall i: nat | i < |ps| :: ps[i].state == Dead <==> dead == Some(i))
    && queueSize == |ps| - (if dead.Some? then 1 else 0)
  }

  lemma InsertSecondAt<T>(s: seq<T>, x: T)
    requires s != []
    ensures var r := InsertSecond(s, x);
            && |r| == |s| + 1 && r[0] == s[0] && r[1] == x
            && (forall i | 2 <= i < |r| :: r[i] == s[i - 1])
            && (forall i | 1 <= i < |s| :: s[i] == r[i + 1])
  {
  }

  lemma InsertSecondHolds(nodes: seq<Node>, ps: seq<Process>, node: Node)
    requires nodes != [] && Holds(nodes, ps)
    ensures Holds(InsertSecond(nodes, node), InsertSecond(ps, node.process))
  {
    InsertSecondAt(nodes, node);
    InsertSecondAt(ps, node.process);
    hide InsertSecond;
  }

  lemma InsertSecondMembers(nodes: seq<Node>, node: Node)
    requires nodes != []
    ensures (set n | n in InsertSecond(nodes, node)) == (set n | n in nodes) + {node}
  {
    assert nodes == [nodes[0]] + nodes[1..];
  }

  lemma InsertSecondDistinct(nodes: seq<Node>, node: Node)
    requires nodes != [] && Distinct(nodes) && node !in nodes
    ensures Distinct(InsertSecond(nodes, node)) && nodes[0] != node
    ensures forall i | 1 <= i < |nodes| :: nodes[i] != nodes[0]
  {
  }

  /** The ring after a process is linked in: alone, or right behind the head. */
  function LinkedIn(ps: seq<Process>, p: Process): seq<Process> {
    if ps == [] then [p] else InsertSecond(ps, p)
  }

  lemma LinkedInKeepsRingOk(ps: seq<Process>, p: Process, currentPid: int)
    requires RingOk(ps, currentPid) && p.pid == currentPid
    ensures RingOk(LinkedIn(ps, p), currentPid + 1)
  {
    if ps != [] {
      InsertSecondAt(ps, p);
      hide InsertSecond;
    }
  }

  lemma LinkedInKeepsDeadOk(ps: seq<Process>, p: Process, dead: Option<nat>, queueSize: int)
    requires DeadOk(ps, dead, queueSize) && p.state != Dead
    ensures DeadOk(LinkedIn(ps, p), if dead.Some? then Some(dead.value + 1) else None, queueSize + 1)
  {
    if ps != [] {
      InsertSecondAt(ps, p);
      hide InsertSecond;
      var r := InsertSecond(ps, p);
      forall i: nat | i < |r|
        ensures r[i].state == Dead <==> (dead.Some? && dead.value + 1 == i)
      {
        if i >= 2 {
          assert r[i] == ps[i - 1];
        }
      }
    }
  }

  lemma UpdateKeepsRingOk(ps: seq<Process>, i: nat, p: Process, currentPid: int, dead: Option<nat>, queueSize: int)
    requires i < |ps| && p.pid == ps[i].pid && (p.state == Dead <==> ps[i].state == Dead)
    requires RingOk(ps, currentPid) && DeadOk(ps, dead, queueSize)
    ensures RingOk(ps[i := p], currentPid) && DeadOk(ps[i := p], dead, queueSize)
  {
  }

  lemma IndexAfterUpdate(ps: seq<Process>, i: nat, p: Process, currentPid: int)
    requires RingOk(ps, currentPid) && i < |ps| && p.pid == ps[i].pid
    ensures IndexOfPid(ps[i := p], p.pid) == i
  {
    OnlyIndexOfPid(ps[i := p], i);
  }

  lemma {:induction false} UnblockAllKeepsIdentity(p: Process, j: nat, cause: Cause)
    requires j <= |p.threads|
    ensures var q := UnblockAllFrom(p, j, cause);
            q.pid == p.pid && (q.state == p.state || (p.state == Blocked(cause) && q.state == Ready))
    decreases |p.threads| - j
  {
    if j == |p.threads| {
    } else {
      UnblockAllKeepsIdentity(if p.threads[j].state == Blocked(cause) then UnblockThread(p, j, cause) else p, j + 1, cause);
    }
  }

  function WithNewThread(p: Process, pthread: int): Process {
    if p.threads == [] then p.(threads := [Thread(pthread, Ready)], current := 0)
    else p.(threads := InsertSecond(p.threads, Thread(pthread, Ready)), current := ShiftedBy(p.current))
  }

  /** A thread that is new to its process comes second, ready; the others are as they were, in order,
      and so is the one that is current. */
  predicate ThreadAdded(p: Process, q: Process, pthread: int) {
    && q.pid == p.pid && q.state == p.state && q.threadTick == p.threadTick
    && |q.threads| == |p.threads| + 1 && p.current < |p.threads| && q.current < |q.threads|
    && q.threads[1] == Thread(pthread, Ready) && q.threads[0] == p.threads[0]
    && (forall j | 1 <= j < |p.threads| :: q.threads[j + 1] == p.threads[j])
    && q.current != 1 && q.threads[q.current] == p.threads[p.current]
  }

  lemma NewThreadIsSecond(p: Process, pthread: int)
    requires p.current < |p.threads|
    ensures ThreadAdded(p, WithNewThread(p, pthread), pthread)
  {
    InsertSecondAt(p.threads, Thread(pthread, Ready));
    hide InsertSecond;
  }

  /** The scheduler's event of that name. */
  lemma NewThreadIsEvent(s: Sched, pid: int, pthread: int)
    requires Enabled(s, AddThread(pid, pthread))
    ensures var i := IndexOfPid(s.ring, pid);
            Step(s, AddThread(pid, pthread)) == s.(ring := s.ring[i := WithNewThread(s.ring[i], pthread)])
  {
  }

  /** A new process is the scheduler's event too: its pid is not in use. */
  lemma NewProcessIsEvent(s: Sched, currentPid: int)
    requires RingOk(s.ring, currentPid) && s.ring != [] && s.current < |s.ring|
    ensures Enabled(s, AddProcess(currentPid, 0))
    ensures Step(s, AddProcess(currentPid, 0))
         == s.(ring := LinkedIn(s.ring, Process(currentPid, Ready, [Thread(0, Ready)], 0, 0)),
               current := ShiftedBy(s.current))
  {
  }

  /** Where a process just linked in is found. */
  lemma LinkedInIndex(ps: seq<Process>, p: Process, currentPid: int)
    requires RingOk(ps, currentPid) && p.pid == currentPid
    ensures var r, i := LinkedIn(ps, p), if ps == [] then 0 else 1;
            && IndexOfPid(r, p.pid) == i < |r| && r[i] == p
            && forall q: Process :: r[i := q] == LinkedIn(ps, q)
  {
    LinkedInKeepsRingOk(ps, p, currentPid);
    OnlyIndexOfPid(LinkedIn(ps, p), if ps == [] then 0 else 1);
  }

  lemma KillKeepsRingOk(ps: seq<Process>, i: nat, currentPid: int, queueSize: int)
    requires RingOk(ps, currentPid) && DeadOk(ps, None, queueSize) && i < |ps| && ps[i].pid != 0 && ps[i].pid != 1
    ensures RingOk(ps[i := ps[i].(state := Dead)], currentPid)
    ensures DeadOk(ps[i := ps[i].(state := Dead)], Some(i), queueSize - 1)
  {
  }

  /** queueSize is the number of nodes, less a dead one still linked. */
  ghost predicate Counted(ps: seq<Process>, queueSize: int) {
    exists dead: Option<nat> :: DeadOk(ps, dead, queueSize)
  }

  /** blockProcess does not look whether the process is dead. It leaves the ring consistent with
      queueSize if and only if it is not: a dead process that blocks is linked for good, and no
      longer counted. */
  lemma BlockingKeepsCountExactly(ps: seq<Process>, dead: Option<nat>, queueSize: int, i: nat, cause: Cause)
    requires DeadOk(ps, dead, queueSize) && i < |ps|
    ensures Counted(ps[i := ps[i].(state := Blocked(cause))], queueSize) <==> dead != Some(i)
  {
    var ps' := ps[i := ps[i].(state := Blocked(cause))];
    if dead == Some(i) {
      forall d: Option<nat> ensures !DeadOk(ps', d, queueSize) {
        assert forall k: nat | k < |ps'| :: ps'[k].state != Dead;
      }
    } else {
      assert DeadOk(ps', dead, queueSize);
    }
  }

  function Unlinked<T>(s: seq<T>, dead: Option<nat>): seq<T> {
    if dead.Some? && dead.value < |s| then Without(s, dead.value) else s
  }

  lemma UnlinkedAt<T>(s: seq<T>, dead: Option<nat>)
    requires dead.Some? ==> dead.value < |s|
    ensures var r := Unlinked(s, dead);
            && |r| == |s| - (if dead.Some? then 1 else 0)
            && forall i | 0 <= i < |r| :: r[i] == s[if dead.Some? && i >= dead.value then i + 1 else i]
  {
  }

  lemma UnlinkedDistinct(nodes: seq<Node>, dead: Option<nat>)
    requires Distinct(nodes)
    ensures Distinct(Unlinked(nodes, dead))
  {
  }

  /** The successor of place i once the dead node is bypassed. */
  function NextLive(i: nat, n: nat, dead: Option<nat>): (k: nat)
    ensures i < n ==> k < n
  {
    if dead == Some(Next(i, n)) then Next(Next(i, n), n) else Next(i, n)
  }

  /** A dead node already passed is not the next one. */
  lemma NextLiveAhead(i: nat, n: nat, dead: Option<nat>)
    requires i < n && (dead.Some? ==> 0 < dead.value <= i)
    ensures NextLive(i, n, dead) == if i + 1 == n then 0 else i + 1
  {
  }

  /** Every node, the dead one too, points to the next one that is not dead. */
  ghost predicate Bypassing(nodes: seq<Node>, dead: Option<nat>)
    reads nodes
  {
    forall i: nat {:trigger nodes[i].next} | i < |nodes| :: nodes[i].next == nodes[NextLive(i, |nodes|, dead)]
  }

  /** The dead node as far as a walk has passed it. */
  function Passed(dead: Option<nat>, done: nat): Option<nat> {
    if dead.Some? && dead.value < done then dead else None
  }

  lemma CircleBypasses(nodes: seq<Node>, dead: Option<nat>)
    requires Circle(nodes)
    ensures Bypassing(nodes, Passed(dead, 0))
  {
    forall i: nat | i < |nodes|
      ensures nodes[i].next == nodes[NextLive(i, |nodes|, None)]
    {
      assert nodes[i].next == nodes[Next(i, |nodes|)];
    }
  }

  lemma BypassingMakesCircle(nodes: seq<Node>, dead: Option<nat>)
    requires Bypassing(nodes, dead) && (dead.Some? ==> 0 < dead.value < |nodes| - 1)
    ensures Circle(Unlinked(nodes, dead))
    ensures nodes != [] ==> Unlinked(nodes, dead) != [] && Unlinked(nodes, dead)[0] == nodes[0]
  {
    UnlinkedAt(nodes, dead);
    hide Unlinked;
    var r := Unlinked(nodes, dead);
    forall i | 0 <= i < |r|
      ensures r[i].next == r[Next(i, |r|)]
    {
      var k: nat := if dead.Some? && i >= dead.value then i + 1 else i;
      assert nodes[k].next == nodes[NextLive(k, |nodes|, dead)];
    }
  }

  lemma UnlinkedHolds(nodes: seq<Node>, ps: seq<Process>, dead: Option<nat>)
    requires Holds(nodes, ps) && (dead.Some? ==> dead.value < |nodes|)
    ensures Holds(Unlinked(nodes, dead), Unlinked(ps, dead))
    ensures |Unlinked(nodes, dead)| == |Unlinked(ps, dead)|
  {
    UnlinkedAt(nodes, dead);
    UnlinkedAt(ps, dead);
    hide Unlinked;
  }

  lemma UnlinkedKeepsRingOk(ps: seq<Process>, dead: Option<nat>, currentPid: int, queueSize: int)
    requires RingOk(ps, currentPid) && DeadOk(ps, dead, queueSize)
    ensures RingOk(Unlinked(ps, dead), currentPid) && DeadOk(Unlinked(ps, dead), None, queueSize)
    ensures |Unlinked(ps, dead)| == queueSize
  {
    if dead.Some? {
      var d := dead.value;
      UnlinkedAt(ps, dead);
      UnlinkedPids(ps, d);
      hide Unlinked, DistinctPids;
      var r := Unlinked(ps, dead);
      forall i: nat | i < |r| ensures r[i].state != Dead && 0 <= r[i].pid < currentPid {
        var k := if i >= d then i + 1 else i;
        assert r[i] == ps[k] && k != d;
      }
    }
  }

  lemma UnlinkedPids(ps: seq<Process>, d: nat)
    requires DistinctPids(ps) && d < |ps|
    ensures DistinctPids(Unlinked(ps, Some(d)))
  {
    UnlinkedAt(ps, Some(d));
    hide Unlinked;
  }

  /** A search over a node that is not ready goes on behind it. */
  lemma SkipOne(states: seq<Status>, i: nat, steps: nat)
    requires i < |states| && Search(states, i, steps).Some? && states[Next(i, |states|)] != Ready
    ensures steps > 0 && Search(states, i, steps) == Search(states, Next(i, |states|), steps - 1)
  {
  }

  /** Where a place of the full ring ends up once the dead node has left it. */
  function PlaceAfter(i: nat, dead: Option<nat>): nat {
    if dead.Some? && i > dead.value then i - 1 else i
  }

  lemma UnlinkedPlace<T>(s: seq<T>, dead: Option<nat>, i: nat)
    requires i < |s| && (dead.Some? ==> dead.value < |s| && dead.value != i)
    ensures PlaceAfter(i, dead) < |Unlinked(s, dead)| && Unlinked(s, dead)[PlaceAfter(i, dead)] == s[i]
  {
  }

  lemma SwitchedRing(s: Sched, dead: Option<nat>, currentPid: int, queueSize: int)
    requires RingOk(s.ring, currentPid) && DeadOk(s.ring, dead, queueSize)
    requires s.current < |s.ring| && Pick(s).Some?
    ensures var t := Switch(s);
            && RingOk(Unlinked(t.ring, dead), currentPid) && DeadOk(Unlinked(t.ring, dead), None, queueSize)
            && |Unlinked(t.ring, dead)| == queueSize
            && |Demote(s)| == |t.ring| == |s.ring| && t.ticks == 0 && t.current == Pick(s).value < |s.ring|
            && (dead.Some? ==> 0 < dead.value < |s.ring| - 1 && t.current != dead.value
                               && Demote(s)[dead.value].state == Dead
                               && Unlinked(t.ring, dead) == Without(t.ring, dead.value))
            && (dead == None ==> Unlinked(t.ring, dead) == t.ring)
  {
    FirstReadyIsNearest(States(Demote(s)), s.current);
    var j := Pick(s).value;
    UpdateKeepsRingOk(s.ring, s.current, Demote(s)[s.current], currentPid, dead, queueSize);
    UpdateKeepsRingOk(Demote(s), j, Switch(s).ring[j], currentPid, dead, queueSize);
    UnlinkedKeepsRingOk(Switch(s).ring, dead, currentPid, queueSize);
  }

  lemma SwitchedIsRun(s: Sched, dead: Option<nat>)
    requires CanSchedule(s) && s.ticks >= QUANTUM
    requires dead.Some? ==> dead.value < |s.ring| && s.ring[dead.value].state == Dead
    ensures var t := Switch(s);
            RunSchedulerWithDead(s, dead) == Sched(Unlinked(t.ring, dead), PlaceAfter(t.current, dead), 0)
  {
  }

  /** Place i of the ring once place d has left it, seen from before. */
  function PlaceBefore(i: nat, d: nat): nat {
    if i >= d then i + 1 else i
  }

  /** The process at place d is out of the ring, a ready one is current and RUNNING, and the others
      are as they were. */
  predicate GaveWay(s: Sched, t: Sched, d: nat) {
    && d < |s.ring| && |t.ring| == |s.ring| - 1 && t.current < |t.ring| && t.ticks == 0
    && s.ring[PlaceBefore(t.current, d)].state == Ready
    && t.ring[t.current] == s.ring[PlaceBefore(t.current, d)].(state := Running)
    && forall i | 0 <= i < |t.ring| && i != t.current :: t.ring[i] == s.ring[PlaceBefore(i, d)]
  }

  /** What a killed process that is still current does when it yields. */
  lemma KilledGivesWay(s: Sched, d: nat)
    requires s.current == d < |s.ring| && s.ring[d].state == Dead && Enabled(s, Yield)
    ensures BeforeYield(s).Some? && CanSchedule(BeforeYield(s).value)
    ensures GaveWay(s, RunSchedulerWithDead(BeforeYield(s).value, Some(d)), d)
  {
    SwitchGivesWay(s.(ticks := QUANTUM), d);
    hide RunSchedulerWithDead, CanSchedule;
  }

  lemma SwitchGivesWay(s: Sched, d: nat)
    requires s.current == d < |s.ring| && s.ring[d].state == Dead && s.ticks >= QUANTUM && CanSchedule(s)
    ensures GaveWay(s, RunSchedulerWithDead(s, Some(d)), d)
  {
    FirstReadyIsNearest(States(s.ring), s.current);
    assert Demote(s) == s.ring;
    SwitchLeavesDead(s, d);
    hide FirstReady;
  }

  /** Whether the current process and its current thread can go on. */
  predicate CanGoOn(s: Sched)
    requires s.current < |s.ring| && s.ring[s.current].current < |s.ring[s.current].threads|
  {
    var p := s.ring[s.current];
    var thread := p.threads[p.current];
    !IsBlocked(p.state) && p.state != Dead && !IsBlocked(thread.state) && thread.state != Dead
  }

  class Scheduler {
    var processQueue: Node?
    var currentProcess: Node?
    var queueSize: int
    var numberOfTicks: nat
    var currentPid: int
    /** The nodes from processQueue on, the processes they hold, the place of currentProcess, and
        the place of a dead process that is still linked. */
    ghost var ring: seq<Node>
    ghost var ps: seq<Process>
    ghost var at: nat
    ghost var dead: Option<nat>

    ghost predicate Linked()
      reads `processQueue, `ring, ring
    {
      && Distinct(ring) && Circle(ring)
      && processQueue == (if ring == [] then null else ring[0])
    }

    ghost predicate Holding()
      reads `ring, `ps, ring
    {
      Holds(ring, ps)
    }

    ghost predicate Pointed()
      reads `currentProcess, `ring, `at
    {
      if ring == [] then currentProcess == null && at == 0 else at < |ring| && currentProcess == ring[at]
    }

    ghost predicate Valid()
      reads this, ring
    {
      && Linked() && Holding() && Pointed()
      && RingOk(ps, currentPid) && DeadOk(ps, dead, queueSize)
    }

    ghost function View(): Sched
      reads `ps, `at, `numberOfTicks
    {
      Sched(ps, at, numberOfTicks)
    }

    constructor ()
      ensures Valid() && ps == [] && dead == None && numberOfTicks == 0
    {
      processQueue, currentProcess := null, null;
      queueSize, numberOfTicks, currentPid := 0, 0, 0;
      ring, ps, at, dead := [], [], 0, None;
    }

    // -------------------------------------------------------------- looking up and linking in

    method GetProcessWithPid(pid: int) returns (node: Node?)
      requires Valid() && ring != []
      ensures node == if IndexOfPid(ps, pid) < |ring| then ring[IndexOfPid(ps, pid)] else null
    {
      var aux := processQueue.next;
      ghost var n := |ring|;
      ghost var k := 1;
      while aux != processQueue && aux.process.pid != pid
        invariant 1 <= k <= n && aux == ring[if k == n then 0 else k]
        invariant forall m | 1 <= m < k :: ps[m].pid != pid
        decreases n - k
      {
        aux := aux.next;
        k := k + 1;
      }
      if aux.process.pid == pid {
        OnlyIndexOfPid(ps, if k == n then 0 else k);
        return aux;
      }
      return null;
    }

    method AddProcessToQueue(p: Process)
      requires Valid() && p.pid == currentPid && p.state != Dead && p.threadTick == 0
      modifies this, (set n | n in ring)`next
      ensures Valid() && numberOfTicks == old(numberOfTicks) && currentPid == old(currentPid) + 1
      ensures ps == LinkedIn(old(ps), p) && (old(ps) != [] ==> at == ShiftedBy(old(at)))
      ensures dead == if old(dead).Some? then Some(old(dead).value + 1) else None
      ensures fresh((set n | n in ring) - old(set n | n in ring))
    {
      hide RingOk, DeadOk, LinkedIn, Circle, Distinct;
      LinkedInKeepsRingOk(ps, p, currentPid);
      LinkedInKeepsDeadOk(ps, p, dead, queueSize);
      var node := new Node(p);
      LinkNode(node);
      dead := if dead.Some? then Some(dead.value + 1) else None;
      queueSize := queueSize + 1;
      currentPid := currentPid + 1;
    }

    method LinkNode(node: Node)
      requires Linked() && Pointed() && Holding() && node !in ring
      modifies this`processQueue, this`currentProcess, this`ring, this`ps, this`at, node`next, (set n | n in ring)`next
      ensures Linked() && Pointed() && Holding() && ps == LinkedIn(old(ps), node.process)
      ensures old(ps) != [] ==> at == ShiftedBy(old(at))
      ensures (set n | n in ring) == old(set n | n in ring) + {node}
    {
      if currentProcess == null {
        processQueue := node;
        currentProcess := node;
        processQueue.next := processQueue;
        ring, ps, at := [node], [node.process], 0;
      } else {
        InsertSecondMembers(ring, node);
        ghost var before := ring;
        hide InsertSecond, Distinct, Circle;
        LinkAfterHead(node);
        InsertSecondHolds(before, ps, node);
        hide Holds;
        ps := InsertSecond(ps, node.process);
      }
    }

    method LinkAfterHead(node: Node)
      requires Linked() && ring != [] && node !in ring && at < |ring| && currentProcess == ring[at]
      modifies this`ring, this`at, node`next, (set n | n in ring)`next
      ensures Linked() && ring == InsertSecond(old(ring), node) && at == ShiftedBy(old(at))
      ensures at < |ring| && currentProcess == ring[at]
    {
      ghost var before := ring;
      InsertSecondDistinct(before, node);
      InsertSecondAt(before, node);
      hide InsertSecond, Distinct;
      node.next := processQueue.next;
      processQueue.next := node;
      ring, at := InsertSecond(ring, node), ShiftedBy(at);
      forall i | 0 <= i < |ring|
        ensures ring[i].next == ring[Next(i, |ring|)]
      {
        if i >= 2 {
          assert ring[i] == before[i - 1];
        }
      }
    }

    // -------------------------------------------------------------- blocking and waking

    /** One process changes; neither its pid nor its being dead does. */
    method UpdateProcess(node: Node, ghost i: nat, p: Process)
      requires Valid() && i < |ring| && ring[i] == node
      requires p.pid == ps[i].pid && (p.state == Dead <==> ps[i].state == Dead)
      modifies node`process, this`ps
      ensures Valid() && ps == old(ps)[i := p]
    {
      UpdateKeepsRingOk(ps, i, p, currentPid, dead, queueSize);
      hide RingOk, DeadOk, Circle;
      node.process := p;
      ps := ps[i := p];
    }

    method BlockProcess(pid: int, blockType: Cause)
      requires Valid() && IndexOfPid(ps, pid) < |ring| && dead != Some(IndexOfPid(ps, pid))
      modifies this`numberOfTicks, this`ps, (set n | n in ring)`process
      ensures Valid() && numberOfTicks == QUANTUM
      ensures var i := IndexOfPid(old(ps), pid); ps == old(ps)[i := old(ps)[i].(state := Blocked(blockType))]
    {
      hide RingOk, Linked;
      var node := GetProcessWithPid(pid);
      UpdateProcess(node, IndexOfPid(ps, pid), node.process.(state := Blocked(blockType)));
      numberOfTicks := QUANTUM;
    }

    method BlockThread(pid: int, pthread: int, blockType: Cause)
      requires Valid() && HasThread(View(), pid, pthread) && dead != Some(IndexOfPid(ps, pid))
      modifies this`numberOfTicks, this`ps, (set n | n in ring)`process
      ensures Valid() && View() == Scheduling.BlockThread(old(View()), pid, pthread, blockType)
    {
      hide RingOk, DeadOk, Linked, Pointed, HasReadyThread, WithThreadState;
      var node := SetBlocked(pid, pthread, blockType);
      var all := AllThreadsAreBlocked(node.process);
      if all {
        BlockProcess(pid, blockType);
      }
    }

    /** The thread's own state, and the end of its turn. */
    method SetBlocked(pid: int, pthread: int, blockType: Cause) returns (node: Node)
      requires Valid() && HasThread(View(), pid, pthread) && dead != Some(IndexOfPid(ps, pid))
      modifies this`ps, (set n | n in ring)`process
      ensures Valid()
      ensures var i := IndexOfPid(old(ps), pid);
              var p := old(ps)[i];
              var q := WithThreadState(p, IndexOfThread(p.threads, pthread), Blocked(blockType))
                       .(threadTick := THREAD_QUANTUM);
              && ps == old(ps)[i := q] && IndexOfPid(ps, pid) == i < |ring| && ring[i] == node && node.process == q
    {
      hide RingOk, DeadOk, Linked, Pointed;
      ghost var i := IndexOfPid(ps, pid);
      node := GetProcessWithPid(pid);
      var p := WithThreadState(node.process, IndexOfThread(node.process.threads, pthread), Blocked(blockType))
               .(threadTick := THREAD_QUANTUM);
      IndexAfterUpdate(ps, i, p, currentPid);
      UpdateProcess(node, i, p);
    }

    method UnblockProcess(pid: int, blockType: Cause)
      requires Valid() && IndexOfPid(ps, pid) < |ring|
      modifies this`ps, (set n | n in ring)`process
      ensures Valid()
      ensures var i := IndexOfPid(old(ps), pid);
              ps == old(ps)[i := Scheduling.UnblockProcess(old(ps)[i], blockType)]
    {
      hide RingOk, DeadOk, Linked;
      var node := GetProcessWithPid(pid);
      var p := node.process;
      if p.state == Blocked(blockType) {
        p := p.(state := Ready);
      }
      UpdateProcess(node, IndexOfPid(ps, pid), p);
    }

    method UnblockThread(pid: int, pthread: int, blockType: Cause)
      requires Valid() && HasThread(View(), pid, pthread)
      modifies this`ps, (set n | n in ring)`process
      ensures Valid()
      ensures var i := IndexOfPid(old(ps), pid);
              ps == old(ps)[i := Scheduling.UnblockThread(old(ps)[i],
                                                          IndexOfThread(old(ps)[i].threads, pthread), blockType)]
    {
      hide RingOk, DeadOk, Linked, Scheduling.UnblockProcess;
      ghost var i := IndexOfPid(ps, pid);
      var node := GetProcessWithPid(pid);
      var j := IndexOfThread(node.process.threads, pthread);
      var p := node.process;
      if p.threads[j].state == Blocked(blockType) {
        p := WithThreadState(p, j, Ready);
      }
      IndexAfterUpdate(ps, i, p, currentPid);
      UpdateProcess(node, i, p);
      UnblockProcess(pid, blockType);
    }

    method UnblockAllThreads(pid: int, blockType: Cause)
      requires Valid() && IndexOfPid(ps, pid) < |ring|
      modifies this`ps, (set n | n in ring)`process
      ensures Valid()
      ensures var i := IndexOfPid(old(ps), pid); ps == old(ps)[i := UnblockAllFrom(old(ps)[i], 0, blockType)]
    {
      hide RingOk, DeadOk, Linked;
      var node := GetProcessWithPid(pid);
      var p := UnblockAllThreadsOf(node.process, blockType);
      UnblockAllKeepsIdentity(node.process, 0, blockType);
      UpdateProcess(node, IndexOfPid(ps, pid), p);
    }

    // -------------------------------------------------------------- new threads and processes

    /** The new thread goes right behind the first one; in an empty ring it is the ring. Nothing
        happens for an unknown pid. */
    method AddThreadToProcess(pid: int) returns (pthread: int)
      requires Valid() && ring != []
      modifies this`ps, (set n | n in ring)`process
      ensures Valid()
      ensures var i := IndexOfPid(old(ps), pid);
              if i == |old(ps)| then pthread == -1 && ps == old(ps)
              else
                var p := old(ps)[i];
                && pthread == |p.threads| && ps == old(ps)[i := WithNewThread(p, pthread)]
                && (p.threads == [] ==> ps[i] == p.(threads := [Thread(pthread, Ready)], current := 0))
                && (p.current < |p.threads| ==> ThreadAdded(p, ps[i], pthread))
      ensures Enabled(old(View()), AddThread(pid, pthread)) ==> View() == Step(old(View()), AddThread(pid, pthread))
    {
      hide RingOk, DeadOk, Linked;
      var node := GetProcessWithPid(pid);
      if node == null {
        return -1;
      }
      pthread := AddThreadTo(node, pid);
    }

    method AddThreadTo(node: Node, ghost pid: int) returns (pthread: int)
      requires Valid() && IndexOfPid(ps, pid) < |ring| && node == ring[IndexOfPid(ps, pid)]
      modifies this`ps, node`process
      ensures Valid()
      ensures var i := IndexOfPid(old(ps), pid);
              var p := old(ps)[i];
              && pthread == |p.threads| && ps == old(ps)[i := WithNewThread(p, pthread)]
              && (p.current < |p.threads| ==> ThreadAdded(p, ps[i], pthread))
      ensures Enabled(old(View()), AddThread(pid, pthread)) ==> View() == Step(old(View()), AddThread(pid, pthread))
    {
      hide RingOk, DeadOk, Linked, Enabled, Step, ThreadAdded;
      var p := node.process;
      pthread := |p.threads|;
      if p.current < |p.threads| {
        NewThreadIsSecond(p, pthread);
      }
      if Enabled(View(), AddThread(pid, pthread)) {
        NewThreadIsEvent(View(), pid, pthread);
      }
      if p.threads == [] {
        p := p.(threads := [Thread(pthread, Ready)], current := 0);
      } else {
        p := p.(threads := InsertSecond(p.threads, Thread(pthread, Ready)), current := ShiftedBy(p.current));
      }
      UpdateProcess(node, IndexOfPid(ps, pid), p);
    }

    method AddFirstThread(pid: int)
      requires Valid() && IndexOfPid(ps, pid) < |ring| && ps[IndexOfPid(ps, pid)].threads == []
      modifies this`ps, (set n | n in ring)`process
      ensures Valid()
      ensures var i := IndexOfPid(old(ps), pid);
              ps == old(ps)[i := old(ps)[i].(threads := [Thread(0, Ready)], current := 0)]
    {
      hide RingOk, DeadOk, Linked, Enabled, Step, ThreadAdded;
      var _ := AddThreadToProcess(pid);
    }

    method LinkProcess() returns (pid: int)
      requires Valid()
      modifies this, ring
      ensures Valid() && pid == old(currentPid) && numberOfTicks == old(numberOfTicks)
      ensures ps == LinkedIn(old(ps), Process(pid, Ready, [Thread(0, Ready)], 0, 0))
      ensures old(ps) != [] ==> at == ShiftedBy(old(at))
    {
      pid := currentPid;
      var p := Process(pid, Ready, [], 0, 0);
      LinkedInIndex(ps, p, currentPid);
      hide RingOk, DeadOk, Linked, LinkedIn;
      AddProcessToQueue(p);
      AddFirstThread(pid);
    }

    /** addProcess: a new pid, linked in, with its first thread. */
    method AddProcess() returns (pid: int)
      requires Valid()
      modifies this, ring
      ensures Valid() && pid == old(currentPid) && numberOfTicks == old(numberOfTicks)
      ensures ps == LinkedIn(old(ps), Process(pid, Ready, [Thread(0, Ready)], 0, 0))
      ensures old(ps) != [] ==> at == ShiftedBy(old(at))
      ensures old(ps) != [] ==> Enabled(old(View()), Event.AddProcess(pid, 0))
                                && View() == Step(old(View()), Event.AddProcess(pid, 0))
    {
      if ps != [] {
        NewProcessIsEvent(View(), currentPid);
      }
      hide *;
      pid := LinkProcess();
    }

    /** The process only becomes DEAD here, but queueSize stops counting it. */
    method RemoveProcess(pid: int)
      requires Valid() && dead == None && IndexOfPid(ps, pid) < |ring|
      modifies this`queueSize, this`dead, this`ps, (set n | n in ring)`process
      ensures Valid()
      ensures var i := IndexOfPid(old(ps), pid);
              if pid == 0 || pid == 1 then ps == old(ps) && dead == None
              else ps == old(ps)[i := old(ps)[i].(state := Dead)] && dead == Some(i)
    {
      if pid == 0 || pid == 1 {
        return;
      }
      hide RingOk, DeadOk, Circle;
      var node := GetProcessWithPid(pid);
      MarkDead(node, IndexOfPid(ps, pid));
    }

    method MarkDead(node: Node, ghost i: nat)
      requires Valid() && dead == None && i < |ring| && ring[i] == node && ps[i].pid != 0 && ps[i].pid != 1
      modifies this`queueSize, this`dead, this`ps, node`process
      ensures Valid() && ps == old(ps)[i := old(ps)[i].(state := Dead)] && dead == Some(i)
    {
      KillKeepsRingOk(ps, i, currentPid, queueSize);
      hide RingOk, DeadOk, Circle;
      node.process := node.process.(state := Dead);
      queueSize := queueSize - 1;
      ps, dead := ps[i := ps[i].(state := Dead)], Some(i);
    }

    // -------------------------------------------------------------- unlinking and switching

    /** Unlinks exactly the dead node: the others keep their order, queueSize counts them, and the
        unlinked node still points into the ring. */
    method RemoveDeadProcess()
      requires Valid() && ring != []
      modifies this`ring, this`ps, this`dead, ring
      ensures Linked() && Holding() && RingOk(ps, currentPid) && DeadOk(ps, None, queueSize) && dead == None
      ensures Holds(old(ring), old(ps))
      ensures ring == Unlinked(old(ring), old(dead)) && ps == Unlinked(old(ps), old(dead))
      ensures |ring| == queueSize
      ensures Bypassing(old(ring), old(dead))
    {
      hide RingOk, DeadOk, Unlinked, Distinct, Bypassing, Circle, Holds;
      BypassDeadProcess();
      ForgetDead();
    }

    /** The bypassed node leaves the ring. */
    ghost method ForgetDead()
      requires Bypassing(ring, dead) && Holds(ring, ps) && Distinct(ring) && ring != [] && processQueue == ring[0]
      requires RingOk(ps, currentPid) && DeadOk(ps, dead, queueSize)
      modifies this`ring, this`ps, this`dead
      ensures Linked() && Holding() && RingOk(ps, currentPid) && DeadOk(ps, None, queueSize) && dead == None
      ensures ring == Unlinked(old(ring), old(dead)) && ps == Unlinked(old(ps), old(dead))
      ensures |ring| == queueSize
    {
      assert |ring| == |ps|;
      hide RingOk, Unlinked, Distinct, Bypassing, Circle, NextLive, Holds;
      UnlinkedKeepsRingOk(ps, dead, currentPid, queueSize);
      UnlinkedHolds(ring, ps, dead);
      UnlinkedDistinct(ring, dead);
      BypassingMakesCircle(ring, dead);
      hide DeadOk;
      ps, ring := Unlinked(ps, dead), Unlinked(ring, dead);
      dead := None;
    }

    /** The loop of removeDeadProcess. */
    method BypassDeadProcess()
      requires Valid() && ring != []
      modifies (set n | n in ring)`next
      ensures Bypassing(ring, dead) && Holding() && processQueue == ring[0]
    {
      var current, prev: Node? := processQueue, null;
      var i := 0;
      CircleBypasses(ring, dead);
      assert queueSize <= |ring| && (dead.Some? ==> dead.value < queueSize);
      assert Passed(dead, queueSize) == dead;
      hide RingOk, DeadOk, Circle, Distinct, Bypassing, Holds, Passed;
      while i < queueSize
        invariant 0 <= i <= queueSize
        invariant current == ring[if i == |ring| then 0 else i]
        invariant i > 0 ==> prev == ring[i - 1]
        invariant Bypassing(ring, Passed(dead, i)) && Holding()
      {
        BypassIfDead(prev, current, i);
        prev := current;
        current := current.next;
        i := i + 1;
      }
    }

    /** One node of the walk: bypassed if it is dead, and its successor is the next place anyway. */
    method BypassIfDead(prev: Node?, current: Node, ghost i: nat)
      requires Distinct(ring) && Holding() && DeadOk(ps, dead, queueSize) && i < queueSize
      requires Bypassing(ring, Passed(dead, i)) && current == ring[i] && (i > 0 ==> prev == ring[i - 1])
      modifies (set n | n in ring)`next
      ensures Bypassing(ring, Passed(dead, i + 1)) && current.next == ring[if i + 1 == |ring| then 0 else i + 1]
    {
      if current.process.state == Dead {
        assert dead == Some(i) && Passed(dead, i) == None;
        BypassNode(prev, current, i);
      } else {
        assert Passed(dead, i + 1) == Passed(dead, i);
      }
      assert current.next == ring[NextLive(i, |ring|, Passed(dead, i + 1))];
      NextLiveAhead(i, |ring|, Passed(dead, i + 1));
    }

    method BypassNode(prev: Node, current: Node, ghost i: nat)
      requires Distinct(ring) && Bypassing(ring, None) && 0 < i < |ring| && prev == ring[i - 1] && current == ring[i]
      modifies prev`next
      ensures Bypassing(ring, Some(i))
    {
      prev.next := current.next;
      forall k: nat | k < |ring|
        ensures ring[k].next == ring[NextLive(k, |ring|, Some(i))]
      {
        if k != i - 1 {
          assert ring[k] != prev && ring[k].next == ring[NextLive(k, |ring|, None)];
        }
      }
    }

    /** The walk of runScheduler to the nearest ready process, from a node that may itself have
        just been unlinked: skipping the dead node changes nothing about which is found. */
    method FindReadyProcess(ghost all: seq<Node>, ghost allPs: seq<Process>, ghost start: nat, ghost gone: Option<nat>)
      requires Holds(all, allPs) && Bypassing(all, gone) && start < |all| && currentProcess == all[start]
      requires gone.Some? ==> gone.value < |all| && allPs[gone.value].state == Dead && 1 < |all|
      requires FirstReady(States(allPs), start).Some?
      modifies this`currentProcess
      ensures currentProcess == all[FirstReady(States(allPs), start).value]
    {
      ghost var i: nat := start;
      ghost var steps: nat := |all|;
      ghost var states := States(allPs);
      while currentProcess.next.process.state != Ready
        invariant i < |all| && currentProcess == all[i]
        invariant Search(states, i, steps) == FirstReady(states, start)
        decreases steps
      {
        if gone == Some(Next(i, |all|)) {
          SkipOne(states, i, steps);
          i, steps := Next(i, |all|), steps - 1;
        }
        i, steps := Next(i, |all|), steps - 1;
        currentProcess := currentProcess.next;
      }
      if gone == Some(Next(i, |all|)) {
        SkipOne(states, i, steps);
      }
      currentProcess := currentProcess.next;
    }

    /** threadCheck on the current process. */
    method ThreadCheck()
      requires Valid() && ring != [] && CanCheck(ps[at])
      modifies this`ps, (set n | n in ring)`process
      ensures Valid() && ps == old(ps)[at := Scheduling.ThreadCheck(old(ps)[at])]
    {
      hide RingOk, DeadOk, Linked;
      var p := currentProcess.process;
      if p.threadTick < THREAD_QUANTUM {
        p := p.(threadTick := p.threadTick + 1);
      } else {
        p := SwitchThread(p.(threadTick := 0));
      }
      UpdateProcess(currentProcess, at, p);
    }

    /** A tick, or a switch: unlink a dead process, find the nearest ready one, make it current. */
    method RunScheduler()
      requires Valid() && (ring != [] ==> CanSchedule(View()))
      modifies this`currentProcess, this`numberOfTicks, this`ring, this`ps, this`at, this`dead, ring
      ensures Valid()
      ensures if old(ring) == [] then View() == old(View())
              else View() == RunSchedulerWithDead(old(View()), old(dead))
    {
      if currentProcess == null {
        return;
      }
      if numberOfTicks < QUANTUM {
        hide RingOk, DeadOk, Linked;
        numberOfTicks := numberOfTicks + 1;
        ThreadCheck();
        return;
      }
      SwitchedIsRun(View(), dead);
      hide RunSchedulerWithDead, Switch, Unlinked, RingOk, DeadOk, Linked;
      SwitchProcess();
    }

    method SwitchProcess()
      requires Valid() && ring != [] && Pick(View()).Some?
      modifies this`currentProcess, this`numberOfTicks, this`ring, this`ps, this`at, this`dead, ring
      ensures Valid() && dead == None && numberOfTicks == 0
      ensures ps == Unlinked(Switch(old(View())).ring, old(dead))
      ensures at == PlaceAfter(Switch(old(View())).current, old(dead))
    {
      assert |ring| == |ps|;
      hide RingOk, DeadOk, Unlinked, Pick, Circle, Holds, Bypassing, Distinct, Switch;
      ghost var s, all, gone := View(), ring, dead;
      RemoveDeadProcess();
      numberOfTicks := 0;
      PassTheTurn(all, s, gone);
      RecordSwitch(all, s, gone);
    }

    ghost method RecordSwitch(all: seq<Node>, s: Sched, gone: Option<nat>)
      requires s.current < |s.ring| && Pick(s).Some? && |all| == |s.ring|
      requires RingOk(s.ring, currentPid) && DeadOk(s.ring, gone, queueSize) && dead == None
      requires Linked() && ring == Unlinked(all, gone)
      requires Holds(all, Switch(s).ring) && currentProcess == all[Pick(s).value]
      modifies this`ps, this`at
      ensures Valid() && ps == Unlinked(Switch(s).ring, gone) && at == PlaceAfter(Switch(s).current, gone)
    {
      hide RingOk, DeadOk, Unlinked, Holds, Linked, Pick, Switch, Demote;
      SwitchedRing(s, gone, currentPid, queueSize);
      UnlinkedHolds(all, Switch(s).ring, gone);
      UnlinkedPlace(all, gone, Pick(s).value);
      ps, at := Unlinked(Switch(s).ring, gone), PlaceAfter(Pick(s).value, gone);
    }

    /** From the current node, unlinked or not, to the nearest ready one. */
    method PassTheTurn(ghost all: seq<Node>, ghost s: Sched, ghost gone: Option<nat>)
      requires Linked() && Distinct(all) && Holds(all, s.ring) && Bypassing(all, gone)
      requires s.current < |all| == |s.ring| && currentProcess == all[s.current] && Pick(s).Some?
      requires DeadOk(s.ring, gone, queueSize)
      modifies this`currentProcess, all
      ensures Linked() && Holds(all, Switch(s).ring) && currentProcess == all[Pick(s).value]
    {
      hide FirstReady, Circle, Holds, Bypassing, Distinct, Linked;
      DemoteCurrent(all, s, gone);
      FindReadyProcess(all, Demote(s), s.current, gone);
      Promote(all, s, gone);
    }

    method DemoteCurrent(ghost all: seq<Node>, ghost s: Sched, ghost gone: Option<nat>)
      requires Linked() && Distinct(all) && Holds(all, s.ring) && Bypassing(all, gone)
      requires s.current < |all| && currentProcess == all[s.current]
      modifies currentProcess`process
      ensures Linked() && Bypassing(all, gone) && Holds(all, Demote(s))
    {
      if currentProcess.process.state == Running {
        SetCurrentState(Ready, all, s.ring, gone, s.current);
      }
    }

    method Promote(ghost all: seq<Node>, ghost s: Sched, ghost gone: Option<nat>)
      requires Linked() && Distinct(all) && Bypassing(all, gone)
      requires s.current < |s.ring| && Pick(s).Some? && Holds(all, Demote(s)) && currentProcess == all[Pick(s).value]
      modifies currentProcess`process
      ensures Linked() && Holds(all, Switch(s).ring)
    {
      SetCurrentState(Running, all, Demote(s), gone, Pick(s).value);
    }

    /** The current node may be one that was just unlinked from `all`. */
    method SetCurrentState(state: Status, ghost all: seq<Node>, ghost allPs: seq<Process>,
                           ghost gone: Option<nat>, ghost i: nat)
      requires Linked() && Distinct(all) && Holds(all, allPs) && Bypassing(all, gone)
      requires i < |all| && currentProcess == all[i]
      modifies currentProcess`process
      ensures Linked() && Bypassing(all, gone) && Holds(all, allPs[i := allPs[i].(state := state)])
    {
      currentProcess.process := currentProcess.process.(state := state);
    }

    method GiveUpTurn()
      requires Valid() && (ring != [] ==> Enabled(View(), Yield))
      modifies this`currentProcess, this`numberOfTicks, this`ring, this`ps, this`at, this`dead, ring
      ensures Valid()
      ensures if old(ring) == [] || BeforeYield(old(View())).None? then View() == old(View())
              else View() == RunSchedulerWithDead(BeforeYield(old(View())).value, old(dead))
    {
      if currentProcess == null {
        return;
      }
      hide RingOk, DeadOk, Linked;
      var p := currentProcess.process;
      if IsBlocked(p.state) || p.state == Dead {
        numberOfTicks := QUANTUM;
        RunScheduler();
      } else if IsBlocked(p.threads[p.current].state) || p.threads[p.current].state == Dead {
        UpdateProcess(currentProcess, at, p.(threadTick := THREAD_QUANTUM));
        RunScheduler();
      }
    }

    /** A blocked or dead process, or thread, gives up its turn at once; others go on. */
    method YieldSwitch()
      requires Valid() && (ring != [] ==> Enabled(View(), Yield))
      modifies this`currentProcess, this`numberOfTicks, this`ring, this`ps, this`at, this`dead, ring
      ensures Valid()
      ensures if old(ring) == [] || BeforeYield(old(View())).None? then View() == old(View())
              else View() == RunSchedulerWithDead(BeforeYield(old(View())).value, old(dead))
      ensures old(ring) != [] ==>
                var s := old(View());
                var p := s.ring[s.current];
                if CanGoOn(s) then View() == s
                else
                  var last := if IsBlocked(p.state) || p.state == Dead then s.(ticks := QUANTUM)
                              else s.(ring := s.ring[s.current := p.(threadTick := THREAD_QUANTUM)]);
                  CanSchedule(last) && View() == RunSchedulerWithDead(last, old(dead))
      ensures old(ring) != [] && old(dead) == Some(old(at)) ==> GaveWay(old(View()), View(), old(at))
    {
      if dead == Some(at) {
        KilledGivesWay(View(), at);
      }
      if ring != [] {
        ghost var s, p := View(), ps[at];
        assert BeforeYield(s) == if CanGoOn(s) then None
                                 else if IsBlocked(p.state) || p.state == Dead then Some(s.(ticks := QUANTUM))
                                 else Some(s.(ring := s.ring[s.current := p.(threadTick := THREAD_QUANTUM)]));
      }
      hide *;
      GiveUpTurn();
    }
  }
}
