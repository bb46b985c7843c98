/** The scheduler together with the wait lists of semaphores and mutexes (Kernel/scheduler.c,
    semaphores.c, mutex.c). Every call is made by whichever thread is current, blocked or not.
    Threads and lists stay in agreement exactly as long as no call blocks a thread that waits
    already; then every wake-up is of a thread blocked for that very cause. */
module KernelRuns {
  import opened Scheduling
  import opened SchedulerRuns
  import opened Statuses
  import Sync

  datatype Kernel = Kernel(sched: Sched, semaphores: seq<Sync.Semaphore>, mutexes: seq<Sync.Mutex>)

  datatype Call =
    | Scheduler(e: Event)
    | BlockSelf(cause: Cause)
    | PipeBlock(t: Tid)  // readFromPipe on an empty pipe blocks a thread of the receiver, whoever calls
    | NewSemaphore(start: int)
    | NewMutex
    | Up(id: nat)
    | Down(id: nat)
    | Unlock(id: nat)
    | Lock(id: nat)

  // ---------------------------------------------------------------- threads by name

  /** Thread j of process i is the one called t. */
  predicate At(s: Sched, i: nat, j: nat, t: Tid) {
    && i < |s.ring| && j < |s.ring[i].threads|
    && s.ring[i].pid == t.pid && s.ring[i].threads[j].pthread == t.pthread
  }

  predicate Named(s: Sched) {
    && (forall i, k | 0 <= i < k < |s.ring| :: s.ring[i].pid != s.ring[k].pid)
    && forall i | 0 <= i < |s.ring| :: ThreadsNamed(s.ring[i])
  }

  predicate ThreadsNamed(p: Process) {
    forall j, k | 0 <= j < k < |p.threads| :: p.threads[j].pthread != p.threads[k].pthread
  }

  lemma AtIsIndex(s: Sched, i: nat, j: nat, t: Tid)
    requires Named(s) && At(s, i, j, t)
    ensures IndexOfPid(s.ring, t.pid) == i && IndexOfThread(s.ring[i].threads, t.pthread) == j
    ensures HasThread(s, t.pid, t.pthread)
  {
    assert ThreadsNamed(s.ring[i]);
    var k := IndexOfPid(s.ring, t.pid);
    assert k <= i;
    var m := IndexOfThread(s.ring[i].threads, t.pthread);
    assert m <= j;
  }

  ghost predicate Exists(s: Sched, t: Tid) {
    exists i: nat, j: nat :: At(s, i, j, t)
  }

  ghost predicate MutexBlocked(s: Sched, t: Tid) {
    exists i: nat, j: nat :: At(s, i, j, t) && s.ring[i].threads[j].state == BLOCKED_MUTEX
  }

  /** Same processes and threads in the same places. */
  predicate SameShape(s: Sched, s': Sched) {
    && |s.ring| == |s'.ring|
    && forall i | 0 <= i < |s.ring| :: SameThreads(s.ring[i], s'.ring[i])
  }

  predicate SameThreads(p: Process, q: Process) {
    && p.pid == q.pid && |p.threads| == |q.threads|
    && forall j | 0 <= j < |p.threads| :: p.threads[j].pthread == q.threads[j].pthread
  }

  predicate SameMutexBlocked(p: Process, q: Process) {
    && SameThreads(p, q)
    && forall j | 0 <= j < |p.threads| :: p.threads[j].state == BLOCKED_MUTEX <==> q.threads[j].state == BLOCKED_MUTEX
  }

  lemma SameShapeKeepsNames(s: Sched, s': Sched)
    requires SameShape(s, s') && Named(s)
    ensures Named(s') && forall i: nat, j: nat, t :: At(s, i, j, t) <==> At(s', i, j, t)
  {
    forall i | 0 <= i < |s.ring| ensures ThreadsNamed(s'.ring[i]) {
      assert SameThreads(s.ring[i], s'.ring[i]) && ThreadsNamed(s.ring[i]);
    }
  }

  lemma SameBlockedKeeps(s: Sched, s': Sched)
    requires |s.ring| == |s'.ring| && Named(s)
    requires forall i | 0 <= i < |s.ring| :: SameMutexBlocked(s.ring[i], s'.ring[i])
    ensures Named(s') && forall t :: (MutexBlocked(s', t) <==> MutexBlocked(s, t)) && (Exists(s, t) ==> Exists(s', t))
  {
    SameShapeKeepsNames(s, s');
    hide At;
    forall t ensures (MutexBlocked(s', t) <==> MutexBlocked(s, t)) && (Exists(s, t) ==> Exists(s', t)) {
      forall i: nat, j: nat | At(s, i, j, t)
        ensures s.ring[i].threads[j].state == BLOCKED_MUTEX <==> s'.ring[i].threads[j].state == BLOCKED_MUTEX
      {
        InRange(s, i, j, t);
        assert SameMutexBlocked(s.ring[i], s'.ring[i]);
      }
    }
  }

  lemma InRange(s: Sched, i: nat, j: nat, t: Tid)
    requires At(s, i, j, t)
    ensures i < |s.ring| && j < |s.ring[i].threads|
  {
  }

  // ---------------------------------------------------------------- one thread changes

  predicate OneChange(s: Sched, s': Sched, i: nat, j: nat, state: Status) {
    && |s'.ring| == |s.ring| && i < |s.ring| && j < |s.ring[i].threads|
    && s'.ring[i].pid == s.ring[i].pid
    && s'.ring[i].threads == s.ring[i].threads[j := s.ring[i].threads[j].(state := state)]
    && forall k | 0 <= k < |s.ring| && k != i :: s'.ring[k] == s.ring[k]
  }

  lemma OneChangeEffect(s: Sched, s': Sched, i: nat, j: nat, t: Tid, state: Status)
    requires Named(s) && At(s, i, j, t) && OneChange(s, s', i, j, state)
    ensures Named(s') && Exists(s', t)
    ensures forall u :: Exists(s, u) ==> Exists(s', u)
    ensures forall u :: MutexBlocked(s', u) <==> if u == t then state == BLOCKED_MUTEX else MutexBlocked(s, u)
  {
    OneChangeShape(s, s', i, j, state);
    SameShapeKeepsNames(s, s');
    assert At(s', i, j, t);
    forall u ensures MutexBlocked(s', u) <==> if u == t then state == BLOCKED_MUTEX else MutexBlocked(s, u) {
      OneChangeSeen(s, s', i, j, t, state, u);
    }
  }

  lemma OneChangeShape(s: Sched, s': Sched, i: nat, j: nat, state: Status)
    requires OneChange(s, s', i, j, state)
    ensures SameShape(s, s')
  {
    forall k | 0 <= k < |s.ring| ensures SameThreads(s.ring[k], s'.ring[k]) {
    }
  }

  lemma OneChangeSeen(s: Sched, s': Sched, i: nat, j: nat, t: Tid, state: Status, u: Tid)
    requires Named(s) && Named(s') && At(s, i, j, t) && OneChange(s, s', i, j, state)
    requires forall k: nat, m: nat, v :: At(s, k, m, v) <==> At(s', k, m, v)
    ensures MutexBlocked(s', u) <==> if u == t then state == BLOCKED_MUTEX else MutexBlocked(s, u)
  {
    if u == t {
      forall k: nat, m: nat | At(s', k, m, u) ensures k == i && m == j {
        AtIsIndex(s', k, m, u);
        AtIsIndex(s', i, j, u);
      }
      assert At(s', i, j, u);
    } else {
      assert !At(s, i, j, u);
      forall k: nat, m: nat | At(s, k, m, u) ensures s'.ring[k].threads[m].state == s.ring[k].threads[m].state {
      }
    }
  }

  /** Blocking thread t, for whatever cause. */
  lemma BlockEffect(s: Sched, i: nat, j: nat, t: Tid, cause: Cause)
    requires Named(s) && At(s, i, j, t)
    ensures HasThread(s, t.pid, t.pthread)
    ensures var s' := BlockThread(s, t.pid, t.pthread, cause);
            && Named(s') && (forall u :: Exists(s, u) ==> Exists(s', u))
            && forall u :: MutexBlocked(s', u) <==> if u == t then cause == OnMutex else MutexBlocked(s, u)
  {
    AtIsIndex(s, i, j, t);
    OneChangeEffect(s, BlockThread(s, t.pid, t.pthread, cause), i, j, t, Blocked(cause));
  }

  // ---------------------------------------------------------------- wake-ups

  /** unblockThread(t, T_BLOCKED_MUTEX) */
  function WakeOne(s: Sched, t: Tid): Sched {
    if Enabled(s, Unblock(t.pid, t.pthread, OnMutex)) then Step(s, Unblock(t.pid, t.pthread, OnMutex)) else s
  }

  function WakeWaiters(s: Sched, waiters: seq<Tid>): Sched
    decreases |waiters|
  {
    if waiters == [] then s else WakeWaiters(WakeOne(s, waiters[0]), waiters[1..])
  }

  /** A thread that really waits is woken, and nobody else. */
  lemma WakeOneEffect(s: Sched, t: Tid)
    requires SchedOk(s) && Named(s) && MutexBlocked(s, t)
    ensures SchedOk(WakeOne(s, t)) && Named(WakeOne(s, t))
    ensures Enabled(s, Unblock(t.pid, t.pthread, OnMutex))
    ensures forall u :: Exists(s, u) ==> Exists(WakeOne(s, t), u)
    ensures forall u :: MutexBlocked(WakeOne(s, t), u) <==> u != t && MutexBlocked(s, u)
  {
    var i: nat, j: nat :| At(s, i, j, t) && s.ring[i].threads[j].state == BLOCKED_MUTEX;
    AtIsIndex(s, i, j, t);
    UnblockKeepsOkExactly(s, t.pid, t.pthread, OnMutex);
    hide SchedOk;
    OneChangeEffect(s, WakeOne(s, t), i, j, t, Ready);
  }

  predicate Distinct(waiters: seq<Tid>) {
    forall i, j | 0 <= i < j < |waiters| :: waiters[i] != waiters[j]
  }

  /** A wait list whose threads really wait. */
  ghost predicate CanDrain(s: Sched, waiters: seq<Tid>) {
    SchedOk(s) && Named(s) && Distinct(waiters) && forall t | t in waiters :: MutexBlocked(s, t)
  }

  lemma DrainOne(s: Sched, waiters: seq<Tid>)
    requires waiters != [] && CanDrain(s, waiters)
    ensures var t := waiters[0];
            Enabled(s, Unblock(t.pid, t.pthread, OnMutex)) && CanDrain(WakeOne(s, t), waiters[1..])
  {
    hide SchedOk, Named, WakeOne, MutexBlocked, Exists;
    WakeOneEffect(s, waiters[0]);
    assert waiters[0] !in waiters[1..];
  }

  lemma {:induction false} WakeWaitersEffect(s: Sched, waiters: seq<Tid>)
    requires SchedOk(s) && Named(s) && Distinct(waiters) && forall t | t in waiters :: MutexBlocked(s, t)
    ensures SchedOk(WakeWaiters(s, waiters)) && Named(WakeWaiters(s, waiters))
    ensures forall u :: Exists(s, u) ==> Exists(WakeWaiters(s, waiters), u)
    ensures forall u :: MutexBlocked(WakeWaiters(s, waiters), u) <==> u !in waiters && MutexBlocked(s, u)
    decreases |waiters|
  {
    hide SchedOk, Named, WakeOne, MutexBlocked, Exists;
    if waiters == [] {
    } else {
      var t, rest := waiters[0], waiters[1..];
      WakeOneEffect(s, t);
      assert t !in rest;
      WakeWaitersEffect(WakeOne(s, t), rest);
      assert forall u :: u in waiters <==> u == t || u in rest;
    }
  }

  // ---------------------------------------------------------------- scheduling

  predicate OnlySchedules(e: Event) {
    || e.Tick? || e.Yield? || e.AddThread? || e.AddProcess?
    || (e.UnblockAll? && e.cause != OnMutex)
  }

  lemma SwitchThreadsKeepsBlocked(p: Process)
    requires CanCheck(p)
    ensures SameMutexBlocked(p, ThreadCheck(p))
  {
    if p.threadTick >= THREAD_QUANTUM {
      FirstReadyIsNearest(ThreadStates(DemoteThread(p)), p.current);
    }
  }

  lemma RunSchedulerKeepsBlocked(s: Sched)
    requires Named(s) && CanSchedule(s)
    ensures var s' := RunScheduler(s);
            Named(s') && forall t :: (MutexBlocked(s', t) <==> MutexBlocked(s, t)) && (Exists(s, t) ==> Exists(s', t))
  {
    var s' := RunScheduler(s);
    forall i | 0 <= i < |s.ring| ensures SameMutexBlocked(s.ring[i], s'.ring[i]) {
      if s.ticks < QUANTUM && i == s.current {
        SwitchThreadsKeepsBlocked(s.ring[i]);
      }
    }
    SameBlockedKeeps(s, s');
  }

  lemma {:induction false} WakeAllKeepsBlocked(p: Process, j: nat, cause: Cause)
    requires j <= |p.threads| && cause != OnMutex
    ensures SameMutexBlocked(p, UnblockAllFrom(p, j, cause))
    decreases |p.threads| - j
  {
    if j == |p.threads| {
    } else {
      WakeAllKeepsBlocked(if p.threads[j].state == Blocked(cause) then UnblockThread(p, j, cause) else p, j + 1, cause);
    }
  }

  function Moved(i: nat, j: nat, k: nat): nat {
    if i == k then ShiftedBy(j) else j
  }

  lemma ThreadCarried(s: Sched, pid: int, pthread: int, i: nat, j: nat, t: Tid)
    requires Enabled(s, AddThread(pid, pthread)) && At(s, i, j, t)
    ensures var (s', j') := (Step(s, AddThread(pid, pthread)), Moved(i, j, IndexOfPid(s.ring, pid)));
            At(s', i, j', t) && s'.ring[i].threads[j'] == s.ring[i].threads[j]
  {
  }

  lemma ThreadCameFrom(s: Sched, pid: int, pthread: int, i: nat, j: nat, t: Tid) returns (j': nat)
    requires Enabled(s, AddThread(pid, pthread)) && At(Step(s, AddThread(pid, pthread)), i, j, t)
    requires Step(s, AddThread(pid, pthread)).ring[i].threads[j].state.Blocked?
    ensures At(s, i, j', t) && s.ring[i].threads[j'] == Step(s, AddThread(pid, pthread)).ring[i].threads[j]
  {
    j' := if i == IndexOfPid(s.ring, pid) && j > 0 then j - 1 else j;
  }

  lemma AddThreadKeepsNames(s: Sched, pid: int, pthread: int)
    requires Named(s) && Enabled(s, AddThread(pid, pthread))
    ensures Named(Step(s, AddThread(pid, pthread)))
  {
    var k := IndexOfPid(s.ring, pid);
    NewThreadNamed(s.ring[k], pthread);
    hide InsertSecond, ThreadsNamed;
    forall i | 0 <= i < |s.ring| ensures ThreadsNamed(Step(s, AddThread(pid, pthread)).ring[i]) {
      if i == k {
        SameThreadsNamed(s.ring[k].(threads := InsertSecond(s.ring[k].threads, Thread(pthread, Ready))),
                         Step(s, AddThread(pid, pthread)).ring[k]);
      }
    }
  }

  lemma SameThreadsNamed(p: Process, q: Process)
    requires ThreadsNamed(p) && p.threads == q.threads
    ensures ThreadsNamed(q)
  {
  }

  lemma AddThreadKeepsBlocked(s: Sched, pid: int, pthread: int)
    requires Named(s) && Enabled(s, AddThread(pid, pthread))
    ensures var s' := Step(s, AddThread(pid, pthread));
            Named(s') && forall t :: (MutexBlocked(s', t) <==> MutexBlocked(s, t)) && (Exists(s, t) ==> Exists(s', t))
  {
    AddThreadKeepsNames(s, pid, pthread);
    var s' := Step(s, AddThread(pid, pthread));
    hide Named, Step, Enabled;
    forall t ensures (MutexBlocked(s', t) <==> MutexBlocked(s, t)) && (Exists(s, t) ==> Exists(s', t)) {
      if i: nat, j: nat :| At(s, i, j, t) {
        ThreadCarried(s, pid, pthread, i, j, t);
      }
      if i: nat, j: nat :| At(s, i, j, t) && s.ring[i].threads[j].state == BLOCKED_MUTEX {
        ThreadCarried(s, pid, pthread, i, j, t);
      }
      if i: nat, j: nat :| At(s', i, j, t) && s'.ring[i].threads[j].state == BLOCKED_MUTEX {
        var j' := ThreadCameFrom(s, pid, pthread, i, j, t);
      }
    }
  }

  lemma NewThreadNamed(p: Process, pthread: int)
    requires ThreadsNamed(p) && p.threads != [] && IndexOfThread(p.threads, pthread) == |p.threads|
    ensures ThreadsNamed(p.(threads := InsertSecond(p.threads, Thread(pthread, Ready))))
  {
  }

  lemma ProcessCarried(s: Sched, pid: int, pthread: int, i: nat, j: nat, t: Tid)
    requires Enabled(s, AddProcess(pid, pthread)) && At(s, i, j, t)
    ensures var s' := Step(s, AddProcess(pid, pthread));
            At(s', ShiftedBy(i), j, t) && s'.ring[ShiftedBy(i)] == s.ring[i]
  {
  }

  lemma ProcessCameFrom(s: Sched, pid: int, pthread: int, i: nat, j: nat, t: Tid) returns (i': nat)
    requires Enabled(s, AddProcess(pid, pthread)) && At(Step(s, AddProcess(pid, pthread)), i, j, t)
    requires Step(s, AddProcess(pid, pthread)).ring[i].threads[j].state.Blocked?
    ensures At(s, i', j, t) && s.ring[i'].threads[j] == Step(s, AddProcess(pid, pthread)).ring[i].threads[j]
  {
    i' := if i > 0 then i - 1 else i;
  }

  lemma AddProcessKeepsNames(s: Sched, pid: int, pthread: int)
    requires Named(s) && Enabled(s, AddProcess(pid, pthread))
    ensures Named(Step(s, AddProcess(pid, pthread)))
  {
    var s' := Step(s, AddProcess(pid, pthread));
    hide ThreadsNamed;
    NewProcessNamed(s'.ring[1]);
    forall i: nat | i < |s'.ring| ensures ThreadsNamed(s'.ring[i]) {
      if i > 1 {
        assert s'.ring[i] == s.ring[i - 1];
      }
    }
  }

  lemma NewProcessNamed(p: Process)
    requires |p.threads| == 1
    ensures ThreadsNamed(p)
  {
  }

  lemma AddProcessKeepsBlocked(s: Sched, pid: int, pthread: int)
    requires Named(s) && Enabled(s, AddProcess(pid, pthread))
    ensures var s' := Step(s, AddProcess(pid, pthread));
            Named(s') && forall t :: (MutexBlocked(s', t) <==> MutexBlocked(s, t)) && (Exists(s, t) ==> Exists(s', t))
  {
    AddProcessKeepsNames(s, pid, pthread);
    var s' := Step(s, AddProcess(pid, pthread));
    hide Named, Step, Enabled;
    forall t ensures (MutexBlocked(s', t) <==> MutexBlocked(s, t)) && (Exists(s, t) ==> Exists(s', t)) {
      if i: nat, j: nat :| At(s, i, j, t) {
        ProcessCarried(s, pid, pthread, i, j, t);
      }
      if i: nat, j: nat :| At(s, i, j, t) && s.ring[i].threads[j].state == BLOCKED_MUTEX {
        ProcessCarried(s, pid, pthread, i, j, t);
      }
      if i: nat, j: nat :| At(s', i, j, t) && s'.ring[i].threads[j].state == BLOCKED_MUTEX {
        var i' := ProcessCameFrom(s, pid, pthread, i, j, t);
      }
    }
  }

  lemma YieldKeepsBlocked(s: Sched)
    requires Named(s) && Enabled(s, Yield)
    ensures var s' := Step(s, Yield);
            Named(s') && forall t :: (MutexBlocked(s', t) <==> MutexBlocked(s, t)) && (Exists(s, t) ==> Exists(s', t))
  {
    hide RunScheduler, MutexBlocked, Exists, CanSchedule, Named;
    if BeforeYield(s).Some? {
      var y := BeforeYield(s).value;
      forall i | 0 <= i < |s.ring| ensures SameMutexBlocked(s.ring[i], y.ring[i]) {
      }
      SameBlockedKeeps(s, y);
      RunSchedulerKeepsBlocked(y);
    }
  }

  lemma UnblockAllKeepsBlocked(s: Sched, pid: int, cause: Cause)
    requires Named(s) && Enabled(s, UnblockAll(pid, cause)) && cause != OnMutex
    ensures var s' := Step(s, UnblockAll(pid, cause));
            Named(s') && forall t :: (MutexBlocked(s', t) <==> MutexBlocked(s, t)) && (Exists(s, t) ==> Exists(s', t))
  {
    hide MutexBlocked, Exists, Named, UnblockAllFrom;
    var s' := Step(s, UnblockAll(pid, cause));
    WakeAllKeepsBlocked(s.ring[IndexOfPid(s.ring, pid)], 0, cause);
    forall i | 0 <= i < |s.ring| ensures SameMutexBlocked(s.ring[i], s'.ring[i]) {
    }
    SameBlockedKeeps(s, s');
  }

  /** Scheduling, and wake-ups for other causes, leave everybody who waits for a mutex waiting. */
  lemma SchedulingKeepsBlocked(s: Sched, e: Event)
    requires Named(s) && OnlySchedules(e) && Enabled(s, e)
    ensures var s' := Step(s, e);
            Named(s') && forall t :: (MutexBlocked(s', t) <==> MutexBlocked(s, t)) && (Exists(s, t) ==> Exists(s', t))
  {
    hide MutexBlocked, Exists, Named;
    match e
    case Tick => RunSchedulerKeepsBlocked(s);
    case Yield => YieldKeepsBlocked(s);
    case AddThread(pid, pthread) => AddThreadKeepsBlocked(s, pid, pthread);
    case AddProcess(pid, pthread) => AddProcessKeepsBlocked(s, pid, pthread);
    case UnblockAll(pid, cause) => UnblockAllKeepsBlocked(s, pid, cause);
  }

  // ---------------------------------------------------------------- calls

  /** The thread that is running. */
  function Caller(s: Sched): Tid
    requires s.current < |s.ring| && s.ring[s.current].current < |s.ring[s.current].threads|
  {
    var p := s.ring[s.current];
    Tid(p.pid, p.threads[p.current].pthread)
  }

  predicate HasCaller(s: Sched) {
    && s.current < |s.ring| && s.ring[s.current].current < |s.ring[s.current].threads|
    && HasThread(s, Caller(s).pid, Caller(s).pthread)
  }

  /** All that a caller has to promise: it names things that exist. */
  predicate Possible(k: Kernel, c: Call) {
    match c
    case Scheduler(e) => OnlySchedules(e) && Admissible(k.sched, e)
    case BlockSelf(cause) => cause != OnMutex
    case PipeBlock(t) => HasThread(k.sched, t.pid, t.pthread)
    case NewSemaphore(_) => true
    case NewMutex => true
    case Up(id) => id < |k.semaphores|
    case Down(id) => id < |k.semaphores|
    case Unlock(id) => id < |k.mutexes|
    case Lock(id) => id < |k.mutexes|
  }

  /** The call comes to an end. */
  predicate Ends(k: Kernel, c: Call) {
    Possible(k, c) && if c.Scheduler? then Enabled(k.sched, c.e) else HasCaller(k.sched)
  }

  /** The call blocks no thread that waits for a semaphore or mutex already: not the caller, which
      may have been resumed while it waits, nor a thread of a pipe's receiver. */
  ghost predicate Harmless(k: Kernel, c: Call)
    requires Ends(k, c)
  {
    match c
    case BlockSelf(_) => !MutexBlocked(k.sched, Caller(k.sched))
    case PipeBlock(t) => !MutexBlocked(k.sched, t)
    case Down(id) => k.semaphores[id].status - 1 < 0 ==> !MutexBlocked(k.sched, Caller(k.sched))
    case Lock(id) => k.mutexes[id].locked ==> !MutexBlocked(k.sched, Caller(k.sched))
    case _ => true
  }

  function BlockCaller(s: Sched, cause: Cause): Sched
    requires HasCaller(s)
  {
    BlockThread(s, Caller(s).pid, Caller(s).pthread, cause)
  }

  function AfterUp(k: Kernel, id: nat): Kernel
    requires id < |k.semaphores|
  {
    var s := k.semaphores[id];
    if s.status + 1 < 0
    then k.(semaphores := k.semaphores[id := s.(status := s.status + 1)])
    else k.(semaphores := k.semaphores[id := Sync.Semaphore(s.status + 1, [])],
            sched := WakeWaiters(k.sched, s.waiters))
  }

  function AfterDown(k: Kernel, id: nat): Kernel
    requires id < |k.semaphores| && Ends(k, Down(id))
  {
    var s := k.semaphores[id];
    if s.status - 1 < 0
    then k.(semaphores := k.semaphores[id := Sync.Semaphore(s.status - 1, [Caller(k.sched)] + s.waiters)],
            sched := BlockCaller(k.sched, OnMutex))
    else k.(semaphores := k.semaphores[id := s.(status := s.status - 1)])
  }

  function AfterUnlock(k: Kernel, id: nat): Kernel
    requires id < |k.mutexes|
  {
    k.(mutexes := k.mutexes[id := Sync.Mutex(false, [])], sched := WakeWaiters(k.sched, k.mutexes[id].waiters))
  }

  function AfterLock(k: Kernel, id: nat): Kernel
    requires id < |k.mutexes| && Ends(k, Lock(id))
  {
    var m := k.mutexes[id];
    if m.locked
    then k.(mutexes := k.mutexes[id := Sync.Mutex(true, [Caller(k.sched)] + m.waiters)],
            sched := BlockCaller(k.sched, OnMutex))
    else k.(mutexes := k.mutexes[id := Sync.Mutex(true, m.waiters)])
  }

  function After(k: Kernel, c: Call): Kernel
    requires Ends(k, c)
  {
    match c
    case Scheduler(e) => k.(sched := Step(k.sched, e))
    case BlockSelf(cause) => k.(sched := BlockCaller(k.sched, cause))
    case PipeBlock(t) => k.(sched := BlockThread(k.sched, t.pid, t.pthread, OnPipe))
    case NewSemaphore(start) => k.(semaphores := k.semaphores + [Sync.Semaphore(start, [])])
    case NewMutex => k.(mutexes := k.mutexes + [Sync.Mutex(false, [])])
    case Up(id) => AfterUp(k, id)
    case Down(id) => AfterDown(k, id)
    case Unlock(id) => AfterUnlock(k, id)
    case Lock(id) => AfterLock(k, id)
  }

  // ---------------------------------------------------------------- the invariant

  function WaitCount(k: Kernel, t: Tid): nat {
    Sync.OnSemaphores(k.semaphores, t) + Sync.OnMutexes(k.mutexes, t)
  }

  /** Blocked for a mutex exactly when on exactly one wait list, once. */
  ghost predicate Agrees(k: Kernel, t: Tid) {
    WaitCount(k, t) == if MutexBlocked(k.sched, t) then 1 else 0
  }

  predicate ListsOk(k: Kernel) {
    && (forall s | s in k.semaphores :: s.waiters != [] ==> s.status < 0)
    && (forall m | m in k.mutexes :: m.waiters != [] ==> m.locked)
  }

  ghost predicate KernelOk(k: Kernel) {
    SchedOk(k.sched) && Named(k.sched) && ListsOk(k) && forall t :: Agrees(k, t)
  }

  // ---------------------------------------------------------------- every call keeps it

  lemma OnListMeansBlocked(k: Kernel, waiters: seq<Tid>)
    requires forall t :: Agrees(k, t) && Sync.Occurrences(waiters, t) <= WaitCount(k, t)
    ensures Distinct(waiters) && forall t | t in waiters :: MutexBlocked(k.sched, t)
  {
    forall t ensures Sync.Occurrences(waiters, t) <= 1 && (t in waiters ==> MutexBlocked(k.sched, t)) {
      assert Agrees(k, t);
      Sync.OccurrencesMember(waiters, t);
    }
    hide MutexBlocked, Agrees, WaitCount;
    OnceMeansDistinct(waiters);
  }

  lemma {:induction false} OnceMeansDistinct(waiters: seq<Tid>)
    requires forall t :: Sync.Occurrences(waiters, t) <= 1
    ensures Distinct(waiters)
  {
    if waiters == [] {
    } else {
      forall t ensures Sync.Occurrences(waiters[1..], t) <= 1 {
        assert Sync.Occurrences(waiters, t) <= 1;
      }
      OnceMeansDistinct(waiters[1..]);
      assert Sync.Occurrences(waiters, waiters[0]) <= 1;
      Sync.OccurrencesMember(waiters[1..], waiters[0]);
    }
  }

  lemma UpKeepsOk(k: Kernel, id: nat)
    requires KernelOk(k) && id < |k.semaphores|
    ensures KernelOk(AfterUp(k, id))
  {
    var k', ws := AfterUp(k, id), k.semaphores[id].waiters;
    forall t ensures Sync.OnSemaphores(k'.semaphores, t)
                     == Sync.OnSemaphores(k.semaphores, t) - Sync.Occurrences(ws, t)
                        + Sync.Occurrences(k'.semaphores[id].waiters, t)
    ensures Sync.Occurrences(ws, t) <= WaitCount(k, t) {
      Sync.OnSemaphoresUpdate(k.semaphores, id, k'.semaphores[id], t);
    }
    hide SchedOk, Named, MutexBlocked;
    assert forall s | s in k'.semaphores :: s in k.semaphores || s == k'.semaphores[id];
    assert k.semaphores[id] in k.semaphores;
    if k'.semaphores[id].status >= 0 {
      OnListMeansBlocked(k, ws);
      WakeWaitersEffect(k.sched, ws);
      forall t ensures Agrees(k', t) {
        assert Agrees(k, t);
        Sync.OccurrencesMember(ws, t);
      }
    } else {
      forall t ensures Agrees(k', t) {
        assert Agrees(k, t);
      }
    }
  }

  lemma UnlockKeepsOk(k: Kernel, id: nat)
    requires KernelOk(k) && id < |k.mutexes|
    ensures KernelOk(AfterUnlock(k, id))
  {
    var k', ws := AfterUnlock(k, id), k.mutexes[id].waiters;
    forall t ensures Sync.OnMutexes(k'.mutexes, t) == Sync.OnMutexes(k.mutexes, t) - Sync.Occurrences(ws, t)
    ensures Sync.Occurrences(ws, t) <= WaitCount(k, t) {
      Sync.OnMutexesUpdate(k.mutexes, id, Sync.Mutex(false, []), t);
    }
    hide SchedOk, Named, MutexBlocked;
    OnListMeansBlocked(k, ws);
    WakeWaitersEffect(k.sched, ws);
    forall t ensures Agrees(k', t) {
      assert Agrees(k, t);
      Sync.OccurrencesMember(ws, t);
    }
  }

  lemma CallerIsAt(s: Sched)
    requires SchedOk(s) && Named(s)
    ensures HasCaller(s) && At(s, s.current, s.ring[s.current].current, Caller(s))
  {
    assert ProcessOk(s.ring[s.current]);
    assert At(s, s.current, s.ring[s.current].current, Caller(s));
    AtIsIndex(s, s.current, s.ring[s.current].current, Caller(s));
  }

  /** The caller is blocked, whatever it was before. */
  lemma BlockCallerEffect(s: Sched, cause: Cause)
    requires SchedOk(s) && Named(s)
    ensures HasCaller(s)
    ensures var s' := BlockCaller(s, cause);
            && SchedOk(s') && Named(s')
            && forall u :: MutexBlocked(s', u) <==> if u == Caller(s) then cause == OnMutex else MutexBlocked(s, u)
  {
    CallerIsAt(s);
    BlockKeepsOk(s, Caller(s).pid, Caller(s).pthread, cause);
    BlockEffect(s, s.current, s.ring[s.current].current, Caller(s), cause);
  }

  lemma DownKeepsOkExactly(k: Kernel, id: nat)
    requires KernelOk(k) && id < |k.semaphores|
    ensures Ends(k, Down(id)) && (KernelOk(AfterDown(k, id)) <==> Harmless(k, Down(id)))
  {
    hide SchedOk, Named, MutexBlocked, HasCaller;
    BlockCallerEffect(k.sched, OnMutex);
    var k', caller := AfterDown(k, id), Caller(k.sched);
    forall s | s in k'.semaphores ensures s.waiters != [] ==> s.status < 0 {
      assert s in k.semaphores || s == k'.semaphores[id];
      assert k.semaphores[id] in k.semaphores;
    }
    forall t
      ensures WaitCount(k', t) == WaitCount(k, t) + if k'.semaphores[id].status < 0 && t == caller then 1 else 0
    {
      Sync.OnSemaphoresUpdate(k.semaphores, id, k'.semaphores[id], t);
      Sync.AddedInFront(caller, k.semaphores[id].waiters, t);
    }
    AgreesExactly(k, k', caller, k'.semaphores[id].status < 0);
  }

  /** A wait of t begins, if `waits`; nothing else changes. */
  lemma AgreesExactly(k: Kernel, k': Kernel, t: Tid, waits: bool)
    requires forall u :: Agrees(k, u)
    requires forall u :: WaitCount(k', u) == WaitCount(k, u) + if waits && u == t then 1 else 0
    requires forall u :: MutexBlocked(k'.sched, u) <==> MutexBlocked(k.sched, u) || (waits && u == t)
    ensures (forall u :: Agrees(k', u)) <==> (waits ==> !MutexBlocked(k.sched, t))
  {
    hide MutexBlocked, WaitCount;
    assert Agrees(k, t);
    if waits && MutexBlocked(k.sched, t) {
      assert !Agrees(k', t);
    } else {
      forall u ensures Agrees(k', u) {
        assert Agrees(k, u);
      }
    }
  }

  lemma LockKeepsOkExactly(k: Kernel, id: nat)
    requires KernelOk(k) && id < |k.mutexes|
    ensures Ends(k, Lock(id)) && (KernelOk(AfterLock(k, id)) <==> Harmless(k, Lock(id)))
  {
    hide SchedOk, Named, MutexBlocked, HasCaller;
    BlockCallerEffect(k.sched, OnMutex);
    var k', caller := AfterLock(k, id), Caller(k.sched);
    forall t ensures WaitCount(k', t) == WaitCount(k, t) + if k.mutexes[id].locked && t == caller then 1 else 0 {
      Sync.OnMutexesUpdate(k.mutexes, id, k'.mutexes[id], t);
      Sync.AddedInFront(caller, k.mutexes[id].waiters, t);
    }
    AgreesExactly(k, k', caller, k.mutexes[id].locked);
  }

  lemma NewSemaphoreKeepsOk(k: Kernel, start: int)
    requires KernelOk(k)
    ensures KernelOk(k.(semaphores := k.semaphores + [Sync.Semaphore(start, [])]))
  {
    hide SchedOk, Named, MutexBlocked;
    forall t ensures Agrees(k.(semaphores := k.semaphores + [Sync.Semaphore(start, [])]), t) {
      assert Agrees(k, t);
      Sync.OnSemaphoresAppend(k.semaphores, start, t);
    }
  }

  lemma NewMutexKeepsOk(k: Kernel)
    requires KernelOk(k)
    ensures KernelOk(k.(mutexes := k.mutexes + [Sync.Mutex(false, [])]))
  {
    hide SchedOk, Named, MutexBlocked;
    forall t ensures Agrees(k.(mutexes := k.mutexes + [Sync.Mutex(false, [])]), t) {
      assert Agrees(k, t);
      Sync.OnMutexesAppend(k.mutexes, t);
    }
  }

  lemma SchedulerKeepsOk(k: Kernel, e: Event)
    requires KernelOk(k) && IdleUsable(k.sched) && Possible(k, Scheduler(e))
    ensures Enabled(k.sched, e) && KernelOk(k.(sched := Step(k.sched, e)))
  {
    StepKeepsOk(k.sched, e);
    SchedulingKeepsBlocked(k.sched, e);
    hide SchedOk, Named, MutexBlocked, Step, Enabled, Admissible;
    forall t ensures Agrees(k.(sched := Step(k.sched, e)), t) {
      assert Agrees(k, t);
    }
  }

  /** Any call by any thread: it ends, and leaves states and wait lists in agreement and the
      scheduler well formed if and only if it is harmless. Nothing is assumed about wake-ups. */
  lemma CallKeepsOkExactly(k: Kernel, c: Call)
    requires KernelOk(k) && IdleUsable(k.sched) && Possible(k, c)
    ensures Ends(k, c) && (KernelOk(After(k, c)) <==> Harmless(k, c))
  {
    CallerIsAt(k.sched);
    hide SchedOk, MutexBlocked, HasCaller, AfterUp, AfterDown, AfterLock, AfterUnlock, Enabled, Step;
    match c
    case Scheduler(e) => SchedulerKeepsOk(k, e);
    case BlockSelf(cause) => BlockSelfKeepsOkExactly(k, cause);
    case PipeBlock(t) => PipeBlockKeepsOkExactly(k, t);
    case NewSemaphore(start) => NewSemaphoreKeepsOk(k, start);
    case NewMutex => NewMutexKeepsOk(k);
    case Up(id) => UpKeepsOk(k, id);
    case Down(id) => DownKeepsOkExactly(k, id);
    case Unlock(id) => UnlockKeepsOk(k, id);
    case Lock(id) => LockKeepsOkExactly(k, id);
  }

  /** A pipe read keeps states and wait lists in agreement if and only if the thread it blocks is
      on no wait list. */
  lemma PipeBlockKeepsOkExactly(k: Kernel, t: Tid)
    requires KernelOk(k) && HasThread(k.sched, t.pid, t.pthread)
    ensures KernelOk(k.(sched := BlockThread(k.sched, t.pid, t.pthread, OnPipe))) <==> !MutexBlocked(k.sched, t)
  {
    var i := IndexOfPid(k.sched.ring, t.pid);
    BlockKeepsOk(k.sched, t.pid, t.pthread, OnPipe);
    BlockEffect(k.sched, i, IndexOfThread(k.sched.ring[i].threads, t.pthread), t, OnPipe);
    hide SchedOk, Named, MutexBlocked, BlockThread;
    LeavesMutexExactly(k, k.(sched := BlockThread(k.sched, t.pid, t.pthread, OnPipe)), t);
  }

  /** Thread t is blocked for another cause, and the lists stay. */
  lemma LeavesMutexExactly(k: Kernel, k': Kernel, t: Tid)
    requires (forall u :: Agrees(k, u)) && k.semaphores == k'.semaphores && k.mutexes == k'.mutexes
    requires forall u :: MutexBlocked(k'.sched, u) <==> u != t && MutexBlocked(k.sched, u)
    ensures (forall u :: Agrees(k', u)) <==> !MutexBlocked(k.sched, t)
  {
    hide MutexBlocked;
    assert Agrees(k, t);
    if MutexBlocked(k.sched, t) {
      assert !Agrees(k', t);
    } else {
      forall u ensures Agrees(k', u) {
        assert Agrees(k, u);
      }
    }
  }

  lemma BlockSelfKeepsOkExactly(k: Kernel, cause: Cause)
    requires KernelOk(k) && cause != OnMutex
    ensures HasCaller(k.sched)
    ensures KernelOk(k.(sched := BlockCaller(k.sched, cause))) <==> !MutexBlocked(k.sched, Caller(k.sched))
  {
    hide SchedOk, Named, MutexBlocked, HasCaller;
    BlockCallerEffect(k.sched, cause);
    LeavesMutexExactly(k, k.(sched := BlockCaller(k.sched, cause)), Caller(k.sched));
  }

  // ---------------------------------------------------------------- the steps of Sync

  /** The same lists, and the same threads blocked. */
  ghost predicate Mirrors(k: Kernel, y: Sync.Kernel) {
    && k.semaphores == y.semaphores && k.mutexes == y.mutexes
    && forall t :: Sync.IsBlocked(y, t) <==> MutexBlocked(k.sched, t)
  }

  predicate Synchronizes(c: Call) {
    c.Up? || c.Down? || c.Unlock? || c.Lock?
  }

  function SyncStep(y: Sync.Kernel, caller: Tid, c: Call): Sync.Kernel
    requires Synchronizes(c) && c.id < if c.Up? || c.Down? then |y.semaphores| else |y.mutexes|
  {
    match c
    case Up(id) => Sync.AfterSemaphoreUp(y, id)
    case Down(id) => Sync.AfterSemaphoreDown(y, caller, id)
    case Unlock(id) => Sync.AfterMutexUp(y, id)
    case Lock(id) => Sync.AfterMutexDown(y, caller, id)
  }

  lemma WakingMirrors(k: Kernel, y: Sync.Kernel, waiters: seq<Tid>)
    requires CanDrain(k.sched, waiters) && Mirrors(k, y)
    ensures Mirrors(k.(sched := WakeWaiters(k.sched, waiters)), y.(states := Sync.WakeAll(y.states, waiters)))
  {
    WakeWaitersEffect(k.sched, waiters);
    Sync.WakeAllEffect(y.states, waiters);
    hide SchedOk, Named, MutexBlocked;
  }

  lemma UpIsSyncStep(k: Kernel, y: Sync.Kernel, id: nat)
    requires KernelOk(k) && Mirrors(k, y) && id < |k.semaphores|
    ensures Mirrors(AfterUp(k, id), Sync.AfterSemaphoreUp(y, id))
  {
    SemaphoreWaiters(k, id);
    hide SchedOk, Named, MutexBlocked, WakeWaiters;
    WakingMirrors(k, y, k.semaphores[id].waiters);
  }

  lemma UnlockIsSyncStep(k: Kernel, y: Sync.Kernel, id: nat)
    requires KernelOk(k) && Mirrors(k, y) && id < |k.mutexes|
    ensures Mirrors(AfterUnlock(k, id), Sync.AfterMutexUp(y, id))
  {
    MutexWaiters(k, id);
    hide SchedOk, Named, MutexBlocked, WakeWaiters;
    WakingMirrors(k, y, k.mutexes[id].waiters);
  }

  lemma BlockingMirrors(k: Kernel, y: Sync.Kernel)
    requires SchedOk(k.sched) && Named(k.sched) && Mirrors(k, y)
    ensures HasCaller(k.sched)
    ensures Mirrors(k.(sched := BlockCaller(k.sched, OnMutex)),
                    y.(states := y.states[Caller(k.sched) := BLOCKED_MUTEX]))
  {
    BlockCallerEffect(k.sched, OnMutex);
    hide SchedOk, Named, MutexBlocked, HasCaller, BlockCaller;
  }

  lemma DownIsSyncStep(k: Kernel, y: Sync.Kernel, id: nat)
    requires KernelOk(k) && Mirrors(k, y) && Ends(k, Down(id))
    ensures Mirrors(AfterDown(k, id), Sync.AfterSemaphoreDown(y, Caller(k.sched), id))
  {
    hide SchedOk, Named, MutexBlocked, HasCaller, BlockCaller;
    BlockingMirrors(k, y);
  }

  lemma LockIsSyncStep(k: Kernel, y: Sync.Kernel, id: nat)
    requires KernelOk(k) && Mirrors(k, y) && Ends(k, Lock(id))
    ensures Mirrors(AfterLock(k, id), Sync.AfterMutexDown(y, Caller(k.sched), id))
  {
    hide SchedOk, Named, MutexBlocked, HasCaller, BlockCaller;
    BlockingMirrors(k, y);
  }

  /** The kernel's calls on the scheduler are the steps of Sync on thread states. */
  lemma CallsAreSyncSteps(k: Kernel, y: Sync.Kernel, c: Call)
    requires KernelOk(k) && Mirrors(k, y) && Synchronizes(c) && Possible(k, c)
    ensures Ends(k, c) && Mirrors(After(k, c), SyncStep(y, Caller(k.sched), c))
  {
    CallerIsAt(k.sched);
    hide KernelOk, HasCaller, AfterUp, AfterDown, AfterUnlock, AfterLock;
    match c
    case Up(id) => UpIsSyncStep(k, y, id);
    case Down(id) => DownIsSyncStep(k, y, id);
    case Unlock(id) => UnlockIsSyncStep(k, y, id);
    case Lock(id) => LockIsSyncStep(k, y, id);
  }

  lemma SemaphoreWaiters(k: Kernel, id: nat)
    requires KernelOk(k) && id < |k.semaphores|
    ensures CanDrain(k.sched, k.semaphores[id].waiters)
  {
    hide SchedOk, Named, MutexBlocked;
    forall t ensures Sync.Occurrences(k.semaphores[id].waiters, t) <= WaitCount(k, t) {
      Sync.OnSemaphoresUpdate(k.semaphores, id, k.semaphores[id], t);
    }
    OnListMeansBlocked(k, k.semaphores[id].waiters);
  }

  lemma MutexWaiters(k: Kernel, id: nat)
    requires KernelOk(k) && id < |k.mutexes|
    ensures CanDrain(k.sched, k.mutexes[id].waiters)
  {
    hide SchedOk, Named, MutexBlocked;
    forall t ensures Sync.Occurrences(k.mutexes[id].waiters, t) <= WaitCount(k, t) {
      Sync.OnMutexesUpdate(k.mutexes, id, k.mutexes[id], t);
    }
    OnListMeansBlocked(k, k.mutexes[id].waiters);
  }

  // ---------------------------------------------------------------- runs

  function Boot(): Kernel {
    Kernel(SchedulerRuns.Boot(), [], [])
  }

  /** Every call is possible when it comes, and pid 0 is never blocked. */
  ghost predicate PossibleRun(k: Kernel, run: seq<Call>)
    decreases |run|
  {
    && IdleUsable(k.sched)
    && (run == [] || (Possible(k, run[0]) && (Ends(k, run[0]) ==> PossibleRun(After(k, run[0]), run[1..]))))
  }

  ghost predicate CanRun(k: Kernel, run: seq<Call>)
    decreases |run|
  {
    run == [] || (Ends(k, run[0]) && CanRun(After(k, run[0]), run[1..]))
  }

  function Run(k: Kernel, run: seq<Call>): Kernel
    requires CanRun(k, run)
    decreases |run|
  {
    if run == [] then k else Run(After(k, run[0]), run[1..])
  }

  /** No call of the run blocks a thread that waits already. */
  ghost predicate HarmlessRun(k: Kernel, run: seq<Call>)
    decreases |run|
  {
    run == [] || (Ends(k, run[0]) ==> Harmless(k, run[0]) && HarmlessRun(After(k, run[0]), run[1..]))
  }

  /** Every call ends, and every state of the run is well formed. */
  ghost predicate OkThroughout(k: Kernel, run: seq<Call>)
    decreases |run|
  {
    KernelOk(k) && (run == [] || (Ends(k, run[0]) && OkThroughout(After(k, run[0]), run[1..])))
  }

  lemma {:induction false} RunKeepsOkExactly(k: Kernel, run: seq<Call>)
    requires KernelOk(k) && PossibleRun(k, run)
    ensures OkThroughout(k, run) <==> HarmlessRun(k, run)
    ensures HarmlessRun(k, run) ==> CanRun(k, run) && KernelOk(Run(k, run))
    decreases |run|
  {
    hide KernelOk, Possible, After, Ends, Harmless;
    if run == [] {
    } else {
      CallKeepsOkExactly(k, run[0]);
      if Harmless(k, run[0]) {
        RunKeepsOkExactly(After(k, run[0]), run[1..]);
      } else {
        assert !OkThroughout(After(k, run[0]), run[1..]);
      }
    }
  }

  lemma BootIsOk()
    ensures KernelOk(Boot())
  {
    assert Usable(Boot().sched.ring[0].threads[0].state);
    forall t ensures Agrees(Boot(), t) {
    }
  }

  /** From boot, while pid 0 is never blocked: if no call blocks a thread that waits already, every
      call ends; the states are as the scheduler needs them; and a thread is blocked for a
      semaphore or mutex exactly when it is on exactly one wait list, once. The condition is
      exact: otherwise some state of the run is not well formed. */
  lemma KernelStaysWellFormed(run: seq<Call>)
    requires PossibleRun(Boot(), run)
    ensures OkThroughout(Boot(), run) <==> HarmlessRun(Boot(), run)
    ensures HarmlessRun(Boot(), run) ==> CanRun(Boot(), run)
    ensures HarmlessRun(Boot(), run) ==>
            var (k, s) := (Run(Boot(), run), Run(Boot(), run).sched);
            && (forall i | 0 <= i < |s.ring| :: s.ring[i].state == Running ==> i == s.current)
            && (forall i, j | 0 <= i < |s.ring| && 0 <= j < |s.ring[i].threads| ::
                  s.ring[i].threads[j].state == Running ==> j == s.ring[i].current)
            && (forall i | 0 <= i < |s.ring| :: !IsBlocked(s.ring[i].state) ==> HasUsableThread(s.ring[i]))
            && forall t :: Agrees(k, t)
  {
    BootIsOk();
    RunKeepsOkExactly(Boot(), run);
  }

  ghost predicate WaitsForSomething(k: Kernel, t: Tid) {
    || (exists s | s in k.semaphores :: t in s.waiters && s.status < 0)
    || (exists m | m in k.mutexes :: t in m.waiters && m.locked)
  }

  /** No wake-up is lost: who is blocked waits for a semaphore still below zero or a mutex still
      locked. */
  lemma BlockedWaitsForSomething(k: Kernel, t: Tid)
    requires KernelOk(k) && MutexBlocked(k.sched, t)
    ensures WaitsForSomething(k, t)
  {
    assert Agrees(k, t);
    if Sync.OnSemaphores(k.semaphores, t) > 0 {
      var i := Sync.OnASemaphoreList(k.semaphores, t);
      assert k.semaphores[i] in k.semaphores;
    } else {
      var i := Sync.OnAMutexList(k.mutexes, t);
      assert k.mutexes[i] in k.mutexes;
    }
  }

  // ---------------------------------------------------------------- one cause per process

  /** All blocks have this cause, and a blocked process has nothing but blocked threads. */
  predicate OneCause(p: Process, cause: Cause) {
    && (forall j | 0 <= j < |p.threads| :: p.threads[j].state != Dead)
    && (forall j | 0 <= j < |p.threads| :: p.threads[j].state.Blocked? ==> p.threads[j].state.cause == cause)
    && (p.state.Blocked? ==> p.state.cause == cause && forall j | 0 <= j < |p.threads| :: p.threads[j].state.Blocked?)
  }

  ghost predicate OneCauseAt(s: Sched, pid: int, cause: Cause) {
    forall i | 0 <= i < |s.ring| && s.ring[i].pid == pid :: OneCause(s.ring[i], cause)
  }

  /** If the call blocks a thread of the process it is the caller, for this cause; and no thread
      is added to the process while it is blocked. */
  ghost predicate Suits(k: Kernel, c: Call, pid: int, cause: Cause)
    requires Ends(k, c)
  {
    match c
    case Scheduler(AddThread(p, _)) => p == pid ==> !IsBlocked(k.sched.ring[IndexOfPid(k.sched.ring, p)].state)
    case Scheduler(_) => true
    case BlockSelf(why) => Caller(k.sched).pid == pid ==> why == cause
    case PipeBlock(t) => t.pid != pid
    case Down(id) => Caller(k.sched).pid == pid ==> cause == OnMutex
    case Lock(id) => Caller(k.sched).pid == pid ==> cause == OnMutex
    case _ => true
  }

  /** Only Ready and Running are exchanged. */
  predicate OnlyTurns(p: Process, q: Process) {
    && |p.threads| == |q.threads| && (p.state == q.state || (Usable(p.state) && Usable(q.state)))
    && forall j | 0 <= j < |p.threads| ::
         p.threads[j].state == q.threads[j].state || (Usable(p.threads[j].state) && Usable(q.threads[j].state))
  }

  lemma TurnsKeepOneCause(p: Process, q: Process, cause: Cause)
    requires OnlyTurns(p, q) && OneCause(p, cause)
    ensures OneCause(q, cause)
  {
  }

  lemma RunSchedulerOnlyTurns(s: Sched)
    requires CanSchedule(s)
    ensures var t := RunScheduler(s);
            && |t.ring| == |s.ring|
            && forall i | 0 <= i < |s.ring| :: SameThreads(s.ring[i], t.ring[i]) && OnlyTurns(s.ring[i], t.ring[i])
  {
    if s.ticks < QUANTUM {
      var p := s.ring[s.current];
      if p.threadTick >= THREAD_QUANTUM {
        FirstReadyIsNearest(ThreadStates(DemoteThread(p)), p.current);
      }
    } else {
      FirstReadyIsNearest(States(Demote(s)), s.current);
      assert States(Demote(s))[Pick(s).value] == Demote(s)[Pick(s).value].state;
    }
  }

  lemma RunSchedulerKeepsOneCause(s: Sched, pid: int, cause: Cause)
    requires CanSchedule(s) && OneCauseAt(s, pid, cause)
    ensures OneCauseAt(RunScheduler(s), pid, cause)
  {
    RunSchedulerOnlyTurns(s);
    var t := RunScheduler(s);
    hide RunScheduler, OneCause, OnlyTurns;
    forall i | 0 <= i < |t.ring| && t.ring[i].pid == pid ensures OneCause(t.ring[i], cause) {
      TurnsKeepOneCause(s.ring[i], t.ring[i], cause);
    }
  }

  lemma {:induction false} UnblockAllKeepsOneCause(p: Process, j: nat, why: Cause, cause: Cause)
    requires OneCause(p, cause) && j <= |p.threads|
    ensures OneCause(UnblockAllFrom(p, j, why), cause) && UnblockAllFrom(p, j, why).pid == p.pid
    decreases |p.threads| - j
  {
    if j == |p.threads| {
    } else if p.threads[j].state == Blocked(why) {
      UnblockAllKeepsOneCause(UnblockThread(p, j, why), j + 1, why, cause);
    } else {
      UnblockAllKeepsOneCause(p, j + 1, why, cause);
    }
  }

  lemma AddThreadKeepsOneCause(s: Sched, e: Event, pid: int, cause: Cause)
    requires OneCauseAt(s, pid, cause) && e.AddThread? && Enabled(s, e)
    requires e.pid == pid ==> !IsBlocked(s.ring[IndexOfPid(s.ring, pid)].state)
    ensures OneCauseAt(Step(s, e), pid, cause)
  {
    var k := IndexOfPid(s.ring, e.pid);
    var q := Step(s, e).ring[k];
    if e.pid == pid {
      assert OneCause(s.ring[k], cause);
      forall j | 0 <= j < |q.threads| ensures j > 1 ==> q.threads[j] == s.ring[k].threads[j - 1] {
      }
    }
  }

  lemma AddProcessKeepsOneCause(s: Sched, e: Event, pid: int, cause: Cause)
    requires OneCauseAt(s, pid, cause) && e.AddProcess? && Enabled(s, e)
    ensures OneCauseAt(Step(s, e), pid, cause)
  {
    var ring := Step(s, e).ring;
    forall i | 0 <= i < |ring| && ring[i].pid == pid ensures OneCause(ring[i], cause) {
      assert i > 1 ==> ring[i] == s.ring[i - 1];
    }
  }

  lemma WakeAllKeepsOneCause(s: Sched, e: Event, pid: int, cause: Cause)
    requires OneCauseAt(s, pid, cause) && e.UnblockAll? && Enabled(s, e)
    ensures OneCauseAt(Step(s, e), pid, cause)
  {
    hide OneCause, UnblockAllFrom;
    var k := IndexOfPid(s.ring, e.pid);
    if e.pid == pid {
      UnblockAllKeepsOneCause(s.ring[k], 0, e.cause, cause);
    } else {
      UnblockAllKeepsPid(s.ring[k], 0, e.cause);
    }
  }

  lemma SchedulingKeepsOneCause(s: Sched, e: Event, pid: int, cause: Cause)
    requires OneCauseAt(s, pid, cause) && OnlySchedules(e) && Enabled(s, e)
    requires e.AddThread? && e.pid == pid ==> !IsBlocked(s.ring[IndexOfPid(s.ring, pid)].state)
    ensures OneCauseAt(Step(s, e), pid, cause)
  {
    hide RunScheduler, CanSchedule, OneCause;
    match e
    case Tick => RunSchedulerKeepsOneCause(s, pid, cause);
    case Yield =>
      if BeforeYield(s).Some? {
        YieldingKeepsOneCause(s, pid, cause);
        RunSchedulerKeepsOneCause(BeforeYield(s).value, pid, cause);
      }
    case AddThread(_, _) => AddThreadKeepsOneCause(s, e, pid, cause);
    case AddProcess(_, _) => AddProcessKeepsOneCause(s, e, pid, cause);
    case UnblockAll(_, _) => WakeAllKeepsOneCause(s, e, pid, cause);
  }

  lemma YieldingKeepsOneCause(s: Sched, pid: int, cause: Cause)
    requires s.current < |s.ring| && s.ring[s.current].current < |s.ring[s.current].threads|
    requires OneCauseAt(s, pid, cause) && BeforeYield(s).Some?
    ensures OneCauseAt(BeforeYield(s).value, pid, cause)
  {
  }

  lemma {:induction false} UnblockAllKeepsPid(p: Process, j: nat, why: Cause)
    requires j <= |p.threads|
    ensures UnblockAllFrom(p, j, why).pid == p.pid
    decreases |p.threads| - j
  {
    if j == |p.threads| {
    } else {
      UnblockAllKeepsPid(if p.threads[j].state == Blocked(why) then UnblockThread(p, j, why) else p, j + 1, why);
    }
  }

  /** The last thread of a process to block takes the process with it, and leaves no thread that
      could run: the others are not ready, and only the caller was running. */
  lemma BlockCallerKeepsOneCause(s: Sched, why: Cause, pid: int, cause: Cause)
    requires SchedOk(s) && Named(s) && HasCaller(s) && OneCauseAt(s, pid, cause)
    requires Caller(s).pid == pid ==> why == cause
    ensures OneCauseAt(BlockCaller(s, why), pid, cause)
  {
    CallerIsAt(s);
    var i, p := s.current, s.ring[s.current];
    AtIsIndex(s, i, p.current, Caller(s));
    assert ProcessOk(p);
    if p.pid == pid {
      var q := WithThreadState(p, p.current, Blocked(why)).(threadTick := THREAD_QUANTUM);
      forall j | 0 <= j < |q.threads| && !HasReadyThread(q) ensures q.threads[j].state.Blocked? {
        assert q.threads[j].state != Ready;
      }
    }
  }

  lemma BlockOtherKeepsOneCause(s: Sched, t: Tid, pid: int, cause: Cause)
    requires HasThread(s, t.pid, t.pthread) && OneCauseAt(s, pid, cause) && t.pid != pid
    ensures OneCauseAt(BlockThread(s, t.pid, t.pthread, OnPipe), pid, cause)
  {
  }

  lemma WakeOneKeepsOneCause(s: Sched, t: Tid, pid: int, cause: Cause)
    requires OneCauseAt(s, pid, cause)
    ensures OneCauseAt(WakeOne(s, t), pid, cause)
  {
  }

  lemma {:induction false} WakeWaitersKeepsOneCause(s: Sched, waiters: seq<Tid>, pid: int, cause: Cause)
    requires OneCauseAt(s, pid, cause)
    ensures OneCauseAt(WakeWaiters(s, waiters), pid, cause)
    decreases |waiters|
  {
    hide WakeOne, OneCauseAt;
    if waiters == [] {
    } else {
      WakeOneKeepsOneCause(s, waiters[0], pid, cause);
      WakeWaitersKeepsOneCause(WakeOne(s, waiters[0]), waiters[1..], pid, cause);
    }
  }

  lemma CallKeepsOneCause(k: Kernel, c: Call, pid: int, cause: Cause)
    requires KernelOk(k) && Ends(k, c) && OneCauseAt(k.sched, pid, cause) && Suits(k, c, pid, cause)
    ensures OneCauseAt(After(k, c).sched, pid, cause)
  {
    hide SchedOk, Named, OneCauseAt, BlockCaller, WakeWaiters, HasCaller, OnlySchedules, Enabled, Step, Agrees;
    match c
    case Scheduler(e) => SchedulingKeepsOneCause(k.sched, e, pid, cause);
    case BlockSelf(why) => BlockCallerKeepsOneCause(k.sched, why, pid, cause);
    case PipeBlock(t) => BlockOtherKeepsOneCause(k.sched, t, pid, cause);
    case NewSemaphore(_) =>
    case NewMutex =>
    case Up(id) => WakeWaitersKeepsOneCause(k.sched, k.semaphores[id].waiters, pid, cause);
    case Down(id) => BlockCallerKeepsOneCause(k.sched, OnMutex, pid, cause);
    case Unlock(id) => WakeWaitersKeepsOneCause(k.sched, k.mutexes[id].waiters, pid, cause);
    case Lock(id) => BlockCallerKeepsOneCause(k.sched, OnMutex, pid, cause);
  }

  ghost predicate SuitsAll(k: Kernel, run: seq<Call>, pid: int, cause: Cause)
    requires CanRun(k, run)
    decreases |run|
  {
    run == [] || (Suits(k, run[0], pid, cause) && SuitsAll(After(k, run[0]), run[1..], pid, cause))
  }

  lemma {:induction false} RunKeepsOneCause(k: Kernel, run: seq<Call>, pid: int, cause: Cause)
    requires KernelOk(k) && PossibleRun(k, run) && HarmlessRun(k, run) && CanRun(k, run)
    requires OneCauseAt(k.sched, pid, cause) && SuitsAll(k, run, pid, cause)
    ensures OneCauseAt(Run(k, run).sched, pid, cause)
    decreases |run|
  {
    hide KernelOk, Possible, After, Ends, Harmless, OneCauseAt, Suits;
    if run == [] {
    } else {
      CallKeepsOkExactly(k, run[0]);
      CallKeepsOneCause(k, run[0], pid, cause);
      RunKeepsOneCause(After(k, run[0]), run[1..], pid, cause);
    }
  }

  /** No wake-up is lost at process level either. From boot, when all blocks of a process have one
      cause: the process is blocked only if no thread of it could run; and if the cause is the
      mutex, each of its threads waits for a semaphore still below zero or a mutex still locked. */
  lemma NoLostProcessWakeup(run: seq<Call>, pid: int, cause: Cause)
    requires PossibleRun(Boot(), run) && HarmlessRun(Boot(), run)
    requires CanRun(Boot(), run) ==> SuitsAll(Boot(), run, pid, cause)
    ensures CanRun(Boot(), run)
    ensures var k := Run(Boot(), run);
            forall i | 0 <= i < |k.sched.ring| && k.sched.ring[i].pid == pid && IsBlocked(k.sched.ring[i].state) ::
              && !HasUsableThread(k.sched.ring[i])
              && (cause == OnMutex ==> forall j | 0 <= j < |k.sched.ring[i].threads| ::
                                         WaitsForSomething(k, Tid(pid, k.sched.ring[i].threads[j].pthread)))
  {
    BootIsOk();
    RunKeepsOkExactly(Boot(), run);
    RunKeepsOneCause(Boot(), run, pid, cause);
    var k := Run(Boot(), run);
    hide PossibleRun, CanRun, Run, SuitsAll, KernelOk, WaitsForSomething;
    forall i | 0 <= i < |k.sched.ring| && k.sched.ring[i].pid == pid && IsBlocked(k.sched.ring[i].state)
      ensures !HasUsableThread(k.sched.ring[i])
      ensures cause == OnMutex ==> forall j | 0 <= j < |k.sched.ring[i].threads| ::
                WaitsForSomething(k, Tid(pid, k.sched.ring[i].threads[j].pthread))
    {
      BlockedProcessWaits(k, i, cause);
    }
  }

  lemma BlockedProcessWaits(k: Kernel, i: nat, cause: Cause)
    requires KernelOk(k) && i < |k.sched.ring| && OneCause(k.sched.ring[i], cause) && IsBlocked(k.sched.ring[i].state)
    ensures !HasUsableThread(k.sched.ring[i])
    ensures cause == OnMutex ==> forall j | 0 <= j < |k.sched.ring[i].threads| ::
              WaitsForSomething(k, Tid(k.sched.ring[i].pid, k.sched.ring[i].threads[j].pthread))
  {
    var p := k.sched.ring[i];
    forall j: nat | j < |p.threads| && cause == OnMutex ensures WaitsForSomething(k, Tid(p.pid, p.threads[j].pthread)) {
      var t := Tid(p.pid, p.threads[j].pthread);
      assert At(k.sched, i, j, t);
      BlockedWaitsForSomething(k, t);
    }
  }
}
