/** Two runs from boot, made of ticks and of calls by the running thread, that end in a loop
    without end (Kernel/scheduler.c, lines 258-281). Thread 0 of process 1 waits for a semaphore
    when its process is switched away from. Then it gets a second state: in one run because the
    process switch resumes it and it reads the keyboard (Kernel/systemCalls.c), in the other
    because process 0 reads a pipe to process 1 (Kernel/pipefs.c). Thread 1 waits for another
    semaphore. When the first is raised the wake-up misses thread 0 and makes its process ready,
    with nothing to run. */
module KernelHang {
  import opened KernelResume
  import opened KernelRuns
  import opened Scheduling
  import opened SchedulerRuns
  import opened Statuses
  import Sync

  // ---------------------------------------------------------------- two processes

  predicate IsIdle(p: Process) {
    && p.pid == 0 && Usable(p.state) && p.current == 0 && p.threadTick <= THREAD_QUANTUM
    && |p.threads| == 1 && p.threads[0].pthread == 0 && Usable(p.threads[0].state)
  }

  function Victim(state: Status, first: Status, second: Status, current: nat, threadTick: nat): Process {
    Process(1, state, [Thread(0, first), Thread(1, second)], current, threadTick)
  }

  /** Process 0 has one thread, that can run; process 1 is p. */
  predicate Two(k: Kernel, p: Process, current: nat, ticks: nat, semaphores: seq<Sync.Semaphore>) {
    && |k.sched.ring| == 2 && IsIdle(k.sched.ring[0]) && k.sched.ring[1] == p && p.pid == 1
    && k.sched.current == current && k.sched.ticks == ticks && (k.sched.ring[0].state == Running ==> current == 0)
    && k.semaphores == semaphores && k.mutexes == []
  }

  lemma PlaceOf(ring: seq<Process>)
    requires |ring| == 2 && ring[0].pid == 0 && ring[1].pid == 1
    ensures IndexOfPid(ring, 0) == 0 && IndexOfPid(ring, 1) == 1
  {
    assert ring[1..] == [ring[1]];
  }

  lemma PlaceOfThreads(p: Process)
    requires |p.threads| == 2 && p.threads[0].pthread == 0 && p.threads[1].pthread == 1
    ensures IndexOfThread(p.threads, 0) == 0 && IndexOfThread(p.threads, 1) == 1
  {
    assert p.threads[1..] == [p.threads[1]];
  }

  // ---------------------------------------------------------------- turns

  /** Process 1, ready, is back. */
  lemma GoesOn(run: seq<Call>, k: Kernel, p: Process, ticks: nat, semaphores: seq<Sync.Semaphore>)
    returns (run': seq<Call>, k': Kernel)
    requires Reaches(run, k) && Two(k, p, 0, ticks, semaphores) && p.state == Ready && ticks <= QUANTUM
    ensures Extends(run, run', k') && Two(k', p.(state := Running), 1, 0, semaphores)
  {
    hide Reaches, Extends;
    run', k' := RunsAgain(run, k, 1);
    assert Turned(k.sched.ring[0], k'.sched.ring[0]);
  }

  lemma TickOf(run: seq<Call>, k: Kernel, p: Process, ticks: nat, semaphores: seq<Sync.Semaphore>)
    returns (run': seq<Call>, k': Kernel)
    requires Reaches(run, k) && Two(k, p, 1, ticks, semaphores) && ticks < QUANTUM && CanCheck(p)
    ensures Extends(run, run', k') && Two(k', ThreadCheck(p), 1, ticks + 1, semaphores)
  {
    hide CanCheck, ThreadCheck, Reaches;
    CheckKeepsPid(p);
    Then(run, k, Scheduler(Tick));
    run', k' := run + [Scheduler(Tick)], After(k, Scheduler(Tick));
  }

  lemma CountsTick(p: Process)
    requires p.current < |p.threads| && p.threadTick < THREAD_QUANTUM
    ensures CanCheck(p) && ThreadCheck(p) == p.(threadTick := p.threadTick + 1)
  {
  }

  /** Of two threads, the other one is ready and gets its turn. */
  lemma TakesTurn(p: Process)
    requires |p.threads| == 2 && p.current < 2 && p.threadTick >= THREAD_QUANTUM
    requires p.threads[1 - p.current].state == Ready
    ensures CanCheck(p)
    ensures ThreadCheck(p) == WithThreadState(p.(threads := DemoteThread(p)), 1 - p.current, Running)
                              .(current := 1 - p.current, threadTick := 0)
  {
    assert ThreadStates(DemoteThread(p))[1 - p.current] == Ready;
    FirstReadyIsNearest(ThreadStates(DemoteThread(p)), p.current);
    assert PickThread(p).value == Next(p.current, 2);
  }

  // ---------------------------------------------------------------- calls

  const OPEN: Sync.Semaphore := Sync.Semaphore(0, [])

  function WaitedFor(t: Tid): Sync.Semaphore {
    Sync.Semaphore(-1, [t])
  }

  predicate TwoThreads(p: Process) {
    |p.threads| == 2 && p.current < 2 && p.threads[0].pthread == 0 && p.threads[1].pthread == 1
  }

  predicate OtherReady(p: Process)
    requires TwoThreads(p)
  {
    p.threads[1 - p.current].state == Ready
  }

  /** The running thread of process 1 has blocked: the process too, unless the other one is ready. */
  function BlockedOne(p: Process, cause: Cause): Process
    requires TwoThreads(p)
  {
    WithThreadState(p, p.current, Blocked(cause))
    .(threadTick := THREAD_QUANTUM, state := if OtherReady(p) then p.state else Blocked(cause))
  }

  function TicksAfter(p: Process, ticks: nat): nat
    requires TwoThreads(p)
  {
    if OtherReady(p) then ticks else QUANTUM
  }

  lemma Blocks(k: Kernel, p: Process, ticks: nat, semaphores: seq<Sync.Semaphore>, cause: Cause)
    requires Two(k, p, 1, ticks, semaphores) && TwoThreads(p)
    ensures HasCaller(k.sched) && Caller(k.sched) == Tid(1, p.current)
    ensures Two(k.(sched := BlockCaller(k.sched, cause)), BlockedOne(p, cause), 1, TicksAfter(p, ticks), semaphores)
  {
    PlaceOf(k.sched.ring);
    PlaceOfThreads(p);
    var q := WithThreadState(p, p.current, Blocked(cause)).(threadTick := THREAD_QUANTUM);
    assert q.threads[1 - p.current] == p.threads[1 - p.current];
    assert HasReadyThread(q) <==> OtherReady(p);
  }

  lemma WaitEffect(k: Kernel, p: Process, ticks: nat, semaphores: seq<Sync.Semaphore>, id: nat)
    requires Two(k, p, 1, ticks, semaphores) && TwoThreads(p)
    requires id < |semaphores| && semaphores[id] == OPEN && !MutexBlocked(k.sched, Tid(1, p.current))
    ensures Ends(k, Down(id)) && Harmless(k, Down(id))
    ensures Two(After(k, Down(id)), BlockedOne(p, OnMutex), 1, TicksAfter(p, ticks),
                semaphores[id := WaitedFor(Tid(1, p.current))])
  {
    Blocks(k, p, ticks, semaphores, OnMutex);
    hide HasCaller, BlockCaller, BlockedOne, TicksAfter, MutexBlocked, Caller;
    assert [Tid(1, p.current)] + [] == [Tid(1, p.current)];
  }

  lemma Waits(run: seq<Call>, k: Kernel, p: Process, ticks: nat, semaphores: seq<Sync.Semaphore>, id: nat)
    returns (run': seq<Call>, k': Kernel)
    requires Reaches(run, k) && Two(k, p, 1, ticks, semaphores) && TwoThreads(p)
    requires id < |semaphores| && semaphores[id] == OPEN && !MutexBlocked(k.sched, Tid(1, p.current))
    ensures Extends(run, run', k')
    ensures Two(k', BlockedOne(p, OnMutex), 1, TicksAfter(p, ticks), semaphores[id := WaitedFor(Tid(1, p.current))])
  {
    WaitEffect(k, p, ticks, semaphores, id);
    run', k' := run + [Down(id)], After(k, Down(id));
    IdleStays(k', BlockedOne(p, OnMutex), 1, TicksAfter(p, ticks), semaphores[id := WaitedFor(Tid(1, p.current))]);
    hide *;
    Then(run, k, Down(id));
  }

  lemma IdleStays(k: Kernel, p: Process, current: nat, ticks: nat, semaphores: seq<Sync.Semaphore>)
    requires Two(k, p, current, ticks, semaphores)
    ensures IdleUsable(k.sched)
  {
  }

  lemma IdleIsNext(s: Sched)
    requires |s.ring| == 2 && s.current == 1 && s.ticks == QUANTUM
    requires s.ring[0].state == Ready && s.ring[1].state != Ready
    ensures CanSchedule(s)
    ensures var p := s.ring[1];
            RunScheduler(s) == Sched([s.ring[0].(state := Running),
                                      if p.state == Running then p.(state := Ready) else p], 0, 0)
  {
    assert Next(1, 2) == 0 && States(Demote(s))[0] == Ready;
    assert Pick(s) == Search(States(Demote(s)), 1, 2);
    assert Pick(s).value == 0;
    var p := s.ring[1];
    assert RunScheduler(s).ring == [s.ring[0].(state := Running), if p.state == Running then p.(state := Ready) else p];
  }

  /** With no tick left, a yield of a blocked thread hands over to process 0. */
  lemma YieldsToIdle(run: seq<Call>, k: Kernel, p: Process, semaphores: seq<Sync.Semaphore>)
    returns (run': seq<Call>, k': Kernel)
    requires Reaches(run, k) && Two(k, p, 1, QUANTUM, semaphores) && p.state != Ready && p.threadTick == THREAD_QUANTUM
    requires p.current < |p.threads| && IsBlocked(p.threads[p.current].state)
    ensures Extends(run, run', k')
    ensures Two(k', if p.state == Running then p.(state := Ready) else p, 0, 0, semaphores)
  {
    IdleIsNext(k.sched);
    hide Reaches, RunScheduler, CanSchedule, PossibleRun, KernelRuns.CanRun, KernelRuns.Run, HarmlessRun;
    assert BeforeYield(k.sched).Some? ==> BeforeYield(k.sched).value == k.sched;
    Then(run, k, Scheduler(Yield));
    run', k' := run + [Scheduler(Yield)], After(k, Scheduler(Yield));
  }

  /** With ticks left, it hands over to the other thread. */
  lemma YieldsToThread(run: seq<Call>, k: Kernel, p: Process, ticks: nat, semaphores: seq<Sync.Semaphore>)
    returns (run': seq<Call>, k': Kernel)
    requires Reaches(run, k) && Two(k, p, 1, ticks, semaphores) && ticks < QUANTUM && Usable(p.state)
    requires p.threadTick == THREAD_QUANTUM && p.current < |p.threads| && IsBlocked(p.threads[p.current].state)
    requires CanCheck(p)
    ensures Extends(run, run', k') && Two(k', ThreadCheck(p), 1, ticks + 1, semaphores)
  {
    hide CanCheck, ThreadCheck, Reaches;
    CheckKeepsPid(p);
    assert BeforeYield(k.sched).value == k.sched;
    Then(run, k, Scheduler(Yield));
    run', k' := run + [Scheduler(Yield)], After(k, Scheduler(Yield));
  }

  // ---------------------------------------------------------------- the common beginning

  lemma Starts() returns (run: seq<Call>, k: Kernel)
    ensures Reaches(run, k) && HarmlessRun(KernelRuns.Boot(), run) && NoPipeRead(run)
    ensures Two(k, Victim(Ready, Ready, Ready, 0, 0), 0, 0, [OPEN, OPEN])
  {
    var k0, none: seq<Call> := KernelRuns.Boot(), [];
    assert Reaches(none, k0);
    var k1 := After(k0, Scheduler(AddProcess(1, 0)));
    assert k0.sched.ring[1..] == [];
    hide Reaches;
    Then(none, k0, Scheduler(AddProcess(1, 0)));
    PlaceOf(k1.sched.ring);
    assert k1.sched.ring[1].threads[1..] == [];
    var k2 := After(k1, Scheduler(AddThread(1, 1)));
    Then(none + [Scheduler(AddProcess(1, 0))], k1, Scheduler(AddThread(1, 1)));
    run, k := none + [Scheduler(AddProcess(1, 0))] + [Scheduler(AddThread(1, 1))], k2;
    assert Two(k, Victim(Ready, Ready, Ready, 0, 0), 0, 0, []);
    run, k := Creates(run, k, Victim(Ready, Ready, Ready, 0, 0), []);
    run, k := Creates(run, k, Victim(Ready, Ready, Ready, 0, 0), [OPEN]);
  }

  lemma Creates(run: seq<Call>, k: Kernel, p: Process, semaphores: seq<Sync.Semaphore>)
    returns (run': seq<Call>, k': Kernel)
    requires Reaches(run, k) && Two(k, p, 0, 0, semaphores)
    ensures Extends(run, run', k') && Two(k', p, 0, 0, semaphores + [OPEN])
  {
    PlaceOf(k.sched.ring);
    hide Reaches;
    run', k' := run + [NewSemaphore(0)], After(k, NewSemaphore(0));
    Then(run, k, NewSemaphore(0));
  }

  /** Thread 0 waits for the first semaphore, on the last tick of its process. */
  lemma ThreadZeroWaits() returns (run: seq<Call>, k: Kernel)
    ensures Reaches(run, k) && HarmlessRun(KernelRuns.Boot(), run) && NoPipeRead(run)
    ensures Two(k, Victim(Running, BLOCKED_MUTEX, Ready, 0, 1), 1, QUANTUM, [WaitedFor(Tid(1, 0)), OPEN])
  {
    var open := [OPEN, OPEN];
    run, k := Starts();
    run, k := GoesOn(run, k, Victim(Ready, Ready, Ready, 0, 0), 0, open);
    run, k := TicksUntilLast(run, k, open);
    NobodyWaits(k, Victim(Running, Running, Ready, 0, 1), QUANTUM, open, Tid(1, 0));
    run, k := Waits(run, k, Victim(Running, Running, Ready, 0, 1), QUANTUM, open, 0);
    hide Reaches;
    assert open[0 := WaitedFor(Tid(1, 0))] == [WaitedFor(Tid(1, 0)), OPEN];
    var p := Victim(Running, Running, Ready, 0, 1);
    assert BlockedOne(p, OnMutex) == Victim(Running, BLOCKED_MUTEX, Ready, 0, 1);
  }

  lemma NobodyWaits(k: Kernel, p: Process, ticks: nat, semaphores: seq<Sync.Semaphore>, t: Tid)
    requires Two(k, p, 1, ticks, semaphores)
    requires forall j | 0 <= j < |p.threads| && p.threads[j].pthread == t.pthread :: p.threads[j].state != BLOCKED_MUTEX
    ensures t.pid == 1 ==> !MutexBlocked(k.sched, t)
  {
    forall i: nat, j: nat | At(k.sched, i, j, t) && t.pid == 1
      ensures k.sched.ring[i].threads[j].state != BLOCKED_MUTEX
    {
      assert i == 1;
    }
  }

  lemma FiveChecks()
    ensures var (p0, p1) := (Victim(Running, Ready, Ready, 0, 0), Victim(Running, Ready, Ready, 0, 1));
            var (p2, p3) := (Victim(Running, Ready, Running, 1, 0), Victim(Running, Ready, Running, 1, 1));
            var (p4, p5) := (Victim(Running, Running, Ready, 0, 0), Victim(Running, Running, Ready, 0, 1));
            && CanCheck(p0) && CanCheck(p1) && CanCheck(p2) && CanCheck(p3) && CanCheck(p4)
            && ThreadCheck(p0) == p1 && ThreadCheck(p1) == p2 && ThreadCheck(p2) == p3
            && ThreadCheck(p3) == p4 && ThreadCheck(p4) == p5
  {
    CountsTick(Victim(Running, Ready, Ready, 0, 0));
    TakesTurn(Victim(Running, Ready, Ready, 0, 1));
    CountsTick(Victim(Running, Ready, Running, 1, 0));
    TakesTurn(Victim(Running, Ready, Running, 1, 1));
    CountsTick(Victim(Running, Running, Ready, 0, 0));
    hide CanCheck, ThreadCheck;
  }

  lemma TicksUntilLast(run: seq<Call>, k: Kernel, semaphores: seq<Sync.Semaphore>)
    returns (run': seq<Call>, k': Kernel)
    requires Reaches(run, k) && Two(k, Victim(Running, Ready, Ready, 0, 0), 1, 0, semaphores)
    ensures Extends(run, run', k') && Two(k', Victim(Running, Running, Ready, 0, 1), 1, QUANTUM, semaphores)
  {
    FiveChecks();
    hide Two, Reaches, ThreadCheck, CanCheck, Victim, HarmlessRun, NoPipeRead;
    run', k' := TickOf(run, k, Victim(Running, Ready, Ready, 0, 0), 0, semaphores);
    run', k' := TickOf(run', k', Victim(Running, Ready, Ready, 0, 1), 1, semaphores);
    run', k' := TickOf(run', k', Victim(Running, Ready, Running, 1, 0), 2, semaphores);
    run', k' := TickOf(run', k', Victim(Running, Ready, Running, 1, 1), 3, semaphores);
    run', k' := TickOf(run', k', Victim(Running, Running, Ready, 0, 0), 4, semaphores);
  }

  /** And its process is switched away from. */
  lemma SwitchedAwayWaiting() returns (run: seq<Call>, k: Kernel)
    ensures Reaches(run, k) && HarmlessRun(KernelRuns.Boot(), run) && NoPipeRead(run)
    ensures Two(k, Victim(Ready, BLOCKED_MUTEX, Ready, 0, 1), 0, 0, [WaitedFor(Tid(1, 0)), OPEN])
  {
    run, k := ThreadZeroWaits();
    hide Two, Reaches;
    run, k := YieldsToIdle(run, k, Victim(Running, BLOCKED_MUTEX, Ready, 0, 1), [WaitedFor(Tid(1, 0)), OPEN]);
  }

  /** A run, harmless in every call and without pipe reads, that ends in a running process whose
      current thread waits for a semaphore. */
  lemma BlockedThreadIsResumed() returns (run: seq<Call>, k: Kernel)
    ensures Reaches(run, k) && HarmlessRun(KernelRuns.Boot(), run) && NoPipeRead(run) && KernelOk(k)
    ensures Two(k, Victim(Running, BLOCKED_MUTEX, Ready, 0, 1), 1, 0, [WaitedFor(Tid(1, 0)), OPEN])
    ensures HasCaller(k.sched) && Caller(k.sched) == Tid(1, 0) && MutexBlocked(k.sched, Caller(k.sched))
  {
    run, k := SwitchedAwayWaiting();
    run, k := GoesOn(run, k, Victim(Ready, BLOCKED_MUTEX, Ready, 0, 1), 0, [WaitedFor(Tid(1, 0)), OPEN]);
    BootIsOk();
    RunKeepsOkExactly(KernelRuns.Boot(), run);
    CallerIsAt(k.sched);
    assert At(k.sched, 1, 0, Tid(1, 0));
  }

  // ---------------------------------------------------------------- the second state

  /** It goes on, reads the keyboard, and yields to thread 1. */
  lemma ResumedThreadReads() returns (run: seq<Call>, k: Kernel)
    ensures Reaches(run, k) && !HarmlessRun(KernelRuns.Boot(), run) && NoPipeRead(run)
    ensures Two(k, Victim(Running, Blocked(OnIO), Running, 1, 0), 1, 1, [WaitedFor(Tid(1, 0)), OPEN])
  {
    run, k := BlockedThreadIsResumed();
    var p, q := Victim(Running, BLOCKED_MUTEX, Ready, 0, 1), Victim(Running, Blocked(OnIO), Ready, 0, 1);
    Blocks(k, p, 0, [WaitedFor(Tid(1, 0)), OPEN], OnIO);
    assert BlockedOne(p, OnIO) == q;
    IdleStays(After(k, BlockSelf(OnIO)), q, 1, 0, [WaitedFor(Tid(1, 0)), OPEN]);
    hide Two, Reaches, HarmlessRun, MutexBlocked, HasCaller, Caller, BlockCaller;
    Then(run, k, BlockSelf(OnIO));
    run, k := run + [BlockSelf(OnIO)], After(k, BlockSelf(OnIO));
    TakesTurn(q);
    assert ThreadCheck(q) == Victim(Running, Blocked(OnIO), Running, 1, 0);
    run, k := YieldsToThread(run, k, q, 0, [WaitedFor(Tid(1, 0)), OPEN]);
  }

  /** Or process 0 reads a pipe to process 1 that is empty, and after that it goes on until a tick
      brings thread 1. */
  lemma PipeReadHits() returns (run: seq<Call>, k: Kernel)
    ensures Reaches(run, k) && !HarmlessRun(KernelRuns.Boot(), run)
    ensures Two(k, Victim(Running, Blocked(OnPipe), Running, 1, 0), 1, 1, [WaitedFor(Tid(1, 0)), OPEN])
  {
    var sems := [WaitedFor(Tid(1, 0)), OPEN];
    run, k := SwitchedAwayWaiting();
    var p := Victim(Ready, Blocked(OnPipe), Ready, 0, 1);
    PipeReadEffect(k, sems);
    hide Two, Reaches, HarmlessRun, Harmless, Ends;
    Then(run, k, PipeBlock(Tid(1, 0)));
    run, k := run + [PipeBlock(Tid(1, 0))], After(k, PipeBlock(Tid(1, 0)));
    run, k := GoesOn(run, k, p, 0, sems);
    TakesTurn(p.(state := Running));
    assert ThreadCheck(p.(state := Running)) == Victim(Running, Blocked(OnPipe), Running, 1, 0);
    run, k := TickOf(run, k, p.(state := Running), 0, sems);
  }

  lemma PipeReadEffect(k: Kernel, semaphores: seq<Sync.Semaphore>)
    requires Two(k, Victim(Ready, BLOCKED_MUTEX, Ready, 0, 1), 0, 0, semaphores)
    ensures var read := PipeBlock(Tid(1, 0));
            && Ends(k, read) && !Harmless(k, read) && Caller(k.sched) == Tid(0, 0) && IdleUsable(After(k, read).sched)
            && Two(After(k, read), Victim(Ready, Blocked(OnPipe), Ready, 0, 1), 0, 0, semaphores)
  {
    PlaceOf(k.sched.ring);
    PlaceOfThreads(k.sched.ring[1]);
    assert At(k.sched, 1, 0, Tid(1, 0));
    var q := Victim(Ready, Blocked(OnPipe), Ready, 0, 1);
    assert q.threads[1].state == Ready;
    assert WithThreadState(k.sched.ring[1], 0, Blocked(OnPipe)).(threadTick := THREAD_QUANTUM) == q;
  }

  // ---------------------------------------------------------------- the common end

  function Awake(cause: Cause): Process {
    Victim(Ready, Blocked(cause), BLOCKED_MUTEX, 1, 1)
  }

  /** The semaphore is raised: the wake-up is not sound. It misses the thread and makes the process
      ready. */
  lemma WakeMisses(k: Kernel, cause: Cause, other: Sync.Semaphore)
    requires cause != OnMutex
    requires Two(k, Victim(BLOCKED_MUTEX, Blocked(cause), BLOCKED_MUTEX, 1, 1), 0, 0, [WaitedFor(Tid(1, 0)), other])
    ensures Ends(k, Up(0)) && !WakeIsSound(k.sched.ring[1], 0, OnMutex)
    ensures Two(After(k, Up(0)), Awake(cause), 0, 0, [OPEN, other])
  {
    PlaceOf(k.sched.ring);
    PlaceOfThreads(k.sched.ring[1]);
    assert [Tid(1, 0)][1..] == [];
    assert WakeWaiters(k.sched, [Tid(1, 0)]) == WakeOne(k.sched, Tid(1, 0));
  }

  /** Every search for a thread goes round for ever. */
  predicate Hangs(s: Sched) {
    CurrentUsable(s) && s.ticks < QUANTUM && !Enabled(s, Tick) && !Enabled(s, Yield)
  }

  lemma NothingToRun(s: Sched, cause: Cause)
    requires |s.ring| == 2 && s.current == 1 && s.ticks == 0 && s.ring[1] == Awake(cause).(state := Running)
    ensures Hangs(s)
  {
    FirstReadyIsNearest(ThreadStates(DemoteThread(s.ring[1])), 1);
  }

  lemma BothWait(run: seq<Call>, k: Kernel, cause: Cause) returns (run': seq<Call>, k': Kernel)
    requires Reaches(run, k) && cause != OnMutex
    requires Two(k, Victim(Running, Blocked(cause), Running, 1, 0), 1, 1, [WaitedFor(Tid(1, 0)), OPEN])
    ensures Extends(run, run', k')
    ensures Two(k', Victim(BLOCKED_MUTEX, Blocked(cause), BLOCKED_MUTEX, 1, 1), 0, 0,
                [WaitedFor(Tid(1, 0)), WaitedFor(Tid(1, 1))])
  {
    var p, sems := Victim(Running, Blocked(cause), Running, 1, 0), [WaitedFor(Tid(1, 0)), OPEN];
    NobodyWaits(k, p, 1, sems, Tid(1, 1));
    var q := Victim(BLOCKED_MUTEX, Blocked(cause), BLOCKED_MUTEX, 1, 1);
    assert BlockedOne(p, OnMutex) == q && TicksAfter(p, 1) == QUANTUM;
    assert sems[1 := WaitedFor(Tid(1, 1))] == [WaitedFor(Tid(1, 0)), WaitedFor(Tid(1, 1))];
    hide Two, Reaches, HarmlessRun, NoPipeRead;
    run', k' := Waits(run, k, p, 1, sems, 1);
    run', k' := YieldsToIdle(run', k', q, [WaitedFor(Tid(1, 0)), WaitedFor(Tid(1, 1))]);
  }

  lemma EndsHanging(run: seq<Call>, k: Kernel, cause: Cause) returns (run': seq<Call>, k': Kernel)
    requires Reaches(run, k) && cause != OnMutex
    requires Two(k, Victim(Running, Blocked(cause), Running, 1, 0), 1, 1, [WaitedFor(Tid(1, 0)), OPEN])
    ensures Extends(run, run', k') && Hangs(k'.sched)
  {
    run', k' := BothWait(run, k, cause);
    WakeMisses(k', cause, WaitedFor(Tid(1, 1)));
    IdleStays(After(k', Up(0)), Awake(cause), 0, 0, [OPEN, WaitedFor(Tid(1, 1))]);
    hide Reaches, HarmlessRun, NoPipeRead, Ends, Hangs;
    Then(run', k', Up(0));
    run', k' := run' + [Up(0)], After(k', Up(0));
    run', k' := GoesOn(run', k', Awake(cause), 0, [OPEN, WaitedFor(Tid(1, 1))]);
    NothingToRun(k'.sched, cause);
  }

  /** Without any pipe read: the process switch resumes a thread that waits for a semaphore. */
  lemma ResumedThreadHangs() returns (run: seq<Call>, k: Kernel)
    ensures Reaches(run, k) && NoPipeRead(run) && Hangs(k.sched)
  {
    run, k := ResumedThreadReads();
    run, k := EndsHanging(run, k, OnIO);
  }

  /** With a pipe read by another process than the receiver: the resumed thread makes no call. */
  lemma PipeReadHangs() returns (run: seq<Call>, k: Kernel)
    ensures Reaches(run, k) && Hangs(k.sched)
  {
    run, k := PipeReadHits();
    run, k := EndsHanging(run, k, OnPipe);
  }
}
