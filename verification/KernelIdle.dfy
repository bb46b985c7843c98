/** Process 0, which the scheduler needs to find something to run. It is the init process
    (Kernel/kernel.c, lines 336-345): it makes no calls, so only others could block it. */
module KernelIdle {
  import opened KernelRuns
  import opened Options
  import opened Scheduling
  import opened SchedulerRuns
  import opened Statuses

  /** The thread a call blocks, if any. */
  function Target(k: Kernel, c: Call): Option<Tid>
    requires Ends(k, c)
  {
    match c
    case BlockSelf(_) => Some(Caller(k.sched))
    case PipeBlock(t) => Some(t)
    case Down(id) => if k.semaphores[id].status - 1 < 0 then Some(Caller(k.sched)) else None
    case Lock(id) => if k.mutexes[id].locked then Some(Caller(k.sched)) else None
    case _ => None
  }

  /** The thread is of the first process, and no other thread of that one is ready. */
  ghost predicate StopsIdle(s: Sched, t: Tid) {
    && s.ring != [] && t.pid == s.ring[0].pid
    && forall j | 0 <= j < |s.ring[0].threads| && s.ring[0].threads[j].state == Ready ::
         s.ring[0].threads[j].pthread == t.pthread
  }

  lemma BlockingKeepsIdleExactly(s: Sched, t: Tid, cause: Cause)
    requires IdleUsable(s) && Named(s) && HasThread(s, t.pid, t.pthread)
    ensures IdleUsable(BlockThread(s, t.pid, t.pthread, cause)) <==> !StopsIdle(s, t)
  {
    var i := IndexOfPid(s.ring, t.pid);
    if i == 0 {
      assert ThreadsNamed(s.ring[0]);
      var j := IndexOfThread(s.ring[0].threads, t.pthread);
      var p := WithThreadState(s.ring[0], j, Blocked(cause)).(threadTick := THREAD_QUANTUM);
      if StopsIdle(s, t) {
        assert !HasReadyThread(p);
      } else {
        var k :| 0 <= k < |s.ring[0].threads| && s.ring[0].threads[k].state == Ready
                 && s.ring[0].threads[k].pthread != t.pthread;
        assert p.threads[k].state == Ready;
      }
    }
  }

  lemma WakeOneKeepsIdle(s: Sched, t: Tid)
    requires IdleUsable(s)
    ensures IdleUsable(WakeOne(s, t)) && WakeOne(s, t).ring[0].pid == s.ring[0].pid
  {
  }

  lemma {:induction false} WakeWaitersKeepsIdle(s: Sched, waiters: seq<Tid>)
    requires IdleUsable(s)
    ensures IdleUsable(WakeWaiters(s, waiters)) && WakeWaiters(s, waiters).ring[0].pid == s.ring[0].pid
    decreases |waiters|
  {
    hide WakeOne;
    if waiters == [] {
    } else {
      WakeOneKeepsIdle(s, waiters[0]);
      WakeWaitersKeepsIdle(WakeOne(s, waiters[0]), waiters[1..]);
    }
  }

  lemma SchedulingKeepsIdle(s: Sched, e: Event)
    requires SchedOk(s) && IdleUsable(s) && OnlySchedules(e) && Enabled(s, e)
    ensures IdleUsable(Step(s, e))
  {
    match e
    case Tick => RunSchedulerKeepsOk(s);
    case Yield => YieldKeepsIdle(s);
    case AddThread(_, _) =>
    case AddProcess(_, _) =>
    case UnblockAll(pid, cause) =>
      var i := IndexOfPid(s.ring, pid);
      assert ProcessOk(s.ring[i]);
      hide UnblockAllFrom, ProcessOk;
      UnblockAllKeepsOk(s.ring[i], 0, cause);
  }

  lemma YieldKeepsIdle(s: Sched)
    requires SchedOk(s) && IdleUsable(s) && Enabled(s, Yield)
    ensures IdleUsable(Step(s, Yield))
  {
    if BeforeYield(s).Some? {
      assert ProcessOk(s.ring[s.current]);
      var p, t := s.ring[s.current], BeforeYield(s).value;
      assert t.ring[s.current].threads == p.threads;
      assert HasUsableThread(p) ==> HasUsableThread(t.ring[s.current]);
      assert SchedOk(t) && IdleUsable(t);
      RunSchedulerKeepsOk(t);
    }
  }

  /** A call leaves the first process one that can be switched to if and only if it does not block
      the last thread of it that is ready. */
  lemma CallKeepsIdleExactly(k: Kernel, c: Call)
    requires KernelOk(k) && IdleUsable(k.sched) && Ends(k, c)
    ensures IdleUsable(After(k, c).sched) <==> Target(k, c) == None || !StopsIdle(k.sched, Target(k, c).value)
  {
    hide SchedOk, IdleUsable, StopsIdle, BlockThread, WakeWaiters, Step, Enabled, OnlySchedules, HasCaller, Admissible;
    match c
    case Scheduler(e) => SchedulingKeepsIdle(k.sched, e);
    case BlockSelf(cause) => BlockCallerKeepsIdleExactly(k.sched, cause);
    case PipeBlock(t) => BlockingKeepsIdleExactly(k.sched, t, OnPipe);
    case NewSemaphore(_) =>
    case NewMutex =>
    case Up(id) => WakeWaitersKeepsIdle(k.sched, k.semaphores[id].waiters);
    case Down(id) => BlockCallerKeepsIdleExactly(k.sched, OnMutex);
    case Unlock(id) => WakeWaitersKeepsIdle(k.sched, k.mutexes[id].waiters);
    case Lock(id) => BlockCallerKeepsIdleExactly(k.sched, OnMutex);
  }

  lemma BlockCallerKeepsIdleExactly(s: Sched, cause: Cause)
    requires IdleUsable(s) && Named(s) && HasCaller(s)
    ensures IdleUsable(BlockCaller(s, cause)) <==> !StopsIdle(s, Caller(s))
  {
    BlockingKeepsIdleExactly(s, Caller(s), cause);
  }

  // ---------------------------------------------------------------- runs

  /** Every call names things that exist. Nothing is said about process 0. */
  predicate NamesExist(k: Kernel, run: seq<Call>)
    decreases |run|
  {
    run == [] || (Possible(k, run[0]) && (Ends(k, run[0]) ==> NamesExist(After(k, run[0]), run[1..])))
  }

  /** No call blocks a thread of process 0: it makes none itself, and no process reads an empty pipe
      to it. */
  predicate SparesInit(k: Kernel, run: seq<Call>)
    decreases |run|
  {
    run == []
    || (Ends(k, run[0]) ==>
         && (Target(k, run[0]).Some? ==> Target(k, run[0]).value.pid != 0)
         && SparesInit(After(k, run[0]), run[1..]))
  }

  lemma SchedulingKeepsFirst(s: Sched, e: Event)
    requires s.ring != [] && OnlySchedules(e) && Enabled(s, e)
    ensures Step(s, e).ring != [] && Step(s, e).ring[0].pid == s.ring[0].pid
  {
    match e
    case Tick => RunSchedulerOnlyTurns(s);
    case Yield =>
      if BeforeYield(s).Some? {
        RunSchedulerOnlyTurns(BeforeYield(s).value);
      }
    case AddThread(_, _) =>
    case AddProcess(_, _) =>
    case UnblockAll(pid, cause) => UnblockAllKeepsPid(s.ring[IndexOfPid(s.ring, pid)], 0, cause);
  }

  lemma BlockingKeepsFirst(s: Sched, t: Tid, cause: Cause)
    requires s.ring != [] && HasThread(s, t.pid, t.pthread)
    ensures BlockThread(s, t.pid, t.pthread, cause).ring != []
    ensures BlockThread(s, t.pid, t.pthread, cause).ring[0].pid == s.ring[0].pid
  {
  }

  lemma CallKeepsFirst(k: Kernel, c: Call)
    requires IdleUsable(k.sched) && Ends(k, c)
    ensures After(k, c).sched.ring != [] && After(k, c).sched.ring[0].pid == k.sched.ring[0].pid
  {
    var s := k.sched;
    if c.BlockSelf? || c.Down? || c.Lock? {
      BlockingKeepsFirst(s, Caller(s), if c.BlockSelf? then c.cause else OnMutex);
    }
    hide WakeWaiters, Step, Enabled, OnlySchedules, HasCaller, Admissible, BlockThread;
    match c
    case Scheduler(e) => SchedulingKeepsFirst(s, e);
    case BlockSelf(_) =>
    case PipeBlock(t) => BlockingKeepsFirst(s, t, OnPipe);
    case NewSemaphore(_) =>
    case NewMutex =>
    case Up(id) => WakeWaitersKeepsIdle(s, k.semaphores[id].waiters);
    case Down(_) =>
    case Unlock(id) => WakeWaitersKeepsIdle(s, k.mutexes[id].waiters);
    case Lock(_) =>
  }

  lemma {:induction false} SparedInitRuns(k: Kernel, run: seq<Call>)
    requires KernelOk(k) && IdleUsable(k.sched) && k.sched.ring[0].pid == 0
    requires NamesExist(k, run) && HarmlessRun(k, run) && SparesInit(k, run)
    ensures PossibleRun(k, run)
    decreases |run|
  {
    if run == [] {
    } else {
      CallKeepsOkExactly(k, run[0]);
      CallKeepsIdleExactly(k, run[0]);
      CallKeepsFirst(k, run[0]);
      hide KernelOk, Possible, After, Ends, Harmless, Target;
      SparedInitRuns(After(k, run[0]), run[1..]);
    }
  }

  /** From boot, with nothing assumed about states: if no call blocks a thread that waits already or
      a thread of process 0, process 0 can always be switched to, every call ends, and every state
      is well formed. */
  lemma KernelNeverStops(run: seq<Call>)
    requires NamesExist(KernelRuns.Boot(), run) && HarmlessRun(KernelRuns.Boot(), run)
    requires SparesInit(KernelRuns.Boot(), run)
    ensures PossibleRun(KernelRuns.Boot(), run) && OkThroughout(KernelRuns.Boot(), run)
  {
    BootIsOk();
    SparedInitRuns(KernelRuns.Boot(), run);
    RunKeepsOkExactly(KernelRuns.Boot(), run);
  }
}
