/** Threads that go on although they are blocked. The process switch (Kernel/scheduler.c, lines
    42-57) does not pick a thread anew, so whichever thread of the process was current goes on,
    in whatever state. When this happens, when it cannot, and that it is only a matter of time. */
module KernelResume {
  import opened KernelRuns
  import opened Scheduling
  import opened SchedulerRuns
  import opened Statuses

  // ---------------------------------------------------------------- who goes on

  /** A process that can be switched to, and then goes on in a thread that is blocked. */
  predicate Stale(p: Process) {
    Usable(p.state) && p.current < |p.threads| && !Usable(p.threads[p.current].state)
  }

  /** Neither the current thread nor its process is blocked. */
  predicate CallerRuns(s: Sched) {
    && s.current < |s.ring|
    && var p := s.ring[s.current];
       p.current < |p.threads| && Usable(p.state) && Usable(p.threads[p.current].state)
  }

  /** A blocked thread that yields leaves its process to another thread if and only if there are
      ticks left or the process is blocked: otherwise the process is switched away from with the
      blocked thread still its current one. */
  lemma YieldReplacesExactly(s: Sched)
    requires SchedOk(s) && IdleUsable(s) && !Usable(s.ring[s.current].threads[s.ring[s.current].current].state)
    ensures Enabled(s, Yield)
    ensures !Stale(Step(s, Yield).ring[s.current]) <==> s.ticks < QUANTUM || IsBlocked(s.ring[s.current].state)
  {
    YieldKeepsOk(s);
    var p := s.ring[s.current];
    if IsBlocked(p.state) {
      SwitchLeavesBlocked(s.(ticks := QUANTUM));
    } else {
      assert IsBlocked(p.threads[p.current].state) || p.threads[p.current].state == Dead;
      var t := BeforeYield(s).value;
      if s.ticks < QUANTUM {
        NextThreadRuns(t.ring[s.current]);
      } else {
        assert Switch(t).ring[s.current].threads == p.threads;
        SwitchKeepsUsable(t);
      }
    }
  }

  lemma NextThreadRuns(p: Process)
    requires CanCheck(p) && p.threadTick >= THREAD_QUANTUM
    ensures !Stale(ThreadCheck(p))
  {
  }

  lemma SwitchLeavesBlocked(s: Sched)
    requires s.current < |s.ring| && IsBlocked(s.ring[s.current].state) && Pick(s).Some?
    ensures Switch(s).ring[s.current] == s.ring[s.current]
  {
    FirstReadyIsNearest(States(Demote(s)), s.current);
  }

  lemma SwitchKeepsUsable(s: Sched)
    requires s.current < |s.ring| && Usable(s.ring[s.current].state) && Pick(s).Some?
    ensures Usable(Switch(s).ring[s.current].state) && Switch(s).ring[s.current].current == s.ring[s.current].current
  {
  }

  /** Switching resumes a blocked thread if and only if the chosen process is stale. */
  lemma SwitchResumesExactly(s: Sched)
    requires SchedOk(s) && IdleUsable(s) && s.ticks >= QUANTUM
    ensures CanSchedule(s) && Pick(s).Some?
    ensures CallerRuns(RunScheduler(s)) <==> !Stale(Demote(s)[Pick(s).value])
  {
    RunSchedulerKeepsOk(s);
    PickFinds(s);
    var p := Demote(s)[Pick(s).value];
    assert ProcessOk(s.ring[Pick(s).value]);
  }

  /** Waking a blocked process leaves it stale if and only if the thread woken is not its current
      one, or is not woken, and the current one is blocked. */
  lemma WakeLeavesStaleExactly(p: Process, j: nat, cause: Cause)
    requires p.state == Blocked(cause) && j < |p.threads| && p.current < |p.threads|
    ensures Stale(UnblockThread(p, j, cause))
       <==> !Usable(p.threads[p.current].state) && (p.current != j || p.threads[j].state != Blocked(cause))
  {
  }

  /** A process with one thread is never stale. */
  lemma OneThreadIsNotStale(p: Process)
    requires ProcessOk(p) && |p.threads| == 1
    ensures !Stale(p)
  {
  }

  // ---------------------------------------------------------------- one thread each

  predicate OneThreadEach(s: Sched) {
    forall i | 0 <= i < |s.ring| :: |s.ring[i].threads| == 1
  }

  predicate NoNewThread(run: seq<Call>) {
    forall c | c in run :: !(c.Scheduler? && c.e.AddThread?)
  }

  predicate MayBlock(c: Call) {
    c.BlockSelf? || c.PipeBlock? || c.Down? || c.Lock?
  }

  predicate Reschedules(c: Call) {
    c.Scheduler? && (c.e.Tick? || c.e.Yield?)
  }

  /** As the user library does it (Userland/SampleCodeModule/systemCalls.c): a call that may block
      is followed by a yield, unless a timer tick comes first. */
  predicate YieldsAfterBlocking(run: seq<Call>) {
    forall i | 0 <= i < |run| - 1 && MayBlock(run[i]) :: Reschedules(run[i + 1])
  }

  predicate CurrentUsable(s: Sched) {
    s.current < |s.ring| && Usable(s.ring[s.current].state)
  }

  lemma {:induction false} WakingKeepsOneThread(s: Sched, waiters: seq<Tid>)
    requires OneThreadEach(s) && s.current < |s.ring|
    ensures var t := WakeWaiters(s, waiters);
            && OneThreadEach(t) && t.current == s.current && |t.ring| == |s.ring|
            && (CurrentUsable(s) ==> CurrentUsable(t))
    decreases |waiters|
  {
    if waiters == [] {
    } else {
      hide WakeOne;
      WakeOneKeepsOneThread(s, waiters[0]);
      WakingKeepsOneThread(WakeOne(s, waiters[0]), waiters[1..]);
    }
  }

  lemma WakeOneKeepsOneThread(s: Sched, t: Tid)
    requires OneThreadEach(s) && s.current < |s.ring|
    ensures var s' := WakeOne(s, t);
            && OneThreadEach(s') && s'.current == s.current && |s'.ring| == |s.ring|
            && (CurrentUsable(s) ==> CurrentUsable(s'))
  {
  }

  lemma BlockingKeepsOneThread(s: Sched, t: Tid, cause: Cause)
    requires OneThreadEach(s) && HasThread(s, t.pid, t.pthread)
    ensures OneThreadEach(BlockThread(s, t.pid, t.pthread, cause))
  {
  }

  lemma RunSchedulerKeepsOneThread(s: Sched)
    requires OneThreadEach(s) && SchedOk(s) && CanSchedule(s)
    ensures OneThreadEach(RunScheduler(s)) && CurrentUsable(RunScheduler(s))
  {
    RunSchedulerOnlyTurns(s);
    if s.ticks < QUANTUM {
    } else {
      assert RunScheduler(s).ring[RunScheduler(s).current].state == Running;
    }
  }

  lemma SchedulingKeepsOneThread(s: Sched, e: Event)
    requires OneThreadEach(s) && SchedOk(s) && IdleUsable(s) && OnlySchedules(e) && Enabled(s, e) && !e.AddThread?
    ensures OneThreadEach(Step(s, e)) && (e.Tick? || e.Yield? || CurrentUsable(s) ==> CurrentUsable(Step(s, e)))
  {
    if e.Tick? {
      RunSchedulerKeepsOneThread(s);
    } else if e.Yield? {
      YieldKeepsOneThread(s);
    } else if e.UnblockAll? {
      hide UnblockAllFrom;
      UnblockAllKeepsOk(s.ring[IndexOfPid(s.ring, e.pid)], 0, e.cause);
      UnblockAllKeepsPlaces(s.ring[IndexOfPid(s.ring, e.pid)], 0, e.cause);
    } else {
      forall i | 0 <= i < |Step(s, e).ring| ensures |Step(s, e).ring[i].threads| == 1 {
        assert i > 1 ==> Step(s, e).ring[i] == s.ring[i - 1];
      }
    }
  }

  lemma YieldKeepsOneThread(s: Sched)
    requires OneThreadEach(s) && SchedOk(s) && IdleUsable(s) && Enabled(s, Yield)
    ensures OneThreadEach(Step(s, Yield)) && CurrentUsable(Step(s, Yield))
  {
    var p := s.ring[s.current];
    assert ProcessOk(p);
    if BeforeYield(s).Some? {
      OneThreadIsNotStale(p);
      RunSchedulerKeepsOneThread(s.(ticks := QUANTUM));
    }
  }

  lemma CallKeepsOneThread(k: Kernel, c: Call)
    requires KernelOk(k) && IdleUsable(k.sched) && Ends(k, c) && OneThreadEach(k.sched)
    requires !(c.Scheduler? && c.e.AddThread?)
    ensures OneThreadEach(After(k, c).sched)
    ensures Reschedules(c) || (CurrentUsable(k.sched) && !MayBlock(c)) ==> CurrentUsable(After(k, c).sched)
  {
    hide WakeWaiters, BlockThread, OneThreadEach, SchedOk, Named, Step, Enabled, Admissible, OnlySchedules;
    match c
    case Scheduler(e) => SchedulingKeepsOneThread(k.sched, e);
    case BlockSelf(cause) => BlockingKeepsOneThread(k.sched, Caller(k.sched), cause);
    case PipeBlock(t) => BlockingKeepsOneThread(k.sched, t, OnPipe);
    case NewSemaphore(_) =>
    case NewMutex =>
    case Up(id) => WakingKeepsOneThread(k.sched, k.semaphores[id].waiters);
    case Down(id) => BlockingKeepsOneThread(k.sched, Caller(k.sched), OnMutex);
    case Unlock(id) => WakingKeepsOneThread(k.sched, k.mutexes[id].waiters);
    case Lock(id) => BlockingKeepsOneThread(k.sched, Caller(k.sched), OnMutex);
  }

  /** Every thread that makes a call runs. */
  ghost predicate CallersRun(k: Kernel, run: seq<Call>)
    requires KernelRuns.CanRun(k, run)
    decreases |run|
  {
    run == [] || ((run[0].Scheduler? || CallerRuns(k.sched)) && CallersRun(After(k, run[0]), run[1..]))
  }

  /** No pipe read blocks a thread that waits already. */
  ghost predicate PipesHarmless(k: Kernel, run: seq<Call>)
    decreases |run|
  {
    run == []
    || (Ends(k, run[0]) ==>
         && (run[0].PipeBlock? ==> !MutexBlocked(k.sched, run[0].t))
         && PipesHarmless(After(k, run[0]), run[1..]))
  }

  lemma RunningIsNotWaiting(k: Kernel)
    requires KernelOk(k) && HasCaller(k.sched) && CallerRuns(k.sched)
    ensures !MutexBlocked(k.sched, Caller(k.sched))
  {
    var s, t := k.sched, Caller(k.sched);
    assert At(s, s.current, s.ring[s.current].current, t);
    AtIsIndex(s, s.current, s.ring[s.current].current, t);
    forall i: nat, j: nat | At(s, i, j, t) ensures i == s.current && j == s.ring[s.current].current {
      AtIsIndex(s, i, j, t);
    }
  }

  lemma OneThreadRuns(s: Sched)
    requires SchedOk(s) && OneThreadEach(s) && CurrentUsable(s)
    ensures CallerRuns(s)
  {
    OneThreadIsNotStale(s.ring[s.current]);
  }

  lemma {:induction false} OneThreadRunIsHarmless(k: Kernel, run: seq<Call>)
    requires KernelOk(k) && PossibleRun(k, run) && OneThreadEach(k.sched)
    requires NoNewThread(run) && YieldsAfterBlocking(run) && PipesHarmless(k, run)
    requires CurrentUsable(k.sched) || run == [] || Reschedules(run[0])
    ensures HarmlessRun(k, run) && KernelRuns.CanRun(k, run) && CallersRun(k, run)
    decreases |run|
  {
    if run == [] {
    } else {
      var c, rest := run[0], run[1..];
      CallKeepsOkExactly(k, c);
      assert c in run;
      if !Reschedules(c) {
        assert CurrentUsable(k.sched);
        OneThreadRuns(k.sched);
        RunningIsNotWaiting(k);
      }
      CallKeepsOneThread(k, c);
      hide KernelOk, Possible, After, Ends, OneThreadEach, CallerRuns, CurrentUsable, MutexBlocked, HasCaller;
      assert NoNewThread(rest) && YieldsAfterBlocking(rest) by {
        assert forall i | 0 <= i < |rest| :: rest[i] == run[i + 1];
      }
      assert rest == [] || !MayBlock(c) || Reschedules(rest[0]);
      OneThreadRunIsHarmless(After(k, c), rest);
    }
  }

  /** Where every process has one thread nothing has to be assumed about callers: no blocked thread
      is ever resumed, every run is harmless, and threads and wait lists stay in agreement. */
  lemma OneThreadIsNeverResumedBlocked(run: seq<Call>)
    requires PossibleRun(KernelRuns.Boot(), run) && PipesHarmless(KernelRuns.Boot(), run)
    requires NoNewThread(run) && YieldsAfterBlocking(run)
    ensures KernelRuns.CanRun(KernelRuns.Boot(), run) && CallersRun(KernelRuns.Boot(), run)
    ensures OkThroughout(KernelRuns.Boot(), run)
  {
    BootIsOk();
    OneThreadRunIsHarmless(KernelRuns.Boot(), run);
    RunKeepsOkExactly(KernelRuns.Boot(), run);
  }

  // ---------------------------------------------------------------- only a matter of time

  predicate CanTick(s: Sched, n: nat)
    decreases n
  {
    IdleUsable(s) && (n == 0 || (CanSchedule(s) && CanTick(RunScheduler(s), n - 1)))
  }

  function Ticked(s: Sched, n: nat): Sched
    requires CanTick(s, n)
    decreases n
  {
    if n == 0 then s else Ticked(RunScheduler(s), n - 1)
  }

  /** Process x is ready and not current. Nothing is asked of x itself, and all the others are as
      runs leave them. */
  predicate Evicted(s: Sched, x: nat) {
    && s.current < |s.ring| && 0 < x < |s.ring| && s.current != x && s.ring[x].state == Ready
    && (forall i | 0 <= i < |s.ring| && i != x :: ProcessOk(s.ring[i]))
    && (forall i | 0 <= i < |s.ring| :: s.ring[i].state == Running ==> i == s.current)
    && s.ticks <= QUANTUM && (s.ticks < QUANTUM ==> Usable(s.ring[s.current].state))
    && IdleUsable(s)
  }

  /** The same threads in the same places, some of which have been switched. */
  predicate Turned(p: Process, q: Process) {
    SameThreads(p, q) && OnlyTurns(p, q) && (ProcessOk(p) ==> ProcessOk(q))
  }

  /** Process x goes on where it was, and the others have had their turns. */
  predicate BackAgain(s: Sched, t: Sched, x: nat) {
    && |t.ring| == |s.ring| && x < |s.ring| && t.current == x && t.ticks == 0
    && t.ring[x] == s.ring[x].(state := Running)
    && forall i | 0 <= i < |s.ring| && i != x :: Turned(s.ring[i], t.ring[i]) && t.ring[i].state != Running
  }

  lemma CheckKeepsPid(p: Process)
    requires CanCheck(p)
    ensures ThreadCheck(p).pid == p.pid
  {
  }

  lemma CheckTurns(p: Process)
    requires ProcessOk(p) && HasUsableThread(p)
    ensures CanCheck(p) && Turned(p, ThreadCheck(p)) && ThreadCheck(p).state == p.state
  {
    ThreadCheckKeepsOk(p);
    if p.threadTick >= THREAD_QUANTUM {
      PickThreadFinds(p);
    }
  }

  lemma TickWhileEvicted(s: Sched, x: nat)
    requires Evicted(s, x) && s.ticks < QUANTUM
    ensures CanSchedule(s) && Evicted(RunScheduler(s), x) && Budget(RunScheduler(s), x) < Budget(s, x)
    ensures |RunScheduler(s).ring| == |s.ring| && RunScheduler(s).ring[x] == s.ring[x]
    ensures forall i | 0 <= i < |s.ring| && i != x :: Turned(s.ring[i], RunScheduler(s).ring[i])
  {
    CheckTurns(s.ring[s.current]);
    hide HasUsableThread, CanCheck, ThreadCheck;
  }

  lemma StateTurns(p: Process, state: Status)
    requires ProcessOk(p) && (state == p.state || (Usable(state) && Usable(p.state)))
    ensures Turned(p, p.(state := state))
  {
    assert HasUsableThread(p) ==> HasUsableThread(p.(state := state));
  }

  /** A switch changes states only: of the process left, and of the one chosen. */
  lemma SwitchedStates(s: Sched, i: nat)
    requires s.current < |s.ring| && Pick(s).Some? && i < |s.ring|
    requires forall k | 0 <= k < |s.ring| :: s.ring[k].state == Running ==> k == s.current
    ensures var (j, t) := (Pick(s).value, Switch(s));
            && |t.ring| == |s.ring| && t.current == j && t.ticks == 0 && Usable(s.ring[j].state)
            && t.ring[i] == s.ring[i].(state := if i == j then Running
                                                else if s.ring[i].state == Running then Ready else s.ring[i].state)
  {
    FirstReadyIsNearest(States(Demote(s)), s.current);
  }

  lemma SwitchWhileEvicted(s: Sched, x: nat)
    requires Evicted(s, x) && s.ticks >= QUANTUM
    ensures CanSchedule(s)
    ensures var t := RunScheduler(s);
            && |t.ring| == |s.ring|
            && (t.current != x ==> Evicted(t, x) && Budget(t, x) < Budget(s, x) && t.ring[x] == s.ring[x])
            && (t.current == x ==> BackAgain(s, t, x) && IdleUsable(t))
    ensures forall i | 0 <= i < |s.ring| && i != x :: Turned(s.ring[i], RunScheduler(s).ring[i])
  {
    assert States(Demote(s))[x] == Ready;
    FirstReadyIsNearest(States(Demote(s)), s.current);
    SwitchBringsNearer(s, x);
    var t := Switch(s);
    assert t == RunScheduler(s);
    hide Pick, Switch, RunScheduler, Turned, ProcessOk, Budget, Distance;
    forall i | 0 <= i < |s.ring|
      ensures i == t.current ==> t.ring[i].state == Running
      ensures i != t.current ==> t.ring[i].state != Running
      ensures i != x ==> Turned(s.ring[i], t.ring[i]) && ProcessOk(t.ring[i])
    {
      SwitchedStates(s, i);
      if i != x {
        StateTurns(s.ring[i], t.ring[i].state);
        TurnedKeepsOk(s.ring[i], t.ring[i]);
      }
    }
    SwitchedStates(s, x);
    SwitchedStates(s, 0);
    if t.current != x {
      BudgetAfterSwitch(s, x);
    }
  }

  lemma TurnedKeepsOk(p: Process, q: Process)
    requires Turned(p, q) && ProcessOk(p)
    ensures ProcessOk(q)
  {
  }

  lemma BudgetAfterSwitch(s: Sched, x: nat)
    requires Evicted(s, x) && s.ticks >= QUANTUM && Pick(s).Some? && Switch(s).current != x
    ensures Budget(Switch(s), x) < Budget(s, x)
  {
    SwitchBringsNearer(s, x);
    hide Pick, Distance;
  }

  lemma TurnedTwice(p: Process, q: Process, r: Process)
    requires Turned(p, q) && Turned(q, r)
    ensures Turned(p, r)
  {
  }

  /** A process that was switched away from comes back within as many ticks as BoundedWaiting
      allows, and goes on in the thread that was current then, be it blocked. */
  lemma {:induction false} ComesBack(s: Sched, x: nat) returns (n: nat)
    requires Evicted(s, x)
    ensures CanTick(s, n) && n <= Budget(s, x) + 1 && BackAgain(s, Ticked(s, n), x)
    decreases Budget(s, x)
  {
    hide Evicted, BackAgain, Turned, Budget, RunScheduler, CanSchedule;
    EvictedHas(s, x);
    var t;
    if s.ticks < QUANTUM {
      TickWhileEvicted(s, x);
      t := RunScheduler(s);
    } else {
      SwitchWhileEvicted(s, x);
      t := RunScheduler(s);
      if t.current == x {
        n := 1;
        assert CanTick(t, 0) && Ticked(t, 0) == t;
        return;
      }
    }
    n := ComesBack(t, x);
    BackLater(s, t, Ticked(t, n), x);
    n := n + 1;
  }

  lemma EvictedHas(s: Sched, x: nat)
    requires Evicted(s, x)
    ensures x < |s.ring| && s.current < |s.ring| && IdleUsable(s) && Budget(s, x) >= 0
  {
  }

  lemma BackLater(s: Sched, t: Sched, u: Sched, x: nat)
    requires BackAgain(t, u, x) && |t.ring| == |s.ring| && x < |s.ring| && t.ring[x] == s.ring[x]
    requires forall i | 0 <= i < |s.ring| && i != x :: Turned(s.ring[i], t.ring[i])
    ensures BackAgain(s, u, x)
  {
    hide Turned;
    forall i | 0 <= i < |s.ring| && i != x ensures Turned(s.ring[i], u.ring[i]) {
      TurnedTwice(s.ring[i], t.ring[i], u.ring[i]);
    }
  }

  // ---------------------------------------------------------------- runs, call by call

  ghost predicate Reaches(run: seq<Call>, k: Kernel) {
    PossibleRun(KernelRuns.Boot(), run) && KernelRuns.CanRun(KernelRuns.Boot(), run)
    && KernelRuns.Run(KernelRuns.Boot(), run) == k
  }

  predicate NoPipeRead(run: seq<Call>) {
    forall c | c in run :: !c.PipeBlock?
  }

  lemma {:induction false} Append(k: Kernel, run: seq<Call>, c: Call)
    requires PossibleRun(k, run) && KernelRuns.CanRun(k, run)
    requires Ends(KernelRuns.Run(k, run), c) && IdleUsable(After(KernelRuns.Run(k, run), c).sched)
    ensures PossibleRun(k, run + [c]) && KernelRuns.CanRun(k, run + [c])
    ensures KernelRuns.Run(k, run + [c]) == After(KernelRuns.Run(k, run), c)
    ensures HarmlessRun(k, run + [c]) <==> HarmlessRun(k, run) && Harmless(KernelRuns.Run(k, run), c)
    decreases |run|
  {
    assert Possible(KernelRuns.Run(k, run), c);
    hide Ends, Possible, After, Harmless;
    if run == [] {
      assert run + [c] == [c] && [c][1..] == [];
      assert PossibleRun(After(k, c), []) && KernelRuns.CanRun(After(k, c), []) && HarmlessRun(After(k, c), []);
      assert KernelRuns.Run(After(k, c), []) == After(k, c);
    } else {
      assert (run + [c])[1..] == run[1..] + [c];
      Append(After(k, run[0]), run[1..], c);
    }
  }

  /** A run that goes on from another with harmless calls and no pipe reads. */
  ghost predicate Extends(run: seq<Call>, run': seq<Call>, k': Kernel) {
    && Reaches(run', k')
    && (HarmlessRun(KernelRuns.Boot(), run) <==> HarmlessRun(KernelRuns.Boot(), run'))
    && (NoPipeRead(run) ==> NoPipeRead(run'))
  }

  /** One more call. */
  lemma Then(run: seq<Call>, k: Kernel, c: Call)
    requires Reaches(run, k) && Ends(k, c) && IdleUsable(After(k, c).sched)
    ensures Reaches(run + [c], After(k, c))
    ensures HarmlessRun(KernelRuns.Boot(), run + [c]) <==> HarmlessRun(KernelRuns.Boot(), run) && Harmless(k, c)
    ensures NoPipeRead(run) && !c.PipeBlock? ==> NoPipeRead(run + [c])
    ensures Harmless(k, c) && !c.PipeBlock? ==> Extends(run, run + [c], After(k, c))
  {
    hide Ends, Possible, After, Harmless, PossibleRun, KernelRuns.CanRun, KernelRuns.Run, HarmlessRun;
    Append(KernelRuns.Boot(), run, c);
  }

  lemma OneTick(run: seq<Call>, k: Kernel)
    requires Reaches(run, k) && CanSchedule(k.sched) && IdleUsable(RunScheduler(k.sched))
    ensures Extends(run, run + [Scheduler(Tick)], k.(sched := RunScheduler(k.sched)))
  {
    assert Ends(k, Scheduler(Tick));
    hide Reaches, Extends, RunScheduler, CanSchedule;
    Then(run, k, Scheduler(Tick));
  }

  lemma {:induction false} TicksPass(run: seq<Call>, k: Kernel, n: nat) returns (run': seq<Call>)
    requires Reaches(run, k) && CanTick(k.sched, n)
    ensures Extends(run, run', k.(sched := Ticked(k.sched, n)))
    decreases n
  {
    if n == 0 {
      run' := run;
    } else {
      var next := k.(sched := RunScheduler(k.sched));
      assert CanSchedule(k.sched) && CanTick(next.sched, n - 1) && IdleUsable(next.sched);
      hide RunScheduler, CanSchedule, Reaches, HarmlessRun, NoPipeRead;
      OneTick(run, k);
      run' := TicksPass(run + [Scheduler(Tick)], next, n - 1);
    }
  }

  /** Ticks, until the process at place x is back. */
  lemma RunsAgain(run: seq<Call>, k: Kernel, x: nat) returns (run': seq<Call>, k': Kernel)
    requires Reaches(run, k) && Evicted(k.sched, x)
    ensures Extends(run, run', k') && BackAgain(k.sched, k'.sched, x)
    ensures k'.semaphores == k.semaphores && k'.mutexes == k.mutexes
  {
    var n := ComesBack(k.sched, x);
    run' := TicksPass(run, k, n);
    k' := k.(sched := Ticked(k.sched, n));
  }
}
