/** What every run of the scheduler keeps, and how long a ready process can wait. */
module SchedulerRuns {
  import opened Scheduling
  import opened Statuses

  // ---------------------------------------------------------------- well-formedness

  predicate Usable(state: Status) {
    state == Ready || state == Running
  }

  /** The process has a thread to run. */
  predicate HasUsableThread(p: Process) {
    exists j :: 0 <= j < |p.threads| && Usable(p.threads[j].state)
  }

  predicate ProcessOk(p: Process) {
    && p.current < |p.threads|
    && (forall j | 0 <= j < |p.threads| :: p.threads[j].state == Running ==> j == p.current)
    && (Usable(p.state) ==> HasUsableThread(p))
    && p.state != Dead && p.threadTick <= THREAD_QUANTUM
  }

  predicate SchedOk(s: Sched) {
    && s.current < |s.ring|
    && (forall i | 0 <= i < |s.ring| :: ProcessOk(s.ring[i]))
    && (forall i | 0 <= i < |s.ring| :: s.ring[i].state == Running ==> i == s.current)
    && s.ticks <= QUANTUM
    && (s.ticks < QUANTUM ==> Usable(s.ring[s.current].state))
  }

  /** The first process of the ring, pid 0, is not blocked. */
  predicate IdleUsable(s: Sched) {
    s.ring != [] && Usable(s.ring[0].state)
  }

  /** Waking thread j cannot leave its process ready with nothing to run: it is blocked for that
      cause (as every thread on a wait list is), or its process is not, or another can run. */
  predicate WakeIsSound(p: Process, j: nat, cause: Cause)
    requires j < |p.threads|
  {
    p.threads[j].state == Blocked(cause) || p.state != Blocked(cause) || HasUsableThread(p)
  }

  /** What the callers of the scheduler promise. Ticks and yields promise nothing: that their
      loops end is what is proved. */
  predicate Admissible(s: Sched, e: Event) {
    match e
    case Tick => true
    case Yield => true
    case Unblock(pid, pthread, cause) =>
      && Enabled(s, e)
      && var p := s.ring[IndexOfPid(s.ring, pid)];
         WakeIsSound(p, IndexOfThread(p.threads, pthread), cause)
    case _ => Enabled(s, e)
  }

  // ---------------------------------------------------------------- one process

  lemma PickThreadFinds(p: Process)
    requires ProcessOk(p) && HasUsableThread(p)
    ensures PickThread(p).Some? && DemoteThread(p)[PickThread(p).value].state == Ready
  {
    var t := DemoteThread(p);
    var j :| 0 <= j < |p.threads| && Usable(p.threads[j].state);
    assert ThreadStates(t)[j] == Ready;
    FirstReadyIsNearest(ThreadStates(t), p.current);
  }

  lemma ThreadCheckKeepsOk(p: Process)
    requires ProcessOk(p) && HasUsableThread(p)
    ensures CanCheck(p) && ProcessOk(ThreadCheck(p)) && ThreadCheck(p).state == p.state
    ensures HasUsableThread(ThreadCheck(p))
  {
    PickThreadFinds(p);
    var q := ThreadCheck(p);
    if p.threadTick >= THREAD_QUANTUM {
      assert q.threads[q.current].state == Running;
    } else {
      assert q.threads == p.threads;
    }
  }

  /** A thread check counts a tick; or, with none left, the current thread becomes READY if it was
      RUNNING, and the nearest READY one after it becomes current and RUNNING. No other thread and
      nothing else of the process changes. */
  lemma ThreadCheckExactly(p: Process)
    requires CanCheck(p)
    ensures var q := ThreadCheck(p);
            if p.threadTick < 1 then q == p.(threadTick := p.threadTick + 1)
            else
              var n := |p.threads|;
              && q == p.(threads := q.threads, current := q.current, threadTick := 0)
              && |q.threads| == n && q.current < n && q.threads[q.current] == p.threads[q.current].(state := Running)
              && (q.current != p.current ==> p.threads[q.current].state == Ready)
              && (forall k | 0 <= k < n && k != p.current && p.threads[k].state == Ready ::
                    Distance(p.current, q.current, n) <= Distance(p.current, k, n))
              && forall k | 0 <= k < n && k != q.current ::
                   q.threads[k] == if k == p.current && p.threads[k].state == Running
                                   then p.threads[k].(state := Ready) else p.threads[k]
  {
    if p.threadTick >= THREAD_QUANTUM {
      var t := DemoteThread(p);
      FirstReadyIsNearest(ThreadStates(t), p.current);
      hide FirstReady, Distance;
      assert forall k | 0 <= k < |p.threads| && k != p.current :: ThreadStates(t)[k] == p.threads[k].state;
    }
  }

  lemma UnblockThreadKeepsOk(p: Process, j: nat, cause: Cause)
    requires ProcessOk(p) && j < |p.threads| && p.threads[j].state == Blocked(cause)
    ensures ProcessOk(UnblockThread(p, j, cause)) && |UnblockThread(p, j, cause).threads| == |p.threads|
    ensures UnblockThread(p, j, cause).state == if p.state == Blocked(cause) then Ready else p.state
  {
    var q := UnblockThread(p, j, cause);
    assert q.threads[j].state == Ready;
  }

  lemma {:induction false} UnblockAllKeepsOk(p: Process, j: nat, cause: Cause)
    requires ProcessOk(p) && j <= |p.threads|
    ensures ProcessOk(UnblockAllFrom(p, j, cause))
    ensures var q := UnblockAllFrom(p, j, cause);
            q.state == p.state || (p.state == Blocked(cause) && q.state == Ready)
    decreases |p.threads| - j
  {
    if j == |p.threads| {
    } else {
      if p.threads[j].state == Blocked(cause) {
        UnblockThreadKeepsOk(p, j, cause);
        UnblockAllKeepsOk(UnblockThread(p, j, cause), j + 1, cause);
      } else {
        UnblockAllKeepsOk(p, j + 1, cause);
      }
    }
  }

  lemma AddThreadKeepsOk(p: Process, pthread: int)
    requires ProcessOk(p)
    ensures ProcessOk(p.(threads := InsertSecond(p.threads, Thread(pthread, Ready)), current := ShiftedBy(p.current)))
  {
    var q := p.(threads := InsertSecond(p.threads, Thread(pthread, Ready)), current := ShiftedBy(p.current));
    assert q.threads[1].state == Ready;
    forall j | 0 <= j < |q.threads|
      ensures q.threads[j].state == Running ==> j == q.current
    {
      if j > 1 {
        assert q.threads[j] == p.threads[j - 1];
      }
    }
  }

  // ---------------------------------------------------------------- one event

  lemma PickFinds(s: Sched)
    requires SchedOk(s) && IdleUsable(s)
    ensures Pick(s).Some? && Demote(s)[Pick(s).value].state == Ready
  {
    FirstReadyIsNearest(States(Demote(s)), s.current);
    assert States(Demote(s))[0] == Ready;
  }

  lemma SwitchKeepsOk(s: Sched)
    requires SchedOk(s) && IdleUsable(s)
    ensures Pick(s).Some? && SchedOk(Switch(s)) && IdleUsable(Switch(s))
  {
    PickFinds(s);
    var t := Switch(s);
    forall i | 0 <= i < |t.ring|
      ensures ProcessOk(t.ring[i])
    {
      assert t.ring[i].threads == s.ring[i].threads && t.ring[i].current == s.ring[i].current;
      assert HasUsableThread(s.ring[i]) ==> HasUsableThread(t.ring[i]);
    }
  }

  /** Changing one process that stays out of Running, or stays as it was. */
  lemma UpdateKeepsOk(s: Sched, i: nat, p: Process)
    requires SchedOk(s) && i < |s.ring| && ProcessOk(p)
    requires p.state == s.ring[i].state || p.state == Ready
    ensures SchedOk(s.(ring := s.ring[i := p]))
  {
  }

  /** Blocking thread j of process i: it is blocked for that cause and has no thread tick left. The
      process is blocked too, and the quantum over, if and only if no other thread of it is READY; one
      that is RUNNING does not count. Nothing else changes. */
  lemma BlockThreadExactly(s: Sched, pid: int, pthread: int, cause: Cause)
    requires HasThread(s, pid, pthread)
    ensures var (i, s') := (IndexOfPid(s.ring, pid), BlockThread(s, pid, pthread, cause));
            var (p, p') := (s.ring[i], s'.ring[i]);
            var j := IndexOfThread(p.threads, pthread);
            var last := forall k | 0 <= k < |p.threads| && k != j :: p.threads[k].state != Ready;
            && p'.threads == p.threads[j := Thread(pthread, Blocked(cause))]
            && p'.pid == p.pid && p'.current == p.current && p'.threadTick == 1
            && p'.state == (if last then Blocked(cause) else p.state)
            && s'.ticks == (if last then 5 else s.ticks)
            && s'.current == s.current && s'.ring == s.ring[i := p']
  {
    var p := s.ring[IndexOfPid(s.ring, pid)];
    var j := IndexOfThread(p.threads, pthread);
    var q := WithThreadState(p, j, Blocked(cause)).(threadTick := THREAD_QUANTUM);
    assert forall k | 0 <= k < |p.threads| && k != j :: q.threads[k] == p.threads[k];
    assert q.threads[j].state != Ready;
  }

  lemma BlockKeepsOk(s: Sched, pid: int, pthread: int, cause: Cause)
    requires SchedOk(s) && HasThread(s, pid, pthread)
    ensures SchedOk(BlockThread(s, pid, pthread, cause))
  {
    var i := IndexOfPid(s.ring, pid);
    var j := IndexOfThread(s.ring[i].threads, pthread);
    var p := WithThreadState(s.ring[i], j, Blocked(cause)).(threadTick := THREAD_QUANTUM);
    if HasReadyThread(p) {
      var k :| 0 <= k < |p.threads| && p.threads[k].state == Ready;
      assert Usable(p.threads[k].state);
      UpdateKeepsOk(s, i, p);
    } else {
      BlockProcessKeepsOk(s, i, p.(state := Blocked(cause)));
    }
  }

  lemma BlockProcessKeepsOk(s: Sched, i: nat, p: Process)
    requires SchedOk(s) && i < |s.ring| && ProcessOk(p) && p.state.Blocked?
    ensures SchedOk(s.(ring := s.ring[i := p], ticks := QUANTUM))
  {
    hide ProcessOk;
  }

  lemma AddProcessKeepsOk(s: Sched, pid: int, pthread: int)
    requires SchedOk(s) && Enabled(s, AddProcess(pid, pthread))
    ensures SchedOk(Step(s, AddProcess(pid, pthread)))
  {
    var t := Step(s, AddProcess(pid, pthread));
    assert t.ring[1].threads[0].state == Ready;
    forall i | 0 <= i < |t.ring|
      ensures ProcessOk(t.ring[i]) && (t.ring[i].state == Running ==> i == t.current)
    {
      if i > 1 {
        assert t.ring[i] == s.ring[i - 1];
      }
    }
  }

  lemma RunSchedulerKeepsOk(s: Sched)
    requires SchedOk(s) && IdleUsable(s)
    ensures CanSchedule(s) && SchedOk(RunScheduler(s)) && IdleUsable(RunScheduler(s))
  {
    if s.ticks < QUANTUM {
      ThreadCheckKeepsOk(s.ring[s.current]);
      UpdateKeepsOk(s, s.current, ThreadCheck(s.ring[s.current]));
    } else {
      SwitchKeepsOk(s);
    }
  }

  /** Any admissible event: the loops it enters end, and the state stays well formed. */
  lemma StepKeepsOk(s: Sched, e: Event)
    requires SchedOk(s) && IdleUsable(s) && Admissible(s, e)
    ensures Enabled(s, e) && SchedOk(Step(s, e))
  {
    hide ProcessOk, HasThread;
    match e
    case Tick =>
      RunSchedulerKeepsOk(s);
    case Yield =>
      YieldKeepsOk(s);
    case Block(pid, pthread, cause) =>
      BlockKeepsOk(s, pid, pthread, cause);
    case Unblock(pid, pthread, cause) =>
      UnblockKeepsOkExactly(s, pid, pthread, cause);
    case UnblockAll(pid, cause) =>
      var i := IndexOfPid(s.ring, pid);
      NonEmptyThreads(s.ring[i]);
      UnblockAllKeepsOk(s.ring[i], 0, cause);
      UpdateKeepsOk(s, i, UnblockAllFrom(s.ring[i], 0, cause));
    case AddThread(pid, pthread) =>
      var i := IndexOfPid(s.ring, pid);
      var p := s.ring[i];
      AddThreadKeepsOk(p, pthread);
      UpdateKeepsOk(s, i, p.(threads := InsertSecond(p.threads, Thread(pthread, Ready)), current := ShiftedBy(p.current)));
    case AddProcess(pid, pthread) =>
      AddProcessKeepsOk(s, pid, pthread);
  }

  lemma NonEmptyThreads(p: Process)
    requires ProcessOk(p)
    ensures p.current < |p.threads|
  {
  }

  lemma YieldKeepsOk(s: Sched)
    requires SchedOk(s) && IdleUsable(s)
    ensures Enabled(s, Yield) && SchedOk(Step(s, Yield))
  {
    NonEmptyThreads(s.ring[s.current]);
    var p := s.ring[s.current];
    if BeforeYield(s).Some? {
      var t := BeforeYield(s).value;
      assert HasUsableThread(p) ==> HasUsableThread(t.ring[s.current]) by {
        assert t.ring[s.current].threads == p.threads;
      }
      assert SchedOk(t) && IdleUsable(t);
      RunSchedulerKeepsOk(t);
    }
  }

  /** A yield does nothing if and only if neither the current process nor its current thread is
      blocked or dead. Otherwise it calls runScheduler: the process has no tick left when it is blocked, the
      thread none when only the thread is. */
  lemma YieldCallsExactly(s: Sched)
    requires SchedOk(s) && IdleUsable(s)
    ensures Enabled(s, Yield)
    ensures var p := s.ring[s.current];
            var thread, last := p.threads[p.current], s.(ring := s.ring[s.current := p.(threadTick := THREAD_QUANTUM)]);
            && (Step(s, Yield) == s <==> Usable(p.state) && Usable(thread.state))
            && (!Usable(p.state) ==>
                  CanSchedule(s.(ticks := QUANTUM)) && Step(s, Yield) == RunScheduler(s.(ticks := QUANTUM)))
            && (Usable(p.state) && !Usable(thread.state) ==>
                  CanSchedule(last) && Step(s, Yield) == RunScheduler(last))
  {
    YieldKeepsOk(s);
    NonEmptyThreads(s.ring[s.current]);
    assert s.ring[s.current].state != Dead by {
      assert ProcessOk(s.ring[s.current]);
    }
    hide ProcessOk, CanCheck, ThreadCheck, FirstReady;
  }

  /** A wake-up keeps the state well formed exactly when it is sound. */
  lemma UnblockKeepsOkExactly(s: Sched, pid: int, pthread: int, cause: Cause)
    requires SchedOk(s) && Enabled(s, Unblock(pid, pthread, cause))
    ensures var p := s.ring[IndexOfPid(s.ring, pid)];
            SchedOk(Step(s, Unblock(pid, pthread, cause)))
            <==> WakeIsSound(p, IndexOfThread(p.threads, pthread), cause)
  {
    var i := IndexOfPid(s.ring, pid);
    var p := s.ring[i];
    var j := IndexOfThread(p.threads, pthread);
    var q, t := UnblockThread(p, j, cause), Step(s, Unblock(pid, pthread, cause));
    assert t.ring[i] == q;
    if p.threads[j].state == Blocked(cause) {
      UnblockThreadKeepsOk(p, j, cause);
      UpdateKeepsOk(s, i, q);
    } else {
      assert q.threads == p.threads;
      assert HasUsableThread(q) <==> HasUsableThread(p);
      if WakeIsSound(p, j, cause) {
        UpdateKeepsOk(s, i, q);
      }
    }
  }

  // ---------------------------------------------------------------- runs

  function Boot(): Sched {
    Sched([Process(0, Ready, [Thread(0, Ready)], 0, 0)], 0, 0)
  }

  /** Every event is admissible when it comes, and pid 0 is never blocked. */
  predicate AdmissibleRun(s: Sched, trace: seq<Event>)
    decreases |trace|
  {
    && IdleUsable(s)
    && (trace != [] ==> Admissible(s, trace[0])
                        && (Enabled(s, trace[0]) ==> AdmissibleRun(Step(s, trace[0]), trace[1..])))
  }

  lemma {:induction false} RunKeepsOk(s: Sched, trace: seq<Event>)
    requires SchedOk(s) && AdmissibleRun(s, trace)
    ensures CanRun(s, trace) && SchedOk(Run(s, trace))
    decreases |trace|
  {
    if trace == [] {
    } else {
      StepKeepsOk(s, trace[0]);
      RunKeepsOk(Step(s, trace[0]), trace[1..]);
    }
  }

  /** From boot, in every run without kills in which pid 0 is never blocked: every search loop
      ends, only the current process is Running, only a process's current thread is Running,
      and every process that is not blocked has a thread that can run. */
  lemma SchedulerStaysWellFormed(trace: seq<Event>)
    requires AdmissibleRun(Boot(), trace)
    ensures CanRun(Boot(), trace)
    ensures var s := Run(Boot(), trace);
            && (forall i | 0 <= i < |s.ring| :: s.ring[i].state == Running ==> i == s.current)
            && (forall i, j | 0 <= i < |s.ring| && 0 <= j < |s.ring[i].threads| ::
                  s.ring[i].threads[j].state == Running ==> j == s.ring[i].current)
            && (forall i | 0 <= i < |s.ring| :: !IsBlocked(s.ring[i].state) ==> HasUsableThread(s.ring[i]))
  {
    assert Usable(Boot().ring[0].threads[0].state);
    RunKeepsOk(Boot(), trace);
  }

  // ---------------------------------------------------------------- bounded waiting

  /** Whether an event calls runScheduler. */
  function Calls(s: Sched, e: Event): nat
    requires Enabled(s, e)
  {
    if e.Tick? || (e.Yield? && BeforeYield(s).Some?) then 1 else 0
  }

  function CallCount(s: Sched, trace: seq<Event>): nat
    requires CanRun(s, trace)
    decreases |trace|
  {
    if trace == [] then 0 else Calls(s, trace[0]) + CallCount(Step(s, trace[0]), trace[1..])
  }

  /** The process at place x is ready in every state of the run and never becomes current. */
  predicate Waits(s: Sched, trace: seq<Event>, x: nat)
    requires CanRun(s, trace)
    decreases |trace|
  {
    && x < |s.ring| && s.current < |s.ring| && s.current != x && s.ring[x].state == Ready
    && (trace != [] ==> Waits(Step(s, trace[0]), trace[1..], x))
  }

  predicate NoNewProcess(trace: seq<Event>) {
    forall e | e in trace :: !e.AddProcess?
  }

  /** A switch either makes x current or brings it strictly nearer; it never skips it. */
  lemma SwitchBringsNearer(s: Sched, x: nat)
    requires s.current < |s.ring| && x < |s.ring| && s.current != x && s.ring[x].state == Ready
    requires Pick(s).Some?
    ensures var t := Switch(s);
            && t.ring[t.current].state == Running
            && (t.current != x ==> Distance(t.current, x, |t.ring|) < Distance(s.current, x, |s.ring|))
  {
    assert States(Demote(s))[x] == Ready;
    FirstReadyIsNearest(States(Demote(s)), s.current);
  }

  /** An upper bound on the calls of runScheduler before x becomes current. */
  function Budget(s: Sched, x: nat): int
    requires s.current < |s.ring| && x < |s.ring|
  {
    Distance(s.current, x, |s.ring|) * (QUANTUM + 1) - s.ticks - 1
  }

  lemma BudgetShrinks(s: Sched, e: Event, x: nat)
    requires Enabled(s, e) && !e.AddProcess? && s.ticks <= QUANTUM
    requires x < |s.ring| && s.current < |s.ring| && s.current != x && s.ring[x].state == Ready
    requires Step(s, e).current != x
    ensures var t := Step(s, e);
            && |t.ring| == |s.ring| && t.current < |t.ring| && t.ticks <= QUANTUM
            && Budget(t, x) + Calls(s, e) <= Budget(s, x)
  {
    if e.Tick? {
      if s.ticks >= QUANTUM {
        SwitchBringsNearer(s, x);
      }
    } else if e.Yield? && BeforeYield(s).Some? {
      var t := BeforeYield(s).value;
      if t.ticks >= QUANTUM {
        SwitchBringsNearer(t, x);
      }
    }
  }

  lemma {:induction false} WaitingUsesBudget(s: Sched, trace: seq<Event>, x: nat)
    requires CanRun(s, trace) && Waits(s, trace, x) && NoNewProcess(trace) && s.ticks <= QUANTUM
    ensures CallCount(s, trace) <= Budget(s, x)
    decreases |trace|
  {
    if trace == [] {
    } else {
      BudgetShrinks(s, trace[0], x);
      WaitingUsesBudget(Step(s, trace[0]), trace[1..], x);
    }
  }

  /** Bounded waiting: with n processes in the ring, one that stays ready becomes current within
      (n - 1) * (QUANTUM + 1) calls of runScheduler, whatever the others do in between. */
  lemma BoundedWaiting(s: Sched, trace: seq<Event>, x: nat)
    requires CanRun(s, trace) && NoNewProcess(trace) && s.ticks <= QUANTUM
    requires s.ring != [] && CallCount(s, trace) >= (|s.ring| - 1) * (QUANTUM + 1)
    ensures !Waits(s, trace, x)
  {
    if Waits(s, trace, x) {
      WaitingUsesBudget(s, trace, x);
    }
  }

  // ---------------------------------------------------------------- the same for threads

  /** Whether an event calls threadCheck on the process at place i. */
  function Checks(s: Sched, e: Event, i: nat): nat
    requires Enabled(s, e)
  {
    var t := if e.Yield? && BeforeYield(s).Some? then BeforeYield(s).value else s;
    if Calls(s, e) == 1 && t.current == i && t.ticks < QUANTUM then 1 else 0
  }

  function CheckCount(s: Sched, trace: seq<Event>, i: nat): nat
    requires CanRun(s, trace)
    decreases |trace|
  {
    if trace == [] then 0 else Checks(s, trace[0], i) + CheckCount(Step(s, trace[0]), trace[1..], i)
  }

  predicate ThreadIsWaiting(p: Process, x: nat) {
    x < |p.threads| && p.current < |p.threads| && p.current != x && p.threads[x].state == Ready
  }

  /** Thread x of process i is ready in every state of the run and never becomes current. */
  predicate ThreadWaits(s: Sched, trace: seq<Event>, i: nat, x: nat)
    requires CanRun(s, trace)
    decreases |trace|
  {
    && i < |s.ring| && ThreadIsWaiting(s.ring[i], x)
    && (trace != [] ==> ThreadWaits(Step(s, trace[0]), trace[1..], i, x))
  }

  predicate NothingNew(trace: seq<Event>) {
    forall e | e in trace :: !e.AddProcess? && !e.AddThread?
  }

  function ThreadBudget(p: Process, x: nat): int
    requires p.current < |p.threads| && x < |p.threads|
  {
    Distance(p.current, x, |p.threads|) * (THREAD_QUANTUM + 1) - p.threadTick - 1
  }

  lemma ThreadCheckBringsNearer(p: Process, x: nat)
    requires CanCheck(p) && ThreadIsWaiting(p, x) && p.threadTick <= THREAD_QUANTUM
    requires ThreadCheck(p).current != x
    ensures var q := ThreadCheck(p);
            && |q.threads| == |p.threads| && q.current < |q.threads| && q.threadTick <= THREAD_QUANTUM
            && ThreadBudget(q, x) + 1 <= ThreadBudget(p, x)
  {
    assert ThreadStates(DemoteThread(p))[x] == Ready;
    FirstReadyIsNearest(ThreadStates(DemoteThread(p)), p.current);
  }

  lemma {:induction false} UnblockAllKeepsPlaces(p: Process, j: nat, cause: Cause)
    requires j <= |p.threads|
    ensures var q := UnblockAllFrom(p, j, cause);
            |q.threads| == |p.threads| && q.current == p.current && q.threadTick == p.threadTick
    decreases |p.threads| - j
  {
    if j == |p.threads| {
    } else {
      UnblockAllKeepsPlaces(if p.threads[j].state == Blocked(cause) then UnblockThread(p, j, cause) else p, j + 1, cause);
    }
  }

  /** One call of runScheduler, seen by thread x of process i. */
  lemma RunUsesThreadBudget(s: Sched, i: nat, x: nat)
    requires CanSchedule(s) && i < |s.ring|
    requires ThreadIsWaiting(s.ring[i], x) && s.ring[i].threadTick <= THREAD_QUANTUM
    requires RunScheduler(s).ring[i].current != x
    ensures var q := RunScheduler(s).ring[i];
            && |q.threads| == |s.ring[i].threads| && q.current < |q.threads| && q.threadTick <= THREAD_QUANTUM
            && ThreadBudget(q, x) + (if s.current == i && s.ticks < QUANTUM then 1 else 0)
               <= ThreadBudget(s.ring[i], x)
  {
    hide FirstReady;
    if s.ticks < QUANTUM && s.current == i {
      ThreadCheckBringsNearer(s.ring[i], x);
    }
  }

  lemma ThreadBudgetShrinks(s: Sched, e: Event, i: nat, x: nat)
    requires Enabled(s, e) && !e.AddProcess? && !e.AddThread?
    requires i < |s.ring| && ThreadIsWaiting(s.ring[i], x) && s.ring[i].threadTick <= THREAD_QUANTUM
    requires i < |Step(s, e).ring| && Step(s, e).ring[i].current != x
    ensures var q := Step(s, e).ring[i];
            && |q.threads| == |s.ring[i].threads| && q.current < |q.threads| && q.threadTick <= THREAD_QUANTUM
            && ThreadBudget(q, x) + Checks(s, e, i) <= ThreadBudget(s.ring[i], x)
  {
    hide FirstReady, RunScheduler;
    match e
    case Tick => RunUsesThreadBudget(s, i, x);
    case Yield =>
      if BeforeYield(s).Some? {
        RunUsesThreadBudget(BeforeYield(s).value, i, x);
      }
    case Block(_, _, _) =>
    case Unblock(_, _, _) =>
    case UnblockAll(pid, cause) =>
      UnblockAllKeepsPlaces(s.ring[IndexOfPid(s.ring, pid)], 0, cause);
  }

  lemma {:induction false} WaitingUsesThreadBudget(s: Sched, trace: seq<Event>, i: nat, x: nat)
    requires CanRun(s, trace) && ThreadWaits(s, trace, i, x) && NothingNew(trace)
    requires s.ring[i].threadTick <= THREAD_QUANTUM
    ensures CheckCount(s, trace, i) <= ThreadBudget(s.ring[i], x)
    decreases |trace|
  {
    hide Enabled, Step, Checks, ThreadBudget, ThreadIsWaiting;
    if trace == [] {
      WaitingThread(s.ring[i], x);
    } else {
      assert trace[0] in trace;
      var next := Step(s, trace[0]);
      assert ThreadWaits(next, trace[1..], i, x);
      WaitingThread(next.ring[i], x);
      ThreadBudgetShrinks(s, trace[0], i, x);
      WaitingUsesThreadBudget(next, trace[1..], i, x);
    }
  }

  lemma WaitingThread(p: Process, x: nat)
    requires ThreadIsWaiting(p, x)
    ensures p.current != x && p.current < |p.threads| && x < |p.threads|
    ensures p.threadTick <= THREAD_QUANTUM ==> 0 <= ThreadBudget(p, x)
  {
  }

  /** Within a process of n threads, one that stays ready becomes current within
      (n - 1) * (THREAD_QUANTUM + 1) thread checks of that process, whatever blocks and wakes. */
  lemma BoundedThreadWaiting(s: Sched, trace: seq<Event>, i: nat, x: nat)
    requires CanRun(s, trace) && NothingNew(trace)
    requires i < |s.ring| && s.ring[i].threadTick <= THREAD_QUANTUM && s.ring[i].threads != []
    requires CheckCount(s, trace, i) >= (|s.ring[i].threads| - 1) * (THREAD_QUANTUM + 1)
    ensures !ThreadWaits(s, trace, i, x)
  {
    if ThreadWaits(s, trace, i, x) {
      WaitingUsesThreadBudget(s, trace, i, x);
    }
  }
}
