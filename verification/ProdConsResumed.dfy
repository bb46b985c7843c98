/** A run from boot in which the producer/consumer program goes wrong on the scheduler. Its main
    thread waits for a key, as control() does; the consumer finds nothing to consume and is blocked
    on the last tick of its process. The process switch resumes it, and it takes an item out of the
    empty buffer. */
module ProdConsResumed {
  import opened KernelResume
  import opened KernelRuns
  import opened Options
  import opened ProdCons
  import opened ProdConsKernel
  import opened Scheduling
  import opened SchedulerRuns
  import opened Statuses
  import Sync

  type Kernel = KernelRuns.Kernel

  predicate Single(p: Process, pid: int) {
    && p.pid == pid && Usable(p.state) && p.current == 0 && p.threadTick <= THREAD_QUANTUM
    && |p.threads| == 1 && Usable(p.threads[0].state)
  }

  /** The process of the program: its main thread, the consumer and the producer. */
  function Shell(state: Status, main: Status, consumer: Status, producer: Status, current: nat, tick: nat): Process {
    Process(2, state, [Thread(0, main), Thread(2, consumer), Thread(1, producer)], current, tick)
  }

  predicate Three(s: Sched, p: Process, current: nat, ticks: nat) {
    && |s.ring| == 3 && Single(s.ring[0], 0) && s.ring[1] == p && p.pid == 2 && Single(s.ring[2], 1)
    && s.current == current && s.ticks == ticks
    && (s.ring[0].state == Running ==> current == 0) && (s.ring[2].state == Running ==> current == 2)
  }

  lemma PlaceOf(ring: seq<Process>)
    requires |ring| == 3 && ring[0].pid == 0 && ring[1].pid == 2 && ring[2].pid == 1
    ensures IndexOfPid(ring, 2) == 1
  {
    assert ring[1..][0] == ring[1];
  }

  lemma PlaceOfThreads(p: Process)
    requires |p.threads| == 3 && p.threads[0].pthread == 0 && p.threads[1].pthread == 2 && p.threads[2].pthread == 1
    ensures IndexOfThread(p.threads, 0) == 0 && IndexOfThread(p.threads, 2) == 1 && IndexOfThread(p.threads, 1) == 2
  {
    assert p.threads[1..][0] == p.threads[1] && p.threads[1..][1..][0] == p.threads[2];
  }

  // ---------------------------------------------------------------- until the program runs

  const AT: Places := Places(0, 1, 0)

  predicate Created(k: Kernel) {
    && k.semaphores == [Sync.Semaphore(BUFFERSIZE, []), Sync.Semaphore(0, [])]
    && k.mutexes == [Sync.Mutex(false, [])]
  }

  /** A harmless run that starts two processes. */
  lemma StartsProcesses() returns (run: seq<Call>, k: Kernel)
    ensures Reaches(run, k) && HarmlessRun(KernelRuns.Boot(), run)
    ensures k.semaphores == [] && k.mutexes == []
    ensures Three(k.sched, Process(2, Ready, [Thread(0, Ready)], 0, 0), 0, 0)
  {
    var k0, none: seq<Call> := KernelRuns.Boot(), [];
    assert Reaches(none, k0) && HarmlessRun(k0, none);
    assert k0.sched.ring[1..] == [];
    hide Reaches, HarmlessRun;
    Then(none, k0, Scheduler(AddProcess(1, 0)));
    run, k := none + [Scheduler(AddProcess(1, 0))], KernelRuns.After(k0, Scheduler(AddProcess(1, 0)));
    assert k.sched.ring[1..][0] == k.sched.ring[1] && k.sched.ring[1..][1..] == [];
    Then(run, k, Scheduler(AddProcess(2, 0)));
    run, k := run + [Scheduler(AddProcess(2, 0))], KernelRuns.After(k, Scheduler(AddProcess(2, 0)));
  }

  lemma AddsThread(run: seq<Call>, k: Kernel, p: Process, pthread: int) returns (run': seq<Call>, k': Kernel)
    requires Reaches(run, k) && HarmlessRun(KernelRuns.Boot(), run)
    requires Three(k.sched, p, 0, 0) && p.current == 0 && p.threads != []
    requires IndexOfThread(p.threads, pthread) == |p.threads|
    ensures Reaches(run', k') && HarmlessRun(KernelRuns.Boot(), run')
    ensures k'.semaphores == k.semaphores && k'.mutexes == k.mutexes
    ensures Three(k'.sched, p.(threads := InsertSecond(p.threads, Thread(pthread, Ready))), 0, 0)
  {
    PlaceOf(k.sched.ring);
    hide Reaches, HarmlessRun;
    Then(run, k, Scheduler(AddThread(2, pthread)));
    run', k' := run + [Scheduler(AddThread(2, pthread))], KernelRuns.After(k, Scheduler(AddThread(2, pthread)));
  }

  lemma Creates(run: seq<Call>, k: Kernel, c: Call) returns (run': seq<Call>, k': Kernel)
    requires Reaches(run, k) && HarmlessRun(KernelRuns.Boot(), run) && (c.NewSemaphore? || c.NewMutex?)
    requires HasCaller(k.sched) && IdleUsable(k.sched)
    ensures Reaches(run', k') && HarmlessRun(KernelRuns.Boot(), run') && k' == KernelRuns.After(k, c)
  {
    hide Reaches, HarmlessRun;
    Then(run, k, c);
    run', k' := run + [c], KernelRuns.After(k, c);
  }

  lemma FirstHasCaller(s: Sched, p: Process)
    requires Three(s, p, 0, 0)
    ensures HasCaller(s) && IdleUsable(s)
  {
  }

  /** And creates the program's threads, its semaphores and its mutex. */
  lemma StartsProgram() returns (run: seq<Call>, k: Kernel)
    ensures Reaches(run, k) && HarmlessRun(KernelRuns.Boot(), run) && Created(k)
    ensures Three(k.sched, Shell(Ready, Ready, Ready, Ready, 0, 0), 0, 0)
  {
    run, k := StartsProcesses();
    var one := Process(2, Ready, [Thread(0, Ready)], 0, 0);
    FirstHasCaller(k.sched, one);
    hide Three, Reaches, HarmlessRun;
    run, k := Creates(run, k, NewMutex);
    run, k := Creates(run, k, NewSemaphore(BUFFERSIZE));
    run, k := Creates(run, k, NewSemaphore(0));
    assert one.threads[1..] == [];
    run, k := AddsThread(run, k, one, 1);
    var two := Process(2, Ready, [Thread(0, Ready), Thread(1, Ready)], 0, 0);
    assert one.(threads := InsertSecond(one.threads, Thread(1, Ready))) == two;
    assert two.threads[1..][0] == Thread(1, Ready) && two.threads[1..][1..] == [];
    run, k := AddsThread(run, k, two, 2);
    assert InsertSecond(two.threads, Thread(2, Ready)) == Shell(Ready, Ready, Ready, Ready, 0, 0).threads;
  }

  // ---------------------------------------------------------------- its first quantum

  lemma GoesOn(run: seq<Call>, k: Kernel, p: Process, ticks: nat) returns (run': seq<Call>, k': Kernel)
    requires Reaches(run, k) && Three(k.sched, p, 0, ticks) && p.state == Ready && ticks <= QUANTUM
    ensures Extends(run, run', k') && Three(k'.sched, p.(state := Running), 1, 0)
    ensures k'.semaphores == k.semaphores && k'.mutexes == k.mutexes
  {
    hide Reaches, Extends;
    run', k' := RunsAgain(run, k, 1);
    assert Turned(k.sched.ring[0], k'.sched.ring[0]) && Turned(k.sched.ring[2], k'.sched.ring[2]);
  }

  lemma TickOf(run: seq<Call>, k: Kernel, p: Process, ticks: nat) returns (run': seq<Call>, k': Kernel)
    requires Reaches(run, k) && Three(k.sched, p, 1, ticks) && ticks < QUANTUM && CanCheck(p)
    ensures Extends(run, run', k') && Three(k'.sched, ThreadCheck(p), 1, ticks + 1)
    ensures k'.semaphores == k.semaphores && k'.mutexes == k.mutexes
  {
    hide CanCheck, ThreadCheck, Reaches, Extends;
    CheckKeepsPid(p);
    Then(run, k, Scheduler(Tick));
    run', k' := run + [Scheduler(Tick)], KernelRuns.After(k, Scheduler(Tick));
  }

  /** The main thread waits for a key. */
  lemma MainWaits(run: seq<Call>, k: Kernel) returns (run': seq<Call>, k': Kernel)
    requires Reaches(run, k) && Three(k.sched, Shell(Running, Ready, Ready, Ready, 0, 0), 1, 0)
    ensures Extends(run, run', k') && Three(k'.sched, Shell(Running, Blocked(OnIO), Ready, Ready, 0, 1), 1, 0)
    ensures k'.semaphores == k.semaphores && k'.mutexes == k.mutexes
  {
    var p, q := Shell(Running, Ready, Ready, Ready, 0, 0), Shell(Running, Blocked(OnIO), Ready, Ready, 0, 1);
    PlaceOf(k.sched.ring);
    PlaceOfThreads(p);
    assert WithThreadState(p, 0, Blocked(OnIO)).(threadTick := THREAD_QUANTUM) == q && q.threads[1].state == Ready;
    NobodyWaits(k.sched, p, 1, 0);
    assert Caller(k.sched) == Tid(2, 0);
    hide Reaches, Extends, MutexBlocked;
    Then(run, k, BlockSelf(OnIO));
    run', k' := run + [BlockSelf(OnIO)], KernelRuns.After(k, BlockSelf(OnIO));
  }

  lemma NobodyWaits(s: Sched, p: Process, current: nat, ticks: nat)
    requires Three(s, p, current, ticks)
    requires forall j | 0 <= j < |p.threads| :: p.threads[j].state != BLOCKED_MUTEX
    ensures forall t :: !MutexBlocked(s, t)
  {
    forall i: nat, j: nat, t | At(s, i, j, t) ensures s.ring[i].threads[j].state != BLOCKED_MUTEX {
      assert i == 0 || i == 1 || i == 2;
    }
  }

  /** What the thread checks of the quantum do: the consumer runs, the producer, the consumer. */
  lemma FiveChecks()
    ensures var io := Blocked(OnIO);
            var (p0, p1) := (Shell(Running, io, Ready, Ready, 0, 1), Shell(Running, io, Running, Ready, 1, 0));
            var (p2, p3) := (Shell(Running, io, Running, Ready, 1, 1), Shell(Running, io, Ready, Running, 2, 0));
            var (p4, p5) := (Shell(Running, io, Ready, Running, 2, 1), Shell(Running, io, Running, Ready, 1, 0));
            && CanCheck(p0) && CanCheck(p1) && CanCheck(p2) && CanCheck(p3) && CanCheck(p4)
            && ThreadCheck(p0) == p1 && ThreadCheck(p1) == p2 && ThreadCheck(p2) == p3
            && ThreadCheck(p3) == p4 && ThreadCheck(p4) == p5
  {
    var io := Blocked(OnIO);
    Picks(Shell(Running, io, Ready, Ready, 0, 1), 1);
    Picks(Shell(Running, io, Running, Ready, 1, 1), 2);
    var p4 := Shell(Running, io, Ready, Running, 2, 1);
    assert ThreadStates(DemoteThread(p4)) == [io, Ready, Ready];
    Skips(ThreadStates(DemoteThread(p4)));
    hide PickThread;
  }

  /** The next thread is ready and gets its turn. */
  lemma Picks(p: Process, j: nat)
    requires |p.threads| == 3 && p.current < 2 && j == p.current + 1 && p.threads[j].state == Ready
    ensures PickThread(p) == Some(j)
  {
    assert ThreadStates(DemoteThread(p))[Next(p.current, 3)] == Ready;
  }

  lemma Skips(states: seq<Status>)
    requires |states| == 3 && states[0] != Ready && states[1] == Ready
    ensures FirstReady(states, 2) == Some(1)
  {
    assert Next(2, 3) == 0 && Next(0, 3) == 1;
    assert Search(states, 0, 2) == Some(1);
  }

  lemma Quantum(run: seq<Call>, k: Kernel) returns (run': seq<Call>, k': Kernel)
    requires Reaches(run, k) && Three(k.sched, Shell(Running, Blocked(OnIO), Ready, Ready, 0, 1), 1, 0)
    ensures Extends(run, run', k')
    ensures Three(k'.sched, Shell(Running, Blocked(OnIO), Running, Ready, 1, 0), 1, QUANTUM)
    ensures k'.semaphores == k.semaphores && k'.mutexes == k.mutexes
  {
    FiveChecks();
    hide Three, Reaches, ThreadCheck, CanCheck, Shell, HarmlessRun, NoPipeRead;
    var io := Blocked(OnIO);
    run', k' := TickOf(run, k, Shell(Running, io, Ready, Ready, 0, 1), 0);
    run', k' := TickOf(run', k', Shell(Running, io, Running, Ready, 1, 0), 1);
    run', k' := TickOf(run', k', Shell(Running, io, Running, Ready, 1, 1), 2);
    run', k' := TickOf(run', k', Shell(Running, io, Ready, Running, 2, 0), 3);
    run', k' := TickOf(run', k', Shell(Running, io, Ready, Running, 2, 1), 4);
  }

  /** A harmless run from boot, after which the consumer is about to start on the last tick. */
  lemma ConsumerIsNext() returns (run: seq<Call>, k: Kernel)
    ensures Reaches(run, k) && HarmlessRun(KernelRuns.Boot(), run) && Loaded(k, AT) && Created(k)
    ensures Three(k.sched, Shell(Running, Blocked(OnIO), Running, Ready, 1, 0), 1, QUANTUM)
  {
    run, k := StartsProgram();
    run, k := GoesOn(run, k, Shell(Ready, Ready, Ready, Ready, 0, 0), 0);
    run, k := MainWaits(run, k);
    run, k := Quantum(run, k);
    NobodyWaits(k.sched, Shell(Running, Blocked(OnIO), Running, Ready, 1, 0), 1, QUANTUM);
    BootIsOk();
    hide KernelOk, MutexBlocked, Three;
    RunKeepsOkExactly(KernelRuns.Boot(), run);
  }

  // ---------------------------------------------------------------- the program

  lemma {:induction false} ActThen(m: Machine, acts: seq<Act>, a: Act)
    requires CanActs(m, acts, AT) && CanAct(ActAll(m, acts, AT), a, AT)
    ensures CanActs(m, acts + [a], AT) && ActAll(m, acts + [a], AT) == Acted(ActAll(m, acts, AT), a, AT)
    decreases |acts|
  {
    hide CanAct, Acted;
    if acts == [] {
      assert acts + [a] == [a] && [a][1..] == [];
      assert CanActs(Acted(m, a, AT), [], AT) && ActAll(Acted(m, a, AT), [], AT) == Acted(m, a, AT);
    } else {
      assert (acts + [a])[1..] == acts[1..] + [a];
      ActThen(Acted(m, acts[0], AT), acts[1..], a);
    }
  }

  ghost predicate Does(m: Machine, acts: seq<Act>, m': Machine) {
    CanActs(m, acts, AT) && ActAll(m, acts, AT) == m'
  }

  lemma DoesThen(m: Machine, acts: seq<Act>, m': Machine, a: Act)
    requires Does(m, acts, m') && CanAct(m', a, AT)
    ensures Does(m, acts + [a], Acted(m', a, AT))
  {
    hide CanAct, Acted;
    ActThen(m, acts, a);
  }

  lemma {:induction false} DoesTicks(m: Machine, acts: seq<Act>, m': Machine, n: nat)
    returns (acts': seq<Act>, m'': Machine)
    requires Does(m, acts, m') && Shaped(m'.program) && CanTick(m'.kernel.sched, n)
    ensures Does(m, acts', m'') && m''.program == m'.program
    ensures m''.kernel == m'.kernel.(sched := Ticked(m'.kernel.sched, n))
    decreases n
  {
    if n == 0 {
      acts', m'' := acts, m';
    } else {
      var tick := Other(Scheduler(Tick));
      assert CanAct(m', tick, AT) && CanTick(Acted(m', tick, AT).kernel.sched, n - 1);
      hide CanAct, Does, Shaped;
      DoesThen(m, acts, m', tick);
      acts', m'' := DoesTicks(m, acts + [tick], Acted(m', tick, AT), n - 1);
    }
  }

  /** Where the consumer stands, and on which semaphore it waits. */
  predicate ConsumerAt(m: Machine, pc: Pc, full: Sync.Semaphore, mutex: Sync.Mutex) {
    && m.program == State(m.program.kernel, Initial().buffer, 0, 0, 1, Start, 0, pc, [], [])
    && Shaped(m.program)
    && m.kernel.semaphores == [Sync.Semaphore(BUFFERSIZE, []), full] && m.kernel.mutexes == [mutex]
  }

  lemma ConsumerIsCaller(s: Sched, p: Process, ticks: nat)
    requires Three(s, p, 1, ticks) && |p.threads| == 3 && p.current == 1 && p.threads[1].pthread == 2
    requires p.threads[0].pthread == 0 && p.threads[2].pthread == 1
    ensures HasCaller(s) && Caller(s) == CONSUMER && IdleUsable(s)
  {
    PlaceOf(s.ring);
    PlaceOfThreads(p);
  }

  /** The consumer's next step, when it is no call. */
  lemma ConsumerGoesOn(m: Machine, full: Sync.Semaphore, mutex: Sync.Mutex, p: Process, ticks: nat)
    requires ConsumerAt(m, Start, full, mutex) && Three(m.kernel.sched, p, 1, ticks)
    requires HasCaller(m.kernel.sched) && Caller(m.kernel.sched) == CONSUMER && IdleUsable(m.kernel.sched)
    ensures CanAct(m, Program, AT)
    ensures Acted(m, Program, AT).kernel == m.kernel && ConsumerAt(Acted(m, Program, AT), DownSemaphore, full, mutex)
  {
    hide HasCaller, Caller;
  }

  lemma ConsumerBlocks(s: Sched)
    requires Three(s, Shell(Running, Blocked(OnIO), Running, Ready, 1, 0), 1, QUANTUM)
    ensures HasCaller(s) && Caller(s) == CONSUMER && IdleUsable(s)
    ensures Three(BlockCaller(s, OnMutex), Shell(Running, Blocked(OnIO), BLOCKED_MUTEX, Ready, 1, 1), 1, QUANTUM)
  {
    var p := Shell(Running, Blocked(OnIO), Running, Ready, 1, 0);
    var q := Shell(Running, Blocked(OnIO), BLOCKED_MUTEX, Ready, 1, 1);
    ConsumerIsCaller(s, p, QUANTUM);
    PlaceOf(s.ring);
    PlaceOfThreads(p);
    assert WithThreadState(p, 1, BLOCKED_MUTEX).(threadTick := THREAD_QUANTUM) == q && q.threads[2].state == Ready;
  }

  lemma ConsumerDowns(m: Machine)
    requires ConsumerAt(m, DownSemaphore, Sync.Semaphore(0, []), Sync.Mutex(false, []))
    requires Three(m.kernel.sched, Shell(Running, Blocked(OnIO), Running, Ready, 1, 0), 1, QUANTUM)
    ensures CanAct(m, Program, AT)
    ensures ConsumerAt(Acted(m, Program, AT), Pc.Lock, Sync.Semaphore(-1, [CONSUMER]), Sync.Mutex(false, []))
    ensures Three(Acted(m, Program, AT).kernel.sched,
                  Shell(Running, Blocked(OnIO), BLOCKED_MUTEX, Ready, 1, 1), 1, QUANTUM)
  {
    ConsumerBlocks(m.kernel.sched);
    hide HasCaller, Caller, BlockCaller, Three;
    assert [CONSUMER] + [] == [CONSUMER];
  }

  /** It yields, and its process is switched away from. */
  lemma SwitchesAway(s: Sched)
    requires Three(s, Shell(Running, Blocked(OnIO), BLOCKED_MUTEX, Ready, 1, 1), 1, QUANTUM)
    ensures Enabled(s, Yield) && IdleUsable(s) && Evicted(Step(s, Yield), 1) && |Step(s, Yield).ring| == 3
    ensures Step(s, Yield).ring[1] == Shell(Ready, Blocked(OnIO), BLOCKED_MUTEX, Ready, 1, 1)
    ensures Single(Step(s, Yield).ring[0], 0) && Single(Step(s, Yield).ring[2], 1)
  {
    var p := s.ring[1];
    assert BeforeYield(s).value == s;
    assert Next(1, 3) == 2 && States(Demote(s))[2] == Ready;
    assert Pick(s) == Search(States(Demote(s)), 1, 3);
    assert Pick(s).value == 2;
    var t := Switch(s);
    assert t.ring[0] == s.ring[0] && t.ring[1] == p.(state := Ready) && t.ring[2] == s.ring[2].(state := Running);
    assert Usable(t.ring[0].threads[0].state) && Usable(t.ring[2].threads[0].state);
  }

  /** Resumed while it waits, it locks the mutex and takes an item. */
  lemma ResumedTakes(m: Machine)
    requires ConsumerAt(m, Pc.Lock, Sync.Semaphore(-1, [CONSUMER]), Sync.Mutex(false, []))
    requires HasCaller(m.kernel.sched) && Caller(m.kernel.sched) == CONSUMER && IdleUsable(m.kernel.sched)
    ensures CanAct(m, Program, AT) && CanAct(Acted(m, Program, AT), Program, AT)
    ensures var s := Acted(Acted(m, Program, AT), Program, AT).program; s.removed == [0] && s.inserted == []
  {
    hide HasCaller, Caller;
    assert Initial().buffer[0] == 0;
  }

  lemma BackIsThree(s: Sched, t: Sched, p: Process)
    requires |s.ring| == 3 && Single(s.ring[0], 0) && Single(s.ring[2], 1) && s.ring[1] == p && p.pid == 2
    requires BackAgain(s, t, 1)
    ensures Three(t, p.(state := Running), 1, 0)
  {
    assert Turned(s.ring[0], t.ring[0]) && Turned(s.ring[2], t.ring[2]);
    SingleIsOk(s.ring[0], 0);
    SingleIsOk(s.ring[2], 1);
  }

  lemma SingleIsOk(p: Process, pid: int)
    requires Single(p, pid)
    ensures ProcessOk(p)
  {
    assert Usable(p.threads[0].state);
  }

  /** Down, yield, and ticks until the process is back: the consumer waits, and is current. */
  lemma ConsumerIsResumed(k: Kernel) returns (acts: seq<Act>, m: Machine)
    requires Created(k) && Three(k.sched, Shell(Running, Blocked(OnIO), Running, Ready, 1, 0), 1, QUANTUM)
    ensures Does(Machine(k, Initial()), acts, m)
    ensures ConsumerAt(m, Pc.Lock, Sync.Semaphore(-1, [CONSUMER]), Sync.Mutex(false, []))
    ensures Three(m.kernel.sched, Shell(Running, Blocked(OnIO), BLOCKED_MUTEX, Ready, 1, 1), 1, 0)
  {
    var start, none: seq<Act> := Machine(k, Initial()), [];
    assert Does(start, none, start);
    ConsumerBlocks(k.sched);
    hide Does, Three, ConsumerAt, HasCaller, Caller, Evicted, BackAgain, Single, CanTick, Ticked;
    assert ConsumerAt(start, Start, Sync.Semaphore(0, []), Sync.Mutex(false, [])) by {
      StartsAtStart(k);
    }
    ConsumerGoesOn(start, Sync.Semaphore(0, []), Sync.Mutex(false, []),
                   Shell(Running, Blocked(OnIO), Running, Ready, 1, 0), QUANTUM);
    DoesThen(start, none, start, Program);
    acts, m := none + [Program], Acted(start, Program, AT);
    ConsumerDowns(m);
    DoesThen(start, acts, m, Program);
    acts, m := acts + [Program], Acted(m, Program, AT);
    acts, m := SwitchedAway(start, acts, m);
    var s := m.kernel.sched;
    var n := ComesBack(s, 1);
    acts, m := DoesTicks(start, acts, m, n);
    BackIsThree(s, m.kernel.sched, Shell(Ready, Blocked(OnIO), BLOCKED_MUTEX, Ready, 1, 1));
  }

  lemma StartsAtStart(k: Kernel)
    requires Created(k)
    ensures ConsumerAt(Machine(k, Initial()), Start, Sync.Semaphore(0, []), Sync.Mutex(false, []))
  {
  }

  lemma SwitchedAway(start: Machine, acts: seq<Act>, m: Machine) returns (acts': seq<Act>, m': Machine)
    requires Does(start, acts, m)
    requires ConsumerAt(m, Pc.Lock, Sync.Semaphore(-1, [CONSUMER]), Sync.Mutex(false, []))
    requires Three(m.kernel.sched, Shell(Running, Blocked(OnIO), BLOCKED_MUTEX, Ready, 1, 1), 1, QUANTUM)
    ensures Does(start, acts', m') && Shaped(m'.program) && Evicted(m'.kernel.sched, 1) && |m'.kernel.sched.ring| == 3
    ensures ConsumerAt(m', Pc.Lock, Sync.Semaphore(-1, [CONSUMER]), Sync.Mutex(false, []))
    ensures m'.kernel.sched.ring[1] == Shell(Ready, Blocked(OnIO), BLOCKED_MUTEX, Ready, 1, 1)
    ensures Single(m'.kernel.sched.ring[0], 0) && Single(m'.kernel.sched.ring[2], 1)
  {
    SwitchesAway(m.kernel.sched);
    hide Does, Three, Evicted, Single, Step, Enabled;
    DoesThen(start, acts, m, Other(Scheduler(Yield)));
    acts', m' := acts + [Other(Scheduler(Yield))], Acted(m, Other(Scheduler(Yield)), AT);
  }

  /** From boot, by a harmless run, the kernel is loaded with the program; and from there the program
      takes an item that nobody stored, because a thread of it is resumed while it waits. */
  lemma ProgramTakesNothing() returns (run: seq<Call>, k: Kernel, acts: seq<Act>, m: Machine)
    ensures Reaches(run, k) && HarmlessRun(KernelRuns.Boot(), run) && Loaded(k, AT)
    ensures CanActs(Machine(k, Initial()), acts, AT) && ActAll(Machine(k, Initial()), acts, AT) == m
    ensures m.program.removed == [0] && m.program.inserted == [] && !HarmlessActs(Machine(k, Initial()), acts, AT)
  {
    run, k := ConsumerIsNext();
    var start := Machine(k, Initial());
    acts, m := ConsumerIsResumed(k);
    ConsumerIsCaller(m.kernel.sched, Shell(Running, Blocked(OnIO), BLOCKED_MUTEX, Ready, 1, 1), 0);
    ResumedTakes(m);
    hide Reaches, HarmlessRun, Loaded, Three, ConsumerAt, HasCaller, Caller, CanAct, Acted;
    DoesThen(start, acts, m, Program);
    acts, m := acts + [Program], Acted(m, Program, AT);
    DoesThen(start, acts, m, Program);
    acts, m := acts + [Program], Acted(m, Program, AT);
    ProgramOnScheduler(k, acts, AT);
  }
}
