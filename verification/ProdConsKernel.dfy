/** The producer/consumer program of ProdCons.dfy run by the scheduler of KernelRuns.dfy: its
    threads take their next step when they are current, by the calls the kernel offers, among the
    calls of all other threads and whatever the scheduler does. */
module ProdConsKernel {
  import opened KernelRuns
  import opened Options
  import opened ProdCons
  import opened Scheduling
  import opened SchedulerRuns
  import opened Statuses
  import Sync

  type Kernel = KernelRuns.Kernel

  /** The ids the program got for its semaphores and its mutex. */
  datatype Places = Places(empty: nat, full: nat, mutex: nat)

  datatype Machine = Machine(kernel: Kernel, program: State)

  datatype Act = Program | Other(c: Call)

  predicate Theirs(t: Tid) {
    t == PRODUCER || t == CONSUMER
  }

  /** The call a thread makes next, unless its next step is its own affair. */
  function NextCall(s: State, t: Tid, at: Places): Option<Call>
    requires Theirs(t)
  {
    match if t == PRODUCER then s.producer else s.consumer
    case DownSemaphore => Some(Down(if t == PRODUCER then at.empty else at.full))
    case Lock => Some(Call.Lock(at.mutex))
    case Unlock => Some(Call.Unlock(at.mutex))
    case UpSemaphore => Some(Up(if t == PRODUCER then at.full else at.empty))
    case _ => None
  }

  function MoveOf(t: Tid): Move
    requires Theirs(t)
  {
    if t == PRODUCER then Produce else Consume
  }

  predicate Uses(c: Call, at: Places) {
    || ((c.Up? || c.Down?) && (c.id == at.empty || c.id == at.full))
    || ((c.Unlock? || c.Lock?) && c.id == at.mutex)
  }

  /** The two threads follow their program, and nobody else uses its semaphores and its mutex. */
  predicate CanAct(m: Machine, a: Act, at: Places) {
    && Shaped(m.program) && IdleUsable(m.kernel.sched)
    && match a
       case Program =>
         && HasCaller(m.kernel.sched) && Theirs(Caller(m.kernel.sched))
         && var c := NextCall(m.program, Caller(m.kernel.sched), at); c.Some? ==> Ends(m.kernel, c.value)
       case Other(c) =>
         Ends(m.kernel, c) && !Uses(c, at) && (!c.Scheduler? ==> !Theirs(Caller(m.kernel.sched)))
  }

  function Acted(m: Machine, a: Act, at: Places): Machine
    requires CanAct(m, a, at)
  {
    match a
    case Other(c) => m.(kernel := KernelRuns.After(m.kernel, c))
    case Program =>
      var t := Caller(m.kernel.sched);
      var c := NextCall(m.program, t, at);
      Machine(if c.Some? then KernelRuns.After(m.kernel, c.value) else m.kernel, MoveStep(m.program, MoveOf(t)))
  }

  /** The program's thread does not wait; or the call blocks no thread that waits. */
  ghost predicate HarmlessAct(m: Machine, a: Act, at: Places)
    requires CanAct(m, a, at)
  {
    match a
    case Program => !MutexBlocked(m.kernel.sched, Caller(m.kernel.sched))
    case Other(c) => Harmless(m.kernel, c)
  }

  // ---------------------------------------------------------------- the program in the kernel

  function IdOf(at: Places, i: nat): nat {
    if i == EMPTY_COUNT then at.empty else at.full
  }

  predicate ObjectsFit(k: Kernel, y: Sync.Kernel, at: Places) {
    && |y.semaphores| == 2 && |y.mutexes| == 1 && at.empty != at.full
    && at.empty < |k.semaphores| && at.full < |k.semaphores| && at.mutex < |k.mutexes|
    && k.semaphores[at.empty] == y.semaphores[EMPTY_COUNT] && k.semaphores[at.full] == y.semaphores[FULL_COUNT]
    && k.mutexes[at.mutex] == y.mutexes[ITEM_MUTEX]
  }

  ghost predicate ThreadsFit(k: Kernel, y: Sync.Kernel) {
    forall t | Theirs(t) :: Sync.IsBlocked(y, t) <==> MutexBlocked(k.sched, t)
  }

  /** The kernel has the program's semaphores and mutex, and its threads wait when the program says. */
  ghost predicate Fits(k: Kernel, y: Sync.Kernel, at: Places) {
    ObjectsFit(k, y, at) && ThreadsFit(k, y)
  }

  ghost predicate InPlace(m: Machine, at: Places) {
    KernelOk(m.kernel) && Inv(m.program) && Fits(m.kernel, m.program.kernel, at)
  }

  // ---------------------------------------------------------------- the program's own calls

  lemma DownFits(k: Kernel, y: Sync.Kernel, at: Places, i: nat)
    requires KernelOk(k) && Fits(k, y, at) && HasCaller(k.sched) && i < 2
    ensures Ends(k, Down(IdOf(at, i)))
    ensures Fits(AfterDown(k, IdOf(at, i)), Sync.AfterSemaphoreDown(y, Caller(k.sched), i), at)
  {
    BlockCallerEffect(k.sched, OnMutex);
    hide SchedOk, Named, HasCaller, MutexBlocked, BlockCaller, Caller, Agrees;
  }

  lemma LockFits(k: Kernel, y: Sync.Kernel, at: Places)
    requires KernelOk(k) && Fits(k, y, at) && HasCaller(k.sched)
    ensures Ends(k, Call.Lock(at.mutex))
    ensures Fits(AfterLock(k, at.mutex), Sync.AfterMutexDown(y, Caller(k.sched), ITEM_MUTEX), at)
  {
    BlockCallerEffect(k.sched, OnMutex);
    hide SchedOk, Named, HasCaller, MutexBlocked, BlockCaller, Caller, Agrees;
  }

  lemma WakingFits(k: Kernel, y: Sync.Kernel, waiters: seq<Tid>)
    requires CanDrain(k.sched, waiters) && ThreadsFit(k, y)
    ensures ThreadsFit(k.(sched := WakeWaiters(k.sched, waiters)), y.(states := Sync.WakeAll(y.states, waiters)))
  {
    WakeWaitersEffect(k.sched, waiters);
    Sync.WakeAllEffect(y.states, waiters);
    hide SchedOk, Named, MutexBlocked, WakeWaiters, Sync.WakeAll;
  }

  lemma UpFits(k: Kernel, y: Sync.Kernel, at: Places, i: nat)
    requires KernelOk(k) && Fits(k, y, at) && i < 2
    ensures Fits(AfterUp(k, IdOf(at, i)), Sync.AfterSemaphoreUp(y, i), at)
  {
    SemaphoreWaiters(k, IdOf(at, i));
    WakingFits(k, y, y.semaphores[i].waiters);
    hide KernelOk, MutexBlocked, CanDrain, WakeWaiters, Sync.WakeAll;
  }

  lemma UnlockFits(k: Kernel, y: Sync.Kernel, at: Places)
    requires KernelOk(k) && Fits(k, y, at)
    ensures Fits(AfterUnlock(k, at.mutex), Sync.AfterMutexUp(y, ITEM_MUTEX), at)
  {
    MutexWaiters(k, at.mutex);
    WakingFits(k, y, y.mutexes[ITEM_MUTEX].waiters);
    hide KernelOk, MutexBlocked, CanDrain, WakeWaiters, Sync.WakeAll;
  }

  /** The program's step on the program's kernel. */
  lemma MoveCalls(s: State, t: Tid, at: Places)
    requires Shaped(s) && Theirs(t)
    ensures var (y, y', c) := (s.kernel, MoveStep(s, MoveOf(t)).kernel, NextCall(s, t, at));
            match if t == PRODUCER then s.producer else s.consumer
            case DownSemaphore =>
              var i := if t == PRODUCER then EMPTY_COUNT else FULL_COUNT;
              c == Some(Down(IdOf(at, i))) && y' == Sync.AfterSemaphoreDown(y, t, i)
            case Lock => c == Some(Call.Lock(at.mutex)) && y' == Sync.AfterMutexDown(y, t, ITEM_MUTEX)
            case Unlock => c == Some(Call.Unlock(at.mutex)) && y' == Sync.AfterMutexUp(y, ITEM_MUTEX)
            case UpSemaphore =>
              var i := if t == PRODUCER then FULL_COUNT else EMPTY_COUNT;
              c == Some(Up(IdOf(at, i))) && y' == Sync.AfterSemaphoreUp(y, i)
            case _ => c == None && y' == y
  {
    hide Sync.AfterSemaphoreUp, Sync.AfterMutexUp, Sync.AfterSemaphoreDown, Sync.AfterMutexDown;
  }

  lemma CallFits(k: Kernel, s: State, at: Places, c: Call)
    requires KernelOk(k) && Shaped(s) && Fits(k, s.kernel, at) && HasCaller(k.sched) && Theirs(Caller(k.sched))
    requires NextCall(s, Caller(k.sched), at) == Some(c)
    ensures Ends(k, c) && Fits(KernelRuns.After(k, c), MoveStep(s, MoveOf(Caller(k.sched))).kernel, at)
  {
    var y, t := s.kernel, Caller(k.sched);
    MoveCalls(s, t, at);
    assert ObjectsFit(k, y, at);
    hide KernelOk, HasCaller, Caller, AfterDown, AfterUp, AfterLock, AfterUnlock, MoveStep, NextCall, Fits;
    match if t == PRODUCER then s.producer else s.consumer
    case DownSemaphore => DownFits(k, y, at, if t == PRODUCER then EMPTY_COUNT else FULL_COUNT);
    case Lock => LockFits(k, y, at);
    case Unlock => UnlockFits(k, y, at);
    case UpSemaphore => UpFits(k, y, at, if t == PRODUCER then FULL_COUNT else EMPTY_COUNT);
    case _ =>
  }

  /** The current thread of the program can always take its next step, and the kernel's objects and
      threads stay those of the program, whether the thread waits or not. */
  lemma ProgramFits(m: Machine, at: Places)
    requires KernelOk(m.kernel) && Shaped(m.program) && Fits(m.kernel, m.program.kernel, at)
    requires IdleUsable(m.kernel.sched) && HasCaller(m.kernel.sched) && Theirs(Caller(m.kernel.sched))
    ensures CanAct(m, Program, at)
    ensures var m' := Acted(m, Program, at); Fits(m'.kernel, m'.program.kernel, at)
  {
    var c := NextCall(m.program, Caller(m.kernel.sched), at);
    MoveCalls(m.program, Caller(m.kernel.sched), at);
    hide KernelOk, HasCaller, Caller, IdleUsable, MoveStep, NextCall, Fits, KernelRuns.After, Ends;
    if c.Some? {
      CallFits(m.kernel, m.program, at, c.value);
    }
  }

  // ---------------------------------------------------------------- everybody else's calls

  lemma TwoSemaphores(s: seq<Sync.Semaphore>, i: nat, j: nat, t: Tid)
    requires i < |s| && j < |s| && i != j
    ensures Sync.Occurrences(s[i].waiters, t) + Sync.Occurrences(s[j].waiters, t) <= Sync.OnSemaphores(s, t)
  {
    var s' := s[i := Sync.Semaphore(0, [])];
    Sync.OnSemaphoresUpdate(s, i, Sync.Semaphore(0, []), t);
    Sync.OnSemaphoresUpdate(s', j, s'[j], t);
  }

  lemma TwoMutexes(s: seq<Sync.Mutex>, i: nat, j: nat, t: Tid)
    requires i < |s| && j < |s| && i != j
    ensures Sync.Occurrences(s[i].waiters, t) + Sync.Occurrences(s[j].waiters, t) <= Sync.OnMutexes(s, t)
  {
    var s' := s[i := Sync.Mutex(false, [])];
    Sync.OnMutexesUpdate(s, i, Sync.Mutex(false, []), t);
    Sync.OnMutexesUpdate(s', j, s'[j], t);
  }

  /** Where one of the two threads waits, if it does. */
  lemma WaitsAtTheirs(m: Machine, at: Places, t: Tid)
    requires InPlace(m, at) && Theirs(t) && MutexBlocked(m.kernel.sched, t)
    ensures || t in m.kernel.semaphores[at.empty].waiters
            || t in m.kernel.semaphores[at.full].waiters
            || t in m.kernel.mutexes[at.mutex].waiters
  {
    hide KernelOk, Contents, NextItem, MutexBlocked;
    assert Blocking(m.program) && Counters(m.program) && Sync.IsBlocked(m.program.kernel, t);
  }

  /** The two threads are on no other list. */
  lemma OnNoOtherList(m: Machine, at: Places, t: Tid)
    requires InPlace(m, at) && Theirs(t)
    ensures forall i | 0 <= i < |m.kernel.semaphores| && t in m.kernel.semaphores[i].waiters ::
              i == at.empty || i == at.full
    ensures forall i | 0 <= i < |m.kernel.mutexes| && t in m.kernel.mutexes[i].waiters :: i == at.mutex
  {
    var k := m.kernel;
    assert Agrees(k, t);
    if MutexBlocked(k.sched, t) {
      WaitsAtTheirs(m, at, t);
    }
    hide SchedOk, Named, MutexBlocked, Inv;
    Sync.OccurrencesMember(k.semaphores[at.empty].waiters, t);
    Sync.OccurrencesMember(k.semaphores[at.full].waiters, t);
    Sync.OccurrencesMember(k.mutexes[at.mutex].waiters, t);
    Sync.OnSemaphoresUpdate(k.semaphores, at.empty, k.semaphores[at.empty], t);
    Sync.OnSemaphoresUpdate(k.semaphores, at.full, k.semaphores[at.full], t);
    Sync.OnMutexesUpdate(k.mutexes, at.mutex, k.mutexes[at.mutex], t);
    forall i: nat | i < |k.semaphores| && i != at.empty && i != at.full ensures t !in k.semaphores[i].waiters {
      Sync.OccurrencesMember(k.semaphores[i].waiters, t);
      Sync.OnSemaphoresUpdate(k.semaphores, i, k.semaphores[i], t);
      TwoSemaphores(k.semaphores, i, at.empty, t);
      TwoSemaphores(k.semaphores, i, at.full, t);
    }
    forall i: nat | i < |k.mutexes| && i != at.mutex ensures t !in k.mutexes[i].waiters {
      Sync.OccurrencesMember(k.mutexes[i].waiters, t);
      Sync.OnMutexesUpdate(k.mutexes, i, k.mutexes[i], t);
      TwoMutexes(k.mutexes, i, at.mutex, t);
    }
  }

  /** Whether t waits is not changed. */
  ghost predicate Unmoved(s: Sched, s': Sched, t: Tid) {
    MutexBlocked(s', t) <==> MutexBlocked(s, t)
  }

  lemma OtherWakes(m: Machine, at: Places, waiters: seq<Tid>, t: Tid)
    requires CanDrain(m.kernel.sched, waiters) && t !in waiters
    ensures Unmoved(m.kernel.sched, WakeWaiters(m.kernel.sched, waiters), t)
  {
    WakeWaitersEffect(m.kernel.sched, waiters);
    hide MutexBlocked;
  }

  lemma OtherBlocks(s: Sched, cause: Cause, t: Tid)
    requires SchedOk(s) && Named(s) && HasCaller(s) && t != Caller(s)
    ensures Unmoved(s, BlockCaller(s, cause), t)
  {
    BlockCallerEffect(s, cause);
    hide MutexBlocked;
  }

  lemma PipeBlocks(s: Sched, u: Tid, t: Tid)
    requires SchedOk(s) && Named(s) && HasThread(s, u.pid, u.pthread) && !MutexBlocked(s, u)
    ensures Unmoved(s, BlockThread(s, u.pid, u.pthread, OnPipe), t)
  {
    var i := IndexOfPid(s.ring, u.pid);
    BlockEffect(s, i, IndexOfThread(s.ring[i].threads, u.pthread), u, OnPipe);
    hide MutexBlocked, BlockThread;
  }

  lemma SchedulingUnmoved(s: Sched, e: Event, t: Tid)
    requires Named(s) && OnlySchedules(e) && Enabled(s, e)
    ensures Unmoved(s, Step(s, e), t)
  {
    SchedulingKeepsBlocked(s, e);
    hide MutexBlocked, Step, Enabled, Named;
  }

  lemma OtherLeavesThreads(m: Machine, c: Call, at: Places, t: Tid)
    requires InPlace(m, at) && CanAct(m, Other(c), at) && Harmless(m.kernel, c) && Theirs(t)
    ensures Unmoved(m.kernel.sched, KernelRuns.After(m.kernel, c).sched, t)
  {
    var k := m.kernel;
    OnNoOtherList(m, at, t);
    hide SchedOk, Named, MutexBlocked, Inv, Fits, HasCaller, CanDrain;
    hide BlockCaller, BlockThread, WakeWaiters, Step, Enabled;
    match c
    case Scheduler(e) => SchedulingUnmoved(k.sched, e, t);
    case BlockSelf(cause) => OtherBlocks(k.sched, cause, t);
    case PipeBlock(u) => PipeBlocks(k.sched, u, t);
    case NewSemaphore(_) =>
    case NewMutex =>
    case Up(id) => SemaphoreWaiters(k, id); OtherWakes(m, at, k.semaphores[id].waiters, t);
    case Down(id) => OtherBlocks(k.sched, OnMutex, t);
    case Unlock(id) => MutexWaiters(k, id); OtherWakes(m, at, k.mutexes[id].waiters, t);
    case Lock(id) => OtherBlocks(k.sched, OnMutex, t);
  }

  lemma OtherLeavesObjects(k: Kernel, y: Sync.Kernel, c: Call, at: Places)
    requires ObjectsFit(k, y, at) && Ends(k, c) && !Uses(c, at)
    ensures ObjectsFit(KernelRuns.After(k, c), y, at)
  {
    hide Step, Enabled, BlockCaller, WakeWaiters, HasCaller, BlockThread;
  }

  lemma OtherFits(m: Machine, c: Call, at: Places)
    requires InPlace(m, at) && CanAct(m, Other(c), at) && Harmless(m.kernel, c)
    ensures Fits(KernelRuns.After(m.kernel, c), m.program.kernel, at)
  {
    OtherLeavesObjects(m.kernel, m.program.kernel, c, at);
    forall t | Theirs(t)
      ensures Sync.IsBlocked(m.program.kernel, t) <==> MutexBlocked(KernelRuns.After(m.kernel, c).sched, t)
    {
      OtherLeavesThreads(m, c, at, t);
    }
  }

  // ---------------------------------------------------------------- every act keeps it, exactly

  /** An act keeps the kernel well formed and the program's invariant, if and only if the thread of
      the program that acts does not wait, or the call of another blocks no thread that waits. */
  lemma ActKeepsExactly(m: Machine, a: Act, at: Places)
    requires InPlace(m, at) && CanAct(m, a, at)
    ensures InPlace(Acted(m, a, at), at) <==> HarmlessAct(m, a, at)
  {
    match a
    case Other(c) =>
      CallKeepsOkExactly(m.kernel, c);
      hide KernelOk, Inv, Harmless, KernelRuns.After, Ends, Uses, Fits;
      if Harmless(m.kernel, c) {
        OtherFits(m, c, at);
      }
    case Program => ProgramKeepsExactly(m, at);
  }

  lemma UnblockedCallKeepsOk(k: Kernel, c: Call)
    requires KernelOk(k) && IdleUsable(k.sched) && Synchronizes(c) && Ends(k, c)
    requires !MutexBlocked(k.sched, Caller(k.sched))
    ensures KernelOk(KernelRuns.After(k, c))
  {
    CallKeepsOkExactly(k, c);
    hide KernelOk, MutexBlocked, KernelRuns.After, HasCaller;
  }

  lemma ProgramKeepsKernel(m: Machine, at: Places)
    requires KernelOk(m.kernel) && CanAct(m, Program, at) && !MutexBlocked(m.kernel.sched, Caller(m.kernel.sched))
    ensures KernelOk(Acted(m, Program, at).kernel)
  {
    var c := NextCall(m.program, Caller(m.kernel.sched), at);
    assert c.Some? ==> Synchronizes(c.value);
    hide KernelOk, MutexBlocked, MoveStep, KernelRuns.After, HasCaller, Shaped, NextCall, Ends;
    if c.Some? {
      UnblockedCallKeepsOk(m.kernel, c.value);
    }
  }

  lemma ProgramKeepsExactly(m: Machine, at: Places)
    requires InPlace(m, at) && CanAct(m, Program, at)
    ensures InPlace(Acted(m, Program, at), at) <==> !MutexBlocked(m.kernel.sched, Caller(m.kernel.sched))
  {
    var t := Caller(m.kernel.sched);
    assert Sync.IsBlocked(m.program.kernel, t) <==> MutexBlocked(m.kernel.sched, t);
    ProgramFits(m, at);
    assert CanMove(m.program, MoveOf(t)) <==> !MutexBlocked(m.kernel.sched, t);
    hide KernelOk, Inv, MutexBlocked, MoveStep, KernelRuns.After, Fits, CanMove, HasCaller, NextCall, Ends;
    MoveKeepsInvExactly(m.program, MoveOf(t));
    if !MutexBlocked(m.kernel.sched, t) {
      ProgramKeepsKernel(m, at);
    }
  }

  // ---------------------------------------------------------------- runs

  predicate CanActs(m: Machine, acts: seq<Act>, at: Places)
    decreases |acts|
  {
    acts != [] ==> CanAct(m, acts[0], at) && CanActs(Acted(m, acts[0], at), acts[1..], at)
  }

  function ActAll(m: Machine, acts: seq<Act>, at: Places): Machine
    requires CanActs(m, acts, at)
    decreases |acts|
  {
    if acts == [] then m else ActAll(Acted(m, acts[0], at), acts[1..], at)
  }

  ghost predicate HarmlessActs(m: Machine, acts: seq<Act>, at: Places)
    requires CanActs(m, acts, at)
    decreases |acts|
  {
    acts != [] ==> HarmlessAct(m, acts[0], at) && HarmlessActs(Acted(m, acts[0], at), acts[1..], at)
  }

  ghost predicate InPlaceThroughout(m: Machine, acts: seq<Act>, at: Places)
    requires CanActs(m, acts, at)
    decreases |acts|
  {
    InPlace(m, at) && (acts != [] ==> InPlaceThroughout(Acted(m, acts[0], at), acts[1..], at))
  }

  /** A harmless act is a step of ProdCons, or none. */
  lemma ActIsMove(m: Machine, a: Act, at: Places)
    requires InPlace(m, at) && CanAct(m, a, at) && HarmlessAct(m, a, at) && Reachable(m.program)
    ensures Reachable(Acted(m, a, at).program)
  {
    if a.Program? {
      var t := Caller(m.kernel.sched);
      assert Sync.IsBlocked(m.program.kernel, t) <==> MutexBlocked(m.kernel.sched, t);
      assert CanMove(m.program, MoveOf(t));
      hide Reachable, KernelOk, Inv, MutexBlocked, NextCall, MoveStep, KernelRuns.After, Ends;
      ReachableStep(m.program, MoveOf(t));
    }
  }

  lemma {:induction false} ActsKeepExactly(m: Machine, acts: seq<Act>, at: Places)
    requires InPlace(m, at) && CanActs(m, acts, at) && Reachable(m.program)
    ensures InPlaceThroughout(m, acts, at) <==> HarmlessActs(m, acts, at)
    ensures HarmlessActs(m, acts, at) ==> InPlace(ActAll(m, acts, at), at) && Reachable(ActAll(m, acts, at).program)
    decreases |acts|
  {
    hide InPlace, CanAct, Acted, HarmlessAct, Reachable;
    if acts == [] {
    } else {
      ActKeepsExactly(m, acts[0], at);
      if HarmlessAct(m, acts[0], at) {
        ActIsMove(m, acts[0], at);
        ActsKeepExactly(Acted(m, acts[0], at), acts[1..], at);
      } else {
        assert !InPlaceThroughout(Acted(m, acts[0], at), acts[1..], at);
      }
    }
  }

  /** As prodcons() leaves the kernel when it has created its objects and its threads. */
  ghost predicate Loaded(k: Kernel, at: Places) {
    && KernelOk(k) && at.empty < |k.semaphores| && at.full < |k.semaphores| && at.mutex < |k.mutexes|
    && at.empty != at.full
    && k.semaphores[at.empty] == Sync.Semaphore(BUFFERSIZE, []) && k.semaphores[at.full] == Sync.Semaphore(0, [])
    && k.mutexes[at.mutex] == Sync.Mutex(false, [])
    && !MutexBlocked(k.sched, PRODUCER) && !MutexBlocked(k.sched, CONSUMER)
  }

  lemma LoadedIsInPlace(k: Kernel, at: Places)
    requires Loaded(k, at)
    ensures InPlace(Machine(k, Initial()), at) && Reachable(Initial())
  {
    InitialInv();
    hide KernelOk, MutexBlocked, Inv;
    var none: seq<Move> := [];
    assert CanFollow(Initial(), none) && ProdCons.NoneResumed(Initial(), none) && Follow(Initial(), none) == Initial();
  }

  /** The program on the scheduler, among any other threads. If no thread of it acts while it waits,
      and no other call blocks a thread that waits, it does what ProdCons.dfy proves of it: the items
      taken out are, in order, a prefix of those stored, at most 100 are in the buffer, and one of the
      two threads does not wait. The condition is exact for the invariant behind it. */
  lemma ProgramOnScheduler(k: Kernel, acts: seq<Act>, at: Places)
    requires Loaded(k, at) && CanActs(Machine(k, Initial()), acts, at)
    ensures var start := Machine(k, Initial());
            && (InPlaceThroughout(start, acts, at) <==> HarmlessActs(start, acts, at))
            && (HarmlessActs(start, acts, at) ==>
                  var m := ActAll(start, acts, at);
                  && Reachable(m.program) && m.program.removed <= m.program.inserted
                  && |m.program.inserted| - |m.program.removed| <= BUFFERSIZE
                  && (!MutexBlocked(m.kernel.sched, PRODUCER) || !MutexBlocked(m.kernel.sched, CONSUMER)))
  {
    var start := Machine(k, Initial());
    LoadedIsInPlace(k, at);
    ActsKeepExactly(start, acts, at);
    if HarmlessActs(start, acts, at) {
      InPlaceMeans(ActAll(start, acts, at), at);
    }
  }

  lemma InPlaceMeans(m: Machine, at: Places)
    requires InPlace(m, at)
    ensures m.program.removed <= m.program.inserted && |m.program.inserted| - |m.program.removed| <= BUFFERSIZE
    ensures !MutexBlocked(m.kernel.sched, PRODUCER) || !MutexBlocked(m.kernel.sched, CONSUMER)
  {
    hide KernelOk, MutexBlocked;
  }
}
