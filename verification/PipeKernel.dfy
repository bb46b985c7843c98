/** Pipes on the scheduler (Kernel/pipefs.c, lines 43-89): whom an empty pipe puts to sleep, whom
    accepted bytes wake, and who is left asleep. */
module PipeKernel {
  import opened Bytes
  import opened KernelRuns
  import opened Scheduling
  import opened SchedulerRuns
  import opened Statuses
  import PipeTable

  /** Which read put a thread to sleep: whose, and of which pipe. */
  datatype Sleep = Sleep(reader: Tid, fromPid: nat, toPid: nat)

  /** `sleeps` is a history: for every thread, the read that last put it to sleep. */
  datatype Machine = Machine(kernel: Kernel, channels: seq<PipeTable.Channel>, sleeps: map<Tid, Sleep>)

  datatype Act = Other(c: Call) | Pipe(call: PipeTable.Call)

  ghost predicate PipeBlocked(s: Sched, t: Tid) {
    exists i: nat, j: nat :: At(s, i, j, t) && s.ring[i].threads[j].state == Blocked(OnPipe)
  }

  /** There is such a pipe, and nothing in it. */
  predicate Empty(cs: seq<PipeTable.Channel>, a: nat, b: nat) {
    PipeTable.Find(cs, a, b).Some? && PipeTable.Buffered(cs, a, b) == []
  }

  function AcceptedOf(cs: seq<PipeTable.Channel>, a: nat, b: nat, message: seq<byte>): seq<byte>
    requires PipeTable.Bounded(cs)
  {
    PipeTable.Taken(cs, PipeTable.Send(a, b, message), a, b)
  }

  /** The receiver exists, when it is to be woken or put to sleep; the source would follow a null
      pointer. Other calls block for a pipe no more than the kernel does. */
  predicate CanAct(m: Machine, a: Act) {
    && PipeTable.Bounded(m.channels)
    && match a
       case Other(c) => Ends(m.kernel, c) && !c.PipeBlock? && (c.BlockSelf? ==> c.cause != OnPipe)
       case Pipe(Open(_, _)) => true
       case Pipe(Send(a, b, message)) =>
         AcceptedOf(m.channels, a, b, message) != [] ==> Enabled(m.kernel.sched, UnblockAll(b, OnPipe))
       case Pipe(Receive(a, b)) =>
         && HasCaller(m.kernel.sched)
         && (Empty(m.channels, a, b) ==> HasThread(m.kernel.sched, b, Caller(m.kernel.sched).pthread))
  }

  /** The thread an empty read puts to sleep: of the receiver, numbered like the reader's. */
  function Sleeper(m: Machine, b: nat): Tid
    requires HasCaller(m.kernel.sched)
  {
    Tid(b, Caller(m.kernel.sched).pthread)
  }

  function Acted(m: Machine, a: Act): Machine
    requires CanAct(m, a)
  {
    match a
    case Other(c) => m.(kernel := After(m.kernel, c))
    case Pipe(Open(_, _)) => m.(channels := PipeTable.After(m.channels, a.call))
    case Pipe(Send(from, b, message)) =>
      Machine(if AcceptedOf(m.channels, from, b, message) == [] then m.kernel
              else m.kernel.(sched := Step(m.kernel.sched, UnblockAll(b, OnPipe))),
              PipeTable.After(m.channels, a.call), m.sleeps)
    case Pipe(Receive(from, b)) =>
      var channels := PipeTable.After(m.channels, a.call);
      if !Empty(m.channels, from, b) then m.(channels := channels)
      else
        Machine(After(m.kernel, PipeBlock(Sleeper(m, b))), channels,
                m.sleeps[Sleeper(m, b) := Sleep(Caller(m.kernel.sched), from, b)])
  }

  // ---------------------------------------------------------------- waking all threads

  predicate WokenFrom(p: Process, q: Process, j: nat, cause: Cause) {
    && |q.threads| == |p.threads| && q.pid == p.pid && q.current == p.current
    && (forall k | 0 <= k < |p.threads| ::
          q.threads[k] == if j <= k && p.threads[k].state == Blocked(cause) then p.threads[k].(state := Ready)
                          else p.threads[k])
    && var woken := exists k :: j <= k < |p.threads| && p.threads[k].state == Blocked(cause);
       q.state == if p.state == Blocked(cause) && woken then Ready else p.state
  }

  lemma {:induction false} UnblockAllWakes(p: Process, j: nat, cause: Cause)
    requires j <= |p.threads|
    ensures WokenFrom(p, UnblockAllFrom(p, j, cause), j, cause)
    decreases |p.threads| - j
  {
    if j == |p.threads| {
    } else {
      UnblockAllWakes(if p.threads[j].state == Blocked(cause) then UnblockThread(p, j, cause) else p, j + 1, cause);
    }
  }

  /** Waking them once for every byte is waking them once. */
  lemma WakingTwiceIsOnce(p: Process, cause: Cause)
    ensures var q := UnblockAllFrom(p, 0, cause); UnblockAllFrom(q, 0, cause) == q
  {
    UnblockAllWakes(p, 0, cause);
    NobodyToWake(UnblockAllFrom(p, 0, cause), 0, cause);
  }

  lemma {:induction false} NobodyToWake(p: Process, j: nat, cause: Cause)
    requires j <= |p.threads| && forall k | 0 <= k < |p.threads| :: p.threads[k].state != Blocked(cause)
    ensures UnblockAllFrom(p, j, cause) == p
    decreases |p.threads| - j
  {
    if j == |p.threads| {
    } else {
      NobodyToWake(p, j + 1, cause);
    }
  }

  // ---------------------------------------------------------------- who sleeps

  /** Nobody falls asleep at a pipe. */
  predicate NobodyNew(p: Process, q: Process) {
    && SameThreads(p, q)
    && forall j | 0 <= j < |p.threads| ::
         q.threads[j].state == Blocked(OnPipe) ==> p.threads[j].state == Blocked(OnPipe)
  }

  ghost predicate NoneNew(s: Sched, s': Sched) {
    Named(s') && forall t :: PipeBlocked(s', t) ==> PipeBlocked(s, t)
  }

  lemma NobodyNewAnywhere(s: Sched, s': Sched)
    requires Named(s) && |s.ring| == |s'.ring| && forall i | 0 <= i < |s.ring| :: NobodyNew(s.ring[i], s'.ring[i])
    ensures NoneNew(s, s')
  {
    SameShapeKeepsNames(s, s');
    forall t | PipeBlocked(s', t) ensures PipeBlocked(s, t) {
      var i: nat, j: nat :| At(s', i, j, t) && s'.ring[i].threads[j].state == Blocked(OnPipe);
      assert At(s, i, j, t) && NobodyNew(s.ring[i], s'.ring[i]);
    }
  }

  lemma TurnsWakeNobody(p: Process, q: Process)
    requires SameThreads(p, q) && OnlyTurns(p, q)
    ensures NobodyNew(p, q)
  {
  }

  lemma RunSchedulerNoneNew(s: Sched)
    requires Named(s) && CanSchedule(s)
    ensures NoneNew(s, RunScheduler(s))
  {
    RunSchedulerOnlyTurns(s);
    hide RunScheduler, OnlyTurns, SameThreads, Named, NoneNew, NobodyNew;
    forall i | 0 <= i < |s.ring| ensures NobodyNew(s.ring[i], RunScheduler(s).ring[i]) {
      TurnsWakeNobody(s.ring[i], RunScheduler(s).ring[i]);
    }
    NobodyNewAnywhere(s, RunScheduler(s));
  }

  lemma YieldNoneNew(s: Sched)
    requires Named(s) && Enabled(s, Yield)
    ensures NoneNew(s, Step(s, Yield))
  {
    hide RunScheduler, PipeBlocked, CanSchedule, Named;
    if BeforeYield(s).Some? {
      var y := BeforeYield(s).value;
      forall i | 0 <= i < |s.ring| ensures NobodyNew(s.ring[i], y.ring[i]) {
      }
      NobodyNewAnywhere(s, y);
      RunSchedulerNoneNew(y);
    }
  }

  lemma AddThreadNoneNew(s: Sched, pid: int, pthread: int)
    requires Named(s) && Enabled(s, AddThread(pid, pthread))
    ensures NoneNew(s, Step(s, AddThread(pid, pthread)))
  {
    AddThreadKeepsNames(s, pid, pthread);
    var s' := Step(s, AddThread(pid, pthread));
    hide Named, Step, Enabled;
    forall t | PipeBlocked(s', t) ensures PipeBlocked(s, t) {
      var i: nat, j: nat :| At(s', i, j, t) && s'.ring[i].threads[j].state == Blocked(OnPipe);
      var j' := ThreadCameFrom(s, pid, pthread, i, j, t);
    }
  }

  lemma AddProcessNoneNew(s: Sched, pid: int, pthread: int)
    requires Named(s) && Enabled(s, AddProcess(pid, pthread))
    ensures NoneNew(s, Step(s, AddProcess(pid, pthread)))
  {
    AddProcessKeepsNames(s, pid, pthread);
    var s' := Step(s, AddProcess(pid, pthread));
    hide Named, Step, Enabled;
    forall t | PipeBlocked(s', t) ensures PipeBlocked(s, t) {
      var i: nat, j: nat :| At(s', i, j, t) && s'.ring[i].threads[j].state == Blocked(OnPipe);
      var i' := ProcessCameFrom(s, pid, pthread, i, j, t);
    }
  }

  lemma UnblockAllNoneNew(s: Sched, pid: int, cause: Cause)
    requires Named(s) && Enabled(s, UnblockAll(pid, cause))
    ensures NoneNew(s, Step(s, UnblockAll(pid, cause)))
  {
    var k, s' := IndexOfPid(s.ring, pid), Step(s, UnblockAll(pid, cause));
    UnblockAllWakes(s.ring[k], 0, cause);
    assert NobodyNew(s.ring[k], s'.ring[k]);
    hide UnblockAllFrom, NobodyNew, Named, NoneNew;
    forall i | 0 <= i < |s.ring| ensures NobodyNew(s.ring[i], s'.ring[i]) {
      if i != k {
        SameIsNotNew(s.ring[i]);
      }
    }
    NobodyNewAnywhere(s, s');
  }

  lemma SameIsNotNew(p: Process)
    ensures NobodyNew(p, p)
  {
  }

  lemma SchedulingNoneNew(s: Sched, e: Event)
    requires Named(s) && OnlySchedules(e) && Enabled(s, e)
    ensures NoneNew(s, Step(s, e))
  {
    hide NoneNew, Named;
    match e
    case Tick => RunSchedulerNoneNew(s);
    case Yield => YieldNoneNew(s);
    case AddThread(pid, pthread) => AddThreadNoneNew(s, pid, pthread);
    case AddProcess(pid, pthread) => AddProcessNoneNew(s, pid, pthread);
    case UnblockAll(pid, cause) => UnblockAllNoneNew(s, pid, cause);
  }

  lemma OneProcessNoneNew(s: Sched, s': Sched, i: nat)
    requires Named(s) && |s.ring| == |s'.ring| && i < |s.ring| && NobodyNew(s.ring[i], s'.ring[i])
    requires forall k | 0 <= k < |s.ring| && k != i :: s'.ring[k] == s.ring[k]
    ensures NoneNew(s, s')
  {
    hide NobodyNew, Named, NoneNew;
    forall k | 0 <= k < |s.ring| ensures NobodyNew(s.ring[k], s'.ring[k]) {
      if k != i {
        SameIsNotNew(s.ring[k]);
      }
    }
    NobodyNewAnywhere(s, s');
  }

  lemma WakeOneNoneNew(s: Sched, t: Tid)
    requires Named(s)
    ensures NoneNew(s, WakeOne(s, t))
  {
    if Enabled(s, Unblock(t.pid, t.pthread, OnMutex)) {
      var i := IndexOfPid(s.ring, t.pid);
      assert NobodyNew(s.ring[i], WakeOne(s, t).ring[i]);
      hide NobodyNew, Named, NoneNew, UnblockThread;
      OneProcessNoneNew(s, WakeOne(s, t), i);
    }
  }

  lemma {:induction false} WakeWaitersNoneNew(s: Sched, waiters: seq<Tid>)
    requires Named(s)
    ensures NoneNew(s, WakeWaiters(s, waiters))
    decreases |waiters|
  {
    hide WakeOne, Named, PipeBlocked;
    if waiters == [] {
    } else {
      WakeOneNoneNew(s, waiters[0]);
      WakeWaitersNoneNew(WakeOne(s, waiters[0]), waiters[1..]);
    }
  }

  lemma BlockNoneNew(s: Sched, t: Tid, cause: Cause)
    requires Named(s) && HasThread(s, t.pid, t.pthread) && cause != OnPipe
    ensures NoneNew(s, BlockThread(s, t.pid, t.pthread, cause))
  {
    var i := IndexOfPid(s.ring, t.pid);
    var s' := BlockThread(s, t.pid, t.pthread, cause);
    assert NobodyNew(s.ring[i], s'.ring[i]);
    hide NobodyNew, Named, NoneNew, BlockThread;
    assert |s'.ring| == |s.ring| && forall k | 0 <= k < |s.ring| && k != i :: s'.ring[k] == s.ring[k] by {
      BlockChangesOne(s, t, cause);
    }
    OneProcessNoneNew(s, s', i);
  }

  lemma BlockChangesOne(s: Sched, t: Tid, cause: Cause)
    requires HasThread(s, t.pid, t.pthread)
    ensures var (i, s') := (IndexOfPid(s.ring, t.pid), BlockThread(s, t.pid, t.pthread, cause));
            |s'.ring| == |s.ring| && forall k | 0 <= k < |s.ring| && k != i :: s'.ring[k] == s.ring[k]
  {
  }

  /** No other call puts anybody to sleep at a pipe. */
  lemma CallNoneNew(k: Kernel, c: Call)
    requires Named(k.sched) && Ends(k, c) && !c.PipeBlock? && (c.BlockSelf? ==> c.cause != OnPipe)
    ensures NoneNew(k.sched, After(k, c).sched)
  {
    hide NoneNew, Named, BlockThread, WakeWaiters, Step, Enabled, OnlySchedules, Admissible;
    NoneNewAtAll(k.sched);
    match c
    case Scheduler(e) => SchedulingNoneNew(k.sched, e);
    case BlockSelf(cause) => BlockNoneNew(k.sched, Caller(k.sched), cause);
    case PipeBlock(_) =>
    case NewSemaphore(_) =>
    case NewMutex =>
    case Up(id) => WakeWaitersNoneNew(k.sched, k.semaphores[id].waiters);
    case Down(id) => BlockNoneNew(k.sched, Caller(k.sched), OnMutex);
    case Unlock(id) => WakeWaitersNoneNew(k.sched, k.mutexes[id].waiters);
    case Lock(id) => BlockNoneNew(k.sched, Caller(k.sched), OnMutex);
  }

  lemma NoneNewAtAll(s: Sched)
    requires Named(s)
    ensures NoneNew(s, s)
  {
  }

  /** An empty read puts exactly one more thread to sleep. */
  lemma ReadPutsToSleep(s: Sched, t: Tid)
    requires Named(s) && HasThread(s, t.pid, t.pthread)
    ensures var s' := BlockThread(s, t.pid, t.pthread, OnPipe);
            Named(s') && forall u :: PipeBlocked(s', u) <==> u == t || PipeBlocked(s, u)
  {
    var i := IndexOfPid(s.ring, t.pid);
    var j, s' := IndexOfThread(s.ring[i].threads, t.pthread), BlockThread(s, t.pid, t.pthread, OnPipe);
    assert At(s, i, j, t) && OneChange(s, s', i, j, Blocked(OnPipe));
    OneChangeShape(s, s', i, j, Blocked(OnPipe));
    SameShapeKeepsNames(s, s');
    hide BlockThread, Named;
    forall u ensures PipeBlocked(s', u) <==> u == t || PipeBlocked(s, u) {
      OneSleeps(s, s', i, j, t, u);
    }
  }

  lemma OneSleeps(s: Sched, s': Sched, i: nat, j: nat, t: Tid, u: Tid)
    requires At(s, i, j, t) && OneChange(s, s', i, j, Blocked(OnPipe))
    requires forall k: nat, m: nat, v :: At(s, k, m, v) <==> At(s', k, m, v)
    ensures PipeBlocked(s', u) <==> u == t || PipeBlocked(s, u)
  {
    assert At(s', i, j, t);
    if u != t {
      assert !At(s, i, j, u);
    }
  }

  // ---------------------------------------------------------------- whom bytes wake

  /** All threads of the receiver that sleep at a pipe are woken, and no others. */
  lemma WakesTheReceiver(s: Sched, b: int)
    requires Named(s) && Enabled(s, UnblockAll(b, OnPipe))
    ensures var s' := Step(s, UnblockAll(b, OnPipe));
            NoneNew(s, s') && forall t :: PipeBlocked(s', t) <==> PipeBlocked(s, t) && t.pid != b
  {
    var k, s' := IndexOfPid(s.ring, b), Step(s, UnblockAll(b, OnPipe));
    UnblockAllNoneNew(s, b, OnPipe);
    UnblockAllWakes(s.ring[k], 0, OnPipe);
    hide UnblockAllFrom;
    forall t ensures PipeBlocked(s', t) <==> PipeBlocked(s, t) && t.pid != b {
      if t.pid == b {
        forall i: nat, j: nat | At(s', i, j, t) ensures s'.ring[i].threads[j].state != Blocked(OnPipe) {
          assert i == k;
        }
      } else if i: nat, j: nat :| At(s, i, j, t) && s.ring[i].threads[j].state == Blocked(OnPipe) {
        assert i != k && At(s', i, j, t);
      }
    }
  }

  ghost predicate IsReady(s: Sched, t: Tid) {
    exists i: nat, j: nat :: At(s, i, j, t) && s.ring[i].threads[j].state == Ready
  }

  /** When a pipe takes bytes, every thread of the receiver that slept at any pipe is ready; and the
      process can be switched to if and only if it could before or was blocked for a pipe. So a
      reader is left asleep although bytes were accepted for it if and only if its process is
      blocked for another cause, or dead. */
  lemma BytesWakeExactly(m: Machine, a: nat, b: nat, message: seq<byte>, t: Tid)
    requires Named(m.kernel.sched) && CanAct(m, Pipe(PipeTable.Send(a, b, message)))
    requires AcceptedOf(m.channels, a, b, message) != [] && PipeBlocked(m.kernel.sched, t) && t.pid == b
    ensures var (s, s') := (m.kernel.sched, Acted(m, Pipe(PipeTable.Send(a, b, message))).kernel.sched);
            var k := IndexOfPid(s.ring, b);
            && IsReady(s', t) && !PipeBlocked(s', t) && k < |s.ring| && k < |s'.ring|
            && (Usable(s'.ring[k].state) <==> Usable(s.ring[k].state) || s.ring[k].state == Blocked(OnPipe))
  {
    var s := m.kernel.sched;
    var s', k := Step(s, UnblockAll(b, OnPipe)), IndexOfPid(s.ring, b);
    WakesTheReceiver(s, b);
    UnblockAllWakes(s.ring[k], 0, OnPipe);
    hide UnblockAllFrom;
    var i: nat, j: nat :| At(s, i, j, t) && s.ring[i].threads[j].state == Blocked(OnPipe);
    assert i == k;
    assert At(s', i, j, t) && s'.ring[i].threads[j].state == Ready;
  }

  // ---------------------------------------------------------------- who sleeps, over runs

  /** Whoever sleeps at a pipe does so because of a read of a pipe to its own process, and that pipe
      is still empty. */
  ghost predicate SleepsAtEmpty(m: Machine, t: Tid) {
    && t in m.sleeps && m.sleeps[t].toPid == t.pid
    && Empty(m.channels, m.sleeps[t].fromPid, m.sleeps[t].toPid)
  }

  ghost predicate SleepsOk(m: Machine) {
    && Named(m.kernel.sched) && PipeTable.Bounded(m.channels)
    && forall t | PipeBlocked(m.kernel.sched, t) :: SleepsAtEmpty(m, t)
  }

  lemma EmptyStays(cs: seq<PipeTable.Channel>, call: PipeTable.Call, a: nat, b: nat)
    requires PipeTable.Bounded(cs) && Empty(cs, a, b)
    requires call.Send? ==> AcceptedOf(cs, call.fromPid, call.toPid, call.message) == [] || call.toPid != b
    ensures Empty(PipeTable.After(cs, call), a, b)
  {
    PipeTable.FindStays(cs, call, a, b);
    PipeTable.StepConserves(cs, call, a, b);
  }

  lemma SendKeepsSleepsOk(m: Machine, a: nat, b: nat, message: seq<byte>)
    requires SleepsOk(m) && CanAct(m, Pipe(PipeTable.Send(a, b, message)))
    ensures SleepsOk(Acted(m, Pipe(PipeTable.Send(a, b, message))))
  {
    var m' := Acted(m, Pipe(PipeTable.Send(a, b, message)));
    if AcceptedOf(m.channels, a, b, message) != [] {
      WakesTheReceiver(m.kernel.sched, b);
    }
    hide PipeBlocked, Named, Step, Enabled, Empty, AcceptedOf, PipeTable.After;
    forall t | PipeBlocked(m'.kernel.sched, t) ensures SleepsAtEmpty(m', t) {
      assert SleepsAtEmpty(m, t);
      EmptyStays(m.channels, PipeTable.Send(a, b, message), m.sleeps[t].fromPid, t.pid);
    }
  }

  lemma ReceiveKeepsSleepsOk(m: Machine, a: nat, b: nat)
    requires SleepsOk(m) && CanAct(m, Pipe(PipeTable.Receive(a, b)))
    ensures SleepsOk(Acted(m, Pipe(PipeTable.Receive(a, b))))
  {
    var m', call := Acted(m, Pipe(PipeTable.Receive(a, b))), PipeTable.Receive(a, b);
    if Empty(m.channels, a, b) {
      ReadPutsToSleep(m.kernel.sched, Sleeper(m, b));
      EmptyStays(m.channels, call, a, b);
    }
    hide PipeBlocked, Named, HasCaller, Caller, BlockThread, Empty, PipeTable.After, HasThread;
    forall t | PipeBlocked(m'.kernel.sched, t) ensures SleepsAtEmpty(m', t) {
      if !(Empty(m.channels, a, b) && t == Sleeper(m, b)) {
        assert SleepsAtEmpty(m, t);
        EmptyStays(m.channels, call, m.sleeps[t].fromPid, t.pid);
      }
    }
  }

  lemma OpenKeepsSleepsOk(m: Machine, a: nat, b: nat)
    requires SleepsOk(m)
    ensures SleepsOk(Acted(m, Pipe(PipeTable.Open(a, b))))
  {
    var m', call := Acted(m, Pipe(PipeTable.Open(a, b))), PipeTable.Open(a, b);
    hide PipeBlocked, Named, Empty, PipeTable.After;
    forall t | PipeBlocked(m'.kernel.sched, t) ensures SleepsAtEmpty(m', t) {
      assert SleepsAtEmpty(m, t);
      EmptyStays(m.channels, call, m.sleeps[t].fromPid, t.pid);
    }
  }

  lemma ActKeepsSleepsOk(m: Machine, a: Act)
    requires SleepsOk(m) && CanAct(m, a)
    ensures SleepsOk(Acted(m, a))
  {
    hide SleepsOk;
    match a
    case Other(c) => OtherKeepsSleepsOk(m, c);
    case Pipe(Open(from, b)) => OpenKeepsSleepsOk(m, from, b);
    case Pipe(Send(from, b, message)) => SendKeepsSleepsOk(m, from, b, message);
    case Pipe(Receive(from, b)) => ReceiveKeepsSleepsOk(m, from, b);
  }

  lemma OtherKeepsSleepsOk(m: Machine, c: Call)
    requires SleepsOk(m) && CanAct(m, Other(c))
    ensures SleepsOk(Acted(m, Other(c)))
  {
    CallNoneNew(m.kernel, c);
    hide PipeBlocked, Named, After, Ends, Empty;
    forall t | PipeBlocked(After(m.kernel, c).sched, t) ensures SleepsAtEmpty(Acted(m, Other(c)), t) {
      assert SleepsAtEmpty(m, t);
    }
  }

  /** Every sleeper is asleep by its own read. */
  ghost predicate OwnSleeps(m: Machine) {
    forall t | PipeBlocked(m.kernel.sched, t) :: t in m.sleeps && m.sleeps[t].reader == t
  }

  /** A read of an empty pipe by a process other than the receiver. */
  predicate ForeignRead(m: Machine, a: Act)
    requires CanAct(m, a)
  {
    && a.Pipe? && a.call.Receive? && Empty(m.channels, a.call.fromPid, a.call.toPid)
    && Caller(m.kernel.sched).pid != a.call.toPid
  }

  /** Sleepers stay asleep by their own reads if and only if the act is not such a read: that one
      puts a thread of the receiver to sleep, whatever it was doing, and lets the reader go on. */
  lemma ActKeepsOwnSleepsExactly(m: Machine, a: Act)
    requires SleepsOk(m) && OwnSleeps(m) && CanAct(m, a)
    ensures OwnSleeps(Acted(m, a)) <==> !ForeignRead(m, a)
  {
    match a
    case Other(c) => CallNoneNew(m.kernel, c);
    case Pipe(Open(_, _)) =>
    case Pipe(Send(from, b, message)) =>
      if AcceptedOf(m.channels, from, b, message) != [] {
        WakesTheReceiver(m.kernel.sched, b);
      }
      hide PipeBlocked, Step, PipeTable.After, AcceptedOf;
    case Pipe(Receive(from, b)) => ReceiveKeepsOwnExactly(m, from, b);
  }

  lemma ReceiveKeepsOwnExactly(m: Machine, a: nat, b: nat)
    requires SleepsOk(m) && OwnSleeps(m) && CanAct(m, Pipe(PipeTable.Receive(a, b)))
    ensures var act := Pipe(PipeTable.Receive(a, b)); OwnSleeps(Acted(m, act)) <==> !ForeignRead(m, act)
  {
    if Empty(m.channels, a, b) {
      var act, t := Pipe(PipeTable.Receive(a, b)), Sleeper(m, b);
      ReadPutsToSleep(m.kernel.sched, t);
      assert t == Caller(m.kernel.sched) <==> Caller(m.kernel.sched).pid == b;
      hide PipeBlocked, Named, HasCaller, Caller, BlockThread, Empty, PipeTable.After, HasThread;
      assert PipeBlocked(Acted(m, act).kernel.sched, t) && Acted(m, act).sleeps[t].reader == Caller(m.kernel.sched);
    }
  }

  /** Such a read strands a thread: it never asked, bytes may wait for its process in another pipe,
      and it sleeps until the pipe of that read, or any other to its process, takes bytes. */
  lemma ForeignReadStrands(m: Machine, a: nat, b: nat, c: nat)
    requires Named(m.kernel.sched) && CanAct(m, Pipe(PipeTable.Receive(a, b)))
    requires ForeignRead(m, Pipe(PipeTable.Receive(a, b))) && PipeTable.Buffered(m.channels, c, b) != []
    ensures var (t, m') := (Sleeper(m, b), Acted(m, Pipe(PipeTable.Receive(a, b))));
            && PipeBlocked(m'.kernel.sched, t) && t != Caller(m.kernel.sched)
            && PipeTable.Buffered(m'.channels, c, b) == PipeTable.Buffered(m.channels, c, b)
            && (PipeBlocked(m'.kernel.sched, Caller(m.kernel.sched)) <==>
                PipeBlocked(m.kernel.sched, Caller(m.kernel.sched)))
  {
    ReadPutsToSleep(m.kernel.sched, Sleeper(m, b));
    hide PipeBlocked, Named, HasCaller, BlockThread, HasThread;
    assert a != c;
    PipeTable.OthersUndisturbed(m.channels, PipeTable.Receive(a, b), c, b);
  }

  // ---------------------------------------------------------------- runs

  predicate CanActs(m: Machine, acts: seq<Act>)
    decreases |acts|
  {
    acts != [] ==> CanAct(m, acts[0]) && CanActs(Acted(m, acts[0]), acts[1..])
  }

  function ActAll(m: Machine, acts: seq<Act>): Machine
    requires CanActs(m, acts)
    decreases |acts|
  {
    if acts == [] then m else ActAll(Acted(m, acts[0]), acts[1..])
  }

  predicate NoForeignRead(m: Machine, acts: seq<Act>)
    requires CanActs(m, acts)
    decreases |acts|
  {
    acts != [] ==> !ForeignRead(m, acts[0]) && NoForeignRead(Acted(m, acts[0]), acts[1..])
  }

  ghost predicate OwnThroughout(m: Machine, acts: seq<Act>)
    requires CanActs(m, acts)
    decreases |acts|
  {
    OwnSleeps(m) && (acts != [] ==> OwnThroughout(Acted(m, acts[0]), acts[1..]))
  }

  lemma {:induction false} ActsKeepSleepsOk(m: Machine, acts: seq<Act>)
    requires SleepsOk(m) && CanActs(m, acts)
    ensures SleepsOk(ActAll(m, acts))
    decreases |acts|
  {
    hide SleepsOk, CanAct, Acted;
    if acts == [] {
    } else {
      ActKeepsSleepsOk(m, acts[0]);
      ActsKeepSleepsOk(Acted(m, acts[0]), acts[1..]);
    }
  }

  lemma {:induction false} ActsKeepOwnSleepsExactly(m: Machine, acts: seq<Act>)
    requires SleepsOk(m) && OwnSleeps(m) && CanActs(m, acts)
    ensures OwnThroughout(m, acts) <==> NoForeignRead(m, acts)
    decreases |acts|
  {
    hide SleepsOk, OwnSleeps, CanAct, Acted, ForeignRead;
    if acts == [] {
    } else {
      ActKeepsSleepsOk(m, acts[0]);
      ActKeepsOwnSleepsExactly(m, acts[0]);
      if !ForeignRead(m, acts[0]) {
        ActsKeepOwnSleepsExactly(Acted(m, acts[0]), acts[1..]);
      } else {
        assert !OwnThroughout(Acted(m, acts[0]), acts[1..]);
      }
    }
  }

  /** From boot, in every run: whoever sleeps at a pipe was put to sleep by a read of a pipe to its
      process, and that pipe is empty, so no byte it was put to sleep for is overlooked. And every
      sleeper is the reader itself, in every state, if and only if nobody reads an empty pipe of
      another process. */
  lemma NobodySleepsOverBytes(acts: seq<Act>)
    requires CanActs(Machine(KernelRuns.Boot(), [], map[]), acts)
    ensures var start := Machine(KernelRuns.Boot(), [], map[]);
            && (forall t | PipeBlocked(ActAll(start, acts).kernel.sched, t) :: SleepsAtEmpty(ActAll(start, acts), t))
            && (OwnThroughout(start, acts) <==> NoForeignRead(start, acts))
  {
    var start := Machine(KernelRuns.Boot(), [], map[]);
    ActsKeepSleepsOk(start, acts);
    ActsKeepOwnSleepsExactly(start, acts);
  }
}
