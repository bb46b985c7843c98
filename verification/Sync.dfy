/** Semaphores and mutexes with their wait lists and the states of the threads on them
    (Kernel/semaphores.c, Kernel/mutex.c), as atomic steps on thread states alone; KernelRuns.dfy
    proves that the kernel's calls, on the scheduler, are these steps. A woken thread simply goes
    on: it does not retry, and it is not handed the lock. */
module Sync {
  import opened Statuses

  datatype Semaphore = Semaphore(status: int, waiters: seq<Tid>)

  datatype Mutex = Mutex(locked: bool, waiters: seq<Tid>)

  /** Ids are handed out by counters and the lists only grow at the end, so an id is an index. */
  datatype Kernel = Kernel(semaphores: seq<Semaphore>, mutexes: seq<Mutex>, states: map<Tid, Status>)

  datatype Event =
    | CreateSemaphore(start: int)
    | CreateMutex
    | SemaphoreUp(caller: Tid, id: nat)
    | SemaphoreDown(caller: Tid, id: nat)
    | MutexUp(caller: Tid, id: nat)
    | MutexDown(caller: Tid, id: nat)
    | OtherChange(thread: Tid, state: Status)  // scheduling, and blocking for other causes

  // ---------------------------------------------------------------- one system call

  function Wake(states: map<Tid, Status>, t: Tid): map<Tid, Status> {
    if t in states && states[t] == BLOCKED_MUTEX then states[t := Ready] else states
  }

  function WakeAll(states: map<Tid, Status>, waiters: seq<Tid>): map<Tid, Status> {
    if waiters == [] then states else WakeAll(Wake(states, waiters[0]), waiters[1..])
  }

  function AfterSemaphoreUp(k: Kernel, id: nat): Kernel
    requires id < |k.semaphores|
  {
    var s := k.semaphores[id];
    if s.status + 1 < 0
    then k.(semaphores := k.semaphores[id := Semaphore(s.status + 1, s.waiters)])
    else k.(semaphores := k.semaphores[id := Semaphore(s.status + 1, [])], states := WakeAll(k.states, s.waiters))
  }

  function AfterSemaphoreDown(k: Kernel, t: Tid, id: nat): Kernel
    requires id < |k.semaphores|
  {
    var s := k.semaphores[id];
    if s.status - 1 < 0
    then k.(semaphores := k.semaphores[id := Semaphore(s.status - 1, [t] + s.waiters)],
            states := k.states[t := BLOCKED_MUTEX])
    else k.(semaphores := k.semaphores[id := Semaphore(s.status - 1, s.waiters)])
  }

  function AfterMutexUp(k: Kernel, id: nat): Kernel
    requires id < |k.mutexes|
  {
    k.(mutexes := k.mutexes[id := Mutex(false, [])], states := WakeAll(k.states, k.mutexes[id].waiters))
  }

  function AfterMutexDown(k: Kernel, t: Tid, id: nat): Kernel
    requires id < |k.mutexes|
  {
    var m := k.mutexes[id];
    if m.locked
    then k.(mutexes := k.mutexes[id := Mutex(true, [t] + m.waiters)], states := k.states[t := BLOCKED_MUTEX])
    else k.(mutexes := k.mutexes[id := Mutex(true, m.waiters)])
  }

  /** The id exists. Nothing is asked of the caller: the process switch resumes a thread whether
      it is blocked or not. Other changes do not start a wait of this kind. */
  predicate Enabled(k: Kernel, e: Event) {
    match e
    case CreateSemaphore(_) => true
    case CreateMutex => true
    case SemaphoreUp(_, id) => id < |k.semaphores|
    case SemaphoreDown(_, id) => id < |k.semaphores|
    case MutexUp(_, id) => id < |k.mutexes|
    case MutexDown(_, id) => id < |k.mutexes|
    case OtherChange(_, state) => state != BLOCKED_MUTEX
  }

  function Step(k: Kernel, e: Event): Kernel
    requires Enabled(k, e)
  {
    match e
    case CreateSemaphore(start) => k.(semaphores := k.semaphores + [Semaphore(start, [])])
    case CreateMutex => k.(mutexes := k.mutexes + [Mutex(false, [])])
    case SemaphoreUp(_, id) => AfterSemaphoreUp(k, id)
    case SemaphoreDown(t, id) => AfterSemaphoreDown(k, t, id)
    case MutexUp(_, id) => AfterMutexUp(k, id)
    case MutexDown(t, id) => AfterMutexDown(k, t, id)
    case OtherChange(t, state) => k.(states := k.states[t := state])
  }

  predicate CanRun(k: Kernel, trace: seq<Event>)
    decreases |trace|
  {
    trace != [] ==> Enabled(k, trace[0]) && CanRun(Step(k, trace[0]), trace[1..])
  }

  function Run(k: Kernel, trace: seq<Event>): Kernel
    requires CanRun(k, trace)
    decreases |trace|
  {
    if trace == [] then k else Run(Step(k, trace[0]), trace[1..])
  }

  // ---------------------------------------------------------------- semaphore safety

  /** Waiters only below zero, and at least as many as the status is below zero. */
  predicate SemaphoreOk(s: Semaphore) {
    if s.status >= 0 then s.waiters == [] else |s.waiters| >= -s.status
  }

  function Ups(trace: seq<Event>, id: nat): nat {
    if trace == [] then 0 else (if trace[0].SemaphoreUp? && trace[0].id == id then 1 else 0) + Ups(trace[1..], id)
  }

  function Downs(trace: seq<Event>, id: nat): nat {
    if trace == [] then 0 else (if trace[0].SemaphoreDown? && trace[0].id == id then 1 else 0) + Downs(trace[1..], id)
  }

  lemma {:induction false} SemaphoreAccount(k: Kernel, trace: seq<Event>, id: nat)
    requires CanRun(k, trace) && id < |k.semaphores|
    ensures id < |Run(k, trace).semaphores|
    ensures Run(k, trace).semaphores[id].status == k.semaphores[id].status + Ups(trace, id) - Downs(trace, id)
    ensures SemaphoreOk(k.semaphores[id]) ==> SemaphoreOk(Run(k, trace).semaphores[id])
    decreases |trace|
  {
    if trace == [] {
    } else {
      SemaphoreAccount(Step(k, trace[0]), trace[1..], id);
    }
  }

  /** The downs that have got past a semaphore: those made, less those still on its wait list. */
  function Passed(k: Kernel, trace: seq<Event>, id: nat): int
    requires CanRun(k, trace) && id < |Run(k, trace).semaphores|
  {
    Downs(trace, id) - |Run(k, trace).semaphores[id].waiters|
  }

  ghost predicate NeverOverrun(k: Kernel, start: int) {
    var created := Step(k, CreateSemaphore(start));
    forall trace | CanRun(created, trace) ::
      && |k.semaphores| < |Run(created, trace).semaphores|
      && Passed(created, trace, |k.semaphores|) <= start + Ups(trace, |k.semaphores|)
  }

  /** A semaphore created with `start` lets at most start + ups downs past, in every run of any
      number of threads and although Up wakes every waiter at once, exactly when start >= 0. */
  lemma SemaphoreSafety(k: Kernel, start: int)
    ensures NeverOverrun(k, start) <==> start >= 0
  {
    var id := |k.semaphores|;
    var created := Step(k, CreateSemaphore(start));
    if start >= 0 {
      forall trace | CanRun(created, trace)
        ensures id < |Run(created, trace).semaphores| && Passed(created, trace, id) <= start + Ups(trace, id)
      {
        SemaphoreAccount(created, trace, id);
      }
    } else {
      assert CanRun(created, []);
      assert Passed(created, [], id) == 0;
    }
  }

  function NotBelowZero(x: int): nat {
    if x < 0 then 0 else x
  }

  /** With `made` downs already made, the waiters account for every down beyond what the status
      allows; no step undoes that. */
  lemma {:induction false} WaitersAccountForDowns(k: Kernel, trace: seq<Event>, id: nat, made: nat)
    requires CanRun(k, trace) && id < |k.semaphores|
    requires made <= |k.semaphores[id].waiters| + NotBelowZero(k.semaphores[id].status + made)
    ensures id < |Run(k, trace).semaphores|
    ensures made + Downs(trace, id)
         <= |Run(k, trace).semaphores[id].waiters| + NotBelowZero(k.semaphores[id].status + made + Ups(trace, id))
    decreases |trace|
  {
    if trace == [] {
    } else {
      var e := trace[0];
      WaitersAccountForDowns(Step(k, e), trace[1..], id, if e.SemaphoreDown? && e.id == id then made + 1 else made);
    }
  }

  /** Whatever the start, a negative one included: no more downs get past than start + ups, or none. */
  lemma PassedIsBounded(k: Kernel, start: int, trace: seq<Event>)
    requires CanRun(Step(k, CreateSemaphore(start)), trace)
    ensures var (created, id) := (Step(k, CreateSemaphore(start)), |k.semaphores|);
            && id < |Run(created, trace).semaphores|
            && Passed(created, trace, id) <= NotBelowZero(start + Ups(trace, id))
  {
    WaitersAccountForDowns(Step(k, CreateSemaphore(start)), trace, |k.semaphores|, 0);
  }

  // ---------------------------------------------------------------- wait lists and thread states

  function Occurrences(waiters: seq<Tid>, t: Tid): nat {
    if waiters == [] then 0 else (if waiters[0] == t then 1 else 0) + Occurrences(waiters[1..], t)
  }

  function OnSemaphores(semaphores: seq<Semaphore>, t: Tid): nat {
    if semaphores == [] then 0 else Occurrences(semaphores[0].waiters, t) + OnSemaphores(semaphores[1..], t)
  }

  function OnMutexes(mutexes: seq<Mutex>, t: Tid): nat {
    if mutexes == [] then 0 else Occurrences(mutexes[0].waiters, t) + OnMutexes(mutexes[1..], t)
  }

  /** How often a thread is on a wait list. */
  function WaitCount(k: Kernel, t: Tid): nat {
    OnSemaphores(k.semaphores, t) + OnMutexes(k.mutexes, t)
  }

  predicate IsBlocked(k: Kernel, t: Tid) {
    t in k.states && k.states[t] == BLOCKED_MUTEX
  }

  predicate CountAgrees(k: Kernel, t: Tid) {
    WaitCount(k, t) == if IsBlocked(k, t) then 1 else 0
  }

  /** The step does not give a waiting thread a second wait, or another state. */
  predicate Harmless(k: Kernel, e: Event)
    requires Enabled(k, e)
  {
    match e
    case SemaphoreDown(t, id) => k.semaphores[id].status - 1 < 0 ==> !IsBlocked(k, t)
    case MutexDown(t, id) => k.mutexes[id].locked ==> !IsBlocked(k, t)
    case OtherChange(t, _) => !IsBlocked(k, t)
    case _ => true
  }

  ghost predicate WaitListsAgree(k: Kernel) {
    && (forall t: Tid :: CountAgrees(k, t))
    && (forall i | 0 <= i < |k.semaphores| :: k.semaphores[i].waiters != [] ==> k.semaphores[i].status < 0)
    && (forall i | 0 <= i < |k.mutexes| :: k.mutexes[i].waiters != [] ==> k.mutexes[i].locked)
  }

  lemma {:induction false} OccurrencesMember(waiters: seq<Tid>, t: Tid)
    ensures Occurrences(waiters, t) > 0 <==> t in waiters
  {
    if waiters == [] {
    } else {
      OccurrencesMember(waiters[1..], t);
    }
  }

  lemma {:induction false} OnSemaphoresUpdate(s: seq<Semaphore>, i: nat, x: Semaphore, t: Tid)
    requires i < |s|
    ensures OnSemaphores(s[i := x], t)
         == OnSemaphores(s, t) - Occurrences(s[i].waiters, t) + Occurrences(x.waiters, t)
    ensures Occurrences(s[i].waiters, t) <= OnSemaphores(s, t)
  {
    if i == 0 {
    } else {
      OnSemaphoresUpdate(s[1..], i - 1, x, t);
      assert s[i := x][1..] == s[1..][i - 1 := x];
    }
  }

  lemma {:induction false} OnMutexesUpdate(s: seq<Mutex>, i: nat, x: Mutex, t: Tid)
    requires i < |s|
    ensures OnMutexes(s[i := x], t) == OnMutexes(s, t) - Occurrences(s[i].waiters, t) + Occurrences(x.waiters, t)
    ensures Occurrences(s[i].waiters, t) <= OnMutexes(s, t)
  {
    if i == 0 {
    } else {
      OnMutexesUpdate(s[1..], i - 1, x, t);
      assert s[i := x][1..] == s[1..][i - 1 := x];
    }
  }

  lemma {:induction false} OnSemaphoresAppend(s: seq<Semaphore>, start: int, t: Tid)
    ensures OnSemaphores(s + [Semaphore(start, [])], t) == OnSemaphores(s, t)
  {
    var x := Semaphore(start, []);
    if s == [] {
      assert [x][1..] == [];
    } else {
      assert (s + [x])[1..] == s[1..] + [x];
      OnSemaphoresAppend(s[1..], start, t);
    }
  }

  lemma {:induction false} OnMutexesAppend(s: seq<Mutex>, t: Tid)
    ensures OnMutexes(s + [Mutex(false, [])], t) == OnMutexes(s, t)
  {
    var x := Mutex(false, []);
    if s == [] {
      assert [x][1..] == [];
    } else {
      assert (s + [x])[1..] == s[1..] + [x];
      OnMutexesAppend(s[1..], t);
    }
  }

  lemma {:induction false} WakeAllEffect(states: map<Tid, Status>, waiters: seq<Tid>)
    ensures WakeAll(states, waiters).Keys == states.Keys
    ensures forall t | t in states ::
              WakeAll(states, waiters)[t] == if t in waiters && states[t] == BLOCKED_MUTEX then Ready else states[t]
  {
    if waiters == [] {
    } else {
      WakeAllEffect(Wake(states, waiters[0]), waiters[1..]);
    }
  }

  /** Waking the waiters of an emptied list, seen by one thread. */
  lemma WakingKeepsCount(k: Kernel, after: Kernel, waiters: seq<Tid>, t: Tid)
    requires CountAgrees(k, t) && Occurrences(waiters, t) <= WaitCount(k, t)
    requires WaitCount(after, t) == WaitCount(k, t) - Occurrences(waiters, t)
    requires after.states == WakeAll(k.states, waiters)
    ensures CountAgrees(after, t)
  {
    WakeAllEffect(k.states, waiters);
    OccurrencesMember(waiters, t);
    hide WaitCount;
  }

  lemma SemaphoreUpKeepsCount(k: Kernel, id: nat, t: Tid)
    requires CountAgrees(k, t) && id < |k.semaphores|
    ensures CountAgrees(AfterSemaphoreUp(k, id), t)
  {
    hide WakeAll;
    var after := AfterSemaphoreUp(k, id);
    OnSemaphoresUpdate(k.semaphores, id, after.semaphores[id], t);
    if after.semaphores[id].status >= 0 {
      WakingKeepsCount(k, after, k.semaphores[id].waiters, t);
    }
  }

  lemma SemaphoreDownKeepsCount(k: Kernel, caller: Tid, id: nat, t: Tid)
    requires CountAgrees(k, t) && id < |k.semaphores|
    requires k.semaphores[id].status - 1 < 0 ==> !IsBlocked(k, caller)
    ensures CountAgrees(AfterSemaphoreDown(k, caller, id), t)
  {
    OnSemaphoresUpdate(k.semaphores, id, AfterSemaphoreDown(k, caller, id).semaphores[id], t);
    AddedInFront(caller, k.semaphores[id].waiters, t);
  }

  lemma MutexUpKeepsCount(k: Kernel, id: nat, t: Tid)
    requires CountAgrees(k, t) && id < |k.mutexes|
    ensures CountAgrees(AfterMutexUp(k, id), t)
  {
    hide WakeAll;
    OnMutexesUpdate(k.mutexes, id, Mutex(false, []), t);
    WakingKeepsCount(k, AfterMutexUp(k, id), k.mutexes[id].waiters, t);
  }

  lemma MutexDownKeepsCount(k: Kernel, caller: Tid, id: nat, t: Tid)
    requires CountAgrees(k, t) && id < |k.mutexes| && (k.mutexes[id].locked ==> !IsBlocked(k, caller))
    ensures CountAgrees(AfterMutexDown(k, caller, id), t)
  {
    OnMutexesUpdate(k.mutexes, id, AfterMutexDown(k, caller, id).mutexes[id], t);
    AddedInFront(caller, k.mutexes[id].waiters, t);
  }

  /** One step of any thread on any semaphore or mutex, seen by one thread. */
  lemma StepKeepsCount(k: Kernel, e: Event, t: Tid)
    requires CountAgrees(k, t) && Enabled(k, e) && Harmless(k, e)
    ensures CountAgrees(Step(k, e), t)
  {
    hide AfterSemaphoreUp, AfterSemaphoreDown, AfterMutexUp, AfterMutexDown;
    match e
    case CreateSemaphore(start) => OnSemaphoresAppend(k.semaphores, start, t);
    case CreateMutex => OnMutexesAppend(k.mutexes, t);
    case OtherChange(_, _) =>
    case SemaphoreUp(_, id) => SemaphoreUpKeepsCount(k, id, t);
    case SemaphoreDown(caller, id) => SemaphoreDownKeepsCount(k, caller, id, t);
    case MutexUp(_, id) => MutexUpKeepsCount(k, id, t);
    case MutexDown(caller, id) => MutexDownKeepsCount(k, caller, id, t);
  }

  lemma AddedInFront(caller: Tid, waiters: seq<Tid>, t: Tid)
    ensures Occurrences([caller] + waiters, t) == (if caller == t then 1 else 0) + Occurrences(waiters, t)
  {
    assert ([caller] + waiters)[1..] == waiters;
  }

  /** A second wait, or a wait whose thread has another state, shows in the count of that thread. */
  lemma HarmDisagrees(k: Kernel, e: Event)
    requires WaitListsAgree(k) && Enabled(k, e) && !Harmless(k, e)
    ensures !WaitListsAgree(Step(k, e))
  {
    if e.OtherChange? {
      assert CountAgrees(k, e.thread);
      assert !CountAgrees(Step(k, e), e.thread);
    } else {
      assert CountAgrees(k, e.caller);
      if e.SemaphoreDown? {
        OnSemaphoresUpdate(k.semaphores, e.id, Step(k, e).semaphores[e.id], e.caller);
        AddedInFront(e.caller, k.semaphores[e.id].waiters, e.caller);
      } else {
        OnMutexesUpdate(k.mutexes, e.id, Step(k, e).mutexes[e.id], e.caller);
        AddedInFront(e.caller, k.mutexes[e.id].waiters, e.caller);
      }
      assert !CountAgrees(Step(k, e), e.caller);
    }
  }

  /** A step keeps thread states and wait lists in agreement if and only if it is harmless. */
  lemma StepKeepsAgreementExactly(k: Kernel, e: Event)
    requires WaitListsAgree(k) && Enabled(k, e)
    ensures WaitListsAgree(Step(k, e)) <==> Harmless(k, e)
  {
    hide CountAgrees;
    if Harmless(k, e) {
      forall t: Tid
        ensures CountAgrees(Step(k, e), t)
      {
        StepKeepsCount(k, e, t);
      }
    } else {
      HarmDisagrees(k, e);
    }
  }

  predicate HarmlessRun(k: Kernel, trace: seq<Event>)
    requires CanRun(k, trace)
    decreases |trace|
  {
    trace != [] ==> Harmless(k, trace[0]) && HarmlessRun(Step(k, trace[0]), trace[1..])
  }

  ghost predicate AgreeThroughout(k: Kernel, trace: seq<Event>)
    requires CanRun(k, trace)
    decreases |trace|
  {
    WaitListsAgree(k) && (trace != [] ==> AgreeThroughout(Step(k, trace[0]), trace[1..]))
  }

  /** In every state of a run a thread is blocked here exactly when it is on exactly one wait list,
      once, with waiters only at semaphores below zero and at locked mutexes, if and only if every
      step of the run is harmless. */
  lemma {:induction false} RunAgreesExactly(k: Kernel, trace: seq<Event>)
    requires WaitListsAgree(k) && CanRun(k, trace)
    ensures AgreeThroughout(k, trace) <==> HarmlessRun(k, trace)
    ensures HarmlessRun(k, trace) ==> WaitListsAgree(Run(k, trace))
    decreases |trace|
  {
    hide WaitListsAgree, Harmless;
    if trace == [] {
    } else {
      StepKeepsAgreementExactly(k, trace[0]);
      if Harmless(k, trace[0]) {
        RunAgreesExactly(Step(k, trace[0]), trace[1..]);
      } else {
        assert !AgreeThroughout(Step(k, trace[0]), trace[1..]);
      }
    }
  }

  lemma {:induction false} OnASemaphoreList(s: seq<Semaphore>, t: Tid) returns (i: nat)
    requires OnSemaphores(s, t) > 0
    ensures i < |s| && t in s[i].waiters
  {
    OccurrencesMember(s[0].waiters, t);
    if t in s[0].waiters {
      i := 0;
    } else {
      i := OnASemaphoreList(s[1..], t);
      i := i + 1;
    }
  }

  lemma {:induction false} OnAMutexList(s: seq<Mutex>, t: Tid) returns (i: nat)
    requires OnMutexes(s, t) > 0
    ensures i < |s| && t in s[i].waiters
  {
    OccurrencesMember(s[0].waiters, t);
    if t in s[0].waiters {
      i := 0;
    } else {
      i := OnAMutexList(s[1..], t);
      i := i + 1;
    }
  }

  ghost predicate WaitsForSomething(k: Kernel, t: Tid) {
    || (exists s | s in k.semaphores :: t in s.waiters && s.status < 0)
    || (exists m | m in k.mutexes :: t in m.waiters && m.locked)
  }

  /** No wake-up is lost: whoever is blocked after a run waits for a semaphore that is still
      below zero or for a mutex that is still locked. */
  lemma NoLostWakeup(k: Kernel, trace: seq<Event>, t: Tid)
    requires WaitListsAgree(k) && CanRun(k, trace) && HarmlessRun(k, trace) && IsBlocked(Run(k, trace), t)
    ensures WaitsForSomething(Run(k, trace), t)
  {
    RunAgreesExactly(k, trace);
    var after := Run(k, trace);
    assert CountAgrees(after, t);
    if OnSemaphores(after.semaphores, t) > 0 {
      var i := OnASemaphoreList(after.semaphores, t);
      assert after.semaphores[i] in after.semaphores;
    } else {
      var i := OnAMutexList(after.mutexes, t);
      assert after.mutexes[i] in after.mutexes;
    }
  }
}
