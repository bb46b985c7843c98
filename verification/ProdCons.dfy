/** The producer/consumer program of the shell (Userland/SampleCodeModule/shell.c) as an
    interleaved step system over the kernel's semaphores and mutex. Every system call is one
    step; insertItem and removeItem take two steps each. The mutex excludes nobody under
    contention (see ExclusionFails), so safety comes from the semaphores and from each index
    having one owner. */
module ProdCons {
  import opened Statuses
  import opened Sync

  const BUFFERSIZE: nat := 100
  const EMPTY_COUNT: nat := 0
  const FULL_COUNT: nat := 1
  const ITEM_MUTEX: nat := 0
  const PRODUCER: Tid := Tid(2, 1)
  const CONSUMER: Tid := Tid(2, 2)

  /** Where a thread stands in its loop; both loops have the same shape. */
  datatype Pc = Start | DownSemaphore | Lock | Touch | Advance | Unlock | UpSemaphore

  /** `inserted` and `removed` are histories: every item stored, every item taken out. */
  datatype State = State(
    kernel: Kernel,
    buffer: seq<int>, w: nat, r: nat, aux: int,
    producer: Pc, item: int, consumer: Pc,
    inserted: seq<int>, removed: seq<int>)

  datatype Move = Produce | Consume | Environment(thread: Tid, state: Status)

  /** (char)aux: the low eight bits, signed. */
  function CharOf(n: int): (c: int)
    ensures -128 <= c <= 127 && (c - n) % 256 == 0
  {
    (n + 128) % 256 - 128
  }

  function Initial(): State {
    State(Kernel([Semaphore(BUFFERSIZE, []), Semaphore(0, [])], [Mutex(false, [])],
                 map[PRODUCER := Ready, CONSUMER := Ready]),
          seq(BUFFERSIZE, _ => 0), 0, 0, 1, Start, 0, Start, [], [])
  }

  /** The kernel objects and indices exist, as prodcons() leaves them. */
  predicate Shaped(s: State) {
    && |s.kernel.semaphores| == 2 && |s.kernel.mutexes| == 1
    && |s.buffer| == BUFFERSIZE && s.w < BUFFERSIZE && s.r < BUFFERSIZE
    && PRODUCER in s.kernel.states && CONSUMER in s.kernel.states
  }

  function ProducerStep(s: State): State
    requires Shaped(s)
  {
    match s.producer
    case Start => s.(item := CharOf(s.aux), aux := s.aux + 1, producer := DownSemaphore)
    case DownSemaphore => s.(kernel := AfterSemaphoreDown(s.kernel, PRODUCER, EMPTY_COUNT), producer := Lock)
    case Lock => s.(kernel := AfterMutexDown(s.kernel, PRODUCER, ITEM_MUTEX), producer := Touch)
    case Touch => s.(buffer := s.buffer[s.w := s.item], inserted := s.inserted + [s.item], producer := Advance)
    case Advance => s.(w := (s.w + 1) % BUFFERSIZE, producer := Unlock)
    case Unlock => s.(kernel := AfterMutexUp(s.kernel, ITEM_MUTEX), producer := UpSemaphore)
    case UpSemaphore => s.(kernel := AfterSemaphoreUp(s.kernel, FULL_COUNT), producer := Start)
  }

  function ConsumerStep(s: State): State
    requires Shaped(s)
  {
    match s.consumer
    case Start => s.(consumer := DownSemaphore)
    case DownSemaphore => s.(kernel := AfterSemaphoreDown(s.kernel, CONSUMER, FULL_COUNT), consumer := Lock)
    case Lock => s.(kernel := AfterMutexDown(s.kernel, CONSUMER, ITEM_MUTEX), consumer := Touch)
    case Touch => s.(removed := s.removed + [s.buffer[s.r]], consumer := Advance)
    case Advance => s.(r := (s.r + 1) % BUFFERSIZE, consumer := Unlock)
    case Unlock => s.(kernel := AfterMutexUp(s.kernel, ITEM_MUTEX), consumer := UpSemaphore)
    case UpSemaphore => s.(kernel := AfterSemaphoreUp(s.kernel, EMPTY_COUNT), consumer := Start)
  }

  /** The two threads block for a semaphore or mutex only by their own calls; everything else may
      happen in any order. A blocked thread can move too: the process switch resumes it. */
  predicate Possible(s: State, m: Move) {
    Shaped(s) && (m.Environment? && (m.thread == PRODUCER || m.thread == CONSUMER) ==> m.state != BLOCKED_MUTEX)
  }

  /** The thread that moves, or is changed by others, is not waiting. */
  predicate CanMove(s: State, m: Move) {
    && Possible(s, m)
    && match m
       case Produce => !IsBlocked(s.kernel, PRODUCER)
       case Consume => !IsBlocked(s.kernel, CONSUMER)
       case Environment(t, _) => t == PRODUCER || t == CONSUMER ==> !IsBlocked(s.kernel, t)
  }

  function MoveStep(s: State, m: Move): State
    requires Possible(s, m)
  {
    match m
    case Produce => ProducerStep(s)
    case Consume => ConsumerStep(s)
    case Environment(t, state) => s.(kernel := s.kernel.(states := s.kernel.states[t := state]))
  }

  predicate CanFollow(s: State, moves: seq<Move>)
    decreases |moves|
  {
    moves != [] ==> Possible(s, moves[0]) && CanFollow(MoveStep(s, moves[0]), moves[1..])
  }

  /** No thread moves while it waits. */
  predicate NoneResumed(s: State, moves: seq<Move>)
    requires CanFollow(s, moves)
    decreases |moves|
  {
    moves != [] ==> CanMove(s, moves[0]) && NoneResumed(MoveStep(s, moves[0]), moves[1..])
  }

  function Follow(s: State, moves: seq<Move>): State
    requires CanFollow(s, moves)
    decreases |moves|
  {
    if moves == [] then s else Follow(MoveStep(s, moves[0]), moves[1..])
  }

  // ---------------------------------------------------------------- the invariant

  predicate Between(pc: Pc) {
    pc == Lock || pc == Touch
  }

  predicate After(pc: Pc) {
    pc == Advance || pc == Unlock || pc == UpSemaphore
  }

  predicate InCriticalSection(pc: Pc) {
    pc == Touch || pc == Advance || pc == Unlock
  }

  /** Downs a thread has made, and ups, from how many items it has handled. */
  function DownsMade(pc: Pc, handled: nat): int {
    handled + if Between(pc) then 1 else 0
  }

  function UpsMade(pc: Pc, handled: nat): int {
    handled - if After(pc) then 1 else 0
  }

  predicate Inside(s: State, t: Tid, pc: Pc) {
    InCriticalSection(pc) && !IsBlocked(s.kernel, t)
  }

  /** One thread and its own semaphore: it waits there exactly while the count is below zero. */
  predicate OwnSemaphore(s: Semaphore, t: Tid, pc: Pc) {
    && s.status >= -1
    && s.waiters == (if s.status < 0 then [t] else [])
    && (s.status < 0 ==> pc == Lock)
  }

  predicate Counters(s: State)
    requires Shaped(s)
  {
    var (empty, full) := (s.kernel.semaphores[EMPTY_COUNT], s.kernel.semaphores[FULL_COUNT]);
    && empty.status == BUFFERSIZE + UpsMade(s.consumer, |s.removed|) - DownsMade(s.producer, |s.inserted|)
    && full.status == UpsMade(s.producer, |s.inserted|) - DownsMade(s.consumer, |s.removed|)
    && OwnSemaphore(empty, PRODUCER, s.producer)
    && OwnSemaphore(full, CONSUMER, s.consumer)
  }

  /** Who is blocked is on one of the lists; a locked mutex has its last locker inside. */
  predicate Blocking(s: State)
    requires Shaped(s)
  {
    var (empty, full) := (s.kernel.semaphores[EMPTY_COUNT], s.kernel.semaphores[FULL_COUNT]);
    var m := s.kernel.mutexes[ITEM_MUTEX];
    && (IsBlocked(s.kernel, PRODUCER) <==> empty.status < 0 || PRODUCER in m.waiters)
    && (IsBlocked(s.kernel, CONSUMER) <==> full.status < 0 || CONSUMER in m.waiters)
    && (PRODUCER in m.waiters ==> s.producer == Touch)
    && (CONSUMER in m.waiters ==> s.consumer == Touch)
    && (forall t | t in m.waiters :: t == PRODUCER || t == CONSUMER)
    && (m.waiters != [] ==> m.locked)
    && (m.locked ==> Inside(s, PRODUCER, s.producer) || Inside(s, CONSUMER, s.consumer))
  }

  /** The buffer holds, from r to w, the items stored and not yet taken out. */
  predicate Contents(s: State)
    requires Shaped(s)
  {
    var (i, n) := (|s.removed|, |s.inserted|);
    && i <= n <= i + BUFFERSIZE
    && s.removed == s.inserted[..i]
    && s.w == (n - if s.producer == Advance then 1 else 0) % BUFFERSIZE
    && s.r == (i - if s.consumer == Advance then 1 else 0) % BUFFERSIZE
    && (s.producer == Advance ==> n > 0)
    && (s.consumer == Advance ==> i > 0)
    && (forall k | i <= k < n :: s.buffer[k % BUFFERSIZE] == s.inserted[k])
    && (forall k | 0 <= k < n :: s.inserted[k] == CharOf(k + 1))
  }

  predicate HasItem(pc: Pc) {
    pc == DownSemaphore || Between(pc)
  }

  predicate NextItem(s: State) {
    && s.aux == |s.inserted| + 1 + (if HasItem(s.producer) then 1 else 0)
    && (HasItem(s.producer) ==> s.item == CharOf(|s.inserted| + 1))
  }

  predicate Inv(s: State) {
    Shaped(s) && Counters(s) && Blocking(s) && Contents(s) && NextItem(s)
  }

  lemma InitialInv()
    ensures Inv(Initial())
  {
  }

  // ---------------------------------------------------------------- every step keeps it

  /** WakeAll on the lists that occur here. */
  lemma WakeEffect(k: Kernel, after: Kernel, waiters: seq<Tid>, t: Tid)
    requires after.states == WakeAll(k.states, waiters)
    ensures IsBlocked(after, t) <==> IsBlocked(k, t) && t !in waiters
    ensures t in after.states <==> t in k.states
  {
    WakeAllEffect(k.states, waiters);
  }

  lemma ProducerKeepsBlocking(s: State)
    requires Inv(s) && CanMove(s, Produce)
    ensures Shaped(ProducerStep(s)) && Blocking(ProducerStep(s)) && Counters(ProducerStep(s))
  {
    hide WakeAll, Contents, NextItem;
    var after := ProducerStep(s);
    if s.producer == Unlock {
      WakeEffect(s.kernel, after.kernel, s.kernel.mutexes[ITEM_MUTEX].waiters, PRODUCER);
      WakeEffect(s.kernel, after.kernel, s.kernel.mutexes[ITEM_MUTEX].waiters, CONSUMER);
    } else if s.producer == UpSemaphore {
      WakeEffect(s.kernel, after.kernel, s.kernel.semaphores[FULL_COUNT].waiters, PRODUCER);
      WakeEffect(s.kernel, after.kernel, s.kernel.semaphores[FULL_COUNT].waiters, CONSUMER);
    }
  }

  lemma ConsumerKeepsBlocking(s: State)
    requires Inv(s) && CanMove(s, Consume)
    ensures Shaped(ConsumerStep(s)) && Blocking(ConsumerStep(s)) && Counters(ConsumerStep(s))
  {
    hide WakeAll, Contents, NextItem;
    var after := ConsumerStep(s);
    if s.consumer == Unlock {
      WakeEffect(s.kernel, after.kernel, s.kernel.mutexes[ITEM_MUTEX].waiters, PRODUCER);
      WakeEffect(s.kernel, after.kernel, s.kernel.mutexes[ITEM_MUTEX].waiters, CONSUMER);
    } else if s.consumer == UpSemaphore {
      WakeEffect(s.kernel, after.kernel, s.kernel.semaphores[EMPTY_COUNT].waiters, PRODUCER);
      WakeEffect(s.kernel, after.kernel, s.kernel.semaphores[EMPTY_COUNT].waiters, CONSUMER);
    }
  }

  /** A producer that got past its down has a free slot, whether or not it holds the mutex. */
  lemma ProducerHasRoom(s: State)
    requires Inv(s) && CanMove(s, Produce) && s.producer == Touch
    ensures |s.inserted| < |s.removed| + BUFFERSIZE
  {
  }

  /** A consumer that got past its down has an item, whether or not it holds the mutex. */
  lemma ConsumerHasItem(s: State)
    requires Inv(s) && CanMove(s, Consume) && s.consumer == Touch
    ensures |s.removed| < |s.inserted|
  {
  }

  lemma SlotsDiffer(k: nat, n: nat)
    requires k < n < k + BUFFERSIZE
    ensures k % BUFFERSIZE != n % BUFFERSIZE
  {
  }

  lemma NextSlot(n: nat)
    ensures (n % BUFFERSIZE + 1) % BUFFERSIZE == (n + 1) % BUFFERSIZE
  {
  }

  /** Storing item n in its slot leaves the items from i on in theirs. */
  lemma StoreKeepsItems(buffer: seq<int>, items: seq<int>, i: nat, c: int)
    requires |buffer| == BUFFERSIZE && i <= |items| < i + BUFFERSIZE
    requires forall k | i <= k < |items| :: buffer[k % BUFFERSIZE] == items[k]
    ensures forall k | i <= k < |items| + 1 ::
              buffer[|items| % BUFFERSIZE := c][k % BUFFERSIZE] == (items + [c])[k]
  {
    forall k | i <= k < |items| ensures k % BUFFERSIZE != |items| % BUFFERSIZE {
      SlotsDiffer(k, |items|);
    }
  }

  lemma StoreKeepsContents(s: State)
    requires Shaped(s) && Contents(s) && s.producer == Touch
    requires |s.inserted| < |s.removed| + BUFFERSIZE && s.item == CharOf(|s.inserted| + 1)
    ensures Contents(s.(buffer := s.buffer[s.w := s.item], inserted := s.inserted + [s.item], producer := Advance))
  {
    hide CharOf;
    StoreKeepsItems(s.buffer, s.inserted, |s.removed|, s.item);
  }

  lemma ItemIsNext(s: State)
    requires NextItem(s) && HasItem(s.producer)
    ensures s.item == CharOf(|s.inserted| + 1)
  {
  }

  lemma ProducerStores(s: State)
    requires Inv(s) && CanMove(s, Produce) && s.producer == Touch
    ensures Contents(ProducerStep(s)) && NextItem(ProducerStep(s))
  {
    ProducerHasRoom(s);
    hide Counters, Blocking, CanMove;
    ItemIsNext(s);
    StoreKeepsContents(s);
  }

  lemma ProducerKeepsContents(s: State)
    requires Inv(s) && CanMove(s, Produce)
    ensures Shaped(ProducerStep(s)) && Contents(ProducerStep(s)) && NextItem(ProducerStep(s))
  {
    hide Counters, Blocking, WakeAll;
    ProducerKeepsBlocking(s);
    if s.producer == Touch {
      ProducerStores(s);
    } else if s.producer == Advance {
      NextSlot(|s.inserted| - 1);
    }
  }

  lemma LoadKeepsContents(s: State)
    requires Shaped(s) && Contents(s) && s.consumer == Touch && |s.removed| < |s.inserted|
    ensures Contents(s.(removed := s.removed + [s.buffer[s.r]], consumer := Advance))
  {
    var i := |s.removed|;
    assert s.buffer[i % BUFFERSIZE] == s.inserted[i];
    assert s.inserted[..i + 1] == s.inserted[..i] + [s.inserted[i]];
  }

  lemma ConsumerLoads(s: State)
    requires Inv(s) && CanMove(s, Consume) && s.consumer == Touch
    ensures Contents(ConsumerStep(s)) && NextItem(ConsumerStep(s))
  {
    ConsumerHasItem(s);
    hide Counters, Blocking, CanMove;
    LoadKeepsContents(s);
  }

  lemma ConsumerKeepsContents(s: State)
    requires Inv(s) && CanMove(s, Consume)
    ensures Shaped(ConsumerStep(s)) && Contents(ConsumerStep(s)) && NextItem(ConsumerStep(s))
  {
    hide Counters, Blocking, WakeAll;
    ConsumerKeepsBlocking(s);
    if s.consumer == Touch {
      ConsumerLoads(s);
    } else if s.consumer == Advance {
      NextSlot(|s.removed| - 1);
    }
  }

  /** A waiting thread that moves on leaves its place in the program and stays on its wait list. */
  lemma ResumedBreaksInv(s: State, m: Move)
    requires Inv(s) && Possible(s, m) && !CanMove(s, m)
    ensures !Inv(MoveStep(s, m))
  {
    hide Contents, NextItem, WakeAll;
    if m.Produce? {
      assert s.producer == Lock || s.producer == Touch;
    } else if m.Consume? {
      assert s.consumer == Lock || s.consumer == Touch;
    }
  }

  /** Every step of producer, consumer or any other thread keeps the invariant if and only if it
      is not a step, or a change of state, of one of the two while it waits. */
  lemma MoveKeepsInvExactly(s: State, m: Move)
    requires Inv(s) && Possible(s, m)
    ensures Inv(MoveStep(s, m)) <==> CanMove(s, m)
  {
    hide Inv;
    if !CanMove(s, m) {
      ResumedBreaksInv(s, m);
    } else {
      MoveKeepsInv(s, m);
    }
  }

  lemma MoveKeepsInv(s: State, m: Move)
    requires Inv(s) && CanMove(s, m)
    ensures Inv(MoveStep(s, m))
  {
    match m
    case Produce =>
      hide ProducerStep, Contents, Counters, Blocking, NextItem;
      ProducerKeepsBlocking(s);
      ProducerKeepsContents(s);
    case Consume =>
      hide ConsumerStep, Contents, Counters, Blocking, NextItem;
      ConsumerKeepsBlocking(s);
      ConsumerKeepsContents(s);
    case Environment(_, _) =>
  }

  predicate InvThroughout(s: State, moves: seq<Move>)
    requires CanFollow(s, moves)
    decreases |moves|
  {
    Inv(s) && (moves != [] ==> InvThroughout(MoveStep(s, moves[0]), moves[1..]))
  }

  lemma {:induction false} FollowKeepsInvExactly(s: State, moves: seq<Move>)
    requires Inv(s) && CanFollow(s, moves)
    ensures InvThroughout(s, moves) <==> NoneResumed(s, moves)
    ensures NoneResumed(s, moves) ==> Inv(Follow(s, moves))
    decreases |moves|
  {
    hide Inv, CanMove;
    if moves == [] {
    } else {
      MoveKeepsInvExactly(s, moves[0]);
      if CanMove(s, moves[0]) {
        FollowKeepsInvExactly(MoveStep(s, moves[0]), moves[1..]);
      } else {
        assert !InvThroughout(MoveStep(s, moves[0]), moves[1..]);
      }
    }
  }

  // ---------------------------------------------------------------- what the program is for

  /** In every interleaving in which none moves while it waits: the items taken out are, in order, a
      prefix of the items stored; between 0 and 100 are in the buffer; and the k-th item stored is
      the k-th number from 1 on, as a char. */
  lemma RemovedIsPrefixOfInserted(moves: seq<Move>)
    requires CanFollow(Initial(), moves) && NoneResumed(Initial(), moves)
    ensures var s := Follow(Initial(), moves);
            && s.removed <= s.inserted
            && |s.inserted| - |s.removed| <= BUFFERSIZE
            && (forall k | 0 <= k < |s.inserted| ::
                  -128 <= s.inserted[k] <= 127 && (s.inserted[k] - (k + 1)) % 256 == 0)
            && forall k | 0 <= k < |s.inserted| && k < 127 :: s.inserted[k] == k + 1
  {
    InitialInv();
    FollowKeepsInvExactly(Initial(), moves);
    var s := Follow(Initial(), moves);
    forall k | 0 <= k < |s.inserted|
      ensures -128 <= s.inserted[k] <= 127 && (s.inserted[k] - (k + 1)) % 256 == 0
      ensures k < 127 ==> s.inserted[k] == k + 1
    {
      assert s.inserted[k] == CharOf(k + 1);
    }
  }

  /** And at least one of the two threads does not wait. */
  lemma NeverDeadlocks(moves: seq<Move>)
    requires CanFollow(Initial(), moves) && NoneResumed(Initial(), moves)
    ensures var s := Follow(Initial(), moves);
            CanMove(s, Produce) || CanMove(s, Consume)
  {
    InitialInv();
    FollowKeepsInvExactly(Initial(), moves);
  }

  /** Whenever the mutex is locked, a thread that is not blocked is inside and will unlock it. */
  lemma LockedHasOwnerInside(moves: seq<Move>)
    requires CanFollow(Initial(), moves) && NoneResumed(Initial(), moves)
    ensures var s := Follow(Initial(), moves);
            Shaped(s) && (s.kernel.mutexes[ITEM_MUTEX].locked ==>
              Inside(s, PRODUCER, s.producer) || Inside(s, CONSUMER, s.consumer))
  {
    InitialInv();
    FollowKeepsInvExactly(Initial(), moves);
  }

  // ---------------------------------------------------------------- what the mutex does not do

  ghost predicate Reachable(s: State) {
    exists moves :: CanFollow(Initial(), moves) && NoneResumed(Initial(), moves) && Follow(Initial(), moves) == s
  }

  lemma {:induction false} FollowLast(s: State, moves: seq<Move>, m: Move)
    requires CanFollow(s, moves) && NoneResumed(s, moves) && CanMove(Follow(s, moves), m)
    ensures CanFollow(s, moves + [m]) && NoneResumed(s, moves + [m])
    ensures Follow(s, moves + [m]) == MoveStep(Follow(s, moves), m)
    decreases |moves|
  {
    if moves == [] {
      var next := MoveStep(s, m);
      assert CanFollow(next, []) && NoneResumed(next, []) && Follow(next, []) == next;
      assert (moves + [m])[1..] == [];
    } else {
      assert (moves + [m])[1..] == moves[1..] + [m];
      FollowLast(MoveStep(s, moves[0]), moves[1..], m);
    }
  }

  lemma ReachableStep(s: State, m: Move)
    requires Reachable(s) && CanMove(s, m)
    ensures Reachable(MoveStep(s, m))
  {
    var moves :| CanFollow(Initial(), moves) && NoneResumed(Initial(), moves) && Follow(Initial(), moves) == s;
    FollowLast(Initial(), moves, m);
  }

  predicate Snapshot(s: State, empty: Semaphore, full: Semaphore, m: Mutex, producer: Pc, consumer: Pc) {
    && Shaped(s) && s.kernel.semaphores == [empty, full] && s.kernel.mutexes == [m]
    && s.producer == producer && s.consumer == consumer
    && (IsBlocked(s.kernel, PRODUCER) <==> PRODUCER in m.waiters)
    && (IsBlocked(s.kernel, CONSUMER) <==> CONSUMER in m.waiters)
  }

  lemma ProducerEnters(s: State, e: int, full: Semaphore, pc: Pc) returns (t: State)
    requires Reachable(s) && e > 0
    requires Snapshot(s, Semaphore(e, []), full, Mutex(false, []), Start, pc)
    ensures Reachable(t) && Snapshot(t, Semaphore(e - 1, []), full, Mutex(true, []), Touch, pc)
  {
    hide Reachable;
    ReachableStep(s, Produce);
    var s1 := ProducerStep(s);
    ReachableStep(s1, Produce);
    var s2 := ProducerStep(s1);
    ReachableStep(s2, Produce);
    t := ProducerStep(s2);
  }

  lemma ProducerUnlocks(s: State, empty: Semaphore, f: int, waiters: seq<Tid>, pc: Pc) returns (t: State)
    requires Reachable(s) && f >= 0 && (waiters == [] || waiters == [CONSUMER])
    requires Snapshot(s, empty, Semaphore(f, []), Mutex(true, waiters), Unlock, pc)
    ensures Reachable(t) && Snapshot(t, empty, Semaphore(f + 1, []), Mutex(false, []), Start, pc)
  {
    hide Reachable, WakeAll;
    ReachableStep(s, Produce);
    var s1 := ProducerStep(s);
    WakeEffect(s.kernel, s1.kernel, waiters, PRODUCER);
    WakeEffect(s.kernel, s1.kernel, waiters, CONSUMER);
    ReachableStep(s1, Produce);
    t := ProducerStep(s1);
    WakeEffect(s1.kernel, t.kernel, [], PRODUCER);
    WakeEffect(s1.kernel, t.kernel, [], CONSUMER);
  }

  lemma ProducerLeaves(s: State, empty: Semaphore, f: int, waiters: seq<Tid>, pc: Pc) returns (t: State)
    requires Reachable(s) && f >= 0 && (waiters == [] || waiters == [CONSUMER])
    requires Snapshot(s, empty, Semaphore(f, []), Mutex(true, waiters), Touch, pc)
    ensures Reachable(t) && Snapshot(t, empty, Semaphore(f + 1, []), Mutex(false, []), Start, pc)
  {
    hide Reachable, WakeAll;
    ReachableStep(s, Produce);
    var s1 := ProducerStep(s);
    ReachableStep(s1, Produce);
    var s2 := ProducerStep(s1);
    t := ProducerUnlocks(s2, empty, f, waiters, pc);
  }

  lemma ConsumerWaits(s: State, empty: Semaphore, f: int) returns (t: State)
    requires Reachable(s) && f > 0
    requires Snapshot(s, empty, Semaphore(f, []), Mutex(true, []), Touch, Start)
    ensures Reachable(t) && Snapshot(t, empty, Semaphore(f - 1, []), Mutex(true, [CONSUMER]), Touch, Touch)
  {
    hide Reachable;
    ReachableStep(s, Consume);
    var s1 := ConsumerStep(s);
    ReachableStep(s1, Consume);
    var s2 := ConsumerStep(s1);
    ReachableStep(s2, Consume);
    t := ConsumerStep(s2);
    assert [CONSUMER] + [] == [CONSUMER];
  }

  /** The mutex does not exclude: a reachable state has both threads inside. */
  lemma ExclusionFails() returns (s: State)
    ensures Reachable(s) && Inside(s, PRODUCER, s.producer) && Inside(s, CONSUMER, s.consumer)
  {
    var s0 := Initial();
    assert Snapshot(s0, Semaphore(100, []), Semaphore(0, []), Mutex(false, []), Start, Start);
    assert CanFollow(s0, []) && NoneResumed(s0, []) && Follow(s0, []) == s0;
    hide Reachable, Snapshot;
    var s1 := ProducerEnters(s0, 100, Semaphore(0, []), Start);
    var s2 := ProducerLeaves(s1, Semaphore(99, []), 0, [], Start);
    var s3 := ProducerEnters(s2, 99, Semaphore(1, []), Start);
    var s4 := ConsumerWaits(s3, Semaphore(98, []), 1);
    var s5 := ProducerLeaves(s4, Semaphore(98, []), 0, [CONSUMER], Touch);
    s := ProducerEnters(s5, 98, Semaphore(1, []), Touch);
  }

  /** What happens when a waiting thread is resumed: the consumer, put to sleep by its first down,
      goes on and takes an item out of the empty buffer. */
  lemma ResumedConsumerTakesNothing()
    ensures var moves := [Consume, Consume, Consume, Consume];
            && CanFollow(Initial(), moves) && !NoneResumed(Initial(), moves)
            && var s := Follow(Initial(), moves); s.removed == [0] && s.inserted == []
  {
    var moves := [Consume, Consume, Consume, Consume];
    var s1 := ConsumerStep(Initial());
    var s2 := ConsumerStep(s1);
    assert IsBlocked(s2.kernel, CONSUMER) && s2.consumer == Lock;
    var s3 := ConsumerStep(s2);
    var s4 := ConsumerStep(s3);
    assert moves[1..] == [Consume, Consume, Consume] && moves[1..][1..] == [Consume, Consume];
    assert moves[1..][1..][1..] == [Consume] && [Consume][1..] == [];
    assert CanFollow(s3, [Consume]) && Follow(s3, [Consume]) == s4;
    assert CanFollow(s2, [Consume, Consume]) && Follow(s2, [Consume, Consume]) == s4;
    assert !NoneResumed(s2, [Consume, Consume]);
    assert CanFollow(s1, moves[1..]) && Follow(s1, moves[1..]) == s4 && !NoneResumed(s1, moves[1..]);
  }

  // ---------------------------------------------------------------- the shell's two functions

  /** insertItem and removeItem on the globals: the Touch and Advance steps run in order. */
  class ItemBuffer {
    const buffer: array<int>
    var w: nat
    var r: nat

    ghost predicate Valid()
      reads this
    {
      buffer.Length == BUFFERSIZE && w < BUFFERSIZE && r < BUFFERSIZE
    }

    ghost predicate Holds(s: State)
      reads this, buffer
    {
      Valid() && buffer[..] == s.buffer && w == s.w && r == s.r
    }

    constructor ()
      ensures Holds(Initial())
    {
      buffer := new int[BUFFERSIZE](_ => 0);
      w, r := 0, 0;
      new;
      assert buffer[..] == Initial().buffer;
    }

    method InsertItem(c: int, ghost s: State)
      requires Shaped(s) && Holds(s) && s.producer == Touch && s.item == c
      modifies `w, buffer
      ensures Holds(ProducerStep(ProducerStep(s)))
    {
      buffer[w] := c;
      w := (w + 1) % BUFFERSIZE;
    }

    method RemoveItem(ghost s: State) returns (result: int)
      requires Shaped(s) && Holds(s) && s.consumer == Touch
      modifies `r
      ensures Holds(ConsumerStep(ConsumerStep(s)))
      ensures ConsumerStep(s).removed == s.removed + [result]
    {
      result := buffer[r];
      r := (r + 1) % BUFFERSIZE;
    }
  }
}
