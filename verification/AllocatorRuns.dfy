/** What any run of allocations and matching deallocations keeps. */
module AllocatorRuns {
  import opened Bitmap
  import opened MyMath
  import opened PageAllocator
  import opened Sequences

  datatype Extent = Extent(start: nat, count: nat)

  /** The block map with the live allocations beside it; blocks of `baseline` belong to nobody here. */
  datatype Pool = Pool(total: nat, used: set<nat>, live: seq<Extent>)

  datatype Call = Allocate(count: nat) | Deallocate(index: nat)

  ghost function Blocks(e: Extent): set<nat> {
    Range(e.start, e.count)
  }

  ghost function AllBlocks(live: seq<Extent>): set<nat> {
    if live == [] then {} else Blocks(live[0]) + AllBlocks(live[1..])
  }

  function TotalCount(live: seq<Extent>): nat {
    if live == [] then 0 else live[0].count + TotalCount(live[1..])
  }

  ghost predicate PairwiseDisjoint(live: seq<Extent>) {
    forall i, j | 0 <= i < j < |live| :: Blocks(live[i]) !! Blocks(live[j])
  }

  ghost predicate WellFormed(p: Pool, baseline: set<nat>) {
    && (forall i | 0 <= i < |p.live| :: p.live[i].start + p.live[i].count <= p.total)
    && (forall i | 0 <= i < |p.live| :: Blocks(p.live[i]) !! baseline)
    && PairwiseDisjoint(p.live)
    && p.used == baseline + AllBlocks(p.live)
  }

  ghost function Step(p: Pool, c: Call): Pool {
    match c
    case Allocate(count) =>
      (match FirstFit(p.used, p.total, count)
       case None => p
       case Some(s) => p.(used := p.used + Range(s, count), live := p.live + [Extent(s, count)]))
    case Deallocate(i) =>
      if i < |p.live| then p.(used := p.used - Blocks(p.live[i]), live := Without(p.live, i)) else p
  }

  ghost function Run(p: Pool, calls: seq<Call>): Pool
    decreases |calls|
  {
    if calls == [] then p else Run(Step(p, calls[0]), calls[1..])
  }

  // ---------------------------------------------------------------- the live list

  lemma {:induction false} AllBlocksMember(live: seq<Extent>, k: nat)
    ensures k in AllBlocks(live) <==> exists i | 0 <= i < |live| :: k in Blocks(live[i])
  {
    if live == [] {
    } else {
      var rest := live[1..];
      AllBlocksMember(rest, k);
      if k in AllBlocks(rest) {
        var i :| 0 <= i < |rest| && k in Blocks(rest[i]);
        assert k in Blocks(live[i + 1]);
      }
      forall i | 1 <= i < |live| && k in Blocks(live[i])
        ensures k in AllBlocks(rest)
      {
        assert rest[i - 1] == live[i];
      }
    }
  }

  lemma {:induction false} AllBlocksConcat(a: seq<Extent>, b: seq<Extent>)
    ensures AllBlocks(a + b) == AllBlocks(a) + AllBlocks(b)
  {
    if a == [] {
      assert a + b == b;
    } else {
      assert (a + b)[1..] == a[1..] + b;
      AllBlocksConcat(a[1..], b);
    }
  }

  lemma AllBlocksSingle(e: Extent)
    ensures AllBlocks([e]) == Blocks(e)
  {
  }

  lemma WithoutIsDisjoint(live: seq<Extent>, i: nat)
    requires i < |live| && PairwiseDisjoint(live)
    ensures AllBlocks(Without(live, i)) !! Blocks(live[i])
  {
    hide Range, Blocks, AllBlocks;
    forall k | k in AllBlocks(Without(live, i))
      ensures k !in Blocks(live[i])
    {
      var rest := Without(live, i);
      AllBlocksMember(rest, k);
      var j :| 0 <= j < |rest| && k in Blocks(rest[j]);
      assert rest[j] == live[if j < i then j else j + 1];
    }
  }

  lemma AllBlocksWithout(live: seq<Extent>, i: nat)
    requires i < |live| && PairwiseDisjoint(live)
    ensures AllBlocks(live) == AllBlocks(Without(live, i)) + Blocks(live[i])
    ensures AllBlocks(Without(live, i)) !! Blocks(live[i])
  {
    WithoutIsDisjoint(live, i);
    hide *;
    AllBlocksSplit(live, i);
  }

  lemma AllBlocksSplit(live: seq<Extent>, i: nat)
    requires i < |live|
    ensures AllBlocks(live) == AllBlocks(Without(live, i)) + Blocks(live[i])
  {
    hide Range, Blocks, AllBlocks;
    assert live == live[..i] + ([live[i]] + live[i + 1..]);
    AllBlocksConcat(live[..i], [live[i]] + live[i + 1..]);
    AllBlocksConcat([live[i]], live[i + 1..]);
    AllBlocksConcat(live[..i], live[i + 1..]);
    AllBlocksSingle(live[i]);
  }

  lemma {:induction false} RangeSize(start: nat, count: nat)
    ensures |Range(start, count)| == count
  {
    RangeGrows(start, 0);
    if count == 0 {
    } else {
      RangeGrows(start, count - 1);
      RangeSize(start, count - 1);
    }
  }

  lemma {:induction false} AllBlocksSize(live: seq<Extent>)
    requires PairwiseDisjoint(live)
    ensures |AllBlocks(live)| == TotalCount(live)
  {
    if live == [] {
    } else {
      var rest := live[1..];
      forall i, j | 0 <= i < j < |rest|
        ensures Blocks(rest[i]) !! Blocks(rest[j])
      {
        assert rest[i] == live[i + 1] && rest[j] == live[j + 1];
      }
      AllBlocksSize(rest);
      RangeSize(live[0].start, live[0].count);
      forall k | k in AllBlocks(rest)
        ensures k !in Blocks(live[0])
      {
        AllBlocksMember(rest, k);
      }
      assert |Blocks(live[0]) + AllBlocks(rest)| == |Blocks(live[0])| + |AllBlocks(rest)|;
    }
  }

  ghost predicate OwnedOnce(live: seq<Extent>, k: nat) {
    exists i | 0 <= i < |live| ::
      k in Blocks(live[i]) && forall j | 0 <= j < |live| && j != i :: k !in Blocks(live[j])
  }

  lemma OwnedExactlyOnce(live: seq<Extent>, k: nat)
    requires PairwiseDisjoint(live)
    ensures k in AllBlocks(live) <==> OwnedOnce(live, k)
  {
    hide Range, Blocks;
    AllBlocksMember(live, k);
  }

  // ---------------------------------------------------------------- steps and runs

  lemma AllocateKeepsWellFormed(p: Pool, baseline: set<nat>, count: nat)
    requires WellFormed(p, baseline)
    ensures WellFormed(Step(p, Allocate(count)), baseline)
  {
    FirstFitIsLeast(p.used, p.total, count);
    var fit := FirstFit(p.used, p.total, count);
    if fit.Some? {
      var e := Extent(fit.value, count);
      AllBlocksConcat(p.live, [e]);
      AllBlocksSingle(e);
      forall i | 0 <= i < |p.live|
        ensures Blocks(p.live[i]) !! Blocks(e)
      {
        forall k | k in Blocks(p.live[i])
          ensures k in p.used
        {
          AllBlocksMember(p.live, k);
        }
      }
    }
  }

  lemma DeallocateKeepsWellFormed(p: Pool, baseline: set<nat>, i: nat)
    requires WellFormed(p, baseline)
    ensures WellFormed(Step(p, Deallocate(i)), baseline)
  {
    hide Blocks;
    if i < |p.live| {
      AllBlocksWithout(p.live, i);
      var rest := Without(p.live, i);
      assert forall j | 0 <= j < |rest| :: rest[j] == p.live[if j < i then j else j + 1];
    }
  }

  lemma {:induction false} RunKeepsWellFormed(p: Pool, baseline: set<nat>, calls: seq<Call>)
    requires WellFormed(p, baseline)
    ensures WellFormed(Run(p, calls), baseline) && Run(p, calls).total == p.total
    decreases |calls|
  {
    if calls == [] {
    } else {
      match calls[0] {
        case Allocate(count) => AllocateKeepsWellFormed(p, baseline, count);
        case Deallocate(i) => DeallocateKeepsWellFormed(p, baseline, i);
      }
      RunKeepsWellFormed(Step(p, calls[0]), baseline, calls[1..]);
    }
  }

  /** From an empty pool, after any calls: live allocations are disjoint and in range, a block
      is marked used exactly when one live allocation owns it, and the used count is the sum
      of the sizes. */
  lemma RunsAllocateDisjointly(total: nat, calls: seq<Call>)
    ensures var p := Run(Pool(total, {}, []), calls);
            && PairwiseDisjoint(p.live)
            && (forall i | 0 <= i < |p.live| :: p.live[i].start + p.live[i].count <= total)
            && (forall k: nat :: k in p.used <==> OwnedOnce(p.live, k))
            && |p.used| == TotalCount(p.live)
  {
    var p := Run(Pool(total, {}, []), calls);
    RunKeepsWellFormed(Pool(total, {}, []), {}, calls);
    hide Run;
    assert p.used == AllBlocks(p.live);
    AllBlocksSize(p.live);
    forall k: nat
      ensures k in p.used <==> OwnedOnce(p.live, k)
    {
      OwnedExactlyOnce(p.live, k);
    }
  }

  /** Allocating and then freeing what was allocated gives back the same map. */
  lemma DeallocateUndoesAllocate(p: Pool, count: nat)
    requires FirstFit(p.used, p.total, count).Some?
    ensures Step(Step(p, Allocate(count)), Deallocate(|p.live|)) == p
  {
    FirstFitIsLeast(p.used, p.total, count);
    var s := FirstFit(p.used, p.total, count).value;
    var q := Step(p, Allocate(count));
    assert Without(q.live, |p.live|) == p.live;
    assert q.used - Range(s, count) == p.used;
  }

  // ---------------------------------------------------------------- the bitmap allocator refines the pool

  datatype Request = AllocateBytes(size: nat) | DeallocateLive(index: nat)

  /** What a caller remembers of an allocation. */
  datatype Allocation = Allocation(address: nat, size: nat)

  /** The request is small enough for its page count to fit an int. */
  predicate Fits(r: Request) {
    r.AllocateBytes? ==> r.size <= INT_MAX * PAGE_SIZE
  }

  ghost function AsCall(r: Request): Call
    requires Fits(r)
  {
    match r
    case AllocateBytes(size) => Allocate(Pages(size))
    case DeallocateLive(i) => Deallocate(i)
  }

  ghost function AsCalls(requests: seq<Request>): seq<Call>
    requires forall r | r in requests :: Fits(r)
  {
    seq(|requests|, i requires 0 <= i < |requests| => AsCall(requests[i]))
  }

  lemma {:induction false} RunLastStep(p: Pool, calls: seq<Call>, c: Call)
    ensures Run(p, calls + [c]) == Step(Run(p, calls), c)
    decreases |calls|
  {
    if calls == [] {
      assert Run(Step(p, c), []) == Step(p, c);
    } else {
      assert (calls + [c])[1..] == calls[1..] + [c];
      RunLastStep(Step(p, calls[0]), calls[1..], c);
    }
  }

  /** The block extent of an allocation made by `memory`. */
  ghost predicate Describes(initMem: nat, a: Allocation, e: Extent) {
    && a.address == initMem + e.start * PAGE_SIZE
    && a.size <= INT_MAX * PAGE_SIZE && Pages(a.size) == e.count
  }

  ghost predicate DescribesAll(initMem: nat, live: seq<Allocation>, extents: seq<Extent>) {
    |live| == |extents| && forall i | 0 <= i < |live| :: Describes(initMem, live[i], extents[i])
  }

  method ReplayOne(memory: MemoryManager, r: Request, live: seq<Allocation>, ghost p: Pool)
    returns (after: seq<Allocation>)
    requires memory.Valid() && Fits(r) && p.total == memory.blocksAmount && p.used == memory.Used()
    requires WellFormed(p, {}) && DescribesAll(memory.initMem, live, p.live)
    modifies memory.usedMap
    ensures memory.Valid() && memory.Used() == Step(p, AsCall(r)).used
    ensures DescribesAll(memory.initMem, after, Step(p, AsCall(r)).live)
  {
    hide FirstFit, MemoryManager.Used, WellFormed;
    match r {
      case AllocateBytes(size) =>
        PagesCoverRequest(size);
        FitsDoesNotWrap(size);
        hide BlocksRequested, Range, DivCeil;
        var a := memory.Allocate(size);
        after := if a.Some? then live + [Allocation(a.value, size)] else live;
      case DeallocateLive(i) =>
        if i < |live| {
          WellFormedInRange(p, i);
          FitsDoesNotWrap(live[i].size);
          hide BlocksRequested, Range, Int32;
          var _ := memory.Deallocate(live[i].address, live[i].size);
          after := Without(live, i);
        } else {
          after := live;
        }
    }
  }

  lemma FitsDoesNotWrap(size: nat)
    requires size <= INT_MAX * PAGE_SIZE
    ensures BlocksRequested(size) == Pages(size)
  {
    PagesCoverRequest(size);
    DivCeilIsCeiling(size, PAGE_SIZE);
  }

  lemma WellFormedInRange(p: Pool, i: nat)
    requires WellFormed(p, {}) && i < |p.live|
    ensures p.live[i].start + p.live[i].count <= p.total
  {
  }

  /** After any requests, the real bitmap holds exactly what the pool holds after the same
      calls: bit k is set precisely when one live allocation owns block k. */
  method Replay(memory: MemoryManager, requests: seq<Request>) returns (live: seq<Allocation>)
    requires memory.Valid() && memory.Used() == {} && forall r | r in requests :: Fits(r)
    modifies memory.usedMap
    ensures memory.Valid()
    ensures var p := Run(Pool(memory.blocksAmount, {}, []), AsCalls(requests));
            && memory.Used() == p.used && DescribesAll(memory.initMem, live, p.live)
            && PairwiseDisjoint(p.live)
            && forall k: nat | k < memory.blocksAmount ::
                 !IsAvailable(memory.usedMap[..], k) <==> OwnedOnce(p.live, k)
  {
    ghost var empty := Pool(memory.blocksAmount, {}, []);
    live := [];
    for i := 0 to |requests|
      invariant memory.Valid()
      invariant var p := Run(empty, AsCalls(requests[..i]));
                memory.Used() == p.used && DescribesAll(memory.initMem, live, p.live)
    {
      ghost var p := Run(empty, AsCalls(requests[..i]));
      RunKeepsWellFormed(empty, {}, AsCalls(requests[..i]));
      live := ReplayOne(memory, requests[i], live, p);
      assert AsCalls(requests[..i + 1]) == AsCalls(requests[..i]) + [AsCall(requests[i])];
      RunLastStep(empty, AsCalls(requests[..i]), AsCall(requests[i]));
    }
    assert requests[..|requests|] == requests;
    RunsAllocateDisjointly(memory.blocksAmount, AsCalls(requests));
  }
}
