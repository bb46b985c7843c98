/** Several processes' heaps (Kernel/process.c) and whatever else the kernel allocates, all on
    one page allocator (Kernel/memoryManager.c). */
module Heaps {
  import opened AllocatorRuns
  import opened MyMath
  import opened Options
  import opened PageAllocator
  import opened ProcessHeap
  import opened Sequences

  // ---------------------------------------------------------------- one heap among others

  lemma AllBlocksMiddle(a: seq<Extent>, e: seq<Extent>, b: seq<Extent>)
    ensures AllBlocks(a + e + b) == AllBlocks(a + b) + AllBlocks(e)
  {
    AllBlocksConcat(a + e, b);
    AllBlocksConcat(a, e);
    AllBlocksConcat(a, b);
  }

  ghost predicate InRange(total: nat, live: seq<Extent>) {
    forall i | 0 <= i < |live| :: live[i].start + live[i].count <= total
  }

  /** Every extent in range, disjoint from the rest and from what is outside. */
  ghost predicate Inhabits(total: nat, live: seq<Extent>, outside: set<nat>) {
    && InRange(total, live)
    && AllBlocks(live) !! outside && PairwiseDisjoint(live)
  }

  lemma WellFormedInhabits(p: Pool, outside: set<nat>)
    ensures WellFormed(p, outside) <==> Inhabits(p.total, p.live, outside) && p.used == outside + AllBlocks(p.live)
  {
    hide Range, Blocks;
    if forall i | 0 <= i < |p.live| :: Blocks(p.live[i]) !! outside {
      forall k | k in AllBlocks(p.live) ensures k !in outside {
        AllBlocksMember(p.live, k);
      }
    } else {
      var i :| 0 <= i < |p.live| && !(Blocks(p.live[i]) !! outside);
      var k :| k in Blocks(p.live[i]) && k in outside;
      AllBlocksMember(p.live, k);
    }
  }

  lemma PairwiseMiddle(a: seq<Extent>, e: seq<Extent>, b: seq<Extent>)
    ensures PairwiseDisjoint(a + e + b) <==>
            PairwiseDisjoint(a + b) && PairwiseDisjoint(e) && AllBlocks(e) !! AllBlocks(a + b)
  {
    hide Range, Blocks;
    var s, rest := a + e + b, a + b;
    if PairwiseDisjoint(s) {
      forall k | k in AllBlocks(e) ensures k !in AllBlocks(rest) {
        AllBlocksMember(e, k);
        AllBlocksMember(rest, k);
        var i :| 0 <= i < |e| && k in Blocks(e[i]);
        assert s[|a| + i] == e[i];
        forall j | 0 <= j < |rest| ensures k !in Blocks(rest[j]) {
          assert rest[j] == s[if j < |a| then j else j + |e|];
        }
      }
      forall i, j | 0 <= i < j < |rest| ensures Blocks(rest[i]) !! Blocks(rest[j]) {
        assert rest[i] == s[if i < |a| then i else i + |e|] && rest[j] == s[if j < |a| then j else j + |e|];
      }
      forall i, j | 0 <= i < j < |e| ensures Blocks(e[i]) !! Blocks(e[j]) {
        assert e[i] == s[|a| + i] && e[j] == s[|a| + j];
      }
    } else if PairwiseDisjoint(rest) && PairwiseDisjoint(e) && AllBlocks(e) !! AllBlocks(rest) {
      forall i, j | 0 <= i < j < |s| ensures Blocks(s[i]) !! Blocks(s[j]) {
        MiddleDisjoint(a, e, b, i, j);
      }
    }
  }

  lemma MiddleDisjoint(a: seq<Extent>, e: seq<Extent>, b: seq<Extent>, i: nat, j: nat)
    requires PairwiseDisjoint(a + b) && PairwiseDisjoint(e) && AllBlocks(e) !! AllBlocks(a + b)
    requires i < j < |a + e + b|
    ensures Blocks((a + e + b)[i]) !! Blocks((a + e + b)[j])
  {
    hide Range, Blocks;
    var s, rest := a + e + b, a + b;
    var inI, inJ := |a| <= i < |a| + |e|, |a| <= j < |a| + |e|;
    var i', j' := if i < |a| then i else i - |e|, if j < |a| then j else j - |e|;
    if inI && inJ {
      assert s[i] == e[i - |a|] && s[j] == e[j - |a|];
    } else if inI {
      assert s[i] == e[i - |a|] && s[j] == rest[j'];
      FarApart(e, i - |a|, rest, j');
    } else if inJ {
      assert s[j] == e[j - |a|] && s[i] == rest[i'];
      FarApart(e, j - |a|, rest, i');
    } else {
      assert s[i] == rest[i'] && s[j] == rest[j'];
    }
  }

  lemma FarApart(e: seq<Extent>, i: nat, rest: seq<Extent>, j: nat)
    requires AllBlocks(e) !! AllBlocks(rest) && i < |e| && j < |rest|
    ensures Blocks(e[i]) !! Blocks(rest[j])
  {
    hide Range, Blocks;
    forall k | k in Blocks(e[i]) && k in Blocks(rest[j]) ensures false {
      AllBlocksMember(e, k);
      AllBlocksMember(rest, k);
    }
  }

  lemma InRangeMiddle(total: nat, a: seq<Extent>, e: seq<Extent>, b: seq<Extent>)
    ensures InRange(total, a + e + b) <==> InRange(total, a + b) && InRange(total, e)
  {
    var s, rest := a + e + b, a + b;
    assert forall i | 0 <= i < |e| :: e[i] == s[|a| + i];
    assert forall i | 0 <= i < |rest| :: rest[i] == s[if i < |a| then i else i + |e|];
    assert forall i | 0 <= i < |s| ::
        s[i] == if |a| <= i < |a| + |e| then e[i - |a|] else rest[if i < |a| then i else i - |e|];
  }

  /** A pool is one heap with everything else outside it, and everything else on its own. */
  lemma SplitPool(total: nat, used: set<nat>, a: seq<Extent>, e: seq<Extent>, b: seq<Extent>, outside: set<nat>)
    ensures WellFormed(Pool(total, used, a + e + b), outside) <==>
            && Inhabits(total, a + b, outside)
            && WellFormed(Pool(total, used, e), outside + AllBlocks(a + b))
  {
    WellFormedInhabits(Pool(total, used, a + e + b), outside);
    WellFormedInhabits(Pool(total, used, e), outside + AllBlocks(a + b));
    AllBlocksMiddle(a, e, b);
    PairwiseMiddle(a, e, b);
    InRangeMiddle(total, a, e, b);
    hide WellFormed, PairwiseDisjoint, AllBlocks, InRange;
  }

  // ---------------------------------------------------------------- all heaps

  ghost function AllExtents(initMem: nat, heaps: seq<seq<HeapNode>>): seq<Extent> {
    if heaps == [] then [] else HeapExtents(initMem, heaps[0]) + AllExtents(initMem, heaps[1..])
  }

  function AllPages(heaps: seq<seq<HeapNode>>): nat {
    if heaps == [] then 0 else HeapPages(heaps[0]) + AllPages(heaps[1..])
  }

  lemma {:induction false} AllExtentsConcat(initMem: nat, a: seq<seq<HeapNode>>, b: seq<seq<HeapNode>>)
    ensures AllExtents(initMem, a + b) == AllExtents(initMem, a) + AllExtents(initMem, b)
  {
    if a == [] {
      assert a + b == b;
    } else {
      assert (a + b)[1..] == a[1..] + b;
      AllExtentsConcat(initMem, a[1..], b);
    }
  }

  /** The other heaps' extents, before and after heap i. */
  lemma AllExtentsAt(initMem: nat, heaps: seq<seq<HeapNode>>, i: nat, heap: seq<HeapNode>)
    requires i < |heaps|
    ensures AllExtents(initMem, heaps[i := heap])
         == AllExtents(initMem, heaps[..i]) + HeapExtents(initMem, heap) + AllExtents(initMem, heaps[i + 1..])
    ensures AllExtents(initMem, Without(heaps, i))
         == AllExtents(initMem, heaps[..i]) + AllExtents(initMem, heaps[i + 1..])
  {
    var one := [heap];
    assert heaps[i := heap] == heaps[..i] + one + heaps[i + 1..];
    AllExtentsConcat(initMem, heaps[..i] + one, heaps[i + 1..]);
    AllExtentsConcat(initMem, heaps[..i], one);
    AllExtentsConcat(initMem, heaps[..i], heaps[i + 1..]);
    assert one[1..] == [];
    assert AllExtents(initMem, one) == HeapExtents(initMem, heap);
  }

  lemma {:induction false} TotalCountConcat(a: seq<Extent>, b: seq<Extent>)
    ensures TotalCount(a + b) == TotalCount(a) + TotalCount(b)
  {
    if a == [] {
      assert a + b == b;
    } else {
      assert (a + b)[1..] == a[1..] + b;
      TotalCountConcat(a[1..], b);
    }
  }

  lemma {:induction false} AllPagesCounted(initMem: nat, heaps: seq<seq<HeapNode>>)
    ensures TotalCount(AllExtents(initMem, heaps)) == AllPages(heaps)
  {
    if heaps == [] {
    } else {
      AllPagesCounted(initMem, heaps[1..]);
      HeapExtentsLength(initMem, heaps[0]);
      TotalCountConcat(HeapExtents(initMem, heaps[0]), AllExtents(initMem, heaps[1..]));
    }
  }

  /** The blocks of every heap but heap i. */
  ghost function OthersBlocks(initMem: nat, heaps: seq<seq<HeapNode>>, i: nat): set<nat>
    requires i < |heaps|
  {
    AllBlocks(AllExtents(initMem, Without(heaps, i)))
  }

  ghost predicate HeapsOk(initMem: nat, total: nat, used: set<nat>, heaps: seq<seq<HeapNode>>, outside: set<nat>) {
    WellFormed(Pool(total, used, AllExtents(initMem, heaps)), outside)
  }

  lemma EmptyHeapAdded(initMem: nat, heaps: seq<seq<HeapNode>>)
    ensures AllExtents(initMem, heaps + [[]]) == AllExtents(initMem, heaps)
  {
    AllExtentsConcat(initMem, heaps, [[]]);
    var none: seq<seq<HeapNode>> := [[]];
    assert none[1..] == [];
    assert AllExtents(initMem, none) == [];
  }

  /** Heap i may become any heap that is well formed beside the others. */
  lemma OneHeapChanges(initMem: nat, total: nat, used: set<nat>, used': set<nat>, heaps: seq<seq<HeapNode>>, i: nat,
                       heap: seq<HeapNode>, outside: set<nat>)
    requires i < |heaps| && HeapsOk(initMem, total, used, heaps, outside)
    ensures WellFormed(AsPool(total, used, initMem, heaps[i]), outside + OthersBlocks(initMem, heaps, i))
    ensures WellFormed(AsPool(total, used', initMem, heap), outside + OthersBlocks(initMem, heaps, i))
            ==> HeapsOk(initMem, total, used', heaps[i := heap], outside)
  {
    hide WellFormed, AllExtents, HeapExtents;
    var a, b := AllExtents(initMem, heaps[..i]), AllExtents(initMem, heaps[i + 1..]);
    assert heaps[i := heaps[i]] == heaps;
    AllExtentsAt(initMem, heaps, i, heaps[i]);
    AllExtentsAt(initMem, heaps, i, heap);
    SplitPool(total, used, a, HeapExtents(initMem, heaps[i]), b, outside);
    SplitPool(total, used', a, HeapExtents(initMem, heap), b, outside);
  }

  lemma HeapLeaves(initMem: nat, total: nat, used: set<nat>, heaps: seq<seq<HeapNode>>, i: nat, outside: set<nat>)
    requires i < |heaps| && HeapsOk(initMem, total, used, heaps, outside)
    ensures HeapsOk(initMem, total, outside + OthersBlocks(initMem, heaps, i), Without(heaps, i), outside)
  {
    hide AllExtents, HeapExtents;
    var a, b := AllExtents(initMem, heaps[..i]), AllExtents(initMem, heaps[i + 1..]);
    assert heaps[i := heaps[i]] == heaps;
    AllExtentsAt(initMem, heaps, i, heaps[i]);
    SplitPool(total, used, a, HeapExtents(initMem, heaps[i]), b, outside);
    WellFormedInhabits(Pool(total, outside + OthersBlocks(initMem, heaps, i), a + b), outside);
  }

  /** Another allocation finds only free blocks, so it meets no heap. */
  lemma OutsideGrows(initMem: nat, total: nat, used: set<nat>, used': set<nat>,
                     heaps: seq<seq<HeapNode>>, outside: set<nat>)
    requires HeapsOk(initMem, total, used, heaps, outside) && used <= used'
    ensures HeapsOk(initMem, total, used', heaps, outside + (used' - used))
  {
    var live := AllExtents(initMem, heaps);
    hide AllExtents;
    WellFormedInhabits(Pool(total, used, live), outside);
    WellFormedInhabits(Pool(total, used', live), outside + (used' - used));
    hide WellFormed;
  }

  /** Freeing blocks keeps all heaps well formed if and only if none of them belongs to a heap. */
  lemma FreeingKeepsHeapsExactly(initMem: nat, total: nat, used: set<nat>, freed: set<nat>,
                                 heaps: seq<seq<HeapNode>>, outside: set<nat>)
    requires HeapsOk(initMem, total, used, heaps, outside)
    ensures HeapsOk(initMem, total, used - freed, heaps, outside - freed)
       <==> freed !! AllBlocks(AllExtents(initMem, heaps))
  {
    var live := AllExtents(initMem, heaps);
    hide AllExtents;
    WellFormedInhabits(Pool(total, used, live), outside);
    WellFormedInhabits(Pool(total, used - freed, live), outside - freed);
    hide WellFormed, AllBlocks, InRange, PairwiseDisjoint;
    if k :| k in freed && k in AllBlocks(live) {
      assert k !in used - freed && k in (outside - freed) + AllBlocks(live);
    }
  }

  ghost predicate Distinct(processes: seq<Process>) {
    forall i, j | 0 <= i < j < |processes| :: processes[i] != processes[j]
  }

  /** What allocate finds: nothing when the count of free starts overflows an int. */
  ghost function FitFor(used: set<nat>, total: nat, request: int): Option<nat>
    requires 0 <= request < UINT64_SIZE
  {
    if BlocksRequested(request) < total - INT_MAX then None else FirstFit(used, total, Pages(request))
  }

  /** Where the blocks end that deallocate is to free, and which it frees. */
  ghost function EndOf(start: nat, size: int): int
    requires 0 <= size < UINT64_SIZE
  {
    Int32(start + BlocksRequested(size))
  }

  ghost function FreedBy(start: nat, size: int, total: nat): set<nat>
    requires 0 <= size < UINT64_SIZE
  {
    if EndOf(start, size) > total then {} else Range(start, EndOf(start, size) - start)
  }

  lemma FitIsFree(used: set<nat>, total: nat, request: int)
    requires 0 <= request < UINT64_SIZE
    ensures var fit := FitFor(used, total, request); fit.Some? ==> Range(fit.value, Pages(request)) !! used
  {
    FirstFitIsLeast(used, total, Pages(request));
    hide Range;
  }

  class Heaps {
    const memory: MemoryManager
    var processes: seq<Process>
    ghost var heaps: seq<seq<HeapNode>>
    /** Blocks in use that belong to no heap. */
    ghost var outside: set<nat>

    ghost predicate Shown(i: nat)
      requires i < |processes| == |heaps|
      reads `processes, `heaps, {processes[i]}`heap
    {
      && processes[i].memory == memory && processes[i].heap == heaps[i]
      && AllPlaced(memory.initMem, memory.blocksAmount, heaps[i])
    }

    ghost predicate AllShown()
      reads `processes, `heaps, (set p | p in processes)`heap
    {
      |processes| == |heaps| && Distinct(processes) && forall i | 0 <= i < |processes| :: Shown(i)
    }

    /** All but process i. */
    ghost predicate AllShownBut(i: nat)
      requires |processes| == |heaps|
      reads `processes, `heaps, (set p | p in processes)`heap
    {
      Distinct(processes) && forall k | 0 <= k < |processes| && k != i :: Shown(k)
    }

    ghost predicate Valid()
      reads this, (set p | p in processes)`heap, memory.usedMap
    {
      AllShown() && memory.Valid() && HeapsOk(memory.initMem, memory.blocksAmount, memory.Used(), heaps, outside)
    }

    constructor (memory: MemoryManager)
      requires memory.Valid()
      ensures Valid() && this.memory == memory && processes == [] && heaps == [] && outside == memory.Used()
    {
      this.memory := memory;
      processes, heaps := [], [];
      outside := memory.Used();
    }

    /** createProcess, as far as the heap goes: an empty list. */
    method AddProcess()
      requires Valid()
      modifies this`processes, this`heaps
      ensures Valid() && heaps == old(heaps) + [[]] && memory.Used() == old(memory.Used())
    {
      var p := new Process(memory);
      EmptyHeapAdded(memory.initMem, heaps);
      hide HeapsOk, AllPlaced, MemoryManager.Used;
      label adding:
      processes, heaps := processes + [p], heaps + [[]];
      NewShown@adding();
    }

    twostate lemma NewShown()
      requires old(AllShown()) && |processes| == |old(processes)| + 1 && heaps == old(heaps) + [[]]
      requires processes == old(processes) + [processes[|old(processes)|]]
      requires processes[|old(processes)|] !in old(processes)
      requires processes[|old(processes)|].memory == memory && processes[|old(processes)|].heap == []
      requires forall i | 0 <= i < |old(processes)| :: processes[i].heap == old(processes[i].heap)
      ensures AllShown()
    {
      forall i | 0 <= i < |processes| ensures Shown(i) {
        if i < |old(processes)| {
          assert old(Shown(i));
        }
      }
    }

    /** The heap of process i beside everything else in use. */
    ghost method Focus(i: nat)
      requires Valid() && i < |processes|
      modifies {processes[i]}`baseline
      ensures Valid() && processes[i].Valid() && processes[i].memory == memory
      ensures processes[i].baseline == outside + OthersBlocks(memory.initMem, heaps, i)
    {
      OneHeapChanges(memory.initMem, memory.blocksAmount, memory.Used(), memory.Used(), heaps, i, heaps[i], outside);
      assert Shown(i);
      hide HeapsOk, WellFormed, AllExtents, HeapExtents, OthersBlocks, MemoryManager.Used;
      processes[i].baseline := outside + OthersBlocks(memory.initMem, heaps, i);
    }

    method Pmalloc(i: nat, nBytes: int) returns (mem: nat, ghost self: nat)
      requires Valid() && i < |processes| && -INT_MAX - 1 <= nBytes <= INT_MAX && HasRoomFor(memory, nBytes)
      modifies this`heaps, processes[i], memory.usedMap
      ensures Valid() && heaps == old(heaps)[i := old(heaps)[i] + [HeapNode(self, mem, nBytes)]]
    {
      hide HeapsOk, MemoryManager.Used, Process.Valid, HasRoomFor, OthersBlocks, AllPlaced;
      Focus(i);
      ghost var used := memory.Used();
      assert Shown(i);
      mem, self := PmallocAlone(processes[i], i, nBytes);
      Adopt(i, used);
    }

    method PmallocAlone(p: Process, ghost i: nat, nBytes: int) returns (mem: nat, ghost self: nat)
      requires AllShown() && i < |processes| && processes[i] == p && p.Valid() && p.memory == memory
      requires -INT_MAX - 1 <= nBytes <= INT_MAX && HasRoomFor(memory, nBytes)
      modifies p`heap, memory.usedMap
      ensures p.Valid() && AllShownBut(i) && p.heap == old(p.heap) + [HeapNode(self, mem, nBytes)]
    {
      hide *;
      label before:
      mem := p.Pmalloc(nBytes);
      self := p.heap[|old(p.heap)|].self;
      OthersShown@before(i);
    }

    method Pfree(i: nat, mem: nat)
      requires Valid() && i < |processes|
      modifies this`heaps, processes[i], memory.usedMap
      ensures Valid()
      ensures var k := FirstAt(old(heaps)[i], mem);
              heaps == if k < |old(heaps)[i]| then old(heaps)[i := Without(old(heaps)[i], k)] else old(heaps)
    {
      hide HeapsOk, MemoryManager.Used, Process.Valid, OthersBlocks, FirstAt, AllPlaced;
      Focus(i);
      ghost var used := memory.Used();
      assert Shown(i);
      PfreeAlone(processes[i], i, mem);
      Adopt(i, used);
    }

    method PfreeAlone(p: Process, ghost i: nat, mem: nat)
      requires AllShown() && i < |processes| && processes[i] == p && p.Valid() && p.memory == memory
      modifies p`heap, memory.usedMap
      ensures p.Valid() && AllShownBut(i)
      ensures var k := FirstAt(old(p.heap), mem);
              p.heap == if k < |old(p.heap)| then Without(old(p.heap), k) else old(p.heap)
    {
      hide *;
      label before:
      p.Pfree(mem);
      OthersShown@before(i);
    }

    twostate lemma OthersShown(i: nat)
      requires i < |processes| && old(AllShown()) && processes == old(processes) && heaps == old(heaps)
      requires forall p | p in processes && p != processes[i] :: p.heap == old(p.heap)
      ensures AllShownBut(i)
    {
      forall k | 0 <= k < |processes| && k != i ensures Shown(k) {
        assert old(Shown(k));
      }
    }

    /** Takes over what process i did to its heap. */
    ghost method Adopt(i: nat, used: set<nat>)
      requires i < |processes| == |heaps| && processes[i].memory == memory && processes[i].Valid()
      requires AllShownBut(i)
      requires processes[i].baseline == outside + OthersBlocks(memory.initMem, heaps, i)
      requires HeapsOk(memory.initMem, memory.blocksAmount, used, heaps, outside)
      modifies this`heaps
      ensures Valid() && heaps == old(heaps)[i := processes[i].heap]
    {
      OneHeapChanges(memory.initMem, memory.blocksAmount, used, memory.Used(), heaps, i, processes[i].heap, outside);
      hide HeapsOk, WellFormed, AllExtents, MemoryManager.Used, HeapExtents, AllPlaced, OthersBlocks;
      label adopting:
      heaps := heaps[i := processes[i].heap];
      forall k | 0 <= k < |processes| ensures Shown(k) {
        if k != i {
          assert old@adopting(Shown(k));
        }
      }
    }

    /** The end of process i: its blocks are free again, the other heaps are untouched. */
    method FreeHeap(i: nat)
      requires Valid() && i < |processes|
      modifies this`heaps, this`processes, processes[i], memory.usedMap
      ensures Valid() && heaps == Without(old(heaps), i) && outside == old(outside)
    {
      Focus(i);
      assert Shown(i);
      HeapLeaves(memory.initMem, memory.blocksAmount, memory.Used(), heaps, i, outside);
      hide HeapsOk, WellFormed, AllExtents, MemoryManager.Used, HeapExtents, AllPlaced, OthersBlocks;
      label freeing:
      processes[i].FreeHeap();
      Forget(i);
    }

    /** Process i is gone. */
    method Forget(i: nat)
      requires i < |processes| && AllShown() && memory.Valid()
      requires HeapsOk(memory.initMem, memory.blocksAmount, memory.Used(), Without(heaps, i), outside)
      modifies this`heaps, this`processes
      ensures Valid() && heaps == Without(old(heaps), i)
    {
      hide HeapsOk, AllPlaced, MemoryManager.Used;
      label before:
      processes, heaps := Without(processes, i), Without(heaps, i);
      forall k | 0 <= k < |processes| ensures Shown(k) {
        assert old@before(Shown(if k < i then k else k + 1));
      }
    }

    /** Any other allocation of the kernel: the first fit, which is then outside the heaps. */
    method Allocate(request: int) returns (r: Option<nat>)
      requires Valid() && 0 <= request < UINT64_SIZE
      modifies this`outside, memory.usedMap
      ensures Valid() && heaps == old(heaps)
      ensures var fit := FitFor(old(memory.Used()), memory.blocksAmount, request);
              && r == (if fit.Some? then Some(memory.initMem + fit.value * PAGE_SIZE) else None)
              && outside == old(outside) + if fit.Some? then Range(fit.value, Pages(request)) else {}
    {
      ghost var used := memory.Used();
      FitIsFree(used, memory.blocksAmount, request);
      hide HeapsOk, MemoryManager.Used, AllShown, MemoryManager.Valid, FitFor, Range;
      r := AllocateMore(request);
      Widen(used);
    }

    /** What was allocated since then is outside the heaps. */
    ghost method Widen(used: set<nat>)
      requires AllShown() && memory.Valid() && used <= memory.Used()
      requires HeapsOk(memory.initMem, memory.blocksAmount, used, heaps, outside)
      modifies this`outside
      ensures Valid() && outside == old(outside) + (memory.Used() - used)
    {
      hide HeapsOk, MemoryManager.Used, AllShown, MemoryManager.Valid;
      OutsideGrows(memory.initMem, memory.blocksAmount, used, memory.Used(), heaps, outside);
      outside := outside + (memory.Used() - used);
    }

    method AllocateMore(request: int) returns (r: Option<nat>)
      requires memory.Valid() && 0 <= request < UINT64_SIZE
      modifies memory.usedMap
      ensures memory.Valid()
      ensures var fit := FitFor(old(memory.Used()), memory.blocksAmount, request);
              && r == (if fit.Some? then Some(memory.initMem + fit.value * PAGE_SIZE) else None)
              && memory.Used() == old(memory.Used()) + if fit.Some? then Range(fit.value, Pages(request)) else {}
    {
      hide MemoryManager.Used, Range, FirstFit, Pages, BlocksRequested;
      r := memory.Allocate(request);
    }

    /** The kernel frees a block range, as it does with the nodes of its lists. All is well if and
        only if no block of it belongs to a heap. */
    method Deallocate(startingPosition: nat, size: int) returns (ok: int)
      requires Valid() && 0 <= size < UINT64_SIZE
      requires memory.initMem <= startingPosition && (startingPosition - memory.initMem) / PAGE_SIZE <= INT_MAX
      modifies this`outside, memory.usedMap
      ensures var start := (startingPosition - memory.initMem) / PAGE_SIZE;
              var freed := FreedBy(start, size, memory.blocksAmount);
              && ok == (if EndOf(start, size) > memory.blocksAmount then 0 else 1)
              && heaps == old(heaps) && outside == old(outside) - freed && memory.Used() == old(memory.Used()) - freed
              && (Valid() <==> freed !! AllBlocks(AllExtents(memory.initMem, heaps)))
    {
      ghost var start := (startingPosition - memory.initMem) / PAGE_SIZE;
      ghost var freed := FreedBy(start, size, memory.blocksAmount);
      FreeingKeepsHeapsExactly(memory.initMem, memory.blocksAmount, memory.Used(), freed, heaps, outside);
      hide HeapsOk, MemoryManager.Used, AllShown, MemoryManager.Valid, FreedBy, EndOf, AllExtents, AllBlocks;
      ok := DeallocateAlone(startingPosition, size);
      outside := outside - freed;
    }

    method DeallocateAlone(startingPosition: nat, size: int) returns (ok: int)
      requires memory.Valid() && 0 <= size < UINT64_SIZE
      requires memory.initMem <= startingPosition && (startingPosition - memory.initMem) / PAGE_SIZE <= INT_MAX
      modifies memory.usedMap
      ensures var start := (startingPosition - memory.initMem) / PAGE_SIZE;
              && memory.Valid() && memory.Used() == old(memory.Used()) - FreedBy(start, size, memory.blocksAmount)
              && ok == (if EndOf(start, size) > memory.blocksAmount then 0 else 1)
    {
      hide MemoryManager.Used, Range, BlocksRequested, Int32;
      ok := memory.Deallocate(startingPosition, size);
    }
  }

  /** Conservation, whatever the processes and the kernel allocate and free in between: the pages in use
      are those outside the heaps and, for every node of every heap, one for the node and those
      of its data. */
  lemma HeapsConserve(h: Heaps)
    requires h.Valid()
    ensures |h.memory.Used()| == |h.outside| + AllPages(h.heaps)
  {
    var live := AllExtents(h.memory.initMem, h.heaps);
    WellFormedInhabits(Pool(h.memory.blocksAmount, h.memory.Used(), live), h.outside);
    AllPagesCounted(h.memory.initMem, h.heaps);
    hide AllExtents, WellFormed, MemoryManager.Used;
    AllBlocksSize(live);
    assert |h.outside + AllBlocks(live)| == |h.outside| + |AllBlocks(live)|;
  }
}
