/** A process's heap (Kernel/process.c): the list of blocks handed out by pmalloc, each with a
    list node that takes a page of its own from the same allocator. */
module ProcessHeap {
  import opened AllocatorRuns
  import opened MyMath
  import opened Options
  import opened PageAllocator
  import opened Sequences

  const HEAP_NODE_SIZE: int := 24

  /** `self` is where the node itself lives. */
  datatype HeapNode = HeapNode(self: nat, address: nat, size: int)

  function BlockAt(initMem: nat, address: nat): nat {
    if initMem <= address then (address - initMem) / PAGE_SIZE else 0
  }

  lemma BlockOfAddress(initMem: nat, block: nat)
    ensures BlockAt(initMem, initMem + block * PAGE_SIZE) == block
    ensures (initMem + block * PAGE_SIZE - initMem) % PAGE_SIZE == 0
  {
  }

  ghost function DataExtent(initMem: nat, n: HeapNode): Extent {
    Extent(BlockAt(initMem, n.address), Pages(UInt64(n.size)))
  }

  ghost function SelfExtent(initMem: nat, n: HeapNode): Extent {
    Extent(BlockAt(initMem, n.self), Pages(HEAP_NODE_SIZE))
  }

  /** The blocks a heap owns: for each node its data blocks and its own page. */
  ghost function HeapExtents(initMem: nat, heap: seq<HeapNode>): seq<Extent>
  {
    if heap == [] then []
    else [DataExtent(initMem, heap[0]), SelfExtent(initMem, heap[0])] + HeapExtents(initMem, heap[1..])
  }

  function HeapPages(heap: seq<HeapNode>): nat {
    if heap == [] then 0 else Pages(UInt64(heap[0].size)) + 1 + HeapPages(heap[1..])
  }

  lemma WrappedCountIsCount(count: int)
    requires -0x8_0000 <= count <= 0x8_0000
    ensures Int32(count + UINT64_SIZE / PAGE_SIZE) == count && Int32(count) == count
  {
  }

  /** The bytes that fill the last page. */
  lemma Padding(x: int)
    requires 0 <= x
    ensures CMod(PAGE_SIZE - CMod(x, PAGE_SIZE), PAGE_SIZE) == (-x) % PAGE_SIZE
  {
    assert CMod(x, PAGE_SIZE) == x % PAGE_SIZE;
  }

  lemma AsUInt64(nBytes: int)
    requires -INT_MAX - 1 <= nBytes <= INT_MAX
    ensures UInt64(nBytes) == if nBytes < 0 then nBytes + UINT64_SIZE else nBytes
    ensures (-UInt64(nBytes)) % PAGE_SIZE == (-nBytes) % PAGE_SIZE
  {
  }

  lemma WholePages(up: int)
    requires -0x8_0000 <= up <= 0x8_0000
    ensures 0 <= up ==> UInt64(up * PAGE_SIZE) / PAGE_SIZE == up
    ensures up <= 0 ==> Int32(UInt64(up * PAGE_SIZE + UINT64_SIZE) / PAGE_SIZE) == up
  {
    if up < 0 {
      assert UInt64(up * PAGE_SIZE + UINT64_SIZE) == up * PAGE_SIZE + UINT64_SIZE;
      assert (up * PAGE_SIZE + UINT64_SIZE) / PAGE_SIZE == up + UINT64_SIZE / PAGE_SIZE;
      WrappedCountIsCount(up);
    }
  }

  /** No int byte count, even a negative one turned into uint64_t, makes the page count wrap
      far enough to matter: it is the ceiling, which for a negative count is no page at all. */
  lemma IntSizesDoNotWrap(nBytes: int)
    requires -INT_MAX - 1 <= nBytes <= INT_MAX
    ensures BlocksRequested(UInt64(nBytes)) == -((-nBytes) / PAGE_SIZE)
    ensures -0x8_0000 <= BlocksRequested(UInt64(nBytes)) <= 0x8_0000
  {
    var x, up := UInt64(nBytes), -((-nBytes) / PAGE_SIZE);
    AsUInt64(nBytes);
    Padding(x);
    assert nBytes + (-nBytes) % PAGE_SIZE == up * PAGE_SIZE && -0x8_0000 <= up <= 0x8_0000;
    WholePages(up);
    hide UInt64, CMod, Int32;
  }

  lemma NodeTakesOnePage()
    ensures BlocksRequested(HEAP_NODE_SIZE) == Pages(HEAP_NODE_SIZE) == 1
  {
  }

  // ---------------------------------------------------------------- the list and its extents

  ghost predicate Placed(initMem: nat, total: nat, n: HeapNode) {
    && initMem <= n.address && (n.address - initMem) % PAGE_SIZE == 0
    && initMem <= n.self && (n.self - initMem) % PAGE_SIZE == 0
    && (n.address - initMem) / PAGE_SIZE <= total && (n.self - initMem) / PAGE_SIZE <= total
    && -INT_MAX - 1 <= n.size <= INT_MAX
  }

  ghost predicate AllPlaced(initMem: nat, total: nat, heap: seq<HeapNode>) {
    forall n | n in heap :: Placed(initMem, total, n)
  }

  lemma {:induction false} HeapExtentsAppend(initMem: nat, a: seq<HeapNode>, b: seq<HeapNode>)
    ensures HeapExtents(initMem, a + b) == HeapExtents(initMem, a) + HeapExtents(initMem, b)
  {
    if a == [] {
      assert a + b == b;
    } else {
      assert (a + b)[1..] == a[1..] + b;
      HeapExtentsAppend(initMem, a[1..], b);
    }
  }

  lemma {:induction false} HeapExtentsLength(initMem: nat, heap: seq<HeapNode>)
    ensures |HeapExtents(initMem, heap)| == 2 * |heap|
    ensures TotalCount(HeapExtents(initMem, heap)) == HeapPages(heap)
  {
    if heap == [] {
    } else {
      HeapExtentsLength(initMem, heap[1..]);
      var rest := HeapExtents(initMem, heap[1..]);
      var data, self := DataExtent(initMem, heap[0]), SelfExtent(initMem, heap[0]);
      NodeTakesOnePage();
      assert ([data, self] + rest)[1..] == [self] + rest;
      assert ([self] + rest)[1..] == rest;
    }
  }

  ghost function AsPool(total: nat, used: set<nat>, initMem: nat, heap: seq<HeapNode>): Pool
  {
    Pool(total, used, HeapExtents(initMem, heap))
  }

  /** The list after a node is linked at its end: two allocations of the pool. */
  lemma AppendKeepsPool(pool: Pool, initMem: nat, heap: seq<HeapNode>, n: HeapNode, data: nat, self: nat, baseline: set<nat>)
    requires pool.total <= MAX_BLOCKS && pool.live == HeapExtents(initMem, heap) && WellFormed(pool, baseline)
    requires var count := Pages(UInt64(n.size));
             && FirstFit(pool.used, pool.total, count) == Some(data)
             && FirstFit(pool.used + Range(data, count), pool.total, 1) == Some(self)
    requires n.address == initMem + data * PAGE_SIZE && n.self == initMem + self * PAGE_SIZE
    ensures AllPlaced(initMem, pool.total, heap) && -INT_MAX - 1 <= n.size <= INT_MAX ==>
              AllPlaced(initMem, pool.total, heap + [n])
    ensures WellFormed(Pool(pool.total, pool.used + Range(data, Pages(UInt64(n.size))) + Range(self, 1),
                            HeapExtents(initMem, heap + [n])), baseline)
  {
    hide FirstFit, WellFormed, Pages, UInt64, Range;
    NodeTakesOnePage();
    var count := Pages(UInt64(n.size));
    var after1 := Step(pool, Allocate(count));
    var after2 := Step(after1, Allocate(1));
    FirstFitIsLeast(pool.used, pool.total, count);
    FirstFitIsLeast(after1.used, pool.total, 1);
    BlockOfAddress(initMem, data);
    BlockOfAddress(initMem, self);
    AllocateKeepsWellFormed(pool, baseline, count);
    AllocateKeepsWellFormed(after1, baseline, 1);
    HeapExtentsAppend(initMem, heap, [n]);
    assert [n][1..] == [];
    assert HeapExtents(initMem, [n]) == [Extent(data, count), Extent(self, 1)];
    assert after2.live == HeapExtents(initMem, heap + [n]);
  }

  /** The first node holding an address; |heap| when there is none. */
  function FirstAt(heap: seq<HeapNode>, mem: nat): (i: nat)
    ensures i <= |heap|
    ensures forall j | 0 <= j < i :: heap[j].address != mem
    ensures i < |heap| ==> heap[i] in heap && heap[i].address == mem
  {
    if heap == [] || heap[0].address == mem then 0 else 1 + FirstAt(heap[1..], mem)
  }

  lemma WithoutHead(heap: seq<HeapNode>, mem: nat)
    requires heap != [] && heap[0].address == mem
    ensures FirstAt(heap, mem) == 0 && Without(heap, 0) == heap[1..]
  {
  }

  lemma WithoutBehind(heap: seq<HeapNode>, mem: nat)
    requires heap != [] && heap[0].address != mem
    ensures var (i, k) := (FirstAt(heap, mem), FirstAt(heap[1..], mem));
            && (i < |heap| <==> k < |heap| - 1)
            && (i < |heap| ==> heap[i] == heap[1..][k] && Without(heap, i) == [heap[0]] + Without(heap[1..], k))
  {
  }

  lemma {:induction false} HeapExtentsAt(initMem: nat, heap: seq<HeapNode>, i: nat)
    requires i < |heap|
    ensures |HeapExtents(initMem, heap)| == 2 * |heap|
    ensures HeapExtents(initMem, heap)[2 * i] == DataExtent(initMem, heap[i])
    ensures HeapExtents(initMem, heap)[2 * i + 1] == SelfExtent(initMem, heap[i])
    ensures HeapExtents(initMem, Without(heap, i))
         == Without(Without(HeapExtents(initMem, heap), 2 * i), 2 * i)
  {
    hide DataExtent, SelfExtent;
    var (before, node, after) := (heap[..i], [heap[i]], heap[i + 1..]);
    assert heap == before + (node + after) && Without(heap, i) == before + after;
    HeapExtentsAppend(initMem, before, node + after);
    HeapExtentsAppend(initMem, before, after);
    HeapExtentsLength(initMem, heap);
    HeapExtentsLength(initMem, before);
    assert (node + after)[1..] == after;
    RemovePairAt(HeapExtents(initMem, before), DataExtent(initMem, heap[i]), SelfExtent(initMem, heap[i]),
                 HeapExtents(initMem, after));
  }

  lemma RemovePairAt<T>(a: seq<T>, x: T, y: T, b: seq<T>)
    ensures var s := a + ([x, y] + b);
            && s[|a|] == x && s[|a| + 1] == y
            && Without(s, |a|) == a + ([y] + b)
            && Without(Without(s, |a|), |a|) == a + b
  {
    var s := a + ([x, y] + b);
    assert s[|a| + 1..] == [y] + b;
    assert Without(s, |a|) == a + ([y] + b);
    assert (a + ([y] + b))[|a| + 1..] == b;
  }

  /** Freeing the data and the page of node i is two deallocations of the pool. */
  lemma RemoveKeepsPool(pool: Pool, initMem: nat, heap: seq<HeapNode>, i: nat, baseline: set<nat>)
    requires AllPlaced(initMem, pool.total, heap) && i < |heap|
    requires pool.live == HeapExtents(initMem, heap) && WellFormed(pool, baseline)
    ensures AllPlaced(initMem, pool.total, Without(heap, i))
    ensures var after := Step(Step(pool, Deallocate(2 * i)), Deallocate(2 * i));
            && after == AsPool(pool.total, after.used, initMem, Without(heap, i)) && WellFormed(after, baseline)
            && after.used == pool.used - NodeBlocks(initMem, heap[i])
  {
    hide WellFormed, Blocks, DataExtent, SelfExtent;
    DeallocateKeepsWellFormed(pool, baseline, 2 * i);
    DeallocateKeepsWellFormed(Step(pool, Deallocate(2 * i)), baseline, 2 * i);
    HeapExtentsAt(initMem, heap, i);
    var extents := HeapExtents(initMem, heap);
    assert Without(extents, 2 * i)[2 * i] == extents[2 * i + 1];
  }

  lemma StepsKeepTotal(pool: Pool, i: nat, j: nat)
    ensures Step(Step(pool, Deallocate(i)), Deallocate(j)).total == pool.total
  {
  }

  ghost function NodeBlocks(initMem: nat, n: HeapNode): set<nat>
  {
    Blocks(DataExtent(initMem, n)) + Blocks(SelfExtent(initMem, n))
  }

  /** Both blocks of a node end inside the region, so neither deallocation is refused. */
  ghost predicate Inside(initMem: nat, total: nat, n: HeapNode) {
    && Placed(initMem, total, n)
    && (n.address - initMem) / PAGE_SIZE + Pages(UInt64(n.size)) <= total
    && (n.self - initMem) / PAGE_SIZE + 1 <= total
  }

  lemma WellFormedIsInside(pool: Pool, initMem: nat, heap: seq<HeapNode>, baseline: set<nat>)
    requires AllPlaced(initMem, pool.total, heap)
    requires pool.live == HeapExtents(initMem, heap) && WellFormed(pool, baseline)
    ensures forall n | n in heap :: Inside(initMem, pool.total, n)
  {
    NodeTakesOnePage();
    forall n | n in heap
      ensures Inside(initMem, pool.total, n)
    {
      var i :| 0 <= i < |heap| && heap[i] == n;
      HeapExtentsAt(initMem, heap, i);
      hide PairwiseDisjoint, AllBlocks;
    }
  }

  /** Both allocations of pmalloc find room: the data first, then the list node. */
  ghost predicate HasRoomFor(memory: MemoryManager, nBytes: int)
    requires memory.Valid()
    reads memory.usedMap
  {
    var pages := Pages(UInt64(nBytes));
    var data := FirstFit(memory.Used(), memory.blocksAmount, pages);
    && data.Some?
    && FirstFit(memory.Used() + Range(data.value, pages), memory.blocksAmount, 1).Some?
  }

  class Process {
    const memory: MemoryManager
    var heap: seq<HeapNode>
    /** The blocks in use that do not belong to this heap. */
    ghost var baseline: set<nat>

    ghost predicate Valid()
      reads this, memory.usedMap
    {
      && memory.Valid()
      && AllPlaced(memory.initMem, memory.blocksAmount, heap)
      && WellFormed(HeapPool(), baseline)
    }

    ghost function HeapPool(): Pool
      requires memory.Valid()
      reads this, memory.usedMap
    {
      AsPool(memory.blocksAmount, memory.Used(), memory.initMem, heap)
    }

    constructor (memory: MemoryManager)
      requires memory.Valid()
      ensures Valid() && this.memory == memory && heap == [] && baseline == memory.Used()
    {
      this.memory := memory;
      heap := [];
      baseline := memory.Used();
    }

    method Pmalloc(nBytes: int) returns (mem: nat)
      requires Valid() && -INT_MAX - 1 <= nBytes <= INT_MAX && HasRoomFor(memory, nBytes)
      modifies this`heap, memory.usedMap
      ensures Valid() && |heap| == |old(heap)| + 1
      ensures heap == old(heap) + [HeapNode(heap[|old(heap)|].self, mem, nBytes)]
      ensures mem == memory.initMem
                     + FirstFit(old(memory.Used()), memory.blocksAmount, Pages(UInt64(nBytes))).value * PAGE_SIZE
    {
      ghost var before, pool := heap, HeapPool();
      ghost var pages := Pages(UInt64(nBytes));
      ghost var data := FirstFit(pool.used, pool.total, pages).value;
      ghost var self := FirstFit(pool.used + Range(data, pages), pool.total, 1).value;
      IntSizesDoNotWrap(nBytes);
      hide *;
      mem := AllocateAt(UInt64(nBytes), data);
      heap := AddHeap(heap, mem, nBytes, self);
      AppendKeepsPool(pool, memory.initMem, before, HeapNode(AddressOf(self), mem, nBytes), data, self, baseline);
      ValidAgain();
    }

    function AddressOf(block: nat): nat {
      memory.initMem + block * PAGE_SIZE
    }

    lemma ValidAgain()
      requires memory.Valid() && AllPlaced(memory.initMem, memory.blocksAmount, heap)
      requires WellFormed(Pool(memory.blocksAmount, memory.Used(), HeapExtents(memory.initMem, heap)), baseline)
      ensures Valid()
    {
    }

    /** An allocation that finds room, at the block first fit names. */
    method AllocateAt(request: int, ghost block: nat) returns (address: nat)
      requires memory.Valid() && 0 <= request < UINT64_SIZE && -0x8_0000 <= BlocksRequested(request)
      requires FirstFit(memory.Used(), memory.blocksAmount, Pages(request)) == Some(block)
      modifies memory.usedMap
      ensures memory.Valid() && address == AddressOf(block)
      ensures memory.Used() == old(memory.Used()) + Range(block, Pages(request))
    {
      hide BlocksRequested, FirstFit;
      var r := memory.Allocate(request);
      address := r.value;
    }

    method AddHeap(node: seq<HeapNode>, mem: nat, nBytes: int, ghost self: nat) returns (list: seq<HeapNode>)
      requires memory.Valid() && FirstFit(memory.Used(), memory.blocksAmount, 1) == Some(self)
      modifies memory.usedMap
      ensures memory.Valid() && list == node + [HeapNode(AddressOf(self), mem, nBytes)]
      ensures memory.Used() == old(memory.Used()) + Range(self, 1)
      decreases |node|
    {
      if node == [] {
        NodeTakesOnePage();
        var address := AllocateAt(HEAP_NODE_SIZE, self);
        return [HeapNode(address, mem, nBytes)];
      }
      var rest := AddHeap(node[1..], mem, nBytes, self);
      list := [node[0]] + rest;
    }

    /** Frees the first node holding `mem`, if any. */
    method Pfree(mem: nat)
      requires Valid()
      modifies this`heap, memory.usedMap
      ensures Valid()
      ensures var i := FirstAt(old(heap), mem);
              heap == if i < |old(heap)| then Without(old(heap), i) else old(heap)
      ensures FirstAt(old(heap), mem) == |old(heap)| ==> memory.Used() == old(memory.Used())
    {
      ghost var before, pool := heap, HeapPool();
      WellFormedIsInside(pool, memory.initMem, heap, baseline);
      hide WellFormed, MemoryManager.Used, MemoryManager.Valid, FirstAt, Without, NodeBlocks, Inside, Placed,
        HeapExtents;
      heap := PfreeR(heap, mem);
      ghost var i := FirstAt(before, mem);
      if i < |before| {
        RemoveKeepsPool(pool, memory.initMem, before, i, baseline);
        StepsKeepTotal(pool, 2 * i, 2 * i);
      }
      hide AllPlaced, Step;
      ValidAgain();
    }

    method FreeNode(n: HeapNode)
      requires memory.Valid() && Inside(memory.initMem, memory.blocksAmount, n)
      modifies memory.usedMap
      ensures memory.Valid() && memory.Used() == old(memory.Used()) - NodeBlocks(memory.initMem, n)
    {
      IntSizesDoNotWrap(n.size);
      NodeTakesOnePage();
      hide BlocksRequested, UInt64;
      FreeBlocks(n.address, UInt64(n.size));
      FreeBlocks(n.self, HEAP_NODE_SIZE);
    }

    method FreeBlocks(address: nat, size: int)
      requires memory.Valid() && 0 <= size < UINT64_SIZE && memory.initMem <= address
      requires -0x8_0000 <= BlocksRequested(size)
      requires (address - memory.initMem) / PAGE_SIZE + Pages(size) <= memory.blocksAmount
      modifies memory.usedMap
      ensures memory.Valid()
      ensures memory.Used() == old(memory.Used()) - Range(BlockAt(memory.initMem, address), Pages(size))
    {
      hide BlocksRequested, Int32;
      var _ := memory.Deallocate(address, size);
      var start := BlockAt(memory.initMem, address);
      assert Range(start, BlocksRequested(size)) == Range(start, Pages(size));
    }

    method PfreeR(node: seq<HeapNode>, mem: nat) returns (list: seq<HeapNode>)
      requires memory.Valid() && forall n | n in node :: Inside(memory.initMem, memory.blocksAmount, n)
      modifies memory.usedMap
      ensures memory.Valid()
      ensures var i := FirstAt(node, mem);
              if i < |node| then
                && list == Without(node, i)
                && memory.Used() == old(memory.Used()) - NodeBlocks(memory.initMem, node[i])
              else list == node && memory.Used() == old(memory.Used())
      decreases |node|
    {
      hide NodeBlocks, Pages, UInt64, MemoryManager.Used, Inside, Placed, FirstAt, Without;
      if node == [] {
        return [];
      }
      if node[0].address == mem {
        WithoutHead(node, mem);
        FreeNode(node[0]);
        return node[1..];
      }
      var rest := PfreeR(node[1..], mem);
      list := [node[0]] + rest;
      WithoutBehind(node, mem);
    }

    /** Frees every node: the allocator is back to exactly the blocks that were not this heap's. */
    method FreeHeap()
      requires Valid()
      modifies memory.usedMap
      ensures memory.Valid() && memory.Used() == baseline
    {
      WellFormedIsInside(HeapPool(), memory.initMem, heap, baseline);
      ghost var extents := HeapExtents(memory.initMem, heap);
      FreeHeapFrom(heap);
      forall k | k in AllBlocks(extents)
        ensures k !in baseline
      {
        AllBlocksMember(extents, k);
      }
    }

    method FreeHeapFrom(node: seq<HeapNode>)
      requires memory.Valid() && forall n | n in node :: Inside(memory.initMem, memory.blocksAmount, n)
      modifies memory.usedMap
      ensures memory.Valid()
      ensures memory.Used() == old(memory.Used()) - AllBlocks(HeapExtents(memory.initMem, node))
      decreases |node|
    {
      if node == [] {
        return;
      }
      FreeNode(node[0]);
      FreeHeapFrom(node[1..]);
      ghost var rest := HeapExtents(memory.initMem, node[1..]);
      AllBlocksConcat([DataExtent(memory.initMem, node[0]), SelfExtent(memory.initMem, node[0])], rest);
    }
  }

  /** Conservation: the pages in use are the baseline plus, for each list node, one page for
      the node and the pages of its data. */
  lemma HeapConservation(p: Process)
    requires p.Valid()
    ensures |p.memory.Used()| == |p.baseline| + HeapPages(p.heap)
  {
    var live := HeapExtents(p.memory.initMem, p.heap);
    HeapExtentsLength(p.memory.initMem, p.heap);
    AllBlocksSize(live);
    forall k | k in AllBlocks(live)
      ensures k !in p.baseline
    {
      AllBlocksMember(live, k);
    }
    assert |p.baseline + AllBlocks(live)| == |p.baseline| + |AllBlocks(live)|;
  }
}
