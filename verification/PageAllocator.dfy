/** The kernel's page allocator (Kernel/memoryManager.c): first fit over the bitmap with a
    scan that skips past every stretch it has already probed. */
module PageAllocator {
  import opened Bitmap
  import opened MyMath
  import opened Options

  const PAGE_SIZE: int := 0x1000
  /** The block offsets i*PAGE_SIZE are computed in int. */
  const MAX_BLOCKS: int := INT_MAX / PAGE_SIZE

  // ---------------------------------------------------------------- reference definitions

  predicate Within(k: nat, start: int, count: int) {
    start <= k < start + count
  }

  ghost function Range(start: int, count: int): set<nat> {
    set k: nat | k < start + count && Within(k, start, count)
  }

  lemma RangeGrows(start: nat, count: nat)
    ensures Range(start, 0) == {}
    ensures Range(start, count + 1) == Range(start, count) + {start + count}
  {
  }

  ghost predicate FreeRun(used: set<nat>, total: nat, count: nat, start: nat) {
    start + count <= total && Range(start, count) !! used
  }

  /** Naive first fit: try every start index in turn. */
  ghost function FirstFitFrom(used: set<nat>, total: nat, count: nat, start: nat): Option<nat>
    decreases total - start
  {
    if start + count > total then None
    else if FreeRun(used, total, count, start) then Some(start)
    else if start == total then None
    else FirstFitFrom(used, total, count, start + 1)
  }

  ghost function FirstFit(used: set<nat>, total: nat, count: nat): Option<nat> {
    FirstFitFrom(used, total, count, 0)
  }

  lemma {:induction false} FirstFitFromIsLeast(used: set<nat>, total: nat, count: nat, start: nat)
    ensures var r := FirstFitFrom(used, total, count, start);
            && (r.Some? ==> start <= r.value && FreeRun(used, total, count, r.value))
            && (forall s: nat | start <= s && FreeRun(used, total, count, s) :: r.Some? && r.value <= s)
    decreases total - start
  {
    if start + count > total || start == total || FreeRun(used, total, count, start) {
    } else {
      FirstFitFromIsLeast(used, total, count, start + 1);
    }
  }

  /** First fit is the least start of a long enough free run, and None exactly when there is none. */
  lemma FirstFitIsLeast(used: set<nat>, total: nat, count: nat)
    ensures var r := FirstFit(used, total, count);
            && (r.Some? <==> exists s: nat :: FreeRun(used, total, count, s))
            && (r.Some? ==> FreeRun(used, total, count, r.value))
            && (forall s: nat | FreeRun(used, total, count, s) :: r.Some? && r.value <= s)
  {
    FirstFitFromIsLeast(used, total, count, 0);
  }

  /** The converse: whatever is a free run with none before it is what first fit returns. */
  lemma LeastIsFirstFit(used: set<nat>, total: nat, count: nat, start: nat)
    requires FreeRun(used, total, count, start)
    requires forall s: nat | s < start :: !FreeRun(used, total, count, s)
    ensures FirstFit(used, total, count) == Some(start)
  {
    FirstFitIsLeast(used, total, count);
  }

  // ---------------------------------------------------------------- sizes

  /** DIV_CEIL(request, PAGE_SIZE) in uint64_t arithmetic, then stored in an int. */
  function BlocksRequested(request: int): int
    requires 0 <= request < UINT64_SIZE
  {
    Int32(UInt64(request + CMod(PAGE_SIZE - CMod(request, PAGE_SIZE), PAGE_SIZE)) / PAGE_SIZE)
  }

  /** How many blocks a request really takes: a page count that came out negative takes none. */
  function Pages(request: int): nat
    requires 0 <= request < UINT64_SIZE
  {
    if BlocksRequested(request) > 0 then BlocksRequested(request) else 0
  }

  /** The page count covers the request exactly when the true count fits an int; above that
      the conversion to int wraps, and the block handed out is too short. */
  lemma PagesCoverRequest(request: int)
    requires 0 <= request < UINT64_SIZE
    ensures Pages(request) == DivCeil(request, PAGE_SIZE) <==> request <= INT_MAX * PAGE_SIZE
    ensures request <= Pages(request) * PAGE_SIZE <==> request <= INT_MAX * PAGE_SIZE
  {
    DivCeilIsCeiling(request, PAGE_SIZE);
    var n := request + CMod(PAGE_SIZE - CMod(request, PAGE_SIZE), PAGE_SIZE);
    if request == 0 {
    } else if n < UINT64_SIZE {
      assert DivCeil(request, PAGE_SIZE) == n / PAGE_SIZE;
    }
  }

  /** The wrap is real: whatever is in use, a request of 16 TiB succeeds at block 0 and takes
      no page. */
  lemma HugeRequestTakesNoPages(used: set<nat>, total: nat)
    requires total <= MAX_BLOCKS
    ensures var request := 0x1000_0000_0000;
            && Pages(request) == 0 && BlocksRequested(request) >= total - INT_MAX
            && FirstFit(used, total, Pages(request)) == Some(0)
  {
    var request := 0x1000_0000_0000;
    assert CMod(request, PAGE_SIZE) == 0;
    assert CMod(PAGE_SIZE, PAGE_SIZE) == 0;
    assert FreeRun(used, total, 0, 0);
  }

  function MapSize(blocks: nat): nat {
    var n := DivCeil(blocks, INT_BITS);
    DivCeilIsCeiling(blocks, INT_BITS);
    n
  }

  /** What getBlocksAmount budgets for n blocks: the pages, a pointer, and one byte per map word. */
  function SpaceFor(n: nat): nat {
    n * PAGE_SIZE + 8 + MapSize(n)
  }

  lemma SpaceForIncreases(n: nat, m: nat)
    requires n <= m
    ensures SpaceFor(n) + (m - n) * PAGE_SIZE <= SpaceFor(m)
  {
    DivCeilIsCeiling(n, INT_BITS);
    DivCeilIsCeiling(m, INT_BITS);
  }

  method EnoughSpace(blocksAmount: nat, remainingMem: int) returns (enough: bool)
    ensures enough <==> SpaceFor(blocksAmount) <= blocksAmount * PAGE_SIZE + remainingMem
  {
    var spaceForMap := 8;
    spaceForMap := spaceForMap + MapSize(blocksAmount);
    enough := spaceForMap <= remainingMem;
  }

  /** The block count is the largest one whose budget fits the region. */
  method GetBlocksAmount(totalMem: nat) returns (blocksAmount: nat)
    requires PAGE_SIZE <= totalMem <= INT_MAX * PAGE_SIZE
    ensures SpaceFor(blocksAmount) <= totalMem
    ensures forall m: nat | SpaceFor(m) <= totalMem :: m <= blocksAmount
  {
    var auxMem := PAGE_SIZE;
    var blocks: int := 0;
    while auxMem <= totalMem
      invariant 0 <= blocks && auxMem == (blocks + 1) * PAGE_SIZE
      invariant blocks * PAGE_SIZE <= totalMem
      decreases totalMem - auxMem
    {
      auxMem := auxMem + PAGE_SIZE;
      blocks := blocks + 1;
    }
    auxMem := auxMem - PAGE_SIZE;
    var remainingMem := totalMem - auxMem;

    var enough := EnoughSpace(blocks, remainingMem);
    while !enough
      invariant 0 <= blocks && remainingMem == totalMem - blocks * PAGE_SIZE >= 0
      invariant enough <==> SpaceFor(blocks) <= totalMem
      invariant totalMem < SpaceFor(blocks + 1)
      decreases blocks
    {
      blocks := blocks - 1;
      remainingMem := remainingMem + PAGE_SIZE;
      enough := EnoughSpace(blocks, remainingMem);
    }
    blocksAmount := blocks;
    forall m: nat | m > blocksAmount
      ensures totalMem < SpaceFor(m)
    {
      SpaceForIncreases(blocksAmount + 1, m);
    }
  }

  /** The map words behind the last block end inside the region. */
  predicate MapFits(total: nat, n: nat) {
    n * PAGE_SIZE + 4 * MapSize(n) <= total
  }

  /** What decides it: the bytes after the last whole page, and after the last but one when
      those do not even hold the budget. */
  predicate MapShouldFit(total: nat)
    requires total >= PAGE_SIZE
  {
    var q, spare := total / PAGE_SIZE, total % PAGE_SIZE;
    if 8 + MapSize(q) <= spare then 4 * MapSize(q) <= spare
    else 4 * MapSize(q - 1) <= spare + PAGE_SIZE
  }

  /** The block count: all whole pages if the spare bytes hold the budget, else one page less
      or, in regions of half a gigabyte and more, fewer still. */
  lemma BlockCountIs(total: nat, n: nat)
    requires total >= PAGE_SIZE
    requires SpaceFor(n) <= total < SpaceFor(n + 1)
    ensures var q, spare := total / PAGE_SIZE, total % PAGE_SIZE;
            && (8 + MapSize(q) <= spare ==> n == q)
            && (8 + MapSize(q) > spare ==> n <= q - 1)
            && (8 + MapSize(q) > spare && 8 + MapSize(q - 1) <= spare + PAGE_SIZE ==> n == q - 1)
  {
    var q, spare := total / PAGE_SIZE, total % PAGE_SIZE;
    if n + 1 <= q { SpaceForIncreases(n + 1, q); }
    if n + 1 <= q - 1 { SpaceForIncreases(n + 1, q - 1); }
    if q <= n { SpaceForIncreases(q, n); }
    hide MapSize;
  }

  /** The budget counts one byte per four-byte word, so the map can end past the region: for
      every region that holds a page, exactly when this condition fails. */
  lemma MapFitsExactly(total: nat, n: nat)
    requires total >= PAGE_SIZE
    requires SpaceFor(n) <= total < SpaceFor(n + 1)
    ensures MapFits(total, n) <==> MapShouldFit(total)
  {
    var q, spare := total / PAGE_SIZE, total % PAGE_SIZE;
    BlockCountIs(total, n);
    if 8 + MapSize(q) > spare && 8 + MapSize(q - 1) > spare + PAGE_SIZE {
      MapSizeValue(q - 1);
      LargeMapsNeverFit(total, n);
    }
    hide MapSize, SpaceFor;
  }

  /** From 172 MiB on it never fits. */
  lemma LargeMapsNeverFit(total: nat, n: nat)
    requires total >= 172 * 0x10_0000
    requires SpaceFor(n) <= total < SpaceFor(n + 1)
    ensures !MapFits(total, n)
  {
    MapSizeValue(n);
    MapSizeValue(n + 1);
    hide MapSize;
  }

  lemma MapSizeValue(n: nat)
    ensures MapSize(n) == (n + 31) / 32
  {
    DivCeilIsCeiling(n, INT_BITS);
  }

  /** 65 pages and 11 spare bytes: the budget accepts 65 blocks, the third word does not fit. */
  lemma MapCanOverrun()
    ensures var total := 65 * PAGE_SIZE + 11;
            SpaceFor(65) <= total < SpaceFor(66) && !MapFits(total, 65)
  {
    MapSizeValue(65);
    MapSizeValue(66);
  }

  /** The last start index worth trying, as an int: the subtraction can wrap when the page
      count came out very negative. */
  lemma LastIndexValue(total: nat, blocksRequest: int)
    requires total <= MAX_BLOCKS && -INT_MAX - 1 <= blocksRequest <= INT_MAX
    ensures var lastIndex := Int32(total - blocksRequest);
            if blocksRequest < total - INT_MAX then lastIndex < 0 else lastIndex == total - blocksRequest
  {
  }

  /** A used block inside the probed stretch meets every run that starts there. */
  lemma MissRulesOutProbedStretch(used: set<nat>, total: nat, count: nat, i: nat, j: nat)
    requires 0 < j <= count && i + j - 1 in used
    ensures forall s: nat | i <= s < i + j :: !FreeRun(used, total, count, s)
  {
    forall s: nat | i <= s < i + j
      ensures !FreeRun(used, total, count, s)
    {
      assert i + j - 1 in Range(s, count);
    }
  }

  // ---------------------------------------------------------------- the allocator

  ghost function UsedBlocks(bitMap: seq<bv32>, total: nat): set<nat>
    requires total <= |bitMap| * INT_BITS
  {
    set k: nat | k < total && !IsAvailable(bitMap, k)
  }

  lemma SetTakesBlock(before: seq<bv32>, after: seq<bv32>, total: nat, p: nat)
    requires |before| == |after| && p < total <= |before| * INT_BITS
    requires forall q: nat | q / INT_BITS < |before| ::
               IsAvailable(after, q) <==> q != p && IsAvailable(before, q)
    ensures UsedBlocks(after, total) == UsedBlocks(before, total) + {p}
  {
    hide IsAvailable;
  }

  lemma ResetFreesBlock(before: seq<bv32>, after: seq<bv32>, total: nat, p: nat)
    requires |before| == |after| && p < total <= |before| * INT_BITS
    requires forall q: nat | q / INT_BITS < |before| ::
               IsAvailable(after, q) <==> q == p || IsAvailable(before, q)
    ensures UsedBlocks(after, total) == UsedBlocks(before, total) - {p}
  {
    hide IsAvailable;
  }

  class MemoryManager {
    // set once, by memAllocatorInit
    const initMem: nat
    const usedMap: array<bv32>
    const blocksAmount: nat

    ghost predicate Valid() {
      blocksAmount <= usedMap.Length * INT_BITS && blocksAmount <= MAX_BLOCKS
    }

    ghost function Used(): set<nat>
      requires Valid()
      reads usedMap
    {
      UsedBlocks(usedMap[..], blocksAmount)
    }

    /** memAllocatorInit, once the region is known to hold a page: every block starts free. */
    constructor (initPosition: nat, totalMem: nat)
      requires PAGE_SIZE <= totalMem <= INT_MAX
      ensures Valid() && fresh(usedMap) && initMem == initPosition
      ensures SpaceFor(blocksAmount) <= totalMem
      ensures forall m: nat | SpaceFor(m) <= totalMem :: m <= blocksAmount
      ensures Used() == {}
    {
      var n := GetBlocksAmount(totalMem);
      DivCeilIsCeiling(n, INT_BITS);
      initMem := initPosition;
      blocksAmount := n;
      usedMap := new bv32[MapSize(n)];
      new;
      for i := 0 to usedMap.Length
        modifies usedMap
        invariant forall k | 0 <= k < i :: usedMap[k] == 0
      {
        usedMap[i] := 0;
      }
    }

    method Reserve(blocksRequest: int, startingBlock: nat)
      requires Valid() && startingBlock + blocksRequest <= blocksAmount
      modifies usedMap
      ensures Valid() && Used() == old(Used()) + Range(startingBlock, blocksRequest)
    {
      hide IsAvailable, UsedBlocks;
      var i := startingBlock;
      while i < startingBlock + blocksRequest
        invariant startingBlock <= i
        invariant i <= startingBlock + blocksRequest || i == startingBlock
        invariant Used() == old(Used()) + Range(startingBlock, i - startingBlock)
      {
        ghost var before := usedMap[..];
        SetBit(usedMap, i);
        SetTakesBlock(before, usedMap[..], blocksAmount, i);
        RangeGrows(startingBlock, i - startingBlock);
        i := i + 1;
      }
    }

    /** The inner loop of allocate: stops at the first used block, having counted it. */
    method Probe(start: nat, blocksRequest: int) returns (allocFound: bool, j: nat)
      requires Valid() && (blocksRequest > 0 ==> start + blocksRequest <= blocksAmount)
      ensures allocFound ==> j == (if blocksRequest > 0 then blocksRequest else 0)
      ensures allocFound ==> Range(start, j) !! Used()
      ensures !allocFound ==> 0 < j <= blocksRequest && start + j - 1 in Used()
    {
      hide IsAvailable;
      allocFound, j := true, 0;
      while j < blocksRequest && allocFound
        invariant 0 <= j && (j <= blocksRequest || j == 0)
        invariant allocFound ==> forall k: nat | start <= k < start + j :: k !in Used()
        invariant !allocFound ==> j > 0 && start + j - 1 in Used()
      {
        allocFound := IsAvailable(usedMap[..], start + j);
        j := j + 1;
      }
    }

    /** The scan of allocate: although after a miss at block i+j-1 it jumps past the whole
        probed stretch, it finds exactly what naive first fit finds. */
    method Scan(blocksRequest: int) returns (r: Option<nat>)
      requires Valid() && -INT_MAX - 1 <= blocksRequest <= INT_MAX
      ensures r == if blocksRequest < blocksAmount - INT_MAX then None
                   else FirstFit(Used(), blocksAmount, if blocksRequest > 0 then blocksRequest else 0)
    {
      ghost var count := if blocksRequest > 0 then blocksRequest else 0;
      ghost var used := Used();
      var i: nat, j: nat, allocFound := 0, 0, false;
      var lastIndex := Int32(blocksAmount - blocksRequest);
      LastIndexValue(blocksAmount, blocksRequest);
      FirstFitIsLeast(used, blocksAmount, count);
      hide IsAvailable, Int32, FirstFit;

      while i <= lastIndex && !allocFound
        invariant 0 <= i && 0 <= j <= i
        invariant blocksRequest <= 0 ==> i == 0
        invariant allocFound ==> lastIndex >= 0 && j == count && FreeRun(used, blocksAmount, count, i - j)
        invariant forall s: nat | s < (if allocFound then i - j else i) :: !FreeRun(used, blocksAmount, count, s)
        decreases !allocFound, lastIndex - i
      {
        allocFound, j := Probe(i, blocksRequest);
        if !allocFound {
          MissRulesOutProbedStretch(used, blocksAmount, count, i, j);
        }
        i := i + j;
      }
      if !allocFound {
        return None;
      }
      i := i - j;
      LeastIsFirstFit(used, blocksAmount, count, i);
      return Some(i);
    }

    /** Reserves and returns what first fit finds. */
    method Allocate(request: int) returns (r: Option<nat>)
      requires Valid() && 0 <= request < UINT64_SIZE
      modifies usedMap
      ensures Valid()
      ensures var fit := if BlocksRequested(request) < blocksAmount - INT_MAX then None
                         else FirstFit(old(Used()), blocksAmount, Pages(request));
              && r == (if fit.Some? then Some(initMem + fit.value * PAGE_SIZE) else None)
              && Used() == if fit.Some? then old(Used()) + Range(fit.value, Pages(request)) else old(Used())
    {
      hide IsAvailable, Int32, FirstFit;
      var blocksRequest := BlocksRequested(request);
      var start := Scan(blocksRequest);
      if start.None? {
        return None;
      }
      FirstFitIsLeast(Used(), blocksAmount, Pages(request));
      Reserve(blocksRequest, start.value);
      assert Range(start.value, blocksRequest) == Range(start.value, Pages(request));
      return Some(initMem + start.value * PAGE_SIZE);
    }

    /** Frees the blocks [start, start + pages), or refuses when they run past the last block. */
    method Deallocate(startingPosition: nat, size: int) returns (ok: int)
      requires Valid() && 0 <= size < UINT64_SIZE
      requires initMem <= startingPosition && (startingPosition - initMem) / PAGE_SIZE <= INT_MAX
      modifies usedMap
      ensures Valid()
      ensures var start := (startingPosition - initMem) / PAGE_SIZE;
              var limit := Int32(start + BlocksRequested(size));
              && ok == (if limit > blocksAmount then 0 else 1)
              && Used() == if limit > blocksAmount then old(Used())
                           else old(Used()) - Range(start, limit - start)
    {
      var blocks := BlocksRequested(size);
      var startingBlock := (startingPosition - initMem) / PAGE_SIZE;
      var limit := Int32(startingBlock + blocks);
      if limit > blocksAmount {
        return 0;
      }
      hide IsAvailable, UsedBlocks;
      var i := startingBlock;
      while i < limit
        invariant startingBlock <= i
        invariant i <= limit || i == startingBlock
        invariant Used() == old(Used()) - Range(startingBlock, i - startingBlock)
      {
        ghost var before := usedMap[..];
        ResetBit(usedMap, i);
        ResetFreesBlock(before, usedMap[..], blocksAmount, i);
        RangeGrows(startingBlock, i - startingBlock);
        i := i + 1;
      }
      return 1;
    }
  }

  /** memAllocatorInit: returns 0, and initialises nothing, when the region holds no page. */
  method MemAllocatorInit(initPosition: nat, endPosition: nat) returns (ok: int, memory: MemoryManager?)
    requires initPosition <= endPosition <= initPosition + INT_MAX
    ensures ok == 0 <==> endPosition - initPosition < PAGE_SIZE
    ensures ok == 0 <==> memory == null
    ensures memory != null ==> ok == 1 && fresh(memory) && fresh(memory.usedMap) && memory.Valid() && memory.Used() == {}
    ensures memory != null ==> memory.initMem == initPosition
    ensures memory != null ==> forall m: nat :: SpaceFor(m) <= endPosition - initPosition <==> m <= memory.blocksAmount
  {
    var totalMem := endPosition - initPosition;
    if totalMem < PAGE_SIZE {
      return 0, null;
    }
    memory := new MemoryManager(initPosition, totalMem);
    forall m: nat | m <= memory.blocksAmount ensures SpaceFor(m) <= totalMem {
      SpaceForIncreases(m, memory.blocksAmount);
    }
    ok := 1;
  }
}
