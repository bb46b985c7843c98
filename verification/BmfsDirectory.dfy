/** The BMFS directory (Bootloader/BMFS/bmfs.c): 64 records, some live, some unused, an end
    marker, and the search create() makes for a contiguous run of blocks. */
module BmfsDirectory {
  import opened Bytes
  import opened Options
  import opened MyMath

  const ENTRIES: nat := 64
  const BLOCK_SIZE: nat := 2097152
  const UNUSED_MARK: byte := 1

  /** `name` is the C string in FileName, without its NUL. */
  datatype Entry = Entry(name: seq<byte>, start: nat, reserved: nat, size: nat) {
    predicate IsEnd() { name == [] }
    predicate Unused() { name != [] && name[0] == UNUSED_MARK }
    predicate Live() { !IsEnd() && !Unused() }
    function After(): nat { start + reserved }
  }

  /** A name create() can store: it fits the 32-byte field and is no marker. */
  predicate Storable(name: seq<byte>) {
    0 < |name| < 32 && 0 !in name && name[0] != UNUSED_MARK
  }

  /** The number of records before the end marker; |d| if there is none. */
  function EndFrom(d: seq<Entry>, i: nat): (r: nat)
    requires i <= |d|
    ensures i <= r <= |d|
    ensures forall j | i <= j < r :: !d[j].IsEnd()
    ensures r < |d| ==> d[r].IsEnd()
    decreases |d| - i
  {
    if i == |d| || d[i].IsEnd() then i else EndFrom(d, i + 1)
  }

  function End(d: seq<Entry>): (r: nat)
    ensures r <= |d|
    ensures forall j | 0 <= j < r :: !d[j].IsEnd()
    ensures r < |d| ==> d[r].IsEnd()
  {
    EndFrom(d, 0)
  }

  /** findfile: the first live record of that name before the end marker. */
  function FindFrom(d: seq<Entry>, name: seq<byte>, i: nat): (r: Option<nat>)
    requires i <= End(d)
    ensures r.Some? ==> i <= r.value < End(d) && d[r.value].Live() && d[r.value].name == name
    ensures r.Some? ==> forall j | i <= j < r.value :: d[j].Live() ==> d[j].name != name
    ensures r == None ==> forall j | i <= j < End(d) :: d[j].Live() ==> d[j].name != name
    decreases |d| - i
  {
    if i == End(d) then None
    else if d[i].Live() && d[i].name == name then Some(i)
    else FindFrom(d, name, i + 1)
  }

  function Find(d: seq<Entry>, name: seq<byte>): (r: Option<nat>)
    ensures r.Some? ==> r.value < End(d) && d[r.value].Live() && d[r.value].name == name
    ensures r.Some? ==> forall j | 0 <= j < r.value :: d[j].Live() ==> d[j].name != name
    ensures r == None ==> forall j | 0 <= j < End(d) :: d[j].Live() ==> d[j].name != name
  {
    FindFrom(d, name, 0)
  }

  /** first_free_entry: the first record that holds no file, the end marker included. */
  function FirstFreeFrom(d: seq<Entry>, i: nat): (r: Option<nat>)
    requires i <= End(d)
    ensures r.Some? ==> i <= r.value <= End(d) && r.value < |d| && !d[r.value].Live()
    ensures r.Some? ==> forall j | i <= j < r.value :: d[j].Live()
    ensures r == None ==> End(d) == |d| && forall j | i <= j < |d| :: d[j].Live()
    decreases |d| - i
  {
    if i == |d| then None
    else if !d[i].Live() then Some(i)
    else FirstFreeFrom(d, i + 1)
  }

  function FirstFree(d: seq<Entry>): (r: Option<nat>)
    ensures r.Some? ==> r.value <= End(d) && r.value < |d| && !d[r.value].Live()
    ensures r.Some? ==> forall j | 0 <= j < r.value :: d[j].Live()
    ensures r == None ==> End(d) == |d| && forall j | 0 <= j < |d| :: d[j].Live()
  {
    FirstFreeFrom(d, 0)
  }

  /** num_used_entries: create() leaves it 0 when no record is an end marker. */
  function Counted(d: seq<Entry>): (r: nat)
    ensures r <= |d|
  {
    if End(d) < |d| then End(d) else 0
  }

  /** The comparator given to qsort: a 64-bit difference cut down to an int. */
  function StartingBlockCmp(a: Entry, b: Entry): int {
    if a.Unused() then 1
    else if b.Unused() then -1
    else Int32(UInt64(a.start - b.start))
  }

  lemma CmpComparesStarts(a: Entry, b: Entry)
    requires a.start <= INT_MAX && b.start <= INT_MAX && !a.Unused() && !b.Unused()
    ensures StartingBlockCmp(a, b) == a.start - b.start
  {
    var x := a.start - b.start;
    if x < 0 {
      assert UInt64(x) == x + UINT64_SIZE;
    }
  }

  // The sort

  function Insert(s: seq<Entry>, x: Entry): (r: seq<Entry>)
    ensures |r| == |s| + 1
  {
    if s == [] || StartingBlockCmp(s[|s| - 1], x) <= 0 then s + [x]
    else Insert(s[..|s| - 1], x) + [s[|s| - 1]]
  }

  function Sorted(s: seq<Entry>): (r: seq<Entry>)
    ensures |r| == |s|
  {
    if s == [] then [] else Insert(Sorted(s[..|s| - 1]), s[|s| - 1])
  }

  predicate Bounded(s: seq<Entry>) {
    forall e | e in s :: e.start <= INT_MAX && !e.IsEnd()
  }

  /** Live records first, by starting block. */
  predicate Ordered(s: seq<Entry>) {
    forall i, j | 0 <= i < j < |s| :: s[j].Live() ==> s[i].Live() && s[i].start <= s[j].start
  }

  predicate Disjoint(a: Entry, b: Entry) {
    a.After() <= b.start || b.After() <= a.start
  }

  /** No two live files share a block. */
  predicate Apart(s: seq<Entry>) {
    forall i, j | 0 <= i < j < |s| :: s[i].Live() && s[j].Live() ==> Disjoint(s[i], s[j])
  }

  predicate SameMembers(s: seq<Entry>, t: seq<Entry>) {
    && (forall e | e in s :: e in t)
    && (forall e | e in t :: e in s)
  }

  lemma {:induction false} InsertMembers(s: seq<Entry>, x: Entry)
    ensures SameMembers(Insert(s, x), s + [x])
  {
    if s == [] || StartingBlockCmp(s[|s| - 1], x) <= 0 {
    } else {
      InsertMembers(s[..|s| - 1], x);
      assert s == s[..|s| - 1] + [s[|s| - 1]];
    }
  }

  /** What the comparator says of a record a and a new one x. */
  lemma CmpDecides(a: Entry, x: Entry)
    requires a.start <= INT_MAX && x.start <= INT_MAX && !a.IsEnd() && !x.IsEnd()
    ensures StartingBlockCmp(a, x) > 0 ==> a.Live() ==> x.Live() && x.start <= a.start
    ensures StartingBlockCmp(a, x) <= 0 ==> a.Live() && (x.Live() ==> a.start <= x.start)
  {
    if !a.Unused() && !x.Unused() {
      CmpComparesStarts(a, x);
    }
  }

  lemma AppendOrdered(s: seq<Entry>, x: Entry)
    requires Ordered(s)
    requires s != [] && x.Live() ==> s[|s| - 1].Live() && s[|s| - 1].start <= x.start
    ensures Ordered(s + [x])
  {
    if x.Live() && s != [] {
      var n := |s| - 1;
      forall i | 0 <= i < n ensures s[i].Live() && s[i].start <= x.start {
        assert s[n].Live() ==> s[i].Live() && s[i].start <= s[n].start;
      }
    }
  }

  lemma {:induction false} InsertOrders(s: seq<Entry>, x: Entry)
    requires Bounded(s + [x]) && Ordered(s)
    ensures Ordered(Insert(s, x))
  {
    hide StartingBlockCmp;
    if s == [] {
      assert Insert(s, x) == [x];
    } else {
      var n := |s| - 1;
      var front := s[..n];
      assert s[n] in s + [x] && x in s + [x];
      CmpDecides(s[n], x);
      if StartingBlockCmp(s[n], x) <= 0 {
        AppendOrdered(s, x);
      } else {
        assert Bounded(front + [x]) && Ordered(front);
        InsertOrders(front, x);
        InsertMembers(front, x);
        LastOrdered(Insert(front, x), s[n], front, x);
      }
    }
  }

  lemma LastOrdered(t: seq<Entry>, last: Entry, s: seq<Entry>, x: Entry)
    requires Ordered(t) && SameMembers(t, s + [x])
    requires last.Live() ==> x.Live() && x.start <= last.start
    requires last.Live() ==> forall i | 0 <= i < |s| :: s[i].Live() && s[i].start <= last.start
    ensures Ordered(t + [last])
  {
    if last.Live() {
      forall i | 0 <= i < |t| ensures t[i].Live() && t[i].start <= last.start {
        assert t[i] in s + [x];
      }
    }
  }

  lemma {:induction false} InsertKeepsApart(s: seq<Entry>, x: Entry)
    requires Apart(s + [x])
    ensures Apart(Insert(s, x))
  {
    if s == [] || StartingBlockCmp(s[|s| - 1], x) <= 0 {
    } else {
      var n := |s| - 1;
      var t := s + [x];
      assert forall i | 0 <= i < |s| :: t[i] == s[i];
      assert forall i | 0 <= i < |s[..n] + [x]| :: (s[..n] + [x])[i] == t[if i < n then i else |s|];
      InsertKeepsApart(s[..n], x);
      InsertMembers(s[..n], x);
      forall e | e in Insert(s[..n], x) && e.Live() && s[n].Live() ensures Disjoint(e, s[n]) {
        assert e in s[..n] + [x];
        if e != x || e in s[..n] {
          var k :| 0 <= k < n && s[k] == e;
          assert Disjoint(t[k], t[n]);
        } else {
          assert Disjoint(t[n], t[|s|]);
        }
      }
    }
  }

  /** What create() gets from qsort. */
  lemma {:induction false} SortedCopy(s: seq<Entry>)
    requires Bounded(s)
    ensures SameMembers(Sorted(s), s) && Ordered(Sorted(s)) && Bounded(Sorted(s))
    ensures Apart(s) ==> Apart(Sorted(s))
  {
    if s == [] {
    } else {
      var front, x := s[..|s| - 1], s[|s| - 1];
      assert s == front + [x];
      SortedCopy(front);
      assert SameMembers(Sorted(front) + [x], s);
      InsertMembers(Sorted(front), x);
      assert Bounded(Sorted(front) + [x]);
      InsertOrders(Sorted(front), x);
      if Apart(s) {
        assert Apart(front);
        AppendApart(Sorted(front), front, x);
        InsertKeepsApart(Sorted(front), x);
      }
    }
  }

  lemma AppendApart(t: seq<Entry>, s: seq<Entry>, x: Entry)
    requires Apart(t) && SameMembers(t, s) && Apart(s + [x])
    ensures Apart(t + [x])
  {
    forall i | 0 <= i < |t| && t[i].Live() && x.Live() ensures Disjoint(t[i], x) {
      assert t[i] in s;
      var k :| 0 <= k < |s| && s[k] == t[i];
      assert (s + [x])[k] == s[k] && (s + [x])[|s|] == x;
    }
  }

  // The search for a gap

  /** The loop of create() over the sorted copy; 0 when no room is found. */
  function Scan(s: seq<Entry>, i: nat, prevEnd: nat, blocks: nat, requested: nat): nat
    requires i <= |s|
    decreases |s| - i
  {
    var thisStart := if i == |s| || s[i].Unused() then UInt64(blocks - 1) else s[i].start;
    if UInt64(thisStart - prevEnd) >= requested then prevEnd
    else if i == |s| then 0
    else Scan(s, i + 1, UInt64(s[i].After()), blocks, requested)
  }

  /** new_file_start for a request of so many blocks, on a disk of `blocks` blocks. */
  function Place(d: seq<Entry>, blocks: nat, requested: nat): nat {
    Scan(Sorted(d[..Counted(d)]), 0, 1, blocks, requested)
  }

  /** The extent stays off the first and the last block. */
  predicate Inside(e: Entry, blocks: nat) {
    1 <= e.start && 1 <= e.reserved && e.After() <= blocks - 1
  }

  predicate AllInside(s: seq<Entry>, blocks: nat) {
    forall e | e in s :: Inside(e, blocks)
  }

  /** `requested` free blocks from `at` on. */
  predicate Fits(s: seq<Entry>, blocks: nat, requested: nat, at: nat) {
    && 1 <= at && at + requested <= blocks - 1
    && forall e | e in s && e.Live() :: e.After() <= at || at + requested <= e.start
  }

  ghost predicate HasRoom(s: seq<Entry>, blocks: nat, requested: nat) {
    exists at :: Fits(s, blocks, requested, at)
  }

  ghost predicate LeastFit(s: seq<Entry>, blocks: nat, requested: nat, at: nat) {
    Fits(s, blocks, requested, at) && forall k | 0 <= k < at :: !Fits(s, blocks, requested, k)
  }

  /** The mistake of create(): past an unused record it measures from that record's end. */
  predicate RoomAbove(e: Entry, blocks: nat, requested: nat) {
    e.Unused() && e.After() + requested <= blocks - 1
  }

  ghost predicate RoomAboveUnused(s: seq<Entry>, blocks: nat, requested: nat) {
    exists e | e in s :: RoomAbove(e, blocks, requested)
  }

  predicate Disk(blocks: nat) {
    3 <= blocks <= INT_MAX
  }

  function EndBefore(s: seq<Entry>, i: nat): nat
    requires i <= |s|
  {
    if i == 0 then 1 else s[i - 1].After()
  }

  /** Among the live records the scan is a first fit; it leaves them only when nothing fits. */
  lemma {:induction false} ScanLive(s: seq<Entry>, i: nat, blocks: nat, requested: nat)
    requires Disk(blocks) && requested >= 1 && Ordered(s) && Apart(s) && AllInside(s, blocks) && Bounded(s)
    requires i <= |s| && forall k | 0 <= k < i :: s[k].Live()
    requires forall at | 0 <= at < EndBefore(s, i) :: !Fits(s, blocks, requested, at)
    ensures var r := Scan(s, i, EndBefore(s, i), blocks, requested);
            && (HasRoom(s, blocks, requested) ==> LeastFit(s, blocks, requested, r))
            && (!HasRoom(s, blocks, requested) ==>
                  && (r == 0 <==> !RoomAboveUnused(s, blocks, requested))
                  && (r != 0 ==> exists e :: e in s && RoomAbove(e, blocks, requested) && r == e.After()))
    decreases |s| - i
  {
    var prevEnd := EndBefore(s, i);
    assert 1 <= prevEnd <= blocks - 1 by {
      if i > 0 { assert s[i - 1] in s; }
    }
    LiveBefore(s, i, blocks);
    if i < |s| && s[i].Live() {
      assert s[i] in s;
      if s[i].start - prevEnd >= requested {
        GapFits(s, i, blocks, requested);
      } else {
        GapTooSmall(s, i, blocks, requested);
        ScanLive(s, i + 1, blocks, requested);
      }
    } else {
      ScanPastLive(s, i, blocks, requested);
    }
  }

  lemma ScanPastLive(s: seq<Entry>, i: nat, blocks: nat, requested: nat)
    requires Disk(blocks) && requested >= 1 && Ordered(s) && AllInside(s, blocks) && Bounded(s)
    requires i <= |s| && (i < |s| ==> !s[i].Live()) && 1 <= EndBefore(s, i) <= blocks - 1
    requires forall k | 0 <= k < i :: s[k].Live()
    requires forall k | 0 <= k < i :: s[k].After() <= EndBefore(s, i)
    requires forall at | 0 <= at < EndBefore(s, i) :: !Fits(s, blocks, requested, at)
    ensures var r := Scan(s, i, EndBefore(s, i), blocks, requested);
            && (HasRoom(s, blocks, requested) ==> LeastFit(s, blocks, requested, r))
            && (!HasRoom(s, blocks, requested) ==>
                  && (r == 0 <==> !RoomAboveUnused(s, blocks, requested))
                  && (r != 0 ==> exists e :: e in s && RoomAbove(e, blocks, requested) && r == e.After()))
  {
    var prevEnd := EndBefore(s, i);
    assert forall k | i <= k < |s| :: !s[k].Live();
    if blocks - 1 - prevEnd >= requested {
      GapFits(s, i, blocks, requested);
    } else {
      assert !HasRoom(s, blocks, requested);
      hide Fits;
      ScanUnused(s, i, prevEnd, blocks, requested);
      if e :| e in s && RoomAbove(e, blocks, requested) {
        var k :| 0 <= k < |s| && s[k] == e;
      }
    }
  }

  lemma GapTooSmall(s: seq<Entry>, i: nat, blocks: nat, requested: nat)
    requires i < |s| && s[i].Live() && s[i].start < EndBefore(s, i) + requested
    requires forall at | 0 <= at < EndBefore(s, i) :: !Fits(s, blocks, requested, at)
    ensures forall at | 0 <= at < s[i].After() :: !Fits(s, blocks, requested, at)
  {
    assert s[i] in s;
  }

  lemma LiveBefore(s: seq<Entry>, i: nat, blocks: nat)
    requires Ordered(s) && Apart(s) && AllInside(s, blocks)
    requires i <= |s| && forall k | 0 <= k < i :: s[k].Live()
    ensures forall k | 0 <= k < i :: s[k].After() <= EndBefore(s, i)
    ensures forall k | i <= k < |s| && s[k].Live() :: EndBefore(s, i) <= s[k].start
  {
    if i > 0 {
      assert s[i - 1] in s;
      forall k | 0 <= k < i - 1 ensures s[k].After() <= s[i - 1].start {
        assert s[k] in s && Disjoint(s[k], s[i - 1]);
      }
      forall k | i <= k < |s| && s[k].Live() ensures s[i - 1].After() <= s[k].start {
        assert s[k] in s && Disjoint(s[i - 1], s[k]);
      }
    } else {
      forall k | 0 <= k < |s| ensures 1 <= s[k].start {
        assert s[k] in s;
      }
    }
  }

  lemma GapFits(s: seq<Entry>, i: nat, blocks: nat, requested: nat)
    requires Ordered(s) && AllInside(s, blocks)
    requires i <= |s| && 1 <= EndBefore(s, i)
    requires forall k | 0 <= k < i :: s[k].After() <= EndBefore(s, i)
    requires EndBefore(s, i) + requested <= blocks - 1
    requires i < |s| && s[i].Live() ==> EndBefore(s, i) + requested <= s[i].start
    ensures Fits(s, blocks, requested, EndBefore(s, i))
  {
    var at := EndBefore(s, i);
    forall e | e in s && e.Live() ensures e.After() <= at || at + requested <= e.start {
      var k :| 0 <= k < |s| && s[k] == e;
      if i < k {
        assert s[i].Live() && s[i].start <= s[k].start;
      }
    }
  }

  lemma {:induction false} ScanUnused(s: seq<Entry>, i: nat, prevEnd: nat, blocks: nat, requested: nat)
    requires Disk(blocks) && AllInside(s, blocks) && Bounded(s)
    requires i <= |s| && forall k | i <= k < |s| :: s[k].Unused()
    requires prevEnd <= blocks - 1 < prevEnd + requested
    ensures var r := Scan(s, i, prevEnd, blocks, requested);
            && (r == 0 <==> forall k | i <= k < |s| :: !RoomAbove(s[k], blocks, requested))
            && (r != 0 ==> exists k :: i <= k < |s| && RoomAbove(s[k], blocks, requested) && r == s[k].After())
    decreases |s| - i
  {
    if i == |s| {
    } else {
      assert s[i] in s;
      var next := s[i].After();
      if blocks - 1 - next >= requested {
        assert RoomAbove(s[i], blocks, requested);
        assert Scan(s, i + 1, next, blocks, requested) == next;
      } else {
        ScanUnused(s, i + 1, next, blocks, requested);
      }
    }
  }

  /** Every extent is on the disk, and no two live files share a block. */
  predicate WellPlaced(d: seq<Entry>, blocks: nat) {
    AllInside(d[..End(d)], blocks) && Apart(d[..End(d)])
  }

  /** With an end marker create() takes the lowest gap there is. When there is none it
      should fail, and does unless some deleted file left room above itself. */
  lemma PlaceWithEndMarker(d: seq<Entry>, blocks: nat, requested: nat)
    requires Disk(blocks) && requested >= 1 && WellPlaced(d, blocks) && End(d) < |d|
    ensures var s := d[..End(d)];
            var r := Place(d, blocks, requested);
            && (HasRoom(s, blocks, requested) ==> LeastFit(s, blocks, requested, r))
            && (!HasRoom(s, blocks, requested) ==> (r == 0 <==> !RoomAboveUnused(s, blocks, requested)))
            && (r != 0 ==> 1 <= r && r + requested <= blocks - 1)
  {
    var s := d[..End(d)];
    var t := Sorted(s);
    SortedCopy(s);
    forall at ensures Fits(t, blocks, requested, at) == Fits(s, blocks, requested, at) {
    }
    assert Place(d, blocks, requested) == Scan(t, 0, EndBefore(t, 0), blocks, requested);
    ScanLive(t, 0, blocks, requested);
    if HasRoom(s, blocks, requested) {
      var at :| Fits(s, blocks, requested, at);
      assert Fits(t, blocks, requested, at);
    }
  }

  /** Without one it counts no files at all: the new file goes to block 1, whatever is there. */
  lemma PlaceWithoutEndMarker(d: seq<Entry>, blocks: nat, requested: nat)
    requires Disk(blocks) && requested >= 1 && End(d) == |d|
    ensures Place(d, blocks, requested) == if requested <= blocks - 2 then 1 else 0
  {
  }
}
