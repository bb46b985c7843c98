/** The BMFS utility itself (Bootloader/BMFS/bmfs.c): the Directory buffer patched in place,
    and the disk image it reads and writes byte by byte. */
module BmfsVolume {
  import opened Bytes
  import opened Options
  import opened MyMath
  import opened BmfsDirectory
  import opened BmfsFiles

  method FindFile(directory: array<Entry>, filename: seq<byte>) returns (found: bool, entrynumber: nat)
    requires directory.Length == ENTRIES
    ensures found == Find(directory[..], filename).Some?
    ensures found ==> entrynumber == Find(directory[..], filename).value
  {
    entrynumber := 0;
    found := false;
    ghost var d := directory[..];
    var i := 0;
    while i < 64
      invariant 0 <= i <= 64 && i <= End(d)
      invariant Find(d, filename) == FindFrom(d, filename, i)
    {
      if directory[i].IsEnd() {
        return false, 0;
      } else if !directory[i].Unused() {
        if filename == directory[i].name {
          return true, i;
        }
      }
      i := i + 1;
    }
  }

  /** The counting loop of create(). */
  method CountEntries(directory: array<Entry>) returns (used: nat, firstFree: int)
    requires directory.Length == ENTRIES
    ensures used == Counted(directory[..])
    ensures firstFree == match FirstFree(directory[..]) case None => -1 case Some(k) => k
  {
    used, firstFree := 0, -1;
    ghost var d := directory[..];
    var i := 0;
    while i < 64
      invariant 0 <= i <= 64 && i <= End(d)
      invariant used == 0
      invariant firstFree == -1 ==> FirstFree(d) == FirstFreeFrom(d, i)
      invariant firstFree != -1 ==> FirstFree(d) == Some(firstFree)
    {
      if directory[i].IsEnd() {
        used := i;
        if firstFree == -1 {
          firstFree := i;
        }
        return;
      } else if directory[i].Unused() {
        if firstFree == -1 {
          firstFree := i;
        }
      }
      i := i + 1;
    }
  }

  lemma SortedNone()
    ensures Sorted([]) == []
  {
  }

  lemma SortedNext(s: seq<Entry>, i: nat)
    requires i < |s|
    ensures Sorted(s[..i + 1]) == Insert(Sorted(s[..i]), s[i])
  {
    hide Insert;
    assert s[..i + 1][..i] == s[..i];
  }

  /** What create() uses of qsort: the first n records, in the order of the comparator. */
  method SortByStartingBlock(a: array<Entry>, n: nat)
    requires n <= a.Length
    modifies a
    ensures a[..n] == Sorted(old(a[..n])) && a[n..] == old(a[n..])
  {
    hide Sorted, Insert;
    ghost var was := a[..];
    SortedNone();
    var i := 0;
    while i < n
      invariant 0 <= i <= n
      invariant a[..i] == Sorted(was[..i]) && a[i..] == was[i..]
    {
      SortedNext(was, i);
      assert a[i] == a[i..][0] == was[i] && a[i..][1..] == a[i + 1..];
      assert was[i..][1..] == was[i + 1..];
      Sink(a, i);
      i := i + 1;
    }
    assert was[..n] == old(a[..n]);
  }

  /** How far the insertion of x has come: it stands before s[j..]. */
  ghost predicate Sinking(s: seq<Entry>, x: Entry, j: nat) {
    j <= |s| && Insert(s, x) == Insert(s[..j], x) + s[j..]
  }

  lemma SinkStarts(s: seq<Entry>, x: Entry)
    ensures Sinking(s, x, |s|)
  {
    hide Insert;
    assert s[..|s|] == s;
  }

  /** One swap of the insertion: x passes record j - 1. */
  lemma SinkPasses(s: seq<Entry>, x: Entry, j: nat)
    requires 0 < j && Sinking(s, x, j) && StartingBlockCmp(s[j - 1], x) > 0
    ensures Sinking(s, x, j - 1)
  {
    hide StartingBlockCmp;
    assert s[..j][..j - 1] == s[..j - 1];
  }

  /** r is s with x put in before s[j..], and then `after`. */
  predicate PutAt(r: seq<Entry>, s: seq<Entry>, x: Entry, j: nat, after: seq<Entry>) {
    j <= |s| && r == s[..j] + [x] + s[j..] + after
  }

  lemma SwapPutAt(r: seq<Entry>, s: seq<Entry>, x: Entry, j: nat, after: seq<Entry>)
    requires 0 < j && PutAt(r, s, x, j, after)
    ensures PutAt(r[j - 1 := r[j]][j := r[j - 1]], s, x, j - 1, after)
  {
    assert s[..j] == s[..j - 1] + [s[j - 1]] && s[j - 1..] == [s[j - 1]] + s[j..];
  }

  lemma PutAtPlaces(r: seq<Entry>, s: seq<Entry>, x: Entry, j: nat, after: seq<Entry>)
    requires PutAt(r, s, x, j, after)
    ensures |r| == |s| + 1 + |after| && r[j] == x && (j > 0 ==> r[j - 1] == s[j - 1])
  {
  }

  lemma SinkEnds(r: seq<Entry>, s: seq<Entry>, x: Entry, j: nat, after: seq<Entry>)
    requires Sinking(s, x, j) && (j > 0 ==> StartingBlockCmp(s[j - 1], x) <= 0)
    requires PutAt(r, s, x, j, after)
    ensures r[..|s| + 1] == Insert(s, x) && r[|s| + 1..] == after
  {
    hide StartingBlockCmp;
    assert Insert(s, x) == s[..j] + [x] + s[j..];
  }

  method Swap(a: array<Entry>, i: nat, j: nat)
    requires i < a.Length && j < a.Length
    modifies a
    ensures a[..] == old(a[..])[i := old(a[j])][j := old(a[i])]
  {
    a[i], a[j] := a[j], a[i];
  }

  /** Record i moves down by swaps to where the comparator puts it. */
  method Sink(a: array<Entry>, i: nat)
    requires i < a.Length
    modifies a
    ensures a[..i + 1] == Insert(old(a[..i]), old(a[i])) && a[i + 1..] == old(a[i + 1..])
  {
    hide StartingBlockCmp, Sinking;
    ghost var s, x, after := a[..i], a[i], a[i + 1..];
    SinkStarts(s, x);
    assert PutAt(a[..], s, x, i, after);
    hide PutAt, Insert;
    var j := i;
    PutAtPlaces(a[..], s, x, j, after);
    while j > 0 && StartingBlockCmp(a[j - 1], a[j]) > 0
      invariant 0 <= j <= i && Sinking(s, x, j) && PutAt(a[..], s, x, j, after)
      invariant a[j] == x && (j > 0 ==> a[j - 1] == s[j - 1])
    {
      SwapPutAt(a[..], s, x, j, after);
      SinkPasses(s, x, j);
      Swap(a, j - 1, j);
      j := j - 1;
      PutAtPlaces(a[..], s, x, j, after);
    }
    SinkEnds(a[..], s, x, j, after);
    assert a[..][..i + 1] == a[..i + 1] && a[..][i + 1..] == a[i + 1..];
  }

  /** The gap loop of create(), on the sorted copy. */
  method FindGap(copy: array<Entry>, used: nat, blocks: nat, requested: nat) returns (newStart: nat)
    requires copy.Length == ENTRIES && used < ENTRIES
    ensures newStart == Scan(copy[..used], 0, 1, blocks, requested)
  {
    newStart := 0;
    var prevEnd: nat := 1;
    ghost var s := copy[..used];
    var i := 0;
    while i < used + 1
      invariant 0 <= i <= used + 1 && newStart == 0
      invariant i <= used ==> Scan(s, 0, 1, blocks, requested) == Scan(s, i, prevEnd, blocks, requested)
      invariant i == used + 1 ==> Scan(s, 0, 1, blocks, requested) == 0
    {
      var thisStart := if i == used || copy[i].Unused() then UInt64(blocks - 1) else copy[i].start;
      if UInt64(thisStart - prevEnd) >= requested {
        return prevEnd;
      }
      if i < used {
        prevEnd := UInt64(copy[i].start + copy[i].reserved);
      }
      i := i + 1;
    }
  }

  /** Sorts a copy of the directory and looks for a gap in it. */
  method FindPlace(directory: array<Entry>, used: nat, blocks: nat, requested: nat) returns (newStart: nat)
    requires directory.Length == ENTRIES && used == Counted(directory[..])
    ensures newStart == Place(directory[..], blocks, requested)
  {
    var copy := new Entry[ENTRIES](i requires 0 <= i < ENTRIES reads directory => directory[i]);
    assert copy[..used] == directory[..][..used];
    SortByStartingBlock(copy, used);
    newStart := FindGap(copy, used, blocks, requested);
  }

  class Volume {
    const directory: array<Entry>
    const disk: array<byte>

    ghost predicate Valid()
      reads directory
    {
      directory.Length == ENTRIES && Disk(Blocks(disk.Length))
    }

    ghost function View(): Fs
      reads directory, disk
    {
      Fs(directory[..], disk[..])
    }

    constructor (image: array<byte>)
      requires Disk(Blocks(image.Length))
      ensures Valid() && fresh(directory) && disk == image
      ensures View() == AfterFormat(View())
    {
      disk := image;
      directory := new Entry[ENTRIES](_ => Blank());
    }

    method Format()
      requires Valid()
      modifies directory
      ensures Valid() && View() == AfterFormat(old(View()))
      ensures forall i | 0 <= i < 64 :: directory[i] == Entry([], 0, 0, 0)
    {
      var i := 0;
      while i < 64
        invariant 0 <= i <= 64
        invariant forall j | 0 <= j < i :: directory[j] == Blank()
      {
        directory[i] := Blank();
        i := i + 1;
      }
    }

    method Create(filename: seq<byte>, maxsize: nat) returns (ok: bool)
      requires Valid() && Storable(filename) && 1 <= maxsize <= INT_MAX
      modifies directory
      ensures Valid() && View() == AfterCreate(old(View()), filename, maxsize)
      ensures ok == Creates(old(View()), filename, maxsize)
      ensures ok ==> exists e | e in directory[..] ::
                && e.name == filename && e.size == 0
                && (e.reserved - 1) * BLOCK_SIZE < maxsize * MIB <= e.reserved * BLOCK_SIZE
    {
      hide Place, Find, FirstFree;
      var found, _ := FindFile(directory, filename);
      if found {
        return false;
      }
      var rounded := if maxsize % 2 != 0 then maxsize + 1 else maxsize;
      var requested, blocks := rounded / 2, disk.Length / MIB / 2;
      var used, firstFree := CountEntries(directory);
      if firstFree == -1 {
        return false;
      }
      var newStart := FindPlace(directory, used, blocks, requested);
      if newStart == 0 {
        return false;
      }
      directory[firstFree] := Entry(filename, newStart, requested, 0);
      if firstFree == used && used + 1 < 64 {
        directory[used + 1] := directory[used + 1].(name := []);
      }
      assert directory[..][firstFree] == Entry(filename, newStart, requested, 0);
      ok := true;
    }

    /** The bytes read() copies to the local file. */
    method Read(filename: seq<byte>) returns (contents: Option<seq<byte>>)
      requires Valid() && Formed(View())
      ensures contents == Lookup(View(), filename)
      ensures match Find(directory[..], filename)
              case None => contents == None
              case Some(k) =>
                var (at, size) := (directory[k].start * BLOCK_SIZE, directory[k].size);
                at + size <= disk.Length && contents == Some(disk[at..at + size])
    {
      var found, slot := FindFile(directory, filename);
      if !found {
        return None;
      }
      FoundOnDisk(View(), slot);
      var e := directory[slot];
      var position := e.start * 2097152;
      var bytes: seq<byte> := [];
      var i := 0;
      while i < e.size
        invariant 0 <= i <= e.size && bytes == disk[position..position + i]
      {
        bytes := bytes + [disk[position + i]];
        i := i + 1;
      }
      contents := Some(bytes);
    }

    method Write(filename: seq<byte>, bytes: seq<byte>) returns (ok: bool)
      requires Valid() && Formed(View()) && |bytes| <= INT_MAX
      modifies directory, disk
      ensures Valid() && View() == AfterWrite(old(View()), filename, bytes)
      ensures ok == Writes(old(View()), filename, bytes)
      ensures ok ==> var e := old(directory[..])[Find(old(directory[..]), filename).value];
                     var at := e.start * BLOCK_SIZE;
                     && at + |bytes| <= disk.Length && disk[at..at + |bytes|] == bytes
                     && forall i | 0 <= i < disk.Length && !(at <= i < at + |bytes|) :: disk[i] == old(disk[i])
    {
      var found, slot := FindFile(directory, filename);
      if !found {
        return false;
      }
      var e := directory[slot];
      if e.reserved * 2097152 < |bytes| {
        return false;
      }
      FoundOnDisk(View(), slot);
      Put(disk, e.start * 2097152, bytes);
      directory[slot] := e.(size := |bytes|);
      ok := true;
    }

    method Delete(filename: seq<byte>) returns (ok: bool)
      requires Valid()
      modifies directory
      ensures Valid() && View() == AfterDelete(old(View()), filename)
      ensures ok == Find(old(directory[..]), filename).Some?
      ensures ok ==> var k := Find(old(directory[..]), filename).value;
                     var e := old(directory[k]);
                     && directory[k] == Entry([1] + e.name[1..], e.start, e.reserved, e.size)
                     && forall i | 0 <= i < 64 && i != k :: directory[i] == old(directory[i])
    {
      var found, slot := FindFile(directory, filename);
      if found {
        var e := directory[slot];
        directory[slot] := e.(name := e.name[0 := 1]);
      }
      ok := found;
    }
  }

  /** fseek and a putc for every byte. */
  method Put(disk: array<byte>, position: nat, bytes: seq<byte>)
    requires position + |bytes| <= disk.Length
    modifies disk
    ensures disk[..] == Overwritten(old(disk[..]), position, bytes)
  {
    var i := 0;
    while i < |bytes|
      invariant 0 <= i <= |bytes|
      invariant disk[..] == Overwritten(old(disk[..]), position, bytes[..i])
    {
      disk[position + i] := bytes[i];
      i := i + 1;
    }
    assert bytes[..i] == bytes;
  }
}
