/** create() (Bootloader/BMFS/bmfs.c): when the new file really is disjoint from the others. */
module BmfsCreate {
  import opened Bytes
  import opened Options
  import opened MyMath
  import opened BmfsDirectory
  import opened BmfsFiles

  predicate Request(name: seq<byte>, maxsize: nat) {
    Storable(name) && 1 <= maxsize <= INT_MAX
  }

  function NewEntry(fs: Fs, name: seq<byte>, maxsize: nat): Entry {
    Entry(name, Place(fs.dir, Blocks(|fs.disk|), Requested(maxsize)), Requested(maxsize), 0)
  }

  /** What a caller can check beforehand: create() fails, or a gap exists where it looks and
      marking the next record as the end cuts nothing off. */
  ghost predicate Safe(fs: Fs, name: seq<byte>, maxsize: nat) {
    var d, blocks, requested := fs.dir, Blocks(|fs.disk|), Requested(maxsize);
    || Find(d, name).Some?
    || if End(d) < |d|
       then HasRoom(d[..End(d)], blocks, requested) || !RoomAboveUnused(d[..End(d)], blocks, requested)
       else || FirstFree(d) == None
            || requested > blocks - 2
            || (Fits(d, blocks, requested, 1) && (d[0].Live() || forall e | e in d :: !e.Live()))
  }

  /** The record count after create(): one more, the same, or just one when record 0 of a
      full directory was reused. */
  function NewEnd(d: seq<Entry>): nat
    requires FirstFree(d).Some?
  {
    var slot := FirstFree(d).value;
    if slot == End(d) then slot + 1
    else if End(d) == |d| && slot == 0 && 1 < |d| then 1
    else End(d)
  }

  lemma RecordedAt(d: seq<Entry>, e: Entry)
    requires FirstFree(d).Some? && !e.IsEnd()
    ensures var r, n := Recorded(d, e), NewEnd(d);
            && |r| == |d| && End(r) == n && FirstFree(d).value < n <= |d|
            && r[FirstFree(d).value] == e
            && forall i | 0 <= i < n && i != FirstFree(d).value :: i < End(d) && r[i] == d[i]
  {
    EndIs(Recorded(d, e), NewEnd(d));
  }

  lemma PlaceIsInside(fs: Fs, maxsize: nat)
    requires Good(fs) && maxsize >= 1
    ensures var at := Place(fs.dir, Blocks(|fs.disk|), Requested(maxsize));
            at != 0 ==> 1 <= at && at + Requested(maxsize) <= Blocks(|fs.disk|) - 1
  {
    hide Scan, Sorted, Place;
    if End(fs.dir) < |fs.dir| {
      PlaceWithEndMarker(fs.dir, Blocks(|fs.disk|), Requested(maxsize));
    } else {
      PlaceWithoutEndMarker(fs.dir, Blocks(|fs.disk|), Requested(maxsize));
    }
  }

  lemma CreateKeepsFormed(fs: Fs, name: seq<byte>, maxsize: nat)
    requires Good(fs) && Request(name, maxsize)
    ensures Formed(AfterCreate(fs, name, maxsize))
  {
    hide Place;
    if Creates(fs, name, maxsize) {
      var d, e := fs.dir, NewEntry(fs, name, maxsize);
      PlaceIsInside(fs, maxsize);
      RecordedAt(d, e);
      forall i | 0 <= i < NewEnd(d) && i != FirstFree(d).value
        ensures Inside(d[i], Blocks(|fs.disk|)) && Sized(d[i])
      {
        FoundOnDisk(fs, i);
      }
    }
  }

  /** The new file is disjoint from the rest exactly when its place fits among the records kept. */
  lemma CreateApart(fs: Fs, name: seq<byte>, maxsize: nat)
    requires Good(fs) && Request(name, maxsize) && Creates(fs, name, maxsize)
    ensures var d, e, d' := fs.dir, NewEntry(fs, name, maxsize), AfterCreate(fs, name, maxsize).dir;
            Apart(d'[..End(d')]) <==>
            forall i | 0 <= i < End(d) && i < NewEnd(d) && d[i].Live() :: Disjoint(d[i], e)
  {
    hide Place;
    var d, e := fs.dir, NewEntry(fs, name, maxsize);
    var d' := AfterCreate(fs, name, maxsize).dir;
    RecordedAt(d, e);
    var slot, n := FirstFree(d).value, NewEnd(d);
    var s, s' := d[..End(d)], d'[..n];
    if Apart(s') {
      forall i | 0 <= i < End(d) && i < n && d[i].Live() ensures Disjoint(d[i], e) {
        assert s'[i] == d[i] && s'[slot] == e;
      }
    } else {
      var i, j :| 0 <= i < j < n && s'[i].Live() && s'[j].Live() && !Disjoint(s'[i], s'[j]);
      assert i != slot ==> s[i] == s'[i];
      assert j != slot ==> s[j] == s'[j];
    }
  }

  /** In the directory create() fills one record, and takes the name from the next one if it makes
      that the end marker; no other record changes. */
  lemma CreateTouchesTwoRecords(fs: Fs, name: seq<byte>, maxsize: nat)
    requires |fs.dir| == ENTRIES && Creates(fs, name, maxsize)
    ensures var (slot, d, d') := (FirstFree(fs.dir).value, fs.dir, AfterCreate(fs, name, maxsize).dir);
            && |d'| == ENTRIES && d'[slot].name == name && d'[slot].size == 0
            && (slot + 1 < ENTRIES ==> d'[slot + 1] == d[slot + 1] || d'[slot + 1] == d[slot + 1].(name := []))
            && forall i | 0 <= i < ENTRIES && i != slot && i != slot + 1 :: d'[i] == d[i]
  {
    hide Place, Find;
  }

  /** A new file has room for the size asked for, which create() takes in MiB, and less than a block
      more. */
  lemma CreateReservesEnough(fs: Fs, name: seq<byte>, maxsize: nat)
    requires Good(fs) && Request(name, maxsize) && Creates(fs, name, maxsize)
    ensures var d' := AfterCreate(fs, name, maxsize).dir;
            && Find(d', name).Some?
            && var e := d'[Find(d', name).value];
               e.size == 0 && (e.reserved - 1) * BLOCK_SIZE < maxsize * MIB <= e.reserved * BLOCK_SIZE
  {
    hide Place;
    CreateKeepsFormed(fs, name, maxsize);
    RecordedAt(fs.dir, NewEntry(fs, name, maxsize));
    FoundAt(AfterCreate(fs, name, maxsize).dir, FirstFree(fs.dir).value);
  }

  predicate Overlapped(d: seq<Entry>, e: Entry) {
    exists i | 0 <= i < End(d) :: d[i].Live() && !Disjoint(d[i], e)
  }

  /** Of the new extent: it fits just when it overlaps no file. */
  lemma FitsIsDisjoint(d: seq<Entry>, e: Entry, blocks: nat)
    requires Inside(e, blocks)
    ensures Fits(d[..End(d)], blocks, e.reserved, e.start) <==> !Overlapped(d, e)
  {
    var s := d[..End(d)];
    if Fits(s, blocks, e.reserved, e.start) {
      forall i | 0 <= i < End(d) && d[i].Live() ensures Disjoint(d[i], e) {
        assert d[i] in s;
      }
    } else {
      var f :| f in s && f.Live() && !(f.After() <= e.start || e.start + e.reserved <= f.start);
      var i :| 0 <= i < End(d) && d[i] == f;
    }
  }

  lemma CreatedLookup(fs: Fs, name: seq<byte>, maxsize: nat, other: seq<byte>)
    requires Good(fs) && Request(name, maxsize) && Creates(fs, name, maxsize)
    ensures Formed(AfterCreate(fs, name, maxsize))
    ensures other == name ==> Lookup(AfterCreate(fs, name, maxsize), other) == Some([])
    ensures other != name && (Find(fs.dir, other).Some? ==> Find(fs.dir, other).value < NewEnd(fs.dir)) ==>
              Lookup(AfterCreate(fs, name, maxsize), other) == Lookup(fs, other)
    ensures other != name && Find(fs.dir, other).Some? && Find(fs.dir, other).value >= NewEnd(fs.dir) ==>
              Lookup(AfterCreate(fs, name, maxsize), other) == None
  {
    hide Place;
    CreateKeepsFormed(fs, name, maxsize);
    var fs' := AfterCreate(fs, name, maxsize);
    RecordedAt(fs.dir, NewEntry(fs, name, maxsize));
    if other == name {
      var k := FirstFree(fs.dir).value;
      FoundAt(fs'.dir, k);
      FoundOnDisk(fs', k);
      assert Contents(fs'.disk, fs'.dir[k]) == [];
    } else if Find(fs.dir, other).Some? {
      var k := Find(fs.dir, other).value;
      if k < NewEnd(fs.dir) {
        FoundAt(fs'.dir, k);
        FoundOnDisk(fs, k);
        SameLookup(fs, fs', other);
      }
    }
  }

  /** create() adds an empty file and leaves every other one, readable and disjoint, exactly
      under the condition Safe. */
  lemma CreateIsSafeExactly(fs: Fs, name: seq<byte>, maxsize: nat)
    requires Good(fs) && Request(name, maxsize)
    ensures Formed(AfterCreate(fs, name, maxsize))
    ensures Safe(fs, name, maxsize) <==>
            var fs' := AfterCreate(fs, name, maxsize);
            Good(fs') && forall other ::
              Lookup(fs', other) == if Creates(fs, name, maxsize) && other == name then Some([]) else Lookup(fs, other)
  {
    hide Place;
    CreateKeepsFormed(fs, name, maxsize);
    if Creates(fs, name, maxsize) {
      if Safe(fs, name, maxsize) {
        SafeKeepsGood(fs, name, maxsize);
      } else {
        UnsafeBreaks(fs, name, maxsize);
      }
    } else {
      FailureIsSafe(fs, name, maxsize);
    }
  }

  lemma FailureIsSafe(fs: Fs, name: seq<byte>, maxsize: nat)
    requires Good(fs) && Request(name, maxsize) && !Creates(fs, name, maxsize)
    ensures Safe(fs, name, maxsize)
  {
    hide Place;
    if End(fs.dir) < |fs.dir| {
      PlaceWithEndMarker(fs.dir, Blocks(|fs.disk|), Requested(maxsize));
    } else {
      PlaceWithoutEndMarker(fs.dir, Blocks(|fs.disk|), Requested(maxsize));
    }
  }

  lemma SafeKeepsApart(fs: Fs, name: seq<byte>, maxsize: nat)
    requires Good(fs) && Request(name, maxsize) && Creates(fs, name, maxsize) && Safe(fs, name, maxsize)
    ensures Good(AfterCreate(fs, name, maxsize))
  {
    hide Place, Apart, Unique, AllInside, Recorded, Disjoint, HasRoom, RoomAboveUnused;
    var d, blocks, e := fs.dir, Blocks(|fs.disk|), NewEntry(fs, name, maxsize);
    PlaceIsInside(fs, maxsize);
    CreateKeepsFormed(fs, name, maxsize);
    if End(d) < |d| {
      PlaceWithEndMarker(d, blocks, e.reserved);
    } else {
      PlaceWithoutEndMarker(d, blocks, e.reserved);
      assert d[..End(d)] == d;
    }
    FitsIsDisjoint(d, e, blocks);
    CreateApart(fs, name, maxsize);
  }

  lemma SafeKeepsGood(fs: Fs, name: seq<byte>, maxsize: nat)
    requires Good(fs) && Request(name, maxsize) && Creates(fs, name, maxsize) && Safe(fs, name, maxsize)
    ensures var fs' := AfterCreate(fs, name, maxsize);
            Good(fs') && forall other :: Lookup(fs', other) == if other == name then Some([]) else Lookup(fs, other)
  {
    SafeKeepsApart(fs, name, maxsize);
    hide Place, Creates, AfterCreate, Formed, Apart;
    forall other
      ensures Lookup(AfterCreate(fs, name, maxsize), other) == if other == name then Some([]) else Lookup(fs, other)
    {
      if Find(fs.dir, other).Some? {
        SafeKeepsRecord(fs, name, maxsize, other);
      }
      CreatedLookup(fs, name, maxsize, other);
    }
  }

  lemma SafeKeepsRecord(fs: Fs, name: seq<byte>, maxsize: nat, other: seq<byte>)
    requires Good(fs) && Creates(fs, name, maxsize) && Safe(fs, name, maxsize) && Find(fs.dir, other).Some?
    requires Requested(maxsize) >= 1
    ensures Find(fs.dir, other).value < NewEnd(fs.dir)
  {
    if End(fs.dir) == |fs.dir| {
      PlaceWithoutEndMarker(fs.dir, Blocks(|fs.disk|), Requested(maxsize));
      assert fs.dir[Find(fs.dir, other).value] in fs.dir;
    }
  }

  lemma UnsafeBreaks(fs: Fs, name: seq<byte>, maxsize: nat)
    requires Good(fs) && Request(name, maxsize) && Creates(fs, name, maxsize) && !Safe(fs, name, maxsize)
    ensures var fs' := AfterCreate(fs, name, maxsize);
            Formed(fs') && (!Good(fs') || exists other :: other != name && Lookup(fs', other) != Lookup(fs, other))
  {
    hide Place;
    var d, blocks, e := fs.dir, Blocks(|fs.disk|), NewEntry(fs, name, maxsize);
    PlaceIsInside(fs, maxsize);
    CreateKeepsFormed(fs, name, maxsize);
    if End(d) < |d| {
      PlaceWithEndMarker(d, blocks, e.reserved);
      FitsIsDisjoint(d, e, blocks);
      CreateApart(fs, name, maxsize);
    } else {
      PlaceWithoutEndMarker(d, blocks, e.reserved);
      assert d[..End(d)] == d;
      if d[0].Live() {
        FitsIsDisjoint(d, e, blocks);
        CreateApart(fs, name, maxsize);
      } else {
        ReuseOfFirstRecordLosesFiles(fs, name, maxsize);
      }
    }
  }

  /** In a directory without an end marker whose record 0 is unused, the new file takes
      record 0, record 1 becomes the end marker, and every other file is gone. */
  lemma ReuseOfFirstRecordLosesFiles(fs: Fs, name: seq<byte>, maxsize: nat)
    requires Good(fs) && Request(name, maxsize) && Creates(fs, name, maxsize)
    requires End(fs.dir) == |fs.dir| && !fs.dir[0].Live()
    ensures Formed(AfterCreate(fs, name, maxsize))
    ensures forall other | other != name :: Lookup(AfterCreate(fs, name, maxsize), other) == None
    ensures forall i | 0 <= i < |fs.dir| && fs.dir[i].Live() ::
              fs.dir[i].name != name && Lookup(fs, fs.dir[i].name).Some?
  {
    hide Place;
    CreateKeepsFormed(fs, name, maxsize);
    forall other | other != name ensures Lookup(AfterCreate(fs, name, maxsize), other) == None {
      CreatedLookup(fs, name, maxsize, other);
    }
    forall i | 0 <= i < |fs.dir| && fs.dir[i].Live()
      ensures fs.dir[i].name != name && Lookup(fs, fs.dir[i].name).Some?
    {
      FoundAt(fs.dir, i);
    }
  }
}
