/** A run of the BMFS utility (Bootloader/BMFS/bmfs.c) that loses 63 files: fill the directory,
    delete the first file, create another. */
module BmfsFull {
  import opened Bytes
  import opened Options
  import opened BmfsCreate
  import opened BmfsDirectory
  import opened BmfsFiles

  function NameOf(i: nat): (name: seq<byte>)
    requires i <= ENTRIES
    ensures Storable(name)
  {
    [100 + i]
  }

  /** File i takes block i + 1. */
  function File(i: nat): Entry
    requires i < ENTRIES
  {
    Entry(NameOf(i), i + 1, 1, 0)
  }

  function Filled(n: nat): (d: seq<Entry>)
    requires n <= ENTRIES
    ensures |d| == ENTRIES && forall i: nat | i < ENTRIES :: d[i] == if i < n then File(i) else Blank()
  {
    seq(ENTRIES, i requires 0 <= i < ENTRIES => if i < n then File(i) else Blank())
  }

  /** n times create. */
  function Fill(fs: Fs, n: nat): Fs
    requires n <= ENTRIES
  {
    if n == 0 then fs else AfterCreate(Fill(fs, n - 1), NameOf(n - 1), 2)
  }

  lemma FilledEnd(n: nat)
    requires n <= ENTRIES
    ensures End(Filled(n)) == n
    ensures forall e | e in Filled(n)[..n] :: exists i: nat :: i < n && e == File(i)
  {
    EndIs(Filled(n), n);
  }

  lemma FilledPlace(n: nat, blocks: nat)
    requires n < ENTRIES && Disk(blocks) && 66 <= blocks
    ensures Place(Filled(n), blocks, 1) == n + 1
  {
    hide Place;
    FilledEnd(n);
    var d, s := Filled(n), Filled(n)[..n];
    assert Fits(s, blocks, 1, n + 1);
    PlaceWithEndMarker(d, blocks, 1);
    forall at | 1 <= at <= n ensures !Fits(s, blocks, 1, at) {
      assert s[at - 1] in s && s[at - 1] == File(at - 1);
    }
  }

  lemma FilledCreate(disk: seq<byte>, n: nat)
    requires n < ENTRIES && Disk(Blocks(|disk|)) && 66 <= Blocks(|disk|)
    ensures AfterCreate(Fs(Filled(n), disk), NameOf(n), 2) == Fs(Filled(n + 1), disk)
  {
    hide Place;
    FilledEnd(n);
    FilledPlace(n, Blocks(|disk|));
    assert Recorded(Filled(n), File(n)) == Filled(n + 1);
  }

  lemma {:induction false} FillFills(fs: Fs, n: nat)
    requires n <= ENTRIES && Disk(Blocks(|fs.disk|)) && 66 <= Blocks(|fs.disk|)
    ensures Fill(AfterFormat(fs), n) == Fs(Filled(n), fs.disk)
  {
    hide AfterCreate;
    if n == 0 {
      assert Filled(0) == AfterFormat(fs).dir;
    } else {
      FillFills(fs, n - 1);
      FilledCreate(fs.disk, n - 1);
    }
  }

  /** The directory once the first file is deleted: full, and its record 0 unused. */
  function Punctured(): (d: seq<Entry>)
    ensures |d| == ENTRIES && d[0] == Deleted(File(0)) && forall i: nat | 1 <= i < ENTRIES :: d[i] == File(i)
  {
    Filled(ENTRIES)[0 := Deleted(File(0))]
  }

  lemma PuncturedIsDeleted(disk: seq<byte>)
    ensures AfterDelete(Fs(Filled(ENTRIES), disk), NameOf(0)) == Fs(Punctured(), disk)
  {
    FilledEnd(ENTRIES);
  }

  lemma PuncturedEnd()
    ensures End(Punctured()) == ENTRIES && Punctured()[..ENTRIES] == Punctured()
  {
    hide Punctured;
    EndIs(Punctured(), ENTRIES);
  }

  lemma PuncturedFits(i: nat, blocks: nat)
    requires i < ENTRIES && 66 <= blocks
    ensures Inside(Punctured()[i], blocks) && Sized(Punctured()[i])
  {
    hide Punctured;
  }

  lemma PuncturedApart()
    ensures Apart(Punctured()) && forall i, j | 0 <= i < j < ENTRIES :: Punctured()[i].name != Punctured()[j].name
  {
    var d := Punctured();
    hide Punctured;
    assert forall i: nat | i < ENTRIES :: d[i].start == i + 1 && d[i].reserved == 1;
    assert forall i: nat | 1 <= i < ENTRIES :: d[i].name[0] == 100 + i;
    assert d[0].name[0] == UNUSED_MARK;
  }

  lemma PuncturedIsGood(disk: seq<byte>)
    requires Disk(Blocks(|disk|)) && 66 <= Blocks(|disk|)
    ensures Good(Fs(Punctured(), disk))
  {
    var d, blocks := Punctured(), Blocks(|disk|);
    PuncturedEnd();
    PuncturedApart();
    hide Punctured, Blocks, Inside, Sized, Disk, Apart, Filled;
    assert Unique(d);
    forall e | e in d ensures Inside(e, blocks) && Sized(e) {
      var i: nat :| i < ENTRIES && d[i] == e;
      PuncturedFits(i, blocks);
    }
    hide Unique;
    assert AllInside(d[..End(d)], blocks);
  }

  /** From a freshly formatted disk of 66 blocks or more: 64 creates, one delete and one more
      create, each of which succeeds, leave one file of the 63 that were there. */
  lemma FullDirectoryLosesFiles(fs: Fs)
    requires Disk(Blocks(|fs.disk|)) && 66 <= Blocks(|fs.disk|)
    ensures var full := AfterDelete(Fill(AfterFormat(fs), ENTRIES), NameOf(0));
            && Good(full) && Creates(full, NameOf(ENTRIES), 2)
            && Formed(AfterCreate(full, NameOf(ENTRIES), 2))
            && forall i: nat | 1 <= i < ENTRIES ::
                 Lookup(full, NameOf(i)) == Some([]) && Lookup(AfterCreate(full, NameOf(ENTRIES), 2), NameOf(i)) == None
  {
    hide Place, AfterCreate, AfterDelete;
    FillFills(fs, ENTRIES);
    PuncturedIsGood(fs.disk);
    PuncturedIsDeleted(fs.disk);
    PuncturedEnd();
    var full := Fs(Punctured(), fs.disk);
    PuncturedCreates(fs.disk);
    ReuseOfFirstRecordLosesFiles(full, NameOf(ENTRIES), 2);
    forall i: nat | 1 <= i < ENTRIES ensures Lookup(full, NameOf(i)) == Some([]) && NameOf(i) != NameOf(ENTRIES) {
      PuncturedLookup(fs.disk, i);
    }
  }

  lemma PuncturedLookup(disk: seq<byte>, i: nat)
    requires Good(Fs(Punctured(), disk)) && End(Punctured()) == ENTRIES && 1 <= i < ENTRIES
    ensures Lookup(Fs(Punctured(), disk), NameOf(i)) == Some([]) && NameOf(i) != NameOf(ENTRIES)
  {
    hide Punctured, Unique, Apart, AllInside;
    var fs := Fs(Punctured(), disk);
    FoundAt(fs.dir, i);
    FoundOnDisk(fs, i);
    assert Contents(disk, fs.dir[i]) == [];
  }

  lemma PuncturedCreates(disk: seq<byte>)
    requires End(Punctured()) == ENTRIES && Disk(Blocks(|disk|)) && 66 <= Blocks(|disk|)
    ensures Creates(Fs(Punctured(), disk), NameOf(ENTRIES), 2) && !Punctured()[0].Live()
  {
    hide Place, Good, Punctured;
    PlaceWithoutEndMarker(Punctured(), Blocks(|disk|), 1);
  }
}
