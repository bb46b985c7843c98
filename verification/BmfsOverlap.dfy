/** A run of the BMFS utility (Bootloader/BMFS/bmfs.c) that ends with two files sharing a block. */
module BmfsOverlap {
  import opened Bytes
  import opened Options
  import opened BmfsDirectory
  import opened BmfsFiles

  const A: seq<byte> := [65]
  const B: seq<byte> := [66]
  const D: seq<byte> := [68]
  const E: seq<byte> := [69]

  /** A directory that holds these records and then only blank ones. */
  function Dir(first: seq<Entry>): (d: seq<Entry>)
    requires |first| < ENTRIES
    ensures |d| == ENTRIES && d[..|first|] == first && d[|first|].IsEnd()
  {
    first + seq(ENTRIES - |first|, _ => Blank())
  }

  lemma DirEnd(first: seq<Entry>)
    requires |first| < ENTRIES && forall i | 0 <= i < |first| :: !first[i].IsEnd()
    ensures End(Dir(first)) == |first| && Dir(first)[..End(Dir(first))] == first
  {
    EndIs(Dir(first), |first|);
  }

  /** Where two records at most leave the scan on a disk of ten blocks. */
  lemma ScanOfTwo(s: seq<Entry>, requested: nat)
    requires |s| <= 2 && 1 <= requested <= 8 && AllInside(s, 10)
    ensures s == [] ==> Scan(s, 0, 1, 10, requested) == 1
    ensures |s| == 1 && s[0].Live() && s[0].start == 1 && requested <= 9 - s[0].After() ==>
              Scan(s, 0, 1, 10, requested) == s[0].After()
    ensures |s| == 2 && s[0].Unused() ==> Scan(s, 0, 1, 10, requested) == 1
    ensures |s| == 2 && s[0].Live() && s[0].start == 1 && s[1].Unused() && requested > 9 - s[0].After()
            && requested <= 9 - s[1].After() ==>
              Scan(s, 0, 1, 10, requested) == s[1].After()
  {
    if s != [] { assert s[0] in s; }
    if |s| == 2 {
      assert s[1] in s;
      assert Scan(s, 2, s[1].After(), 10, requested) == if 9 - s[1].After() >= requested then s[1].After() else 0;
    }
  }

  lemma SortedOfTwo(a: Entry, b: Entry)
    requires b.Unused()
    ensures Sorted([a]) == [a]
    ensures Sorted([a, b]) == if a.Unused() then [b, a] else [a, b]
  {
    assert [a][..0] == [] && [a, b][..1] == [a];
    assert Sorted([a, b]) == Insert([a], b);
    assert [a][..0] == [];
  }

  function Image(disk: seq<byte>, first: seq<Entry>): Fs
    requires |first| < ENTRIES
  {
    Fs(Dir(first), disk)
  }

  predicate TenBlocks(disk: seq<byte>) { Blocks(|disk|) == 10 }

  lemma PlaceIs(first: seq<Entry>, requested: nat)
    requires |first| < ENTRIES && forall i | 0 <= i < |first| :: !first[i].IsEnd()
    ensures Place(Dir(first), 10, requested) == Scan(Sorted(first), 0, 1, 10, requested)
  {
    DirEnd(first);
  }

  lemma FirstFile(disk: seq<byte>)
    requires TenBlocks(disk)
    ensures AfterCreate(Image(disk, []), D, 2) == Image(disk, [Entry(D, 1, 1, 0)])
  {
    hide Scan, Sorted, Place;
    PlaceIs([], 1);
    EmptySorted();
    ScanOfTwo([], 1);
    DirEnd([]);
    assert Recorded(Dir([]), Entry(D, 1, 1, 0)) == Dir([Entry(D, 1, 1, 0)]);
  }

  lemma SecondFile(disk: seq<byte>)
    requires TenBlocks(disk)
    ensures AfterCreate(Image(disk, [Entry(D, 1, 1, 0)]), E, 2) == Image(disk, [Entry(D, 1, 1, 0), Entry(E, 2, 1, 0)])
  {
    hide Scan, Sorted, Place;
    var d, e := Entry(D, 1, 1, 0), Entry(E, 2, 1, 0);
    PlaceIs([d], 1);
    SortedOfTwo(d, Deleted(e));
    ScanOfTwo([d], 1);
    DirEnd([d]);
    assert Dir([d])[0] == d;
    assert FirstFree(Dir([d])) == Some(1) && Find(Dir([d]), E) == None;
    hide Find, FirstFree;
    assert Recorded(Dir([d]), e) == Dir([d, e]);
  }

  lemma EmptySorted()
    ensures Sorted([]) == []
  {
  }

  lemma BothDeleted(disk: seq<byte>)
    requires TenBlocks(disk)
    ensures var d, e := Entry(D, 1, 1, 0), Entry(E, 2, 1, 0);
            AfterDelete(AfterDelete(Image(disk, [d, e]), D), E) == Image(disk, [Deleted(d), Deleted(e)])
  {
    var d, e := Entry(D, 1, 1, 0), Entry(E, 2, 1, 0);
    DirEnd([d, e]);
    assert Dir([d, e])[0] == d && Dir([d, e])[1] == e;
    var fs := AfterDelete(Image(disk, [d, e]), D);
    assert fs.dir == Dir([Deleted(d), e]);
    DirEnd([Deleted(d), e]);
    assert Dir([Deleted(d), e])[0] == Deleted(d) && Dir([Deleted(d), e])[1] == e;
    assert AfterDelete(fs, E).dir == Dir([Deleted(d), Deleted(e)]);
  }

  lemma LargeFile(disk: seq<byte>)
    requires TenBlocks(disk)
    ensures var d, e := Deleted(Entry(D, 1, 1, 0)), Deleted(Entry(E, 2, 1, 0));
            AfterCreate(Image(disk, [d, e]), A, 16) == Image(disk, [Entry(A, 1, 8, 0), e])
  {
    hide Scan, Sorted, Place;
    var d, e := Deleted(Entry(D, 1, 1, 0)), Deleted(Entry(E, 2, 1, 0));
    DirEnd([d, e]);
    PlaceIs([d, e], 8);
    SortedOfTwo(d, e);
    ScanOfTwo([e, d], 8);
    assert Dir([d, e])[0] == d;
    assert Recorded(Dir([d, e]), Entry(A, 1, 8, 0)) == Dir([Entry(A, 1, 8, 0), e]);
  }

  lemma SmallFile(disk: seq<byte>)
    requires TenBlocks(disk)
    ensures var a, e := Entry(A, 1, 8, 0), Deleted(Entry(E, 2, 1, 0));
            && Good(Image(disk, [a, e]))
            && AfterCreate(Image(disk, [a, e]), B, 2) == Image(disk, [a, Entry(B, 3, 1, 0)])
  {
    hide Scan, Sorted, Place;
    var a, e := Entry(A, 1, 8, 0), Deleted(Entry(E, 2, 1, 0));
    DirEnd([a, e]);
    PlaceIs([a, e], 1);
    SortedOfTwo(a, e);
    ScanOfTwo([a, e], 1);
    assert Dir([a, e])[0] == a && Dir([a, e])[1] == e;
    assert Recorded(Dir([a, e]), Entry(B, 3, 1, 0)) == Dir([a, Entry(B, 3, 1, 0)]);
  }

  /** On a freshly formatted disk of ten blocks: make D and E, delete both, make A with eight
      blocks, make B with one. B is placed at block 3, inside A, though no block is free. */
  lemma FilesCanOverlap(fs: Fs)
    requires TenBlocks(fs.disk)
    ensures var one := AfterCreate(AfterCreate(AfterFormat(fs), D, 2), E, 2);
            var two := AfterCreate(AfterDelete(AfterDelete(one, D), E), A, 16);
            var three := AfterCreate(two, B, 2);
            && Good(two) && Creates(two, B, 2) && !Good(three)
            && Find(three.dir, A) == Some(0) && three.dir[0] == Entry(A, 1, 8, 0)
            && Find(three.dir, B) == Some(1) && three.dir[1] == Entry(B, 3, 1, 0)
  {
    hide Scan, Sorted, Place, Good, AfterCreate, AfterDelete;
    var a, b, e := Entry(A, 1, 8, 0), Entry(B, 3, 1, 0), Deleted(Entry(E, 2, 1, 0));
    assert AfterFormat(fs) == Image(fs.disk, []);
    FirstFile(fs.disk);
    SecondFile(fs.disk);
    BothDeleted(fs.disk);
    LargeFile(fs.disk);
    SmallFile(fs.disk);
    SharedBlock(fs.disk, a, b);
    CreatedByDifference(Image(fs.disk, [a, e]), B, 2);
  }

  lemma CreatedByDifference(fs: Fs, name: seq<byte>, maxsize: nat)
    requires AfterCreate(fs, name, maxsize) != fs
    ensures Creates(fs, name, maxsize)
  {
  }

  lemma SharedBlock(disk: seq<byte>, a: Entry, b: Entry)
    requires a == Entry(A, 1, 8, 0) && b == Entry(B, 3, 1, 0)
    ensures !Good(Image(disk, [a, b]))
    ensures var d := Dir([a, b]); Find(d, A) == Some(0) && d[0] == a && Find(d, B) == Some(1) && d[1] == b
  {
    DirEnd([a, b]);
    var d := Dir([a, b]);
    assert d[0] == a && d[1] == b;
    assert !Disjoint(d[..End(d)][0], d[..End(d)][1]);
  }
}
