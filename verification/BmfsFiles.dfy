/** A BMFS disk as a map from file names to bytes (Bootloader/BMFS/bmfs.c): what create,
    write, delete and format do to what read returns, over whole runs. */
module BmfsFiles {
  import opened Bytes
  import opened Options
  import opened MyMath
  import opened BmfsDirectory

  const MIB: nat := 1048576

  /** `disk` is the whole medium; `dir` the directory that block 0 holds. */
  datatype Fs = Fs(dir: seq<Entry>, disk: seq<byte>)

  /** num_blocks: disksize is in MiB, a block is two. */
  function Blocks(bytes: nat): (r: nat)
    ensures r * BLOCK_SIZE <= bytes < (r + 1) * BLOCK_SIZE
  {
    bytes / MIB / 2
  }

  predicate Unique(d: seq<Entry>) {
    forall i, j | 0 <= i < j < End(d) :: d[i].Live() && d[j].Live() ==> d[i].name != d[j].name
  }

  /** The file fits its extent; read and write count its bytes in an int. */
  predicate Sized(e: Entry) {
    e.size <= e.reserved * BLOCK_SIZE && e.size <= INT_MAX
  }

  predicate Formed(fs: Fs) {
    && |fs.dir| == ENTRIES && Disk(Blocks(|fs.disk|)) && Unique(fs.dir)
    && AllInside(fs.dir[..End(fs.dir)], Blocks(|fs.disk|))
    && forall e | e in fs.dir[..End(fs.dir)] :: Sized(e)
  }

  predicate Good(fs: Fs) {
    Formed(fs) && Apart(fs.dir[..End(fs.dir)])
  }

  function FirstByte(e: Entry): nat { e.start * BLOCK_SIZE }

  predicate OnDisk(e: Entry, bytes: nat) {
    BLOCK_SIZE <= FirstByte(e) && FirstByte(e) + e.size <= FirstByte(e) + e.reserved * BLOCK_SIZE <= bytes
  }

  lemma FoundOnDisk(fs: Fs, k: nat)
    requires Formed(fs) && k < End(fs.dir)
    ensures OnDisk(fs.dir[k], |fs.disk|) && Sized(fs.dir[k]) && Inside(fs.dir[k], Blocks(|fs.disk|))
  {
    assert fs.dir[k] in fs.dir[..End(fs.dir)];
  }

  function Contents(disk: seq<byte>, e: Entry): seq<byte>
    requires OnDisk(e, |disk|)
  {
    disk[FirstByte(e)..FirstByte(e) + e.size]
  }

  /** The bytes read(name) copies out; None when it finds no such file. */
  function Lookup(fs: Fs, name: seq<byte>): Option<seq<byte>>
    requires Formed(fs)
  {
    match Find(fs.dir, name)
    case None => None
    case Some(k) => FoundOnDisk(fs, k); Some(Contents(fs.disk, fs.dir[k]))
  }

  // The operations

  function Requested(maxsize: nat): nat {
    (maxsize + maxsize % 2) / 2
  }

  predicate Creates(fs: Fs, name: seq<byte>, maxsize: nat) {
    Find(fs.dir, name) == None && FirstFree(fs.dir).Some? && Place(fs.dir, Blocks(|fs.disk|), Requested(maxsize)) != 0
  }

  function Recorded(d: seq<Entry>, e: Entry): seq<Entry>
    requires FirstFree(d).Some?
  {
    var slot := FirstFree(d).value;
    var marked := d[slot := e];
    if slot == Counted(d) && slot + 1 < |d|
    then marked[slot + 1 := marked[slot + 1].(name := [])] else marked
  }

  function AfterCreate(fs: Fs, name: seq<byte>, maxsize: nat): Fs {
    if !Creates(fs, name, maxsize) then fs
    else
      var requested := Requested(maxsize);
      fs.(dir := Recorded(fs.dir, Entry(name, Place(fs.dir, Blocks(|fs.disk|), requested), requested, 0)))
  }

  predicate Writes(fs: Fs, name: seq<byte>, bytes: seq<byte>) {
    Find(fs.dir, name).Some? && |bytes| <= fs.dir[Find(fs.dir, name).value].reserved * BLOCK_SIZE
  }

  function Overwritten(disk: seq<byte>, at: nat, bytes: seq<byte>): (r: seq<byte>)
    requires at + |bytes| <= |disk|
    ensures |r| == |disk| && r[at..at + |bytes|] == bytes
    ensures forall i | 0 <= i < |disk| && !(at <= i < at + |bytes|) :: r[i] == disk[i]
  {
    disk[..at] + bytes + disk[at + |bytes|..]
  }

  function AfterWrite(fs: Fs, name: seq<byte>, bytes: seq<byte>): Fs
    requires Formed(fs)
  {
    if !Writes(fs, name, bytes) then fs
    else
      var k := Find(fs.dir, name).value;
      FoundOnDisk(fs, k);
      Fs(fs.dir[k := fs.dir[k].(size := |bytes|)], Overwritten(fs.disk, FirstByte(fs.dir[k]), bytes))
  }

  function Deleted(e: Entry): Entry
    requires e.Live()
  {
    e.(name := e.name[0 := UNUSED_MARK])
  }

  function AfterDelete(fs: Fs, name: seq<byte>): Fs {
    match Find(fs.dir, name)
    case None => fs
    case Some(k) => fs.(dir := fs.dir[k := Deleted(fs.dir[k])])
  }

  function Blank(): Entry { Entry([], 0, 0, 0) }

  function AfterFormat(fs: Fs): Fs {
    fs.(dir := seq(ENTRIES, _ => Blank()))
  }

  // Finding records again after an update

  lemma EndIs(d: seq<Entry>, n: nat)
    requires n <= |d| && (forall i | 0 <= i < n :: !d[i].IsEnd()) && (n < |d| ==> d[n].IsEnd())
    ensures End(d) == n
  {
  }

  lemma FoundAt(d: seq<Entry>, k: nat)
    requires Unique(d) && k < End(d) && d[k].Live()
    ensures Find(d, d[k].name) == Some(k)
  {
  }

  /** Lookup depends on the live records alone. */
  predicate SameFile(fs: Fs, fs': Fs, name: seq<byte>)
    requires Formed(fs) && Formed(fs')
  {
    match Find(fs.dir, name)
    case None => Find(fs'.dir, name) == None
    case Some(k) =>
      FoundOnDisk(fs, k);
      && Find(fs'.dir, name) == Some(k) && fs'.dir[k] == fs.dir[k]
      && |fs'.disk| == |fs.disk| && Contents(fs'.disk, fs.dir[k]) == Contents(fs.disk, fs.dir[k])
  }

  lemma SameLookup(fs: Fs, fs': Fs, name: seq<byte>)
    requires Formed(fs) && Formed(fs') && SameFile(fs, fs', name)
    ensures Lookup(fs', name) == Lookup(fs, name)
  {
  }

  // delete

  lemma DeleteKeepsFormed(fs: Fs, name: seq<byte>)
    requires Formed(fs)
    ensures Formed(AfterDelete(fs, name))
    ensures End(AfterDelete(fs, name).dir) == End(fs.dir)
    ensures Apart(fs.dir[..End(fs.dir)]) ==> Apart(AfterDelete(fs, name).dir[..End(fs.dir)])
  {
    if Find(fs.dir, name).Some? {
      var k := Find(fs.dir, name).value;
      var d, d' := fs.dir, AfterDelete(fs, name).dir;
      EndIs(d', End(d));
      forall i | 0 <= i < End(d) ensures Inside(d'[i], Blocks(|fs.disk|)) && Sized(d'[i]) {
        FoundOnDisk(fs, i);
      }
    }
  }

  /** In the directory delete overwrites one byte: the first of the name. */
  lemma DeleteMarksRecord(fs: Fs, name: seq<byte>)
    ensures match Find(fs.dir, name)
            case None => AfterDelete(fs, name).dir == fs.dir
            case Some(k) =>
              var e := fs.dir[k];
              AfterDelete(fs, name).dir == fs.dir[k := Entry([1] + e.name[1..], e.start, e.reserved, e.size)]
  {
    if Find(fs.dir, name).Some? {
      var e := fs.dir[Find(fs.dir, name).value];
      assert e.name[0 := UNUSED_MARK] == [1] + e.name[1..];
    }
  }

  /** delete takes one name out of the map and leaves every other file. */
  lemma DeleteRemovesOne(fs: Fs, name: seq<byte>, other: seq<byte>)
    requires Good(fs)
    ensures Good(AfterDelete(fs, name))
    ensures Lookup(AfterDelete(fs, name), other) == if other == name then None else Lookup(fs, other)
  {
    DeleteKeepsFormed(fs, name);
    var fs' := AfterDelete(fs, name);
    if Find(fs.dir, name).Some? && other != name {
      if Find(fs.dir, other).Some? {
        FoundAt(fs'.dir, Find(fs.dir, other).value);
      }
      SameLookup(fs, fs', other);
    }
  }

  // write

  lemma WriteKeepsFormed(fs: Fs, name: seq<byte>, bytes: seq<byte>)
    requires Formed(fs) && |bytes| <= INT_MAX
    ensures Formed(AfterWrite(fs, name, bytes))
    ensures End(AfterWrite(fs, name, bytes).dir) == End(fs.dir)
    ensures Apart(fs.dir[..End(fs.dir)]) ==> Apart(AfterWrite(fs, name, bytes).dir[..End(fs.dir)])
  {
    if Writes(fs, name, bytes) {
      var k := Find(fs.dir, name).value;
      FoundOnDisk(fs, k);
      var d, d' := fs.dir, AfterWrite(fs, name, bytes).dir;
      EndIs(d', End(d));
      forall i | 0 <= i < End(d) ensures Inside(d'[i], Blocks(|fs.disk|)) && Sized(d'[i]) {
        FoundOnDisk(fs, i);
      }
    }
  }

  lemma WriteStaysInside(fs: Fs, name: seq<byte>, bytes: seq<byte>, k: nat)
    requires Good(fs) && k < End(fs.dir) && fs.dir[k].Live() && fs.dir[k].name != name
    requires OnDisk(fs.dir[k], |fs.disk|)
    ensures |AfterWrite(fs, name, bytes).disk| == |fs.disk|
    ensures Contents(AfterWrite(fs, name, bytes).disk, fs.dir[k]) == Contents(fs.disk, fs.dir[k])
  {
    if Writes(fs, name, bytes) {
      var j := Find(fs.dir, name).value;
      FoundOnDisk(fs, j);
      var d := fs.dir[..End(fs.dir)];
      assert d[j] == fs.dir[j] && d[k] == fs.dir[k];
      assert Disjoint(d[j], d[k]);
    }
  }

  /** A write that fits is what read then returns; no other file and nothing in block 0 changes. */
  lemma WriteReplacesOne(fs: Fs, name: seq<byte>, bytes: seq<byte>, other: seq<byte>)
    requires Good(fs) && |bytes| <= INT_MAX
    ensures Good(AfterWrite(fs, name, bytes))
    ensures Lookup(AfterWrite(fs, name, bytes), other) ==
            if Writes(fs, name, bytes) && other == name then Some(bytes) else Lookup(fs, other)
    ensures AfterWrite(fs, name, bytes).disk[..BLOCK_SIZE] == fs.disk[..BLOCK_SIZE]
  {
    WriteKeepsFormed(fs, name, bytes);
    var fs' := AfterWrite(fs, name, bytes);
    if Writes(fs, name, bytes) {
      var j := Find(fs.dir, name).value;
      FoundOnDisk(fs, j);
      if other == name {
        FoundAt(fs'.dir, j);
      } else {
        if Find(fs.dir, other).Some? {
          var k := Find(fs.dir, other).value;
          FoundAt(fs'.dir, k);
          FoundOnDisk(fs, k);
          WriteStaysInside(fs, name, bytes, k);
        }
        SameLookup(fs, fs', other);
      }
    }
  }

  // what happens to the bytes of the medium

  lemma BytesInPlace(disk: seq<byte>, at: nat, bytes: seq<byte>)
    requires at + |bytes| <= |disk|
    ensures forall i | 0 <= i < |bytes| :: Overwritten(disk, at, bytes)[at + i] == bytes[i]
    ensures forall i | 0 <= i < |disk| && !(at <= i < at + |bytes|) :: Overwritten(disk, at, bytes)[i] == disk[i]
  {
  }

  /** A write is refused when the bytes exceed the extent. Otherwise they go to the extent's start,
      one after the other; no other byte of the medium changes, and of the directory only the size. */
  lemma WritePutsBytes(fs: Fs, name: seq<byte>, bytes: seq<byte>)
    requires Formed(fs) && Find(fs.dir, name).Some?
    ensures var (k, fs') := (Find(fs.dir, name).value, AfterWrite(fs, name, bytes));
            var e := fs.dir[k];
            var at := e.start * BLOCK_SIZE;
            if |bytes| > e.reserved * BLOCK_SIZE then fs' == fs
            else
              && at + |bytes| <= |fs.disk| == |fs'.disk| && fs'.dir == fs.dir[k := e.(size := |bytes|)]
              && (forall i | 0 <= i < |bytes| :: fs'.disk[at + i] == bytes[i])
              && forall i | 0 <= i < |fs.disk| && !(at <= i < at + |bytes|) :: fs'.disk[i] == fs.disk[i]
  {
    if Writes(fs, name, bytes) {
      var e := fs.dir[Find(fs.dir, name).value];
      FoundOnDisk(fs, Find(fs.dir, name).value);
      hide Formed, Find, Overwritten;
      BytesInPlace(fs.disk, e.start * BLOCK_SIZE, bytes);
    }
  }

  /** A read takes as many bytes as the record counts, from the extent's start. */
  lemma ReadTakesBytes(fs: Fs, name: seq<byte>)
    requires Formed(fs) && Find(fs.dir, name).Some?
    ensures var e := fs.dir[Find(fs.dir, name).value];
            && e.start * BLOCK_SIZE + e.size <= |fs.disk|
            && Lookup(fs, name) == Some(fs.disk[e.start * BLOCK_SIZE..e.start * BLOCK_SIZE + e.size])
  {
    FoundOnDisk(fs, Find(fs.dir, name).value);
  }

  /** No write touches the first block, which holds the directory, or the last whole one. */
  lemma WriteSparesEnds(fs: Fs, name: seq<byte>, bytes: seq<byte>)
    requires Formed(fs)
    ensures |AfterWrite(fs, name, bytes).disk| == |fs.disk|
    ensures forall i | 0 <= i < |fs.disk| && (i < BLOCK_SIZE || (|fs.disk| / BLOCK_SIZE - 1) * BLOCK_SIZE <= i) ::
              AfterWrite(fs, name, bytes).disk[i] == fs.disk[i]
  {
    if Find(fs.dir, name).Some? {
      var e := fs.dir[Find(fs.dir, name).value];
      FoundOnDisk(fs, Find(fs.dir, name).value);
      WritePutsBytes(fs, name, bytes);
      WholeBlocks(|fs.disk|);
      assert e.start * BLOCK_SIZE + e.reserved * BLOCK_SIZE <= (Blocks(|fs.disk|) - 1) * BLOCK_SIZE;
    }
  }

  lemma WholeBlocks(bytes: nat)
    ensures Blocks(bytes) == bytes / BLOCK_SIZE
  {
  }

  /** create, delete and format change the directory alone. */
  lemma OthersLeaveMedium(fs: Fs, name: seq<byte>, maxsize: nat)
    ensures AfterCreate(fs, name, maxsize).disk == AfterDelete(fs, name).disk == AfterFormat(fs).disk == fs.disk
  {
    hide Place, Find, FirstFree;
  }

  // format

  lemma FormatEmpties(fs: Fs, name: seq<byte>)
    requires Disk(Blocks(|fs.disk|))
    ensures Good(AfterFormat(fs)) && Lookup(AfterFormat(fs), name) == None
    ensures |AfterFormat(fs).dir| == 64 && forall e | e in AfterFormat(fs).dir :: e == Entry([], 0, 0, 0)
  {
    EndIs(AfterFormat(fs).dir, 0);
  }
}
