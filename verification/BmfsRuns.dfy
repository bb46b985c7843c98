/** Whole runs of BMFS commands (Bootloader/BMFS/bmfs.c) against a plain map from names to bytes. */
module BmfsRuns {
  import opened Bytes
  import opened Options
  import opened MyMath
  import opened BmfsDirectory
  import opened BmfsFiles
  import opened BmfsCreate

  datatype Command =
    | Create(name: seq<byte>, maxsize: nat)
    | Write(name: seq<byte>, bytes: seq<byte>)
    | Delete(name: seq<byte>)
    | Format

  type Files = map<seq<byte>, seq<byte>>

  predicate Admissible(c: Command) {
    match c
    case Create(name, maxsize) => Request(name, maxsize)
    case Write(_, bytes) => |bytes| <= INT_MAX
    case Delete(_) => true
    case Format => true
  }

  function Step(fs: Fs, c: Command): Fs
    requires Formed(fs)
  {
    match c
    case Create(name, maxsize) => AfterCreate(fs, name, maxsize)
    case Write(name, bytes) => AfterWrite(fs, name, bytes)
    case Delete(name) => AfterDelete(fs, name)
    case Format => AfterFormat(fs)
  }

  /** Whether the command does its work instead of printing an error. */
  predicate Succeeds(fs: Fs, c: Command) {
    match c
    case Create(name, maxsize) => Creates(fs, name, maxsize)
    case Write(name, bytes) => Writes(fs, name, bytes)
    case Delete(name) => Find(fs.dir, name).Some?
    case Format => true
  }

  function Apply(files: Files, c: Command): Files {
    match c
    case Create(name, _) => files[name := []]
    case Write(name, bytes) => files[name := bytes]
    case Delete(name) => files - {name}
    case Format => map[]
  }

  ghost predicate Represents(fs: Fs, files: Files) {
    Formed(fs) && forall name :: Lookup(fs, name) == if name in files then Some(files[name]) else None
  }

  /** Every create() of the run happens under the condition Safe. */
  ghost predicate SafeRun(fs: Fs, run: seq<Command>)
    requires Good(fs)
    decreases |run|
  {
    run == [] ||
    (Admissible(run[0]) && (run[0].Create? ==> Safe(fs, run[0].name, run[0].maxsize)) &&
     (StepKeepsGood(fs, run[0]); SafeRun(Step(fs, run[0]), run[1..])))
  }

  function Run(fs: Fs, run: seq<Command>): Fs
    requires Good(fs) && SafeRun(fs, run)
    decreases |run|
  {
    if run == [] then fs else StepKeepsGood(fs, run[0]); Run(Step(fs, run[0]), run[1..])
  }

  /** The same run on the map; what failed on the disk changes nothing. */
  function ApplyRun(fs: Fs, files: Files, run: seq<Command>): Files
    requires Good(fs) && SafeRun(fs, run)
    decreases |run|
  {
    if run == [] then files
    else
      StepKeepsGood(fs, run[0]);
      ApplyRun(Step(fs, run[0]), if Succeeds(fs, run[0]) then Apply(files, run[0]) else files, run[1..])
  }

  lemma StepKeepsGood(fs: Fs, c: Command)
    requires Good(fs) && Admissible(c) && (c.Create? ==> Safe(fs, c.name, c.maxsize))
    ensures Good(Step(fs, c)) && |Step(fs, c).disk| == |fs.disk| && SameEnds(fs.disk, Step(fs, c).disk)
  {
    hide Lookup, Safe, Place, Find, Writes, Apart, Formed;
    match c
    case Create(name, maxsize) => CreateIsSafeExactly(fs, name, maxsize);
    case Write(name, bytes) => WriteReplacesOne(fs, name, bytes, []); WriteSparesEnds(fs, name, bytes);
    case Delete(name) => DeleteRemovesOne(fs, name, []);
    case Format => FormattedIsGood(fs);
  }

  /** The first block and the last whole one hold the same bytes. */
  predicate SameEnds(disk: seq<byte>, disk': seq<byte>) {
    && |disk| == |disk'|
    && forall i | 0 <= i < |disk| && (i < BLOCK_SIZE || (|disk| / BLOCK_SIZE - 1) * BLOCK_SIZE <= i) ::
         disk'[i] == disk[i]
  }

  lemma FormattedIsGood(fs: Fs)
    requires Formed(fs)
    ensures Good(AfterFormat(fs))
  {
    FormatEmpties(fs, []);
  }

  lemma StepRefines(fs: Fs, files: Files, c: Command)
    requires Good(fs) && Represents(fs, files)
    requires Admissible(c) && (c.Create? ==> Safe(fs, c.name, c.maxsize))
    ensures Represents(Step(fs, c), if Succeeds(fs, c) then Apply(files, c) else files)
  {
    hide Lookup, Safe, Place, Find, Writes, Apart, Creates, AfterWrite, AfterCreate;
    StepKeepsGood(fs, c);
    var files' := if Succeeds(fs, c) then Apply(files, c) else files;
    forall name ensures Lookup(Step(fs, c), name) == if name in files' then Some(files'[name]) else None {
      match c
      case Create(n, maxsize) => CreateIsSafeExactly(fs, n, maxsize);
      case Write(n, bytes) => WriteReplacesOne(fs, n, bytes, name);
      case Delete(n) =>
        DeleteRemovesOne(fs, n, name);
        DeleteSucceeds(fs, n);
      case Format => FormatEmpties(fs, name);
    }
  }

  lemma DeleteSucceeds(fs: Fs, name: seq<byte>)
    requires Formed(fs)
    ensures Find(fs.dir, name).Some? <==> Lookup(fs, name).Some?
  {
  }

  /** The disk refines the map over every safe run, and no run touches the first or the last block. */
  lemma {:induction false} RunRefinesMap(fs: Fs, files: Files, run: seq<Command>)
    requires Good(fs) && SafeRun(fs, run) && Represents(fs, files)
    ensures Good(Run(fs, run)) && Represents(Run(fs, run), ApplyRun(fs, files, run))
    ensures SameEnds(fs.disk, Run(fs, run).disk)
    decreases |run|
  {
    hide Lookup, Safe, Step, Succeeds, Apply, Apart;
    if run == [] {
    } else {
      var c := run[0];
      StepKeepsGood(fs, c);
      StepRefines(fs, files, c);
      RunRefinesMap(Step(fs, c), if Succeeds(fs, c) then Apply(files, c) else files, run[1..]);
    }
  }

  predicate Touches(c: Command, name: seq<byte>) {
    match c
    case Create(_, _) => false
    case Write(n, _) => n == name
    case Delete(n) => n == name
    case Format => true
  }

  lemma UntouchedStep(fs: Fs, name: seq<byte>, c: Command)
    requires Good(fs) && Lookup(fs, name).Some? && !Touches(c, name)
    requires Admissible(c) && (c.Create? ==> Safe(fs, c.name, c.maxsize))
    ensures Good(Step(fs, c)) && Lookup(Step(fs, c), name) == Lookup(fs, name)
  {
    DeleteSucceeds(fs, name);
    StepKeepsGood(fs, c);
    hide Lookup, Safe, Place, Find, Writes, Apart, AfterWrite, AfterCreate;
    match c
    case Create(n, maxsize) => CreateIsSafeExactly(fs, n, maxsize);
    case Write(n, bytes) => WriteReplacesOne(fs, n, bytes, name);
    case Delete(n) => DeleteRemovesOne(fs, n, name);
    case Format =>
  }

  lemma {:induction false} UntouchedRun(fs: Fs, name: seq<byte>, run: seq<Command>)
    requires Good(fs) && SafeRun(fs, run) && Lookup(fs, name).Some?
    requires forall c | c in run :: !Touches(c, name)
    ensures Good(Run(fs, run)) && Lookup(Run(fs, run), name) == Lookup(fs, name)
    decreases |run|
  {
    hide Lookup, Safe, Step, Apart;
    if run == [] {
    } else {
      UntouchedStep(fs, name, run[0]);
      UntouchedRun(Step(fs, run[0]), name, run[1..]);
    }
  }

  /** What write put in a file, read gives back, whatever is done to the other files in between. */
  lemma WrittenBytesSurvive(fs: Fs, name: seq<byte>, bytes: seq<byte>, run: seq<Command>)
    requires Good(fs) && |bytes| <= INT_MAX && Writes(fs, name, bytes)
    requires Good(AfterWrite(fs, name, bytes)) && SafeRun(AfterWrite(fs, name, bytes), run)
    requires forall c | c in run :: !Touches(c, name)
    ensures Good(Run(AfterWrite(fs, name, bytes), run))
    ensures Lookup(Run(AfterWrite(fs, name, bytes), run), name) == Some(bytes)
  {
    hide Lookup, Apart, AfterWrite, Formed;
    WriteReplacesOne(fs, name, bytes, name);
    UntouchedRun(AfterWrite(fs, name, bytes), name, run);
  }

  // How much a file can take

  predicate Removes(c: Command, name: seq<byte>) {
    (c.Delete? && c.name == name) || c.Format?
  }

  /** The blocks reserved for a file; 0 when there is none of that name. */
  function ReservedFor(fs: Fs, name: seq<byte>): nat {
    match Find(fs.dir, name)
    case None => 0
    case Some(k) => fs.dir[k].reserved
  }

  lemma CreateKeepsReserved(fs: Fs, n: seq<byte>, maxsize: nat, name: seq<byte>)
    requires Good(fs) && Request(n, maxsize) && Safe(fs, n, maxsize) && Find(fs.dir, name).Some?
    ensures ReservedFor(AfterCreate(fs, n, maxsize), name) == ReservedFor(fs, name)
    ensures Find(AfterCreate(fs, n, maxsize).dir, name).Some?
  {
    hide Place, Safe;
    if Creates(fs, n, maxsize) {
      CreateKeepsFormed(fs, n, maxsize);
      RecordedAt(fs.dir, NewEntry(fs, n, maxsize));
      SafeKeepsRecord(fs, n, maxsize, name);
      FoundAt(AfterCreate(fs, n, maxsize).dir, Find(fs.dir, name).value);
    }
  }

  lemma StepKeepsReserved(fs: Fs, c: Command, name: seq<byte>)
    requires Good(fs) && Admissible(c) && (c.Create? ==> Safe(fs, c.name, c.maxsize))
    requires Find(fs.dir, name).Some? && !Removes(c, name)
    ensures Good(Step(fs, c)) && Find(Step(fs, c).dir, name).Some?
    ensures ReservedFor(Step(fs, c), name) == ReservedFor(fs, name)
  {
    StepKeepsGood(fs, c);
    hide Safe, Apart, Formed;
    match c
    case Create(n, maxsize) => CreateKeepsReserved(fs, n, maxsize, name);
    case Write(n, bytes) => WriteKeepsReserved(fs, n, bytes, name);
    case Delete(n) => DeleteKeepsReserved(fs, n, name);
    case Format =>
  }

  lemma WriteKeepsReserved(fs: Fs, n: seq<byte>, bytes: seq<byte>, name: seq<byte>)
    requires Formed(fs) && |bytes| <= INT_MAX && Find(fs.dir, name).Some?
    ensures Find(AfterWrite(fs, n, bytes).dir, name).Some?
    ensures ReservedFor(AfterWrite(fs, n, bytes), name) == ReservedFor(fs, name)
  {
    WriteKeepsFormed(fs, n, bytes);
    FoundAt(AfterWrite(fs, n, bytes).dir, Find(fs.dir, name).value);
  }

  lemma DeleteKeepsReserved(fs: Fs, n: seq<byte>, name: seq<byte>)
    requires Formed(fs) && n != name && Find(fs.dir, name).Some?
    ensures Find(AfterDelete(fs, n).dir, name).Some?
    ensures ReservedFor(AfterDelete(fs, n), name) == ReservedFor(fs, name)
  {
    DeleteKeepsFormed(fs, n);
    FoundAt(AfterDelete(fs, n).dir, Find(fs.dir, name).value);
  }

  lemma {:induction false} RunKeepsReserved(fs: Fs, run: seq<Command>, name: seq<byte>)
    requires Good(fs) && SafeRun(fs, run) && Find(fs.dir, name).Some?
    requires forall c | c in run :: !Removes(c, name)
    ensures Good(Run(fs, run)) && Find(Run(fs, run).dir, name).Some?
    ensures ReservedFor(Run(fs, run), name) == ReservedFor(fs, name)
    decreases |run|
  {
    hide Safe, Step, Apart, Formed, Find, ReservedFor, Removes;
    if run == [] {
    } else {
      assert run[0] in run;
      StepKeepsReserved(fs, run[0], name);
      RunKeepsReserved(Step(fs, run[0]), run[1..], name);
    }
  }

  /** create(name, maxsize) is a promise of maxsize MiB: whatever is done in between, other than
      removing the file, a write of at most so many bytes is what read then returns. */
  lemma CreatedFileTakesItsSize(fs: Fs, name: seq<byte>, maxsize: nat, run: seq<Command>, bytes: seq<byte>)
    requires Good(fs) && Request(name, maxsize) && Safe(fs, name, maxsize) && Creates(fs, name, maxsize)
    requires Good(AfterCreate(fs, name, maxsize)) && SafeRun(AfterCreate(fs, name, maxsize), run)
    requires forall c | c in run :: !Removes(c, name)
    requires |bytes| <= maxsize * MIB && |bytes| <= INT_MAX
    ensures Good(Run(AfterCreate(fs, name, maxsize), run))
    ensures var later := AfterWrite(Run(AfterCreate(fs, name, maxsize), run), name, bytes);
            Good(later) && Lookup(later, name) == Some(bytes)
  {
    CreateReservesEnough(fs, name, maxsize);
    var created := AfterCreate(fs, name, maxsize);
    RunKeepsReserved(created, run, name);
    hide Safe, Creates, AfterCreate, Apart, Lookup, SafeRun, Run, Request;
    WriteReplacesOne(Run(created, run), name, bytes, name);
  }

  predicate NothingDeleted(d: seq<Entry>) {
    forall i | 0 <= i < End(d) :: d[i].Live()
  }

  lemma NothingDeletedIsSafe(fs: Fs, name: seq<byte>, maxsize: nat)
    requires Good(fs) && NothingDeleted(fs.dir)
    ensures Safe(fs, name, maxsize)
    ensures Request(name, maxsize) ==> NothingDeleted(AfterCreate(fs, name, maxsize).dir)
  {
    hide Place, HasRoom;
    forall e | e in fs.dir[..End(fs.dir)] ensures e.Live() {
    }
    if Request(name, maxsize) && Creates(fs, name, maxsize) {
      RecordedAt(fs.dir, NewEntry(fs, name, maxsize));
    }
  }

  lemma NothingDeletedStep(fs: Fs, c: Command)
    requires Good(fs) && NothingDeleted(fs.dir) && Admissible(c) && !c.Delete?
    ensures Good(Step(fs, c)) && NothingDeleted(Step(fs, c).dir)
    ensures c.Create? ==> Safe(fs, c.name, c.maxsize)
  {
    hide Place, Apart;
    match c
    case Create(name, maxsize) =>
      NothingDeletedIsSafe(fs, name, maxsize);
      StepKeepsGood(fs, c);
    case Write(name, bytes) =>
      StepKeepsGood(fs, c);
      WriteKeepsFormed(fs, name, bytes);
    case Format =>
      StepKeepsGood(fs, c);
      EndIs(AfterFormat(fs).dir, 0);
  }

  /** Without deletes every run is safe, up to and past a full directory. */
  lemma {:induction false} RunsWithoutDeleteAreSafe(fs: Fs, run: seq<Command>)
    requires Good(fs) && NothingDeleted(fs.dir)
    requires forall c | c in run :: Admissible(c) && !c.Delete?
    ensures SafeRun(fs, run)
    decreases |run|
  {
    hide Safe, Step, Apart, NothingDeleted, Admissible, Formed;
    if run == [] {
    } else {
      NothingDeletedStep(fs, run[0]);
      RunsWithoutDeleteAreSafe(Step(fs, run[0]), run[1..]);
    }
  }
}
