/** The packed kernel image: written by Toolchain/ModulePacker/main.c, unpacked in memory by
    Kernel/moduleLoader.c with the memcpy of Kernel/lib.c. */
module Image {
  import opened Bytes

  const UINT32_SIZE: nat := 0x1_0000_0000
  const BUFFER_SIZE: nat := 128

  /** A uint32_t as it lies in memory, least significant byte first; the value is cut to 32 bits. */
  function Le32(n: nat): (r: seq<byte>)
    ensures |r| == 4
  {
    [n % 256, n / 256 % 256, n / 256 / 256 % 256, n / 256 / 256 / 256 % 256]
  }

  function FromLe32(s: seq<byte>): nat
    requires |s| == 4
  {
    s[0] as int + 256 * (s[1] as int + 256 * (s[2] as int + 256 * s[3] as int))
  }

  /** The header field gives a size back exactly when it is below 2^32. */
  lemma Le32RoundTrip(n: nat)
    ensures FromLe32(Le32(n)) == n % UINT32_SIZE
    ensures FromLe32(Le32(n)) == n <==> n < UINT32_SIZE
  {
    var q := n / 256 / 256 / 256 / 256;
    assert n == UINT32_SIZE * q + FromLe32(Le32(n));
  }

  lemma LowByte(q: nat, r: byte)
    ensures (r as int + 256 * q) % 256 == r && (r as int + 256 * q) / 256 == q
  {
  }

  /** Loading a word and storing it moves its four bytes unchanged. */
  lemma WordRoundTrip(s: seq<byte>)
    requires |s| == 4
    ensures Le32(FromLe32(s)) == s
  {
    var three: nat := s[3] as int;
    var two: nat := s[2] as int + 256 * three;
    var one: nat := s[1] as int + 256 * two;
    LowByte(one, s[0]);
    LowByte(two, s[1]);
    LowByte(three, s[2]);
  }

  /** The least significant byte comes first. */
  lemma LeastByteFirst(a: byte, b: byte, c: byte, d: byte)
    ensures Le32(a as int + 0x100 * b as int + 0x1_0000 * c as int + 0x100_0000 * d as int) == [a, b, c, d]
  {
    WordRoundTrip([a, b, c, d]);
  }

  function Record(m: seq<byte>): (r: seq<byte>)
    ensures |r| == 4 + |m|
  {
    Le32(|m|) + m
  }

  function Records(ms: seq<seq<byte>>): seq<byte> {
    if ms == [] then [] else Record(ms[0]) + Records(ms[1..])
  }

  /** What follows the kernel's own bytes: the number of modules, then each with its size. */
  function Payload(ms: seq<seq<byte>>): seq<byte> {
    Le32(|ms|) + Records(ms)
  }

  lemma RecordsSplit(ms: seq<seq<byte>>)
    requires ms != []
    ensures Records(ms) == Record(ms[0]) + Records(ms[1..])
  {
  }

  lemma {:induction false} RecordsAppend(ms: seq<seq<byte>>, m: seq<byte>)
    ensures Records(ms + [m]) == Records(ms) + Record(m)
  {
    hide Record;
    if ms == [] {
      assert ms + [m] == [m] && [m][1..] == [];
    } else {
      RecordsAppend(ms[1..], m);
      RecordsSplit(ms);
      RecordsSplit(ms + [m]);
      assert (ms + [m])[1..] == ms[1..] + [m];
    }
  }

  // The packer

  /** write_file: appends the source in chunks until a short read sets its end-of-file flag. */
  method WriteFile(target: seq<byte>, source: seq<byte>) returns (r: seq<byte>)
    ensures r == target + source
  {
    r := target;
    var position := 0;
    var eof := false;
    while !eof
      invariant 0 <= position <= |source| && r == target + source[..position]
      invariant eof ==> position == |source|
      decreases !eof, |source| - position
    {
      var read := if |source| - position < BUFFER_SIZE then |source| - position else BUFFER_SIZE;
      assert source[..position + read] == source[..position] + source[position..position + read];
      r := r + source[position..position + read];
      position := position + read;
      eof := read < BUFFER_SIZE;
    }
    assert source[..position] == source;
  }

  /** buildImage, on the contents of the kernel and module files. */
  method BuildImage(files: seq<seq<byte>>) returns (target: seq<byte>)
    requires |files| >= 1
    ensures target == files[0] + Payload(files[1..])
  {
    target := WriteFile([], files[0]);
    target := target + Le32(|files| - 1);
    var i := 1;
    while i < |files|
      invariant 1 <= i <= |files|
      invariant target == files[0] + Le32(|files| - 1) + Records(files[1..i])
    {
      RecordsAppend(files[1..i], files[i]);
      assert files[1..i + 1] == files[1..i] + [files[i]];
      target := target + Le32(|files[i]|);
      target := WriteFile(target, files[i]);
      i := i + 1;
    }
    assert files[1..i] == files[1..];
  }

  // The loader

  predicate Clear(a: nat, n: nat, b: nat, m: nat) {
    a + n <= b || b + m <= a
  }

  method StoreWord(memory: array<byte>, at: nat, word: nat)
    requires at + 4 <= memory.Length
    modifies memory
    ensures memory[at..at + 4] == Le32(word)
    ensures forall p | 0 <= p < memory.Length && !(at <= p < at + 4) :: memory[p] == old(memory[p])
  {
    var bytes := Le32(word);
    memory[at], memory[at + 1], memory[at + 2], memory[at + 3] := bytes[0], bytes[1], bytes[2], bytes[3];
  }

  /** Only the bytes from `at` on, `length` of them, differ. */
  predicate Differ(before: seq<byte>, after: seq<byte>, at: nat, length: nat) {
    && at + length <= |before| == |after|
    && forall p | 0 <= p < |before| && !(at <= p < at + length) :: after[p] == before[p]
  }

  /** `n` bytes went from source to destination, and nothing else changed. */
  predicate Copied(was: seq<byte>, now: seq<byte>, destination: nat, source: nat, n: nat) {
    && destination + n <= |was| && source + n <= |was| && Differ(was, now, destination, n)
    && now[destination..destination + n] == was[source..source + n]
  }

  /** d[i] = s[i] on uint32_t. */
  method CopyWord(memory: array<byte>, destination: nat, source: nat)
    requires destination + 4 <= memory.Length && source + 4 <= memory.Length
    modifies memory
    ensures Copied(old(memory[..]), memory[..], destination, source, 4)
  {
    hide Le32, FromLe32;
    WordRoundTrip(memory[source..source + 4]);
    StoreWord(memory, destination, FromLe32(memory[source..source + 4]));
    assert memory[..][destination..destination + 4] == memory[destination..destination + 4];
  }

  method CopyWords(memory: array<byte>, destination: nat, source: nat, length: nat)
    requires destination + length <= memory.Length && source + length <= memory.Length
    requires Clear(destination, length, source, length) && length % 4 == 0
    modifies memory
    ensures Copied(old(memory[..]), memory[..], destination, source, length)
  {
    ghost var was := memory[..];
    assert Copied(was, memory[..], destination, source, 0);
    hide Copied;
    var i := 0;
    while i < length / 4
      invariant 0 <= i <= length / 4
      invariant Copied(was, memory[..], destination, source, 4 * i)
    {
      ghost var before := memory[..];
      CopyWord(memory, destination + 4 * i, source + 4 * i);
      CopiedFurther(was, before, memory[..], destination, source, 4 * i, 4);
      i := i + 1;
    }
  }

  lemma CopiedFurther(was: seq<byte>, before: seq<byte>, after: seq<byte>, destination: nat, source: nat, n: nat, k: nat)
    requires Clear(destination, n + k, source, n + k)
    requires Copied(was, before, destination, source, n) && Copied(before, after, destination + n, source + n, k)
    ensures Copied(was, after, destination, source, n + k)
  {
    assert after[destination..destination + n] == before[destination..destination + n];
    assert after[destination..destination + n + k]
        == after[destination..destination + n] + after[destination + n..destination + n + k];
    assert before[source + n..source + n + k] == was[source + n..source + n + k];
    assert was[source..source + n + k] == was[source..source + n] + was[source + n..source + n + k];
  }

  method CopyBytes(memory: array<byte>, destination: nat, source: nat, length: nat)
    requires destination + length <= memory.Length && source + length <= memory.Length
    requires Clear(destination, length, source, length)
    modifies memory
    ensures Copied(old(memory[..]), memory[..], destination, source, length)
  {
    ghost var was := memory[..];
    var i := 0;
    while i < length
      invariant 0 <= i <= length
      invariant Copied(was, memory[..], destination, source, i)
    {
      assert memory[source + i] == was[source + i];
      memory[destination + i] := memory[source + i];
      i := i + 1;
    }
  }

  /** Word by word when everything is aligned, byte by byte otherwise: the same copy. */
  method Memcpy(memory: array<byte>, destination: nat, source: nat, length: nat)
    requires destination + length <= memory.Length && source + length <= memory.Length
    requires Clear(destination, length, source, length)
    modifies memory
    ensures Copied(old(memory[..]), memory[..], destination, source, length)
  {
    if destination % 4 == 0 && source % 4 == 0 && length % 4 == 0 {
      CopyWords(memory, destination, source, length);
    } else {
      CopyBytes(memory, destination, source, length);
    }
  }

  method ReadUint32(memory: array<byte>, address: nat) returns (result: nat, next: nat)
    requires address + 4 <= memory.Length
    ensures result == FromLe32(memory[address..address + 4]) && next == address + 4
  {
    result := FromLe32(memory[address..address + 4]);
    next := address + 4;
  }

  /** Module i goes to targets[i], away from the payload and from the other modules. */
  ghost predicate Placed(ms: seq<seq<byte>>, targets: seq<nat>, start: nat, length: nat, size: nat) {
    && |ms| <= |targets|
    && (forall i | 0 <= i < |ms| :: targets[i] + |ms[i]| <= size && Clear(targets[i], |ms[i]|, start, length))
    && forall i, j | 0 <= i < j < |ms| :: Clear(targets[i], |ms[i]|, targets[j], |ms[j]|)
  }

  ghost predicate InTarget(ms: seq<seq<byte>>, targets: seq<nat>, p: nat)
    requires |ms| <= |targets|
  {
    exists i | 0 <= i < |ms| :: targets[i] <= p < targets[i] + |ms[i]|
  }

  ghost predicate Loaded(memory: seq<byte>, targets: seq<nat>, ms: seq<seq<byte>>, n: nat) {
    && n <= |ms| <= |targets|
    && forall i | 0 <= i < n :: targets[i] + |ms[i]| <= |memory| && memory[targets[i]..targets[i] + |ms[i]|] == ms[i]
  }

  ghost predicate Untouched(was: seq<byte>, memory: seq<byte>, targets: seq<nat>, ms: seq<seq<byte>>) {
    && |ms| <= |targets| && |memory| == |was|
    && forall p | 0 <= p < |was| && !InTarget(ms, targets, p) :: memory[p] == was[p]
  }

  lemma LoadedNext(was: seq<byte>, before: seq<byte>, after: seq<byte>, targets: seq<nat>, ms: seq<seq<byte>>, i: nat,
                   start: nat, length: nat)
    requires i < |ms| && Placed(ms, targets, start, length, |was|)
    requires Loaded(before, targets, ms, i) && Untouched(was, before, targets, ms)
    requires Differ(before, after, targets[i], |ms[i]|) && after[targets[i]..targets[i] + |ms[i]|] == ms[i]
    ensures Loaded(after, targets, ms, i + 1) && Untouched(was, after, targets, ms)
  {
    forall j | 0 <= j < i ensures after[targets[j]..targets[j] + |ms[j]|] == ms[j] {
      assert Clear(targets[j], |ms[j]|, targets[i], |ms[i]|);
    }
  }

  method LoadModule(memory: array<byte>, address: nat, target: nat, ghost m: seq<byte>) returns (next: nat)
    requires address + 4 + |m| <= memory.Length && target + |m| <= memory.Length && |m| < UINT32_SIZE
    requires memory[address..address + 4 + |m|] == Record(m)
    requires Clear(target, |m|, address, 4 + |m|)
    modifies memory
    ensures next == address + 4 + |m| && memory[target..target + |m|] == m
    ensures Differ(old(memory[..]), memory[..], target, |m|)
  {
    ghost var all := memory[address..address + 4 + |m|];
    assert memory[address..address + 4] == all[..4] == Le32(|m|);
    Le32RoundTrip(|m|);
    var moduleSize, start := ReadUint32(memory, address);
    assert memory[start..start + |m|] == all[4..] == m;
    Memcpy(memory, target, start, moduleSize);
    assert memory[..][target..target + |m|] == memory[target..target + |m|];
    next := start + moduleSize;
  }

  /** Given what buildImage wrote, every module ends up byte for byte at its address, and no
      other memory changes. */
  method LoadModules(memory: array<byte>, payloadStart: nat, targets: seq<nat>, ghost ms: seq<seq<byte>>)
    requires payloadStart + |Payload(ms)| <= memory.Length && |ms| < UINT32_SIZE
    requires memory[payloadStart..payloadStart + |Payload(ms)|] == Payload(ms)
    requires forall i | 0 <= i < |ms| :: |ms[i]| < UINT32_SIZE
    requires Placed(ms, targets, payloadStart, |Payload(ms)|, memory.Length)
    modifies memory
    ensures Loaded(memory[..], targets, ms, |ms|)
    ensures Untouched(old(memory[..]), memory[..], targets, ms)
  {
    hide Loaded, Untouched, Differ;
    ghost var was, end := memory[..], payloadStart + |Payload(ms)|;
    var moduleCount, current := ReadHeader(memory, payloadStart, end, ms);
    NothingLoaded(was, targets, ms);
    var i := 0;
    while i < moduleCount
      invariant 0 <= i <= |ms| && payloadStart <= current <= end
      invariant memory[current..end] == Records(ms[i..])
      invariant Loaded(memory[..], targets, ms, i) && Untouched(was, memory[..], targets, ms)
    {
      ghost var before := memory[..];
      current := LoadNext(memory, current, end, targets, ms, i);
      assert memory[..][targets[i]..targets[i] + |ms[i]|] == memory[targets[i]..targets[i] + |ms[i]|];
      LoadedNext(was, before, memory[..], targets, ms, i, payloadStart, |Payload(ms)|);
      i := i + 1;
    }
  }

  lemma NothingLoaded(memory: seq<byte>, targets: seq<nat>, ms: seq<seq<byte>>)
    requires |ms| <= |targets|
    ensures Loaded(memory, targets, ms, 0) && Untouched(memory, memory, targets, ms)
  {
  }

  method ReadHeader(memory: array<byte>, payloadStart: nat, ghost end: nat, ghost ms: seq<seq<byte>>)
    returns (moduleCount: nat, current: nat)
    requires payloadStart + |Payload(ms)| == end <= memory.Length && |ms| < UINT32_SIZE
    requires memory[payloadStart..end] == Payload(ms)
    ensures moduleCount == |ms| && payloadStart <= current <= end && memory[current..end] == Records(ms[0..])
  {
    assert memory[payloadStart..payloadStart + 4] == memory[payloadStart..end][..4] == Le32(|ms|);
    Le32RoundTrip(|ms|);
    moduleCount, current := ReadUint32(memory, payloadStart);
    assert memory[current..end] == memory[payloadStart..end][4..];
    assert ms[0..] == ms;
  }

  method LoadNext(memory: array<byte>, current: nat, ghost end: nat, targets: seq<nat>, ghost ms: seq<seq<byte>>, i: nat)
    returns (next: nat)
    requires i < |ms| <= |targets| && current <= end <= memory.Length && |ms[i]| < UINT32_SIZE
    requires memory[current..end] == Records(ms[i..])
    requires targets[i] + |ms[i]| <= memory.Length && Clear(targets[i], |ms[i]|, current, end - current)
    modifies memory
    ensures current <= next <= end && memory[next..end] == Records(ms[i + 1..])
    ensures memory[targets[i]..targets[i] + |ms[i]|] == ms[i]
    ensures Differ(old(memory[..]), memory[..], targets[i], |ms[i]|)
  {
    ghost var m, all := ms[i], memory[current..end];
    assert ms[i..][1..] == ms[i + 1..];
    assert all == Record(m) + Records(ms[i + 1..]);
    assert memory[current..current + 4 + |m|] == all[..4 + |m|] == Record(m);
    label before:
    next := LoadModule(memory, current, targets[i], m);
    assert memory[next..end] == old@before(memory[next..end]) == all[4 + |m|..];
  }
}
