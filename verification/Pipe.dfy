/** The pipe of Kernel/pipefs.c: a ring buffer in which a zero byte is an empty slot. */
module Pipe {
  import opened Bytes

  const PIPE_BUF_SIZE: nat := 4096

  /** The C string at the start of a buffer. */
  function CString(s: seq<byte>): (r: seq<byte>)
    ensures |r| <= |s| && 0 !in r
    ensures forall k | 0 <= k < |r| :: r[k] == s[k] != 0
    ensures |r| < |s| ==> s[|r|] == 0
    ensures 0 in s ==> |r| < |s|
  {
    if s == [] || s[0] == 0 then [] else [s[0]] + CString(s[1..])
  }

  function Min(a: nat, b: nat): nat {
    if a < b then a else b
  }

  /** The slot k places on from r, and how far slot i is from r, going round. */
  function Slot(r: nat, k: nat): nat
    requires r < PIPE_BUF_SIZE && k <= PIPE_BUF_SIZE
  {
    if r + k < PIPE_BUF_SIZE then r + k else r + k - PIPE_BUF_SIZE
  }

  function Distance(r: nat, i: nat): nat
    requires r < PIPE_BUF_SIZE && i < PIPE_BUF_SIZE
  {
    if r <= i then i - r else i + PIPE_BUF_SIZE - r
  }

  /** `contents` sits between the pointers, oldest byte first, and every other slot is zero. */
  ghost predicate Holds(buffer: seq<byte>, readPointer: nat, writePointer: nat, contents: seq<byte>) {
    && |buffer| == PIPE_BUF_SIZE && |contents| <= PIPE_BUF_SIZE && 0 !in contents
    && readPointer < PIPE_BUF_SIZE && writePointer == Slot(readPointer, |contents|)
    && forall i | 0 <= i < PIPE_BUF_SIZE ::
         buffer[i] == if Distance(readPointer, i) < |contents| then contents[Distance(readPointer, i)] else 0
  }

  /** Whether a slot lies from the read pointer up to the write pointer. */
  predicate Between(r: nat, w: nat, i: nat) {
    if r <= w then r <= i < w else i < w || r <= i
  }

  /** What the bytes themselves say: equal pointers mean full or empty by the byte there;
      otherwise exactly the slots from read to write are non-zero. */
  lemma RepresentationInvariant(buffer: seq<byte>, r: nat, w: nat, contents: seq<byte>)
    requires Holds(buffer, r, w, contents)
    ensures r == w ==> contents == [] || |contents| == PIPE_BUF_SIZE
    ensures contents == [] <==> buffer[r] == 0
    ensures |contents| == PIPE_BUF_SIZE <==> buffer[w] != 0
    ensures r != w ==> forall i | 0 <= i < PIPE_BUF_SIZE :: buffer[i] != 0 <==> Between(r, w, i)
    ensures r == w ==> forall i | 0 <= i < PIPE_BUF_SIZE :: buffer[i] != 0 <==> buffer[r] != 0
  {
    assert Distance(r, r) == 0;
    if |contents| < PIPE_BUF_SIZE {
      assert Distance(r, w) == |contents|;
    }
  }

  /** The bytes and pointers determine the contents. */
  lemma ContentsAreDetermined(buffer: seq<byte>, r: nat, w: nat, contents: seq<byte>)
    requires Holds(buffer, r, w, contents)
    ensures contents == if buffer[r] == 0 then [] else if r < w then buffer[r..w] else buffer[r..] + buffer[..w]
  {
    RepresentationInvariant(buffer, r, w, contents);
    var read := if r < w then buffer[r..w] else buffer[r..] + buffer[..w];
    if contents != [] {
      forall k | 0 <= k < |contents| ensures contents[k] == read[k] {
        assert Distance(r, Slot(r, k)) == k;
      }
      assert |read| == |contents|;
    }
  }

  function PointerPosition(pointer: nat): nat {
    if pointer == PIPE_BUF_SIZE then 0 else pointer
  }

  class PipeNode {
    const name: seq<byte>
    const buffer: array<byte>
    var readPointer: nat
    var writePointer: nat
    ghost var contents: seq<byte>

    ghost predicate Valid()
      reads this, buffer
    {
      && buffer.Length == PIPE_BUF_SIZE
      && Holds(buffer[..], readPointer, writePointer, contents)
    }

    constructor (pipeName: seq<byte>)
      ensures Valid() && contents == [] && name == pipeName && fresh(buffer) && buffer.Length == 4096
    {
      name := pipeName;
      buffer := new byte[PIPE_BUF_SIZE](_ => 0);
      readPointer, writePointer := 0, 0;
      contents := [];
    }

    /** Takes as much of the string as there is room for; every byte taken wakes the readers. */
    method Write(buff: seq<byte>) returns (wakeups: nat)
      requires Valid() && 0 in buff
      modifies this, buffer
      ensures Valid()
      ensures wakeups == Min(|CString(buff)|, PIPE_BUF_SIZE - |old(contents)|)
      ensures contents == old(contents) + CString(buff)[..wakeups]
    {
      ghost var message := CString(buff);
      var i := 0;
      while buff[i] != 0
        invariant 0 <= i <= |message| && Valid()
        invariant contents == old(contents) + message[..i]
        decreases |message| - i
      {
        RepresentationInvariant(buffer[..], readPointer, writePointer, contents);
        if buffer[writePointer] != 0 {
          return i;
        }
        Put(buff[i]);
        i := i + 1;
      }
      wakeups := i;
    }

    method Put(c: byte)
      requires Valid() && c != 0 && |contents| < PIPE_BUF_SIZE
      modifies this`writePointer, this`contents, buffer
      ensures Valid() && contents == old(contents) + [c]
    {
      buffer[writePointer] := c;
      writePointer := PointerPosition(writePointer + 1);
      contents := contents + [c];
    }

    /** Hands over everything buffered, or blocks the reader when there is nothing. */
    method Read() returns (delivered: seq<byte>, blocked: bool)
      requires Valid()
      modifies this, buffer
      ensures Valid() && contents == []
      ensures delivered == old(contents) && blocked == (old(contents) == [])
    {
      RepresentationInvariant(buffer[..], readPointer, writePointer, contents);
      delivered := [];
      if buffer[readPointer] == 0 {
        return delivered, true;
      }
      blocked := false;
      var c := Take();
      delivered := [c];
      while readPointer != writePointer
        invariant Valid() && delivered + contents == old(contents)
        invariant |contents| < PIPE_BUF_SIZE
        decreases |contents|
      {
        RepresentationInvariant(buffer[..], readPointer, writePointer, contents);
        c := Take();
        delivered := delivered + [c];
      }
      RepresentationInvariant(buffer[..], readPointer, writePointer, contents);
      buffer[readPointer] := 0;
    }

    method Take() returns (c: byte)
      requires Valid() && contents != []
      modifies this`readPointer, this`contents, buffer
      ensures Valid() && [c] + contents == old(contents)
    {
      c := buffer[readPointer];
      buffer[readPointer] := 0;
      readPointer := PointerPosition(readPointer + 1);
      contents := contents[1..];
    }
  }
}
