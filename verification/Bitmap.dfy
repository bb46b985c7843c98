/** The page allocator's bitmap: an array of 32-bit words, and the shift-and-mask
    macros that test, set and clear one bit of it (Kernel/include/bitmap.h, Kernel/bitmap.c). */
module Bitmap {
  const INT_BITS: nat := 32

  /** A small number as the shift count the machine sees. */
  function ShiftCount(k: nat): (s: bv6)
    requires k < 32
    ensures s < 32
    ensures s as int == k
  {
    k as bv6
  }

  function SectorPosition(position: nat): (s: bv6)
    ensures s < 32
  {
    ShiftCount(position % INT_BITS)
  }

  /** The words are signed ints, so >> copies the sign bit downwards. */
  function ArithmeticShiftRight(w: bv32, k: bv6): bv32
    requires k < 32
  {
    (w >> k) | (if w & 0x8000_0000 != 0 then !(0xFFFF_FFFF >> k) else 0)
  }

  function GetBit(w: bv32, k: bv6): bv32
    requires k < 32
  {
    ArithmeticShiftRight(w, k) & 1
  }

  function SetMask(position: nat): bv32 {
    1 << SectorPosition(position)
  }

  function ResetMask(position: nat): bv32 {
    !SetMask(position)
  }

  function WordSet(w: bv32, position: nat): bv32 {
    w | SetMask(position)
  }

  function WordReset(w: bv32, position: nat): bv32 {
    w & ResetMask(position)
  }

  predicate BitIsClear(w: bv32, position: nat) {
    GetBit(w, SectorPosition(position)) == 0
  }

  predicate IsAvailable(bitMap: seq<bv32>, position: nat)
    requires position / INT_BITS < |bitMap|
  {
    BitIsClear(bitMap[position / INT_BITS], position)
  }

  // ---- one word ----

  lemma BitAfterSet(w: bv32, i: bv6, j: bv6)
    requires i < 32 && j < 32
    ensures GetBit(w | (1 << i), j) == if i == j then 1 else GetBit(w, j)
  {
  }

  lemma BitAfterReset(w: bv32, i: bv6, j: bv6)
    requires i < 32 && j < 32
    ensures GetBit(w & !(1 << i), j) == if i == j then 0 else GetBit(w, j)
  {
  }

  /** Two positions in one word share a shift count only when they are the same position. */
  lemma PositionsDiffer(p: nat, q: nat)
    requires p / INT_BITS == q / INT_BITS
    ensures SectorPosition(p) == SectorPosition(q) <==> p == q
  {
    assert p % INT_BITS == SectorPosition(p) as int;
    assert q % INT_BITS == SectorPosition(q) as int;
  }

  lemma WordSetAffectsOnlyItsBit(w: bv32, p: nat, q: nat)
    requires p / INT_BITS == q / INT_BITS
    ensures BitIsClear(WordSet(w, p), q) <==> q != p && BitIsClear(w, q)
  {
    hide GetBit, SectorPosition;
    PositionsDiffer(p, q);
    BitAfterSet(w, SectorPosition(p), SectorPosition(q));
  }

  lemma WordResetAffectsOnlyItsBit(w: bv32, p: nat, q: nat)
    requires p / INT_BITS == q / INT_BITS
    ensures BitIsClear(WordReset(w, p), q) <==> q == p || BitIsClear(w, q)
  {
    hide GetBit, SectorPosition;
    PositionsDiffer(p, q);
    BitAfterReset(w, SectorPosition(p), SectorPosition(q));
  }

  // ---- the whole map ----

  method SetBit(bitMap: array<bv32>, position: nat)
    requires position / INT_BITS < bitMap.Length
    modifies bitMap
    ensures forall q: nat | q / INT_BITS < bitMap.Length ::
              IsAvailable(bitMap[..], q) <==> q != position && IsAvailable(old(bitMap[..]), q)
  {
    hide BitIsClear, WordSet;
    ghost var before := bitMap[..];
    var sector := position / INT_BITS;
    bitMap[sector] := WordSet(bitMap[sector], position);
    forall q: nat | q / INT_BITS < bitMap.Length
      ensures IsAvailable(bitMap[..], q) <==> q != position && IsAvailable(before, q)
    {
      if q / INT_BITS == sector {
        WordSetAffectsOnlyItsBit(before[sector], position, q);
      }
    }
  }

  method ResetBit(bitMap: array<bv32>, position: nat)
    requires position / INT_BITS < bitMap.Length
    modifies bitMap
    ensures forall q: nat | q / INT_BITS < bitMap.Length ::
              IsAvailable(bitMap[..], q) <==> q == position || IsAvailable(old(bitMap[..]), q)
  {
    hide BitIsClear, WordReset;
    ghost var before := bitMap[..];
    var sector := position / INT_BITS;
    bitMap[sector] := WordReset(bitMap[sector], position);
    forall q: nat | q / INT_BITS < bitMap.Length
      ensures IsAvailable(bitMap[..], q) <==> q == position || IsAvailable(before, q)
    {
      if q / INT_BITS == sector {
        WordResetAffectsOnlyItsBit(before[sector], position, q);
      }
    }
  }
}
