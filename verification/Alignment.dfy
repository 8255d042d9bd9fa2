/** Multiples of the vector width: which addresses an aligned access may use, and how the
    routines reach them. */
module Alignment {
  const XMM_SZ := 16
  const YMM_SZ := 32
  const ZMM_SZ := 64

  predicate Multiple32(x: int) {
    x % 32 == 0
  }

  predicate Multiple64(x: int) {
    x % 64 == 0
  }

  /** x is a multiple of v, where v is the size of a ymm or zmm register. */
  predicate Whole(v: nat, x: int) {
    || (v == YMM_SZ && Multiple32(x))
    || (v == ZMM_SZ && Multiple64(x))
  }

  /** x & (v - 1). */
  function LowBits(v: nat, x: nat): (r: nat)
    requires v == YMM_SZ || v == ZMM_SZ
    ensures r < v && r <= x
  {
    if v == YMM_SZ then x % 32 else x % 64
  }

  lemma Sum32(a: int, b: int)
    requires Multiple32(a) && Multiple32(b)
    ensures Multiple32(a + b) && Multiple32(a - b)
  {
    assert a + b == 32 * (a / 32 + b / 32) && a - b == 32 * (a / 32 - b / 32);
  }

  lemma Sum64(a: int, b: int)
    requires Multiple64(a) && Multiple64(b)
    ensures Multiple64(a + b) && Multiple64(a - b)
  {
    assert a + b == 64 * (a / 64 + b / 64) && a - b == 64 * (a / 64 - b / 64);
  }

  lemma WholeSum(v: nat, a: int, b: int)
    requires Whole(v, a) && Whole(v, b)
    ensures Whole(v, a + b) && Whole(v, a - b)
  {
    hide Multiple32, Multiple64;
    if v == YMM_SZ { Sum32(a, b); } else { Sum64(a, b); }
  }

  lemma Low32(x: nat)
    ensures Multiple32(x - x % 32) && (x % 32 == 0 <==> Multiple32(x))
  {
    assert x - x % 32 == 32 * (x / 32);
  }

  lemma Low64(x: nat)
    ensures Multiple64(x - x % 64) && (x % 64 == 0 <==> Multiple64(x))
  {
    assert x - x % 64 == 64 * (x / 64);
  }

  /** The widths themselves and the block sizes the loops use. */
  lemma WholeBlocks(v: nat)
    requires v == YMM_SZ || v == ZMM_SZ
    ensures Whole(v, 0) && Whole(v, v) && Whole(v, 2 * v) && Whole(v, 3 * v) && Whole(v, 4 * v) && Whole(v, 8 * v)
  {
  }

  lemma ZmmIsYmm(x: int)
    requires Whole(ZMM_SZ, x)
    ensures Whole(YMM_SZ, x)
  {
    assert x == 64 * (x / 64);
    assert x == 32 * (2 * (x / 64));
  }

  /** Dropping the low bits, or going up to the next multiple, reaches an aligned address. */
  lemma LowBitsAlign(v: nat, x: nat)
    requires v == YMM_SZ || v == ZMM_SZ
    ensures Whole(v, x - LowBits(v, x)) && Whole(v, x + (v - LowBits(v, x)))
    ensures LowBits(v, x) == 0 <==> Whole(v, x)
  {
    hide Multiple32, Multiple64;
    if v == YMM_SZ { Low32(x); } else { Low64(x); }
    WholeBlocks(v);
    WholeSum(v, x - LowBits(v, x), v);
  }

  /** Two addresses with the same low bits are aligned at the same offsets. */
  lemma SameLowBits(v: nat, x: nat, y: nat, k: int)
    requires (v == YMM_SZ || v == ZMM_SZ) && LowBits(v, x) == LowBits(v, y)
    ensures Whole(v, x + k) <==> Whole(v, y + k)
  {
    hide LowBits, Multiple32, Multiple64;
    LowBitsAlign(v, x);
    LowBitsAlign(v, y);
    var d := x - y;
    WholeSum(v, x - LowBits(v, x), y - LowBits(v, y));
    assert Whole(v, d);
    if Whole(v, x + k) { WholeSum(v, x + k, d); }
    if Whole(v, y + k) { WholeSum(v, y + k, d); }
  }

  lemma Next32(off: int, len: int)
    requires Multiple32(off) && Multiple32(len) && off < len
    ensures off + 32 <= len
  {
    assert off == 32 * (off / 32) && len == 32 * (len / 32);
  }

  lemma Next64(off: int, len: int)
    requires Multiple64(off) && Multiple64(len) && off < len
    ensures off + 64 <= len
  {
    assert off == 64 * (off / 64) && len == 64 * (len / 64);
  }

  /** From one vector boundary below a vector-sized length the next one is within it. */
  lemma NextVector(v: nat, off: nat, len: nat)
    requires Whole(v, off) && Whole(v, len) && off < len
    ensures off + v <= len && Whole(v, off + v)
  {
    hide Multiple32, Multiple64;
    if v == YMM_SZ { Next32(off, len); } else { Next64(off, len); }
    WholeBlocks(v);
    WholeSum(v, off, v);
  }

  /** Instruction family of a vector access. */
  datatype Access = Aligned | Unaligned | Stream

  /** An aligned or streaming access of width v faults unless its address is a multiple of v. */
  predicate AlignedFor(kind: Access, v: nat, addr: int) {
    kind.Unaligned? || Whole(v, addr)
  }

  /** The demand in numbers: 32-byte accesses at multiples of 32, 64-byte ones at multiples of 64,
      and aligned or streaming accesses of no other width. */
  lemma AlignmentMeaning(kind: Access, v: nat, addr: int)
    ensures AlignedFor(kind, v, addr) <==>
              kind == Unaligned || (v == 32 && addr % 32 == 0) || (v == 64 && addr % 64 == 0)
  {
  }

  lemma KeepsAlignment(v: nat, kind: Access, a: int, step: int)
    requires Whole(v, step) && AlignedFor(kind, v, a)
    ensures AlignedFor(kind, v, a + step) && AlignedFor(kind, v, a - step)
  {
    if !kind.Unaligned? { WholeSum(v, a, step); }
  }
}
