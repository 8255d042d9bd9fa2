/** memset: Zen4, AVX-512 and AVX2. Every routine covers the buffer by overlapping blocks of
    one repeated byte; the proofs track which indices have been written. */
module Memset {
  import opened Alignment
  import opened Bits
  import opened Memory

  /** The byte `set1` repeats: the low eight bits of the int argument. */
  function LowByte(val: int): byte {
    val % 256
  }

  /** n bytes of value c: a broadcast register, or what the whole buffer must become. */
  function Repeated(c: byte, n: nat): (z: seq<byte>)
    ensures |z| == n
  {
    seq(n, i => c)
  }

  /** Storing a broadcast register of v bytes at index lo. */
  lemma PatchRepeated(s: seq<byte>, at: nat, c: byte, n: nat, done: iset<int>, lo: nat, v: nat)
    requires 0 < v && lo + v <= n && at + n <= |s|
    ensures Splice(Overlay(s, at, Repeated(c, n), done), at + lo, Repeated(c, v))
         == Overlay(s, at, Repeated(c, n), done + Span(lo, lo + v))
  {
    assert Repeated(c, n)[lo..lo + v] == Repeated(c, v);
    Patch(s, at, Repeated(c, n), done, lo, lo + v);
  }

  /** Once every index is written the buffer is filled. */
  lemma FillComplete(s: seq<byte>, at: nat, c: byte, n: nat, done: iset<int>)
    requires n == 0 || at + n <= |s|
    requires forall k :: 0 <= k < n ==> k in done
    ensures Overlay(s, at, Repeated(c, n), done) == Filled(s, at, c, n)
  {
  }

  /** A run of stores of the broadcast register, v bytes each; `done` grows by the indices
      they write. */
  method StoreRun(mem: Memory, v: nat, kind: Access, at: nat, c: byte, lo: nat, len: nat,
                  ghost s: seq<byte>, ghost n: nat, ghost done: iset<int>)
    returns (ghost done': iset<int>)
    requires Whole(v, len) && 0 < len && lo + len <= n
    requires mem.CanWrite(at, n) && AlignedFor(kind, v, at + lo)
    requires |s| == mem.bytes.Length && mem.Contents() == Overlay(s, at, Repeated(c, n), done)
    modifies mem.bytes
    ensures done' == done + Span(lo, lo + len)
    ensures mem.Contents() == Overlay(s, at, Repeated(c, n), done')
  {
    hide Overlay, Splice, Repeated, Multiple32, Multiple64;
    mem.StoreVecs(v, kind, at + lo, Repeated(c, len));
    PatchRepeated(s, at, c, n, done, lo, len);
    done' := done + Span(lo, lo + len);
  }

  /** Two stores of w bytes, one at each end of a buffer of w..2w bytes. */
  method StoreEnds(mem: Memory, at: nat, c: byte, z: seq<byte>, n: nat)
    requires 0 < |z| <= n <= 2 * |z| && z == Repeated(c, |z|) && mem.CanWrite(at, n)
    modifies mem.bytes
    ensures mem.Contents() == Filled(old(mem.Contents()), at, c, n)
  {
    hide Overlay, Splice, Repeated, Filled;
    ghost var s := mem.Contents();
    OverlayNone(s, at, Repeated(c, n));
    mem.Store(Unaligned, at, z);
    PatchRepeated(s, at, c, n, iset{}, 0, |z|);
    ghost var done := iset{} + Span(0, |z|);
    mem.Store(Unaligned, at + n - |z|, z);
    PatchRepeated(s, at, c, n, done, n - |z|, |z|);
    FillComplete(s, at, c, n, done + Span(n - |z|, n));
  }

  /** Masked store of a zmm register to the first n bytes, n at most 64. */
  method MaskedFill(mem: Memory, mask: Mask, at: nat, c: byte, ghost n: nat)
    requires |mask| == 64 && n <= 64 && (forall i :: 0 <= i < 64 ==> mask[i] == (i < n)) && mem.CanWrite(at, n)
    modifies mem.bytes
    ensures mem.Contents() == Filled(old(mem.Contents()), at, c, n)
  {
    mem.StoreMasked(mask, at, Repeated(c, 64));
    assert mem.Contents() == Filled(old(mem.Contents()), at, c, n);
  }

  /** Byte by byte: the buffer holds the low eight bits of val, everything else is as before. */
  lemma FilledBytes(s: seq<byte>, at: nat, val: int, n: nat)
    requires n == 0 || at + n <= |s|
    ensures forall i :: 0 <= i < |s| ==>
              Filled(s, at, LowByte(val), n)[i] as int == if at <= i < at + n then val % 256 else s[i] as int
  {
  }

  // ---- Zen4 --------------------------------------------------------------------------------

  /** The aligned do-while loop, in ymm or zmm stores, 256 bytes a pass. */
  method FillLoop(mem: Memory, v: nat, at: nat, c: byte, size: nat, start: nat,
                  ghost s: seq<byte>, ghost done: iset<int>)
    returns (offset: nat, ghost done': iset<int>)
    requires v == YMM_SZ || v == ZMM_SZ
    requires 512 < size && start <= 256 && Whole(ZMM_SZ, at + start) && mem.CanWrite(at, size)
    requires forall k :: 0 <= k < start ==> k in done
    requires |s| == mem.bytes.Length && mem.Contents() == Overlay(s, at, Repeated(c, size), done)
    modifies mem.bytes
    ensures size - 256 <= offset <= size
    ensures forall k :: 0 <= k < offset ==> k in done'
    ensures mem.Contents() == Overlay(s, at, Repeated(c, size), done')
  {
    hide Overlay, Splice, Repeated, Multiple32, Multiple64;
    WholeBlocks(v);
    WholeBlocks(ZMM_SZ);
    offset := start;
    done' := done;
    var more := true;
    while more
      invariant offset <= size && (more ==> offset < size - 256) && (!more ==> size - 256 <= offset)
      invariant Whole(ZMM_SZ, at + offset)
      invariant forall k :: 0 <= k < offset ==> k in done'
      invariant mem.Contents() == Overlay(s, at, Repeated(c, size), done')
      decreases more, size - offset
    {
      ZmmIsYmm(at + offset);
      done' := StoreRun(mem, v, Aligned, at, c, offset, 4 * ZMM_SZ, s, size, done');
      KeepsAlignment(ZMM_SZ, Aligned, at + offset, 4 * ZMM_SZ);
      offset := offset + 4 * ZMM_SZ;
      more := offset < size - 4 * ZMM_SZ;
    }
  }

  /** Sizes 65..256: one or two unaligned vectors at each end. */
  method FillUpTo4Zmm(mem: Memory, at: nat, c: byte, size: nat)
    requires ZMM_SZ < size <= 4 * ZMM_SZ && mem.CanWrite(at, size)
    modifies mem.bytes
    ensures mem.Contents() == Filled(old(mem.Contents()), at, c, size)
  {
    hide Overlay, Splice, Repeated, Filled, Multiple32, Multiple64;
    WholeBlocks(ZMM_SZ);
    ghost var s := mem.Contents();
    OverlayNone(s, at, Repeated(c, size));
    ghost var done: iset<int> := iset{};
    done := StoreRun(mem, ZMM_SZ, Unaligned, at, c, 0, ZMM_SZ, s, size, done);
    if size > 2 * ZMM_SZ {
      done := StoreRun(mem, ZMM_SZ, Unaligned, at, c, ZMM_SZ, ZMM_SZ, s, size, done);
      done := StoreRun(mem, ZMM_SZ, Unaligned, at, c, size - ZMM_SZ, ZMM_SZ, s, size, done);
      done := StoreRun(mem, ZMM_SZ, Unaligned, at, c, size - 2 * ZMM_SZ, ZMM_SZ, s, size, done);
      FillComplete(s, at, c, size, done);
      return;
    }
    done := StoreRun(mem, ZMM_SZ, Unaligned, at, c, size - ZMM_SZ, ZMM_SZ, s, size, done);
    FillComplete(s, at, c, size, done);
  }

  /** The last 1..256 bytes: the narrowed counters lose nothing, and falling through the cases
      from remVecs down to 1 stores the remVecs vectors that end at the end. */
  method StoreTail(mem: Memory, at: nat, c: byte, size: nat, offset: nat, ghost s: seq<byte>, ghost done: iset<int>)
    returns (ghost done': iset<int>)
    requires 4 * ZMM_SZ < size && offset < size <= offset + 4 * ZMM_SZ && mem.CanWrite(at, size)
    requires |s| == mem.bytes.Length && mem.Contents() == Overlay(s, at, Repeated(c, size), done)
    modifies mem.bytes
    ensures forall k :: k in done || offset <= k < size ==> k in done'
    ensures mem.Contents() == Overlay(s, at, Repeated(c, size), done')
  {
    hide Overlay, Repeated;
    done' := done;
    var remData := (size - offset) % 0x1_0000;
    var remVecs := (remData / 64 + if remData % 64 != 0 then 1 else 0) % 256;
    if 1 <= remVecs <= 4 {
      assert Whole(ZMM_SZ, remVecs * ZMM_SZ);
      done' := StoreRun(mem, ZMM_SZ, Unaligned, at, c, size - remVecs * ZMM_SZ, remVecs * ZMM_SZ, s, size, done);
    }
  }

  method MemsetZen4(mem: Memory, at: nat, val: int, size: nat, l2: nat) returns (ret: nat)
    requires mem.CanWrite(at, size)
    modifies mem.bytes
    ensures ret == at
    ensures mem.Contents() == Filled(old(mem.Contents()), at, LowByte(val), size)
    ensures forall i :: 0 <= i < mem.bytes.Length ==>
              mem.Contents()[i] as int == if at <= i < at + size then val % 256 else old(mem.Contents()[i] as int)
  {
    hide Overlay, Splice, Repeated, Filled, Multiple32, Multiple64, LowBits, Bzhi;
    WholeBlocks(ZMM_SZ);
    BzhiLanes(64, size);
    FilledBytes(mem.Contents(), at, val, size);
    ret := at;
    var c := LowByte(val);
    if size <= ZMM_SZ {
      MaskedFill(mem, Bzhi(64, size % 256), at, c, size);
      return;
    }
    if size <= 4 * ZMM_SZ {
      FillUpTo4Zmm(mem, at, c, size);
      return;
    }
    ghost var s := mem.Contents();
    OverlayNone(s, at, Repeated(c, size));
    ghost var done: iset<int> := iset{};
    done := StoreRun(mem, ZMM_SZ, Unaligned, at, c, 0, 4 * ZMM_SZ, s, size, done);
    var offset := 4 * ZMM_SZ;
    if size > 8 * ZMM_SZ {
      LowBitsAlign(ZMM_SZ, at);
      WholeSum(ZMM_SZ, at + (ZMM_SZ - LowBits(ZMM_SZ, at)), 3 * ZMM_SZ);
      offset := offset - LowBits(ZMM_SZ, at);
      if size < l2 {
        offset, done := FillLoop(mem, YMM_SZ, at, c, size, offset, s, done);
      } else {
        offset, done := FillLoop(mem, ZMM_SZ, at, c, size, offset, s, done);
      }
      if offset == size {
        FillComplete(s, at, c, size, done);
        return;
      }
    }
    done := StoreTail(mem, at, c, size, offset, s, done);
    FillComplete(s, at, c, size, done);
  }

  // ---- Tunable variants --------------------------------------------------------------------

  /** The n lowest bytes of a scalar register, lowest first. */
  function LowBytes(x: nat, n: nat): (z: seq<byte>)
    ensures |z| == n
  {
    if n == 0 then [] else [x % 256] + LowBytes(x / 256, n - 1)
  }

  /** Doubling a byte, then the pair, repeats it two and four times. */
  lemma ShiftedBytes(c: byte)
    ensures LowBytes(c * 0x100 + c, 2) == Repeated(c, 2)
    ensures var w := c * 0x100 + c; LowBytes(w * 0x1_0000 + w, 4) == Repeated(c, 4)
  {
    var w := c * 0x100 + c;
    var d := w * 0x1_0000 + w;
    assert LowBytes(w, 2) == [w % 256] + LowBytes(w / 256, 1);
    assert LowBytes(c, 1) == [c] + LowBytes(0, 0);
    assert d % 256 == c && d / 256 == c * 0x1_0000 + w;
    var e := d / 256;
    assert e % 256 == c && e / 256 == w;
    assert LowBytes(d, 4) == [c] + LowBytes(e, 3);
    assert LowBytes(e, 3) == [c] + LowBytes(w, 2);
  }

  /** AVX2, at most two ymm registers. */
  method FillUpTo2Ymm(mem: Memory, at: nat, val: int, size: nat)
    requires size <= 2 * YMM_SZ && mem.CanWrite(at, size)
    modifies mem.bytes
    ensures mem.Contents() == Filled(old(mem.Contents()), at, LowByte(val), size)
  {
    hide Overlay, Splice, Repeated, Filled, LowBytes;
    var c := LowByte(val);
    if size >= YMM_SZ {
      StoreEnds(mem, at, c, Repeated(c, YMM_SZ), size);
      return;
    }
    if size >= XMM_SZ {
      StoreEnds(mem, at, c, Repeated(c, XMM_SZ), size);
      return;
    }
    if size > QWORD_SZ {
      StoreEnds(mem, at, c, Repeated(c, QWORD_SZ), size);
      return;
    }
    if size >= WORD_SZ {
      var shifted: nat := (c as nat) * 0x100 + c;
      ShiftedBytes(c);
      if size >= DWORD_SZ {
        shifted := shifted * 0x1_0000 + shifted;
        StoreEnds(mem, at, c, LowBytes(shifted, DWORD_SZ), size);
        return;
      }
      StoreEnds(mem, at, c, LowBytes(shifted, WORD_SZ), size);
      return;
    }
    ghost var s := mem.Contents();
    OverlayNone(s, at, Repeated(c, size));
    ghost var done: iset<int> := iset{};
    if size == 1 {
      mem.Store(Unaligned, at, Repeated(c, 1));
      PatchRepeated(s, at, c, 1, done, 0, 1);
      done := done + Span(0, 1);
    }
    FillComplete(s, at, c, size, done);
  }

  /** AVX-512, at most two zmm registers. */
  method FillUpTo2Zmm(mem: Memory, at: nat, val: int, size: nat)
    requires size <= 2 * ZMM_SZ && mem.CanWrite(at, size)
    modifies mem.bytes
    ensures mem.Contents() == Filled(old(mem.Contents()), at, LowByte(val), size)
  {
    var c := LowByte(val);
    if size <= ZMM_SZ {
      if size != 0 {
        MaskedFill(mem, OnesShiftedRight(64, ZMM_SZ - size), at, c, size);
      }
      return;
    }
    StoreEnds(mem, at, c, Repeated(c, ZMM_SZ), size);
  }

  method FillUpTo2(mem: Memory, v: nat, at: nat, val: int, size: nat)
    requires (v == YMM_SZ || v == ZMM_SZ) && size <= 2 * v && mem.CanWrite(at, size)
    modifies mem.bytes
    ensures mem.Contents() == Filled(old(mem.Contents()), at, LowByte(val), size)
  {
    if v == YMM_SZ {
      FillUpTo2Ymm(mem, at, val, size);
    } else {
      FillUpTo2Zmm(mem, at, val, size);
    }
  }

  /** AVX2 cuts the small sizes with < where AVX-512 uses <=. */
  predicate AtMost(v: nat, size: nat, bound: nat) {
    if v == YMM_SZ then size < bound else size <= bound
  }

  method MemsetUnaligned(mem: Memory, v: nat, at: nat, val: int, size: nat) returns (ret: nat)
    requires v == YMM_SZ || v == ZMM_SZ
    requires mem.CanWrite(at, size)
    modifies mem.bytes
    ensures ret == at
    ensures mem.Contents() == Filled(old(mem.Contents()), at, LowByte(val), size)
    ensures forall i :: 0 <= i < mem.bytes.Length ==>
              mem.Contents()[i] as int == if at <= i < at + size then val % 256 else old(mem.Contents()[i] as int)
  {
    hide Overlay, Splice, Repeated, Filled, Multiple32, Multiple64;
    WholeBlocks(v);
    FilledBytes(mem.Contents(), at, val, size);
    ret := at;
    if AtMost(v, size, 2 * v) {
      FillUpTo2(mem, v, at, val, size);
      return;
    }
    var c := LowByte(val);
    ghost var s := mem.Contents();
    OverlayNone(s, at, Repeated(c, size));
    ghost var done: iset<int> := iset{};
    if AtMost(v, size, 4 * v) {
      done := StoreRun(mem, v, Unaligned, at, c, 0, 2 * v, s, size, done);
      done := StoreRun(mem, v, Unaligned, at, c, size - 2 * v, 2 * v, s, size, done);
      FillComplete(s, at, c, size, done);
      return;
    }
    done := StoreRun(mem, v, Unaligned, at, c, 0, 4 * v, s, size, done);
    done := StoreRun(mem, v, Unaligned, at, c, size - 4 * v, 4 * v, s, size, done);
    var offset := 4 * v;
    var left := size - 4 * v;
    while offset < left
      invariant forall k :: 0 <= k < offset || left <= k < size ==> k in done
      invariant mem.Contents() == Overlay(s, at, Repeated(c, size), done)
    {
      done := StoreRun(mem, v, Unaligned, at, c, offset, 4 * v, s, size, done);
      offset := offset + 4 * v;
    }
    FillComplete(s, at, c, size, done);
  }

  /** The aligned_store and nt_store variants: `kind` is Aligned or Stream. After the first
      unaligned vector, aligned stores in steps of 4 and 2 vectors and one, then the last
      unaligned vector. */
  method MemsetAligned(mem: Memory, v: nat, kind: Access, at: nat, val: int, size: nat) returns (ret: nat)
    requires v == YMM_SZ || v == ZMM_SZ
    requires mem.CanWrite(at, size)
    modifies mem.bytes
    ensures ret == at
    ensures mem.Contents() == Filled(old(mem.Contents()), at, LowByte(val), size)
    ensures forall i :: 0 <= i < mem.bytes.Length ==>
              mem.Contents()[i] as int == if at <= i < at + size then val % 256 else old(mem.Contents()[i] as int)
  {
    hide Overlay, Splice, Repeated, Filled, Multiple32, Multiple64, LowBits;
    FilledBytes(mem.Contents(), at, val, size);
    ret := at;
    if if kind.Stream? then size <= 2 * v else AtMost(v, size, 2 * v) {
      FillUpTo2(mem, v, at, val, size);
      return;
    }
    var c := LowByte(val);
    ghost var s := mem.Contents();
    OverlayNone(s, at, Repeated(c, size));
    ghost var done: iset<int> := iset{};
    WholeBlocks(v);

    var offset := v - LowBits(v, at);
    LowBitsAlign(v, at);
    done := StoreRun(mem, v, Unaligned, at, c, 0, v, s, size, done);
    var left := size - offset;
    while left >= 4 * v
      invariant offset + left == size && Whole(v, at + offset)
      invariant forall k :: 0 <= k < offset ==> k in done
      invariant mem.Contents() == Overlay(s, at, Repeated(c, size), done)
    {
      done := StoreRun(mem, v, kind, at, c, offset, 4 * v, s, size, done);
      WholeSum(v, at + offset, 4 * v);
      left := left - 4 * v;
      offset := offset + 4 * v;
    }
    if left >= 2 * v {
      done := StoreRun(mem, v, kind, at, c, offset, 2 * v, s, size, done);
      WholeSum(v, at + offset, 2 * v);
      left := left - 2 * v;
      offset := offset + 2 * v;
    }
    if left > v {
      done := StoreRun(mem, v, kind, at, c, offset, v, s, size, done);
    }
    done := StoreRun(mem, v, Unaligned, at, c, left + offset - v, v, s, size, done);
    FillComplete(s, at, c, size, done);
  }
}
