/** The load/store building blocks of the base headers: head-and-tail copies, the forward and
    backward vector loops, and the small copies, all over one memory in which the two buffers
    may overlap. */
module LoadStore {
  import opened Alignment
  import opened Bits
  import opened Memory
  import opened Overlap

  // ---- Half-finished moves -------------------------------------------------------------------

  /** Head and tail pieces that meet or overlap write the whole block, in either order. */
  lemma HeadTailCovers(s: seq<byte>, dst: nat, src: nat, size: nat, h: nat)
    requires 0 < h <= size <= 2 * h && dst + size <= |s| && src + size <= |s|
    ensures var head, tail := s[src..src + h], s[src + size - h..src + size];
            && Splice(Splice(s, dst, head), dst + size - h, tail) == Moved(s, dst, src, size)
            && Splice(Splice(s, dst + size - h, tail), dst, head) == Moved(s, dst, src, size)
  {
  }

  /** A block move inside a half-finished copy counts as done what it moved, if the bytes it
      read had not been overwritten. */
  lemma PatchMoved(s: seq<byte>, dst: nat, src: nat, size: nat, done: iset<int>, lo: nat, hi: nat)
    requires lo <= hi <= size && (size == 0 || (src + size <= |s| && dst + size <= |s|))
    requires forall k :: src + lo - dst <= k < src + hi - dst ==> k !in done
    ensures var img := Slice(s, src, size);
            Moved(Overlay(s, dst, img, done), dst + lo, src + lo, hi - lo) == Overlay(s, dst, img, done + Span(lo, hi))
  {
    var img := Slice(s, src, size);
    if lo < hi {
      var m := Overlay(s, dst, img, done);
      Intact(s, dst, img, done, src + lo, hi - lo);
      assert Moved(m, dst + lo, src + lo, hi - lo) == Splice(m, dst + lo, m[src + lo..src + hi]);
      PatchSaved(s, dst, src, size, done, lo, hi);
    } else {
      assert done + Span(lo, hi) == done;
    }
  }

  /** Storing registers that were loaded from the untouched source marks them as done. */
  lemma PatchSaved(s: seq<byte>, dst: nat, src: nat, size: nat, done: iset<int>, lo: nat, hi: nat)
    requires lo < hi <= size && src + size <= |s| && dst + size <= |s|
    ensures var img := Slice(s, src, size);
            var m := Overlay(s, dst, img, done);
            Splice(m, dst + lo, s[src + lo..src + hi]) == Overlay(s, dst, img, done + Span(lo, hi))
  {
    var img := Slice(s, src, size);
    SliceOfSlice(s, src, size, lo, hi);
    Patch(s, dst, img, done, lo, hi);
  }

  /** A first block move starts the overlay. */
  lemma StartMoved(s: seq<byte>, dst: nat, src: nat, size: nat, lo: nat, hi: nat)
    requires lo <= hi <= size && src + size <= |s| && dst + size <= |s|
    ensures Moved(s, dst + lo, src + lo, hi - lo) == Overlay(s, dst, Slice(s, src, size), Span(lo, hi))
  {
    OverlayNone(s, dst, Slice(s, src, size));
    PatchMoved(s, dst, src, size, iset{}, lo, hi);
    assert iset{} + Span(lo, hi) == Span(lo, hi);
  }

  /** When every index is done the copy is complete. */
  lemma MoveComplete(s: seq<byte>, dst: nat, src: nat, size: nat, done: iset<int>)
    requires src + size <= |s| && dst + size <= |s|
    requires forall k :: 0 <= k < size ==> k in done
    ensures Overlay(s, dst, Slice(s, src, size), done) == Moved(s, dst, src, size)
  {
  }

  // ---- Head and tail -----------------------------------------------------------------------

  /** The 2x head-and-tail copy: both ends are loaded before either is stored. */
  method HeadTail(mem: Memory, w: nat, dst: nat, src: nat, size: nat)
    requires 0 < w <= size <= 2 * w
    requires mem.CanRead(src, size) && mem.CanWrite(dst, size)
    modifies mem.bytes
    ensures mem.Contents() == Moved(old(mem.Contents()), dst, src, size)
  {
    hide Moved, Splice;
    ghost var s := mem.Contents();
    var v0 := mem.Load(w, Unaligned, src);
    var v1 := mem.Load(w, Unaligned, src + size - w);
    mem.Store(Unaligned, dst, v0);
    mem.Store(Unaligned, dst + size - w, v1);
    HeadTailCovers(s, dst, src, size, w);
  }

  /** The scalar form used by the overlapping small copies: the tail is stored first, and only
      then the head that was kept in a temporary. */
  method TailHead(mem: Memory, w: nat, dst: nat, src: nat, size: nat)
    requires 0 < w <= size <= 2 * w
    requires mem.CanRead(src, size) && mem.CanWrite(dst, size)
    modifies mem.bytes
    ensures mem.Contents() == Moved(old(mem.Contents()), dst, src, size)
  {
    hide Moved, Splice;
    ghost var s := mem.Contents();
    var temp := mem.Load(w, Unaligned, src);
    var tail := mem.Load(w, Unaligned, src + size - w);
    mem.Store(Unaligned, dst + size - w, tail);
    mem.Store(Unaligned, dst, temp);
    HeadTailCovers(s, dst, src, size, w);
  }

  /** The 4x and 8x head-and-tail copies: h bytes of registers at each end, all loaded first. */
  method HeadTailVecs(mem: Memory, v: nat, h: nat, dst: nat, src: nat, size: nat)
    requires 0 < h <= size && Whole(v, h)
    requires mem.CanRead(src, size) && mem.CanWrite(dst, size)
    modifies mem.bytes
    ensures var s := old(mem.Contents());
            mem.Contents() == Splice(Splice(s, dst, s[src..src + h]), dst + size - h, s[src + size - h..src + size])
    ensures size <= 2 * h ==> mem.Contents() == Moved(old(mem.Contents()), dst, src, size)
  {
    hide Multiple32, Multiple64, Moved, Splice;
    ghost var s := mem.Contents();
    var head := mem.LoadVecs(v, h, Unaligned, src);
    var tail := mem.LoadVecs(v, h, Unaligned, src + size - h);
    mem.StoreVecs(v, Unaligned, dst, head);
    mem.StoreVecs(v, Unaligned, dst + size - h, tail);
    if size <= 2 * h { HeadTailCovers(s, dst, src, size, h); }
  }

  // ---- Vector loops ------------------------------------------------------------------------

  /** The 4x and 8x forward loops, `step` bytes a pass, for buffers that overlap in any way; a
      move when the destination is not inside the source range still to be read. */
  method LoopForward(mem: Memory, v: nat, step: nat, lt: Access, st: Access,
                     dst: nat, src: nat, size: nat, start: nat) returns (offset: nat)
    requires step > 0 && Whole(v, step)
    requires mem.CanRead(src, size + step) && mem.CanWrite(dst, size + step)
    requires AlignedFor(lt, v, src + start) && AlignedFor(st, v, dst + start)
    modifies mem.bytes
    ensures if start < size then size <= offset < size + step else offset == start
    ensures start <= offset && WholePasses(offset - start, step)
    ensures mem.Contents() == CopyUp(old(mem.Contents()), dst + start, src + start, step, offset - start)
    ensures start < size && (dst <= src || src + size + step <= dst) ==>
              mem.Contents() == Moved(old(mem.Contents()), dst + start, src + start, offset - start)
  {
    hide Multiple32, Multiple64, Moved, Splice, Slice;
    ghost var s := mem.Contents();
    offset := start;
    while offset < size
      invariant start <= offset && WholePasses(offset - start, step)
      invariant if start < size then offset < size + step else offset == start
      invariant mem.Contents() == CopyUp(s, dst + start, src + start, step, offset - start)
      invariant AlignedFor(lt, v, src + offset) && AlignedFor(st, v, dst + offset)
    {
      var regs := mem.LoadVecs(v, step, lt, src + offset);
      mem.StoreVecs(v, st, dst + offset, regs);
      PassIs(CopyUp(s, dst + start, src + start, step, offset - start), dst + offset, src + offset, step);
      KeepsAlignment(v, lt, src + offset, step);
      KeepsAlignment(v, st, dst + offset, step);
      offset := offset + step;
    }
    if start < size && (dst <= src || src + size + step <= dst) {
      CopyUpIsMoved(s, dst + start, src + start, step, offset - start);
    }
  }

  /** The 4x backward loop: it eats `step` bytes from the top while more than `floor` remain
      and returns how many are left; a move when the source is not inside the destination
      range. The source's four registers of a pass go in descending order; they lie side by
      side, so the order within a pass does not show. */
  method LoopBackward(mem: Memory, v: nat, step: nat, lt: Access, st: Access,
                      dst: nat, src: nat, total: nat, floor: nat) returns (size: nat)
    requires 0 < step <= floor && Whole(v, step)
    requires mem.CanRead(src, total) && mem.CanWrite(dst, total)
    requires AlignedFor(lt, v, src + total) && AlignedFor(st, v, dst + total)
    modifies mem.bytes
    ensures if floor < total then floor - step < size <= floor else size == total
    ensures size <= total && WholePasses(total - size, step)
    ensures mem.Contents() == CopyDown(old(mem.Contents()), dst + size, src + size, step, total - size)
    ensures floor < total && (src <= dst || dst + total <= src) ==>
              mem.Contents() == Moved(old(mem.Contents()), dst + size, src + size, total - size)
  {
    hide Multiple32, Multiple64, Moved, Splice, Slice;
    ghost var s := mem.Contents();
    size := total;
    while floor < size
      invariant size <= total && WholePasses(total - size, step)
      invariant if floor < total then floor - step < size else size == total
      invariant mem.Contents() == CopyDown(s, dst + size, src + size, step, total - size)
      invariant AlignedFor(lt, v, src + size) && AlignedFor(st, v, dst + size)
    {
      KeepsAlignment(v, lt, src + size, step);
      KeepsAlignment(v, st, dst + size, step);
      var regs := mem.LoadVecs(v, step, lt, src + size - step);
      mem.StoreVecs(v, st, dst + size - step, regs);
      PassIs(CopyDown(s, dst + size, src + size, step, total - size), dst + size - step, src + size - step, step);
      size := size - step;
    }
    if floor < total && (src <= dst || dst + total <= src) {
      CopyDownIsMoved(s, dst + size, src + size, step, total - size);
    }
  }

  // ---- Small copies ------------------------------------------------------------------------

  /** Masked copy of at most one zmm register. */
  method MaskedCopy(mem: Memory, dst: nat, src: nat, size: nat) returns (ret: nat)
    requires size <= ZMM_SZ
    requires mem.CanRead(src, size) && mem.CanWrite(dst, size)
    modifies mem.bytes
    ensures ret == dst
    ensures mem.Contents() == Moved(old(mem.Contents()), dst, src, size)
  {
    ghost var s := mem.Contents();
    var mask := Bzhi(64, size % 256);
    var z0 := mem.LoadMasked(0, mask, src);
    mem.StoreMasked(mask, dst, z0);
    assert mem.Contents() == Moved(s, dst, src, size);
    ret := dst;
  }

  /** Head-and-tail copy for sizes 0..63 by nested size tests. */
  method CopyBelowZmm(mem: Memory, dst: nat, src: nat, size: nat) returns (ret: nat)
    requires size < ZMM_SZ
    requires mem.CanRead(src, size) && mem.CanWrite(dst, size)
    modifies mem.bytes
    ensures ret == dst
    ensures mem.Contents() == Moved(old(mem.Contents()), dst, src, size)
  {
    ret := dst;
    if size >= XMM_SZ {
      if size < YMM_SZ {
        HeadTail(mem, XMM_SZ, dst, src, size);
      } else {
        HeadTail(mem, YMM_SZ, dst, src, size);
      }
      return;
    }
    if size >= QWORD_SZ {
      HeadTail(mem, QWORD_SZ, dst, src, size);
      return;
    }
    if size >= DWORD_SZ {
      HeadTail(mem, DWORD_SZ, dst, src, size);
      return;
    }
    if size >= WORD_SZ {
      HeadTail(mem, WORD_SZ, dst, src, size);
    } else if size != 0 {
      CopyByte(mem, dst, src);
    }
  }

  method CopyByte(mem: Memory, dst: nat, src: nat)
    requires mem.CanRead(src, 1) && mem.CanWrite(dst, 1)
    modifies mem.bytes
    ensures mem.Contents() == Moved(old(mem.Contents()), dst, src, 1)
  {
    var b := mem.Load(1, Unaligned, src);
    mem.Store(Unaligned, dst, b);
  }

  /** Overlap-safe copy of up to two ymm registers, by nested size tests. */
  method CopyUpTo2Ymm(mem: Memory, dst: nat, src: nat, size: nat) returns (ret: nat)
    requires size <= 2 * YMM_SZ
    requires mem.CanRead(src, size) && mem.CanWrite(dst, size)
    modifies mem.bytes
    ensures ret == dst
    ensures mem.Contents() == Moved(old(mem.Contents()), dst, src, size)
  {
    ret := dst;
    if size <= 2 * DWORD_SZ {
      if size <= 2 * WORD_SZ {
        if size <= 1 {
          if size != 0 { CopyByte(mem, dst, src); }
          return;
        }
        TailHead(mem, WORD_SZ, dst, src, size);
        return;
      }
      TailHead(mem, DWORD_SZ, dst, src, size);
      return;
    }
    if size < 2 * XMM_SZ {
      if size <= 2 * QWORD_SZ {
        TailHead(mem, QWORD_SZ, dst, src, size);
        return;
      }
      HeadTail(mem, XMM_SZ, dst, src, size);
      return;
    }
    HeadTail(mem, YMM_SZ, dst, src, size);
  }

  /** Overlap-safe copy of up to two zmm registers, by a switch on the leading-zero count. */
  method CopyUpTo2Zmm(mem: Memory, dst: nat, src: nat, size: nat) returns (ret: nat)
    requires size <= 2 * ZMM_SZ
    requires mem.CanRead(src, size) && mem.CanWrite(dst, size)
    modifies mem.bytes
    ensures ret == dst
    ensures mem.Contents() == Moved(old(mem.Contents()), dst, src, size)
  {
    LzcntOfSmallSize(size);
    ret := dst;
    match Lzcnt(32, size)
    case 32 =>
    case 31 => CopyByte(mem, dst, src);
    case 30 => TailHead(mem, WORD_SZ, dst, src, size);
    case 29 => TailHead(mem, DWORD_SZ, dst, src, size);
    case 28 => TailHead(mem, QWORD_SZ, dst, src, size);
    case 27 => HeadTail(mem, XMM_SZ, dst, src, size);
    case 26 => HeadTail(mem, YMM_SZ, dst, src, size);
    case _ => HeadTail(mem, ZMM_SZ, dst, src, size);
  }

  /** The switch sorts sizes up to 128 by their highest bit. */
  lemma LzcntOfSmallSize(size: nat)
    requires size <= 128
    ensures Lzcnt(32, size) == 32 <==> size == 0
    ensures Lzcnt(32, size) == 31 <==> size == 1
    ensures Lzcnt(32, size) == 30 <==> 2 <= size < 4
    ensures Lzcnt(32, size) == 29 <==> 4 <= size < 8
    ensures Lzcnt(32, size) == 28 <==> 8 <= size < 16
    ensures Lzcnt(32, size) == 27 <==> 16 <= size < 32
    ensures Lzcnt(32, size) == 26 <==> 32 <= size < 64
  {
    if size == 0 {
      LzcntZero(32);
    } else {
      var b := if size == 1 then 0 else if size < 4 then 1 else if size < 8 then 2 else if size < 16 then 3
               else if size < 32 then 4 else if size < 64 then 5 else if size < 128 then 6 else 7;
      assert Pow2(0) == 1 && Pow2(1) == 2 && Pow2(2) == 4 && Pow2(3) == 8;
      assert Pow2(4) == 16 && Pow2(5) == 32;
      assert Pow2(6) == 64 && Pow2(7) == 128 && Pow2(8) == 256;
      LzcntRange(32, b, size);
    }
  }

  lemma {:induction false} LzcntZero(w: nat)
    ensures Lzcnt(w, 0) == w
  {
    if w != 0 { LzcntZero(w - 1); }
  }
}
