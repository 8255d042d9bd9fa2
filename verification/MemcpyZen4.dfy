/** memmove and memcpy for Zen4: one implementation built twice, with and without the
    handling of overlapping buffers. */
module MemcpyZen4 {
  import opened Alignment
  import opened Bits
  import opened Memory
  import opened Overlap
  import opened LoadStore

  /** The build with MEMMOVE_ZEN4: any two buffers, overlapping in any way. The cache size and
      the non-temporal threshold only select a strategy. */
  method Memmove(mem: Memory, dst: nat, src: nat, size: nat, l2: nat, ntStart: nat) returns (ret: nat)
    requires mem.CanRead(src, size) && mem.CanWrite(dst, size)
    modifies mem.bytes
    ensures ret == dst
    ensures mem.Contents() == Moved(old(mem.Contents()), dst, src, size)
  {
    hide Moved;
    ret := dst;
    if size <= 2 * ZMM_SZ {
      if size < ZMM_SZ {
        ret := CopyBelowZmm(mem, dst, src, size);
        return;
      }
      HeadTail(mem, ZMM_SZ, dst, src, size % 256);
      return;
    } else if size <= 8 * ZMM_SZ {
      CopyUpTo8Zmm(mem, dst, src, size);
      return;
    }
    if !(dst + size < src || src + size < dst) {
      if src < dst {
        BackwardCopy(mem, dst, src, size);
      } else {
        ForwardCopy(mem, dst, src, size);
      }
      return;
    }
    CopyDisjoint(mem, dst, src, size, l2, ntStart);
  }

  /** The build without MEMMOVE_ZEN4: restrict-qualified, hence disjoint, buffers. */
  method Memcpy(mem: Memory, dst: nat, src: nat, size: nat, l2: nat, ntStart: nat) returns (ret: nat)
    requires mem.CanRead(src, size) && mem.CanWrite(dst, size)
    requires dst + size <= src || src + size <= dst
    modifies mem.bytes
    ensures ret == dst
    ensures mem.Contents() == Moved(old(mem.Contents()), dst, src, size)
  {
    hide Moved;
    ret := dst;
    if size <= 2 * ZMM_SZ {
      if size < ZMM_SZ {
        var _ := MaskedCopy(mem, dst, src, size % 256);
        return;
      }
      HeadTail(mem, ZMM_SZ, dst, src, size % 256);
      return;
    } else if size <= 8 * ZMM_SZ {
      CopyUpTo8Zmm(mem, dst, src, size);
      return;
    }
    CopyDisjoint(mem, dst, src, size, l2, ntStart);
  }

  method CopyUpTo8Zmm(mem: Memory, dst: nat, src: nat, size: nat)
    requires 2 * ZMM_SZ < size <= 8 * ZMM_SZ
    requires mem.CanRead(src, size) && mem.CanWrite(dst, size)
    modifies mem.bytes
    ensures mem.Contents() == Moved(old(mem.Contents()), dst, src, size)
  {
    WholeBlocks(ZMM_SZ);
    if size <= 4 * ZMM_SZ {
      HeadTailVecs(mem, ZMM_SZ, 2 * ZMM_SZ, dst, src, size);
      return;
    }
    HeadTailVecs(mem, ZMM_SZ, 4 * ZMM_SZ, dst, src, size);
  }

  /** What a 4x loop leaves over, at most four vectors, whatever the buffers' overlap. */
  method CopyRemainder(mem: Memory, dst: nat, src: nat, rem: nat)
    requires rem <= 4 * ZMM_SZ
    requires mem.CanRead(src, rem) && mem.CanWrite(dst, rem)
    modifies mem.bytes
    ensures mem.Contents() == Moved(old(mem.Contents()), dst, src, rem)
  {
    WholeBlocks(ZMM_SZ);
    if rem > 2 * ZMM_SZ {
      HeadTailVecs(mem, ZMM_SZ, 2 * ZMM_SZ, dst, src, rem);
    } else if rem > ZMM_SZ {
      HeadTail(mem, ZMM_SZ, dst, src, rem);
    } else if rem > 0 {
      var _ := MaskedCopy(mem, dst, src, rem);
    }
  }

  /** Overlapping buffers with the source below: copy downwards from the last aligned
      destination address, after saving the vector that crosses it. */
  method BackwardCopy(mem: Memory, dst: nat, src: nat, size: nat)
    requires size > 8 * ZMM_SZ && src < dst
    requires mem.CanRead(src, size) && mem.CanWrite(dst, size)
    modifies mem.bytes
    ensures mem.Contents() == Moved(old(mem.Contents()), dst, src, size)
  {
    hide Overlay, Moved, Splice, Slice, CopyUp, CopyDown, WholePasses, Multiple32, Multiple64, LowBits;
    WholeBlocks(ZMM_SZ);
    ghost var s := mem.Contents();
    var off := LowBits(ZMM_SZ, dst + size);
    LowBitsAlign(ZMM_SZ, dst + size);
    var z8 := mem.Load(ZMM_SZ, Unaligned, src + size - ZMM_SZ);
    var rem;
    if LowBits(ZMM_SZ, dst) == LowBits(ZMM_SZ, src) {
      SameLowBits(ZMM_SZ, dst, src, size - off);
      rem := LoopBackward(mem, ZMM_SZ, 4 * ZMM_SZ, Aligned, Aligned, dst, src, size - off, 4 * ZMM_SZ);
    } else {
      rem := LoopBackward(mem, ZMM_SZ, 4 * ZMM_SZ, Unaligned, Aligned, dst, src, size - off, 4 * ZMM_SZ);
    }
    StartMoved(s, dst, src, size, rem, size - off);
    ghost var done := Span(rem, size - off);

    CopyRemainder(mem, dst, src, rem);
    PatchMoved(s, dst, src, size, done, 0, rem);
    done := done + Span(0, rem);

    mem.Store(Unaligned, dst + size - ZMM_SZ, z8);
    PatchSaved(s, dst, src, size, done, size - ZMM_SZ, size);
    MoveComplete(s, dst, src, size, done + Span(size - ZMM_SZ, size));
  }

  /** Overlapping buffers with the destination at or below the source: copy upwards from the
      first aligned destination address, after saving the vector that precedes it. */
  method ForwardCopy(mem: Memory, dst: nat, src: nat, size: nat)
    requires size > 8 * ZMM_SZ && dst <= src
    requires mem.CanRead(src, size) && mem.CanWrite(dst, size)
    modifies mem.bytes
    ensures mem.Contents() == Moved(old(mem.Contents()), dst, src, size)
  {
    hide Overlay, Moved, Splice, Slice, CopyUp, CopyDown, WholePasses, Multiple32, Multiple64, LowBits;
    WholeBlocks(ZMM_SZ);
    ghost var s := mem.Contents();
    var offset := ZMM_SZ - LowBits(ZMM_SZ, dst);
    ghost var start := offset;
    LowBitsAlign(ZMM_SZ, dst);
    var z8 := mem.Load(ZMM_SZ, Unaligned, src);
    if LowBits(ZMM_SZ, dst) == LowBits(ZMM_SZ, src) {
      SameLowBits(ZMM_SZ, dst, src, offset);
      offset := LoopForward(mem, ZMM_SZ, 4 * ZMM_SZ, Aligned, Aligned, dst, src, size - 4 * ZMM_SZ, offset);
    } else {
      offset := LoopForward(mem, ZMM_SZ, 4 * ZMM_SZ, Unaligned, Aligned, dst, src, size - 4 * ZMM_SZ, offset);
    }
    StartMoved(s, dst, src, size, start, offset);
    ghost var done := Span(start, offset);

    var rem := size - offset;
    CopyRemainder(mem, dst + offset, src + offset, rem);
    PatchMoved(s, dst, src, size, done, offset, size);
    done := done + Span(offset, size);

    mem.Store(Unaligned, dst, z8);
    PatchSaved(s, dst, src, size, done, 0, ZMM_SZ);
    MoveComplete(s, dst, src, size, done + Span(0, ZMM_SZ));
  }

  /** The middle loop of a disjoint copy, over aligned destination addresses. The size selects
      the register width and the kind of store, equal low bits the kind of load. */
  method MiddleLoop(mem: Memory, dst: nat, src: nat, size: nat, l2: nat, ntStart: nat, offset: nat)
    returns (end: nat)
    requires size > 8 * ZMM_SZ && (dst + size <= src || src + size <= dst)
    requires mem.CanRead(src, size) && mem.CanWrite(dst, size)
    requires offset == 4 * ZMM_SZ - LowBits(ZMM_SZ, dst)
    modifies mem.bytes
    ensures size - 4 * ZMM_SZ <= end < size
    ensures mem.Contents() == Moved(old(mem.Contents()), dst + offset, src + offset, end - offset)
  {
    hide Moved, CopyUp, WholePasses, Multiple32, Multiple64, LowBits;
    WholeBlocks(YMM_SZ);
    WholeBlocks(ZMM_SZ);
    LowBitsAlign(ZMM_SZ, dst);
    WholeSum(ZMM_SZ, dst + (ZMM_SZ - LowBits(ZMM_SZ, dst)), 3 * ZMM_SZ);
    ZmmIsYmm(dst + offset);
    if LowBits(ZMM_SZ, src) == LowBits(ZMM_SZ, dst) {
      SameLowBits(ZMM_SZ, dst, src, offset);
      ZmmIsYmm(src + offset);
      if size < l2 {
        end := LoopForward(mem, YMM_SZ, 8 * YMM_SZ, Aligned, Aligned, dst, src, size - 4 * ZMM_SZ, offset);
      } else if size < ntStart {
        end := LoopForward(mem, YMM_SZ, 4 * YMM_SZ, Aligned, Aligned, dst, src, size - 4 * ZMM_SZ, offset);
      } else {
        end := LoopForward(mem, ZMM_SZ, 4 * ZMM_SZ, Aligned, Stream, dst, src, size - 4 * ZMM_SZ, offset);
      }
    } else {
      if size < ntStart {
        end := LoopForward(mem, ZMM_SZ, 4 * ZMM_SZ, Unaligned, Aligned, dst, src, size - 4 * ZMM_SZ, offset);
      } else {
        end := LoopForward(mem, ZMM_SZ, 4 * ZMM_SZ, Unaligned, Stream, dst, src, size - 4 * ZMM_SZ, offset);
      }
    }
  }

  /** Disjoint buffers: head and tail first, then a loop over aligned destination addresses
      whose width and store kind depend on the size. */
  method CopyDisjoint(mem: Memory, dst: nat, src: nat, size: nat, l2: nat, ntStart: nat)
    requires size > 8 * ZMM_SZ && (dst + size <= src || src + size <= dst)
    requires mem.CanRead(src, size) && mem.CanWrite(dst, size)
    modifies mem.bytes
    ensures mem.Contents() == Moved(old(mem.Contents()), dst, src, size)
  {
    hide Overlay, Moved, Splice, Slice, CopyUp, CopyDown, WholePasses, Multiple32, Multiple64, LowBits;
    WholeBlocks(ZMM_SZ);
    ghost var s := mem.Contents();
    var dstAlign := LowBits(ZMM_SZ, dst);
    HeadTailVecs(mem, ZMM_SZ, 4 * ZMM_SZ, dst, src, size);
    ghost var head := Span(0, 4 * ZMM_SZ);
    OverlayNone(s, dst, Slice(s, src, size));
    PatchSaved(s, dst, src, size, iset{}, 0, 4 * ZMM_SZ);
    PatchSaved(s, dst, src, size, iset{} + head, size - 4 * ZMM_SZ, size);
    ghost var done := iset{} + head + Span(size - 4 * ZMM_SZ, size);

    var offset := 4 * ZMM_SZ - dstAlign;
    var end := MiddleLoop(mem, dst, src, size, l2, ntStart, offset);
    PatchMoved(s, dst, src, size, done, offset, end);
    MoveComplete(s, dst, src, size, done + Span(offset, end));
  }
}
