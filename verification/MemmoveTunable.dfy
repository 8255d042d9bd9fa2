/** The tunable memmove variants, for registers of v = 32 (AVX2) or v = 64 (AVX-512) bytes.
    All save the vectors a loop could spoil, run one vector loop, and store the saved vectors
    last. */
module MemmoveTunable {
  import opened Alignment
  import opened Memory
  import opened Overlap
  import opened LoadStore

  predicate TunableWidth(v: nat) {
    v == YMM_SZ || v == ZMM_SZ
  }

  method MoveUpTo8(mem: Memory, v: nat, dst: nat, src: nat, size: nat) returns (ret: nat)
    requires TunableWidth(v) && size <= 8 * v
    requires mem.CanRead(src, size) && mem.CanWrite(dst, size)
    modifies mem.bytes
    ensures ret == dst && mem.Contents() == Moved(old(mem.Contents()), dst, src, size)
  {
    if size <= 2 * v {
      if v == YMM_SZ {
        ret := CopyUpTo2Ymm(mem, dst, src, size);
      } else {
        ret := CopyUpTo2Zmm(mem, dst, src, size);
      }
      return;
    }
    ret := dst;
    WholeBlocks(v);
    if size <= 4 * v {
      HeadTailVecs(mem, v, 2 * v, dst, src, size);
      return;
    }
    HeadTailVecs(mem, v, 4 * v, dst, src, size);
  }

  /** The test that selects the backward direction. */
  predicate CopiesBackward(dst: nat, src: nat, size: nat) {
    dst < src + size && src < dst
  }

  /** The backward branch: the first four vectors, and the last one when the loop starts below
      the end, are saved before the loop and stored after it. */
  method BackwardBranch(mem: Memory, v: nat, lt: Access, st: Access, edge: Access, saveLast: bool,
                        dst: nat, src: nat, size: nat, top: nat)
    requires TunableWidth(v) && size > 8 * v && src < dst
    requires if saveLast then top <= size < top + v else top == size
    requires AlignedFor(lt, v, src + top) && AlignedFor(st, v, dst + top)
    requires AlignedFor(edge, v, src) && AlignedFor(edge, v, dst)
    requires mem.CanRead(src, size) && mem.CanWrite(dst, size)
    modifies mem.bytes
    ensures mem.Contents() == Moved(old(mem.Contents()), dst, src, size)
  {
    hide Overlay, Moved, Splice, Slice, CopyUp, CopyDown, WholePasses, Multiple32, Multiple64;
    WholeBlocks(v);
    ghost var s := mem.Contents();
    var first4 := mem.LoadVecs(v, 4 * v, edge, src);
    var last := [];
    if saveLast { last := mem.Load(v, Unaligned, src + size - v); }

    var rem := LoopBackward(mem, v, 4 * v, lt, st, dst, src, top, 4 * v);
    StartMoved(s, dst, src, size, rem, top);
    ghost var done := Span(rem, top);

    if saveLast {
      mem.Store(Unaligned, dst + size - v, last);
      PatchSaved(s, dst, src, size, done, size - v, size);
      done := done + Span(size - v, size);
    }
    mem.StoreVecs(v, edge, dst, first4);
    PatchSaved(s, dst, src, size, done, 0, 4 * v);
    MoveComplete(s, dst, src, size, done + Span(0, 4 * v));
  }

  /** The forward branch: the last four vectors, and the first one when the loop starts above
      the beginning, are saved before the loop and stored after it. */
  method ForwardBranch(mem: Memory, v: nat, lt: Access, st: Access, saveFirst: bool,
                       dst: nat, src: nat, size: nat, start: nat)
    requires TunableWidth(v) && size > 8 * v && (dst <= src || src + size <= dst)
    requires if saveFirst then 0 < start <= v else start == 0
    requires AlignedFor(lt, v, src + start) && AlignedFor(st, v, dst + start)
    requires mem.CanRead(src, size) && mem.CanWrite(dst, size)
    modifies mem.bytes
    ensures mem.Contents() == Moved(old(mem.Contents()), dst, src, size)
  {
    hide Overlay, Moved, Splice, Slice, CopyUp, CopyDown, WholePasses, Multiple32, Multiple64;
    WholeBlocks(v);
    ghost var s := mem.Contents();
    var last4 := mem.LoadVecs(v, 4 * v, Unaligned, src + size - 4 * v);
    var first := [];
    if saveFirst { first := mem.Load(v, Unaligned, src); }

    var end := LoopForward(mem, v, 4 * v, lt, st, dst, src, size - 4 * v, start);
    StartMoved(s, dst, src, size, start, end);
    ghost var done := Span(start, end);

    if saveFirst {
      mem.Store(Unaligned, dst, first);
      PatchSaved(s, dst, src, size, done, 0, v);
      done := done + Span(0, v);
    }
    mem.StoreVecs(v, Unaligned, dst + size - 4 * v, last4);
    PatchSaved(s, dst, src, size, done, size - 4 * v, size);
    MoveComplete(s, dst, src, size, done + Span(size - 4 * v, size));
  }

  method MemmoveUnaligned(mem: Memory, v: nat, dst: nat, src: nat, size: nat) returns (ret: nat)
    requires TunableWidth(v)
    requires mem.CanRead(src, size) && mem.CanWrite(dst, size)
    modifies mem.bytes
    ensures ret == dst && mem.Contents() == Moved(old(mem.Contents()), dst, src, size)
  {
    if size <= 8 * v {
      ret := MoveUpTo8(mem, v, dst, src, size);
      return;
    }
    if CopiesBackward(dst, src, size) {
      BackwardBranch(mem, v, Unaligned, Unaligned, Unaligned, false, dst, src, size, size);
    } else {
      ForwardBranch(mem, v, Unaligned, Unaligned, false, dst, src, size, 0);
    }
    ret := dst;
  }

  /** Both pointers must be vector-aligned, as the aligned accesses demand of the caller. */
  method MemmoveAligned(mem: Memory, v: nat, dst: nat, src: nat, size: nat) returns (ret: nat)
    requires TunableWidth(v) && (size > 8 * v ==> Whole(v, dst) && Whole(v, src))
    requires mem.CanRead(src, size) && mem.CanWrite(dst, size)
    modifies mem.bytes
    ensures ret == dst && mem.Contents() == Moved(old(mem.Contents()), dst, src, size)
  {
    if size <= 8 * v {
      ret := MoveUpTo8(mem, v, dst, src, size);
      return;
    }
    if CopiesBackward(dst, src, size) {
      var top := size - LowBits(v, size);
      LowBitsAlign(v, size);
      WholeSum(v, src, top);
      WholeSum(v, dst, top);
      BackwardBranch(mem, v, Aligned, Aligned, Aligned, true, dst, src, size, top);
    } else {
      ForwardBranch(mem, v, Aligned, Aligned, false, dst, src, size, 0);
    }
    ret := dst;
  }

  method MemmoveAlignedLoad(mem: Memory, v: nat, dst: nat, src: nat, size: nat) returns (ret: nat)
    requires TunableWidth(v)
    requires mem.CanRead(src, size) && mem.CanWrite(dst, size)
    modifies mem.bytes
    ensures ret == dst && mem.Contents() == Moved(old(mem.Contents()), dst, src, size)
  {
    if size <= 8 * v {
      ret := MoveUpTo8(mem, v, dst, src, size);
      return;
    }
    if CopiesBackward(dst, src, size) {
      var offset := LowBits(v, src + size);
      LowBitsAlign(v, src + size);
      BackwardBranch(mem, v, Aligned, Unaligned, Unaligned, true, dst, src, size, size - offset);
    } else {
      var offset := v - LowBits(v, src);
      LowBitsAlign(v, src);
      ForwardBranch(mem, v, Aligned, Unaligned, true, dst, src, size, offset);
    }
    ret := dst;
  }

  method MemmoveAlignedStore(mem: Memory, v: nat, dst: nat, src: nat, size: nat) returns (ret: nat)
    requires TunableWidth(v)
    requires mem.CanRead(src, size) && mem.CanWrite(dst, size)
    modifies mem.bytes
    ensures ret == dst && mem.Contents() == Moved(old(mem.Contents()), dst, src, size)
  {
    if size <= 8 * v {
      ret := MoveUpTo8(mem, v, dst, src, size);
      return;
    }
    if CopiesBackward(dst, src, size) {
      var offset := LowBits(v, dst + size);
      LowBitsAlign(v, dst + size);
      BackwardBranch(mem, v, Unaligned, Aligned, Unaligned, true, dst, src, size, size - offset);
    } else {
      var offset := v - LowBits(v, dst);
      LowBitsAlign(v, dst);
      ForwardBranch(mem, v, Unaligned, Aligned, true, dst, src, size, offset);
    }
    ret := dst;
  }

  /** Buffers that overlap or touch: streaming is avoided. */
  predicate OverlapOrTouch(dst: nat, src: nat, size: nat) {
    !(src + size < dst || dst + size < src)
  }

  method MemmoveNt(mem: Memory, v: nat, dst: nat, src: nat, size: nat) returns (ret: nat)
    requires TunableWidth(v) && (size > 8 * v ==> Whole(v, dst) && Whole(v, src))
    requires mem.CanRead(src, size) && mem.CanWrite(dst, size)
    modifies mem.bytes
    ensures ret == dst && mem.Contents() == Moved(old(mem.Contents()), dst, src, size)
  {
    if size <= 8 * v {
      ret := MoveUpTo8(mem, v, dst, src, size);
      return;
    }
    if OverlapOrTouch(dst, src, size) {
      ret := MemmoveAligned(mem, v, dst, src, size);
      return;
    }
    ForwardBranch(mem, v, Stream, Stream, false, dst, src, size, 0);
    ret := dst;
  }

  method MemmoveNtLoad(mem: Memory, v: nat, dst: nat, src: nat, size: nat) returns (ret: nat)
    requires TunableWidth(v)
    requires mem.CanRead(src, size) && mem.CanWrite(dst, size)
    modifies mem.bytes
    ensures ret == dst && mem.Contents() == Moved(old(mem.Contents()), dst, src, size)
  {
    if size <= 8 * v {
      ret := MoveUpTo8(mem, v, dst, src, size);
      return;
    }
    if OverlapOrTouch(dst, src, size) {
      ret := MemmoveAlignedLoad(mem, v, dst, src, size);
      return;
    }
    var offset := v - LowBits(v, src);
    LowBitsAlign(v, src);
    ForwardBranch(mem, v, Stream, Unaligned, true, dst, src, size, offset);
    ret := dst;
  }

  method MemmoveNtStore(mem: Memory, v: nat, dst: nat, src: nat, size: nat) returns (ret: nat)
    requires TunableWidth(v)
    requires mem.CanRead(src, size) && mem.CanWrite(dst, size)
    modifies mem.bytes
    ensures ret == dst && mem.Contents() == Moved(old(mem.Contents()), dst, src, size)
  {
    if size <= 8 * v {
      ret := MoveUpTo8(mem, v, dst, src, size);
      return;
    }
    if OverlapOrTouch(dst, src, size) {
      ret := MemmoveAlignedStore(mem, v, dst, src, size);
      return;
    }
    var offset := v - LowBits(v, dst);
    LowBitsAlign(v, dst);
    ForwardBranch(mem, v, Unaligned, Stream, true, dst, src, size, offset);
    ret := dst;
  }
}
