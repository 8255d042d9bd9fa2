/** The memcmp entry points: Zen4, AVX-512 and AVX2. The AVX-512 variants index with size_t and
    are right for every size. Zen4's tail and all of AVX2 keep the index of the difference in
    an `int`; what that costs is stated exactly. */
module MemcmpRoutines {
  import opened Alignment
  import opened Bits
  import opened Memory
  import opened Memcmp
  import opened MemcmpSmall

  /** The result, or the index, narrowed to `int`, of an access outside the two buffers. */
  datatype Outcome = Returned(diff: int) | OutsideBuffers(index: int)

  /** Narrowing an index of the buffers either changes nothing or yields a smaller index. */
  lemma NarrowedIndex(idx: nat)
    ensures idx < 0x8000_0000 ==> ToInt32(idx) == idx
    ensures idx >= 0x8000_0000 ==> ToInt32(idx) < 0x8000_0000
    ensures idx >= 0x8000_0000 && ToInt32(idx) < 0 ==> NarrowedOutcome(idx) == OutsideBuffers(ToInt32(idx))
    ensures idx >= 0x8000_0000 && ToInt32(idx) >= 0 ==> NarrowedOutcome(idx) == Returned(0)
  {
  }

  /** What becomes of a first difference whose index does not fit: the narrowed index is
      negative, hence outside the buffers, or falls on an earlier pair of bytes, which agree. */
  function NarrowedOutcome(idx: nat): Outcome {
    var low := idx % 0x1_0000_0000;
    if low >= 0x8000_0000 then OutsideBuffers(low - 0x1_0000_0000) else Returned(0)
  }

  /** The byte difference at an index that went through `int`. */
  method ByteDiffInt(mem: Memory, p1: nat, p2: nat, idx: nat, size: nat) returns (r: Outcome)
    requires idx < size && mem.CanRead(p1, size) && mem.CanRead(p2, size)
    requires DiffersFirstAt(mem.Contents(), p1, p2, idx)
    ensures DiffIn(mem.Contents(), p1, p2, size) == idx
    ensures r == if idx < 0x8000_0000 then Returned(Expected(mem.Contents(), p1, p2, size)) else NarrowedOutcome(idx)
    ensures idx >= 0x8000_0000 ==> r != Returned(Expected(mem.Contents(), p1, p2, size))
  {
    hide DiffIn, Expected, ToInt32, NarrowedOutcome;
    ghost var s := mem.Contents();
    Found(s, p1, p2, size, idx);
    NarrowedIndex(idx);
    var ret := ToInt32(idx);
    if 0 <= ret < size {
      var b1 := mem.Load(1, Unaligned, p1 + ret);
      var b2 := mem.Load(1, Unaligned, p2 + ret);
      if idx >= 0x8000_0000 { assert SameAt(s, p1, p2, ret); }
      r := Returned((b1[0] as int) - (b2[0] as int));
    } else {
      r := OutsideBuffers(ret);
    }
  }

  // ---- AVX-512 -----------------------------------------------------------------------------

  /** The unaligned, aligned and nt variants; `kind` is the load the main loop uses. */
  method MemcmpAvx512(mem: Memory, kind: Access, p1: nat, p2: nat, size: nat) returns (r: int)
    requires mem.CanRead(p1, size) && mem.CanRead(p2, size)
    requires size > 2 * ZMM_SZ ==> AlignedFor(kind, ZMM_SZ, p1) && AlignedFor(kind, ZMM_SZ, p2)
    ensures r == Expected(mem.Contents(), p1, p2, size)
  {
    if size <= 2 * ZMM_SZ {
      r := UpTo2Zmm(mem, p1, p2, size);
      return;
    }
    hide Multiple32, Multiple64, Same, DiffersFirstAt, Expected;
    ghost var s := mem.Contents();
    var hit, idx;
    WholeBlocks(ZMM_SZ);
    Shorten(s, p1, p2, 0, 0);
    if size <= 4 * ZMM_SZ {
      hit, idx := ScanVecs(mem, ZMM_SZ, EqualityMaskPlusOne, kind, p1, p2, 0, 2 * ZMM_SZ);
      if hit {
        r := ByteDiff(mem, p1, p2, idx, size);
        return;
      }
      Shorten(s, p1, p2, size - 2 * ZMM_SZ, 2 * ZMM_SZ);
      hit, idx := ScanVecs(mem, ZMM_SZ, EqualityMaskPlusOne, Unaligned, p1, p2, size - 2 * ZMM_SZ, 2 * ZMM_SZ);
      if hit {
        r := ByteDiff(mem, p1, p2, idx, size);
        return;
      }
      NotFound(s, p1, p2, size);
      return 0;
    }
    var offset := 0;
    var left := size - 4 * ZMM_SZ;
    while left > offset
      invariant offset <= size && Same(s, p1, p2, offset)
      invariant AlignedFor(kind, ZMM_SZ, p1 + offset) && AlignedFor(kind, ZMM_SZ, p2 + offset)
    {
      hit, idx := ScanVecs(mem, ZMM_SZ, EqualityMaskPlusOne, kind, p1, p2, offset, 4 * ZMM_SZ);
      if hit {
        r := ByteDiff(mem, p1, p2, idx, size);
        return;
      }
      KeepsAlignment(ZMM_SZ, kind, p1 + offset, 4 * ZMM_SZ);
      KeepsAlignment(ZMM_SZ, kind, p2 + offset, 4 * ZMM_SZ);
      offset := offset + 4 * ZMM_SZ;
    }
    left := left + 4 * ZMM_SZ;
    if offset == left {
      NotFound(s, p1, p2, size);
      return 0;
    }
    Shorten(s, p1, p2, left - 4 * ZMM_SZ, offset);
    hit, idx := ScanVecs(mem, ZMM_SZ, EqualityMaskPlusOne, Unaligned, p1, p2, left - 4 * ZMM_SZ, 4 * ZMM_SZ);
    if hit {
      r := ByteDiff(mem, p1, p2, idx, size);
      return;
    }
    NotFound(s, p1, p2, size);
    return 0;
  }

  // ---- AVX2 --------------------------------------------------------------------------------

  /** The unaligned, aligned and nt variants: right exactly when there is no difference or its
      index fits an `int`. */
  method MemcmpAvx2(mem: Memory, kind: Access, p1: nat, p2: nat, size: nat) returns (r: Outcome)
    requires mem.CanRead(p1, size) && mem.CanRead(p2, size)
    requires size > 2 * YMM_SZ ==> AlignedFor(kind, YMM_SZ, p1) && AlignedFor(kind, YMM_SZ, p2)
    ensures var d := DiffIn(mem.Contents(), p1, p2, size);
            var e := Returned(Expected(mem.Contents(), p1, p2, size));
            && r == (if d == size || d < 0x8000_0000 then e else NarrowedOutcome(d))
            && (r == e <==> d == size || d < 0x8000_0000)
    ensures size <= 0x8000_0000 ==> r == Returned(Expected(mem.Contents(), p1, p2, size))
  {
    if size <= 2 * YMM_SZ {
      var diff := UpTo2Ymm(mem, p1, p2, size);
      return Returned(diff);
    }
    hide Multiple32, Multiple64, Same, DiffersFirstAt, DiffIn, Expected, NarrowedOutcome;
    ghost var s := mem.Contents();
    var hit, idx;
    WholeBlocks(YMM_SZ);
    Shorten(s, p1, p2, 0, 0);
    if size <= 4 * YMM_SZ {
      hit, idx := ScanVecs(mem, YMM_SZ, EqualityMaskPlusOne, kind, p1, p2, 0, 2 * YMM_SZ);
      if hit {
        r := ByteDiffInt(mem, p1, p2, idx, size);
        return;
      }
      Shorten(s, p1, p2, size - 2 * YMM_SZ, 2 * YMM_SZ);
      hit, idx := ScanVecs(mem, YMM_SZ, EqualityMaskPlusOne, Unaligned, p1, p2, size - 2 * YMM_SZ, 2 * YMM_SZ);
      if hit {
        r := ByteDiffInt(mem, p1, p2, idx, size);
        return;
      }
      NotFound(s, p1, p2, size);
      return Returned(0);
    }
    var offset := 0;
    var left := size - 4 * YMM_SZ;
    while left >= offset
      invariant offset <= size && Same(s, p1, p2, offset)
      invariant AlignedFor(kind, YMM_SZ, p1 + offset) && AlignedFor(kind, YMM_SZ, p2 + offset)
    {
      hit, idx := ScanVecs(mem, YMM_SZ, EqualityMaskPlusOne, kind, p1, p2, offset, 4 * YMM_SZ);
      if hit {
        r := ByteDiffInt(mem, p1, p2, idx, size);
        return;
      }
      KeepsAlignment(YMM_SZ, kind, p1 + offset, 4 * YMM_SZ);
      KeepsAlignment(YMM_SZ, kind, p2 + offset, 4 * YMM_SZ);
      offset := offset + 4 * YMM_SZ;
    }
    left := left + 4 * YMM_SZ;
    if offset == left {
      NotFound(s, p1, p2, size);
      return Returned(0);
    }
    Shorten(s, p1, p2, left - 4 * YMM_SZ, offset);
    hit, idx := ScanVecs(mem, YMM_SZ, EqualityMaskPlusOne, Unaligned, p1, p2, left - 4 * YMM_SZ, 4 * YMM_SZ);
    if hit {
      r := ByteDiffInt(mem, p1, p2, idx, size);
      return;
    }
    NotFound(s, p1, p2, size);
    return Returned(0);
  }

  // ---- Zen4 --------------------------------------------------------------------------------

  /** Where the paired-vector loop stops on agreeing buffers: 1..128 bytes before the end. */
  function LoopEnd(size: nat): nat {
    if size <= 4 * ZMM_SZ then size else (size - 1) / 128 * 128
  }

  /** At most one zmm register, both loads masked to the size. */
  method MaskedCompare(mem: Memory, p1: nat, p2: nat, size: nat) returns (r: int)
    requires size <= ZMM_SZ && mem.CanRead(p1, size) && mem.CanRead(p2, size)
    ensures r == Expected(mem.Contents(), p1, p2, size)
  {
    hide Value, Tzcnt, FirstSet;
    ghost var s := mem.Contents();
    var mask := Bzhi(64, size % 256);
    var z1 := mem.LoadMasked(0, mask, p1);
    var z2 := mem.LoadMasked(0, mask, p2);
    var neq := Cmpneq(z1, z2);
    TzcntFindsFirstSet(neq);
    if Value(neq) != 0 {
      var index := Tzcnt(64, Value(neq));
      assert neq[index];
      forall i: nat | i < index ensures SameAt(s, p1, p2, i) {
        assert !neq[i];
      }
      r := ByteDiff(mem, p1, p2, index, size);
      return;
    }
    forall i: nat | i < size ensures SameAt(s, p1, p2, i) {
      assert !neq[i];
    }
    NotFound(s, p1, p2, size);
    return 0;
  }

  /** One half of a pass of the main loop: two ymm comparisons tested together, then told
      apart by the first one's mask. */
  method ScanPair(mem: Memory, p1: nat, p2: nat) returns (hit: bool, idx: nat)
    requires mem.CanRead(p1, 2 * YMM_SZ) && mem.CanRead(p2, 2 * YMM_SZ)
    ensures hit ==> idx < 2 * YMM_SZ && DiffersFirstAt(mem.Contents(), p1, p2, idx)
    ensures !hit ==> Same(mem.Contents(), p1, p2, 2 * YMM_SZ)
  {
    hide Tzcnt, Value, Wrap, Pow2, FirstSet, FirstDiff, Same, DiffersFirstAt, Not, And, AllSet, Cmpeq, Cmpneq;
    ghost var s := mem.Contents();
    var m0 := mem.Load(YMM_SZ, Unaligned, p2);
    var m1 := mem.Load(YMM_SZ, Unaligned, p2 + YMM_SZ);
    var m4 := mem.Load(YMM_SZ, Unaligned, p1);
    var m5 := mem.Load(YMM_SZ, Unaligned, p1 + YMM_SZ);
    var y0 := Cmpeq(m4, m0);
    var y1 := Cmpeq(m5, m1);
    Pow2Of16And32();
    AllOnes(y0);
    PlusOneFindsFirstClear(y0);
    LanesFindFirstDiff(m4, m0);
    LoadedDiff(s, p1, p2, YMM_SZ, m4, m0);
    LanesFindFirstDiff(m5, m1);
    LoadedDiff(s, p1 + YMM_SZ, p2 + YMM_SZ, YMM_SZ, m5, m1);
    AllOnes(And(y0, y1));
    PlusOneFindsFirstClear(And(y0, y1));
    AndOfMasks(y0, y1);
    NoneClear(y0);
    NoneClear(y1);
    NoneClear(And(y0, y1));

    var ret := Value(And(y0, y1));
    hit := ret != 0xFFFF_FFFF;
    idx := 0;
    if hit {
      var ret1 := Value(y0);
      if ret1 != 0xFFFF_FFFF {
        idx := Tzcnt(32, Wrap(32, ret1 + 1));
      } else {
        JoinDifference(s, p1, p2, YMM_SZ, FirstDiff(m5, m1));
        idx := Tzcnt(32, Wrap(32, ret + 1)) + YMM_SZ;
      }
    } else {
      JoinAgreement(s, p1, p2, YMM_SZ, 2 * YMM_SZ);
    }
  }

  /** One pass of the main loop, 128 bytes. */
  method ScanPass(mem: Memory, p1: nat, p2: nat, offset: nat) returns (hit: bool, idx: nat)
    requires mem.CanRead(p1 + offset, 4 * YMM_SZ) && mem.CanRead(p2 + offset, 4 * YMM_SZ)
    requires Same(mem.Contents(), p1, p2, offset)
    ensures hit ==> offset <= idx < offset + 4 * YMM_SZ && DiffersFirstAt(mem.Contents(), p1, p2, idx)
    ensures !hit ==> Same(mem.Contents(), p1, p2, offset + 4 * YMM_SZ)
  {
    hide Same, DiffersFirstAt;
    ghost var s := mem.Contents();
    hit, idx := ScanPair(mem, p1 + offset, p2 + offset);
    if hit {
      JoinDifference(s, p1, p2, offset, idx);
      idx := offset + idx;
      return;
    }
    JoinAgreement(s, p1, p2, offset, offset + 2 * YMM_SZ);
    hit, idx := ScanPair(mem, p1 + offset + 2 * YMM_SZ, p2 + offset + 2 * YMM_SZ);
    if hit {
      JoinDifference(s, p1, p2, offset + 2 * YMM_SZ, idx);
      idx := offset + idx + 2 * YMM_SZ;
      return;
    }
    JoinAgreement(s, p1, p2, offset + 2 * YMM_SZ, offset + 4 * YMM_SZ);
  }

  /** The last 1..128 bytes: the narrowed counters lose nothing, and falling through the cases
      from remVecs down to 1 compares the remVecs vectors that end at the end. */
  method TailZen4(mem: Memory, p1: nat, p2: nat, size: nat, offset: nat) returns (r: Outcome)
    requires 4 * ZMM_SZ < size && offset < size <= offset + 4 * YMM_SZ
    requires mem.CanRead(p1, size) && mem.CanRead(p2, size)
    requires Same(mem.Contents(), p1, p2, offset)
    ensures var d := DiffIn(mem.Contents(), p1, p2, size);
            var e := Returned(Expected(mem.Contents(), p1, p2, size));
            && offset <= d
            && r == (if d == size || d < 0x8000_0000 then e else NarrowedOutcome(d))
            && (r == e <==> d == size || d < 0x8000_0000)
    ensures size <= 0x8000_0000 ==> r == Returned(Expected(mem.Contents(), p1, p2, size))
  {
    hide Same, DiffersFirstAt, DiffIn, Expected;
    ghost var s := mem.Contents();
    var remData := (size - offset) % 0x1_0000;
    var remVecs := (remData / 32 + if remData % 32 != 0 then 1 else 0) % 256;
    if 1 <= remVecs <= 4 {
      var from := size - remVecs * YMM_SZ;
      assert Whole(YMM_SZ, remVecs * YMM_SZ);
      Shorten(s, p1, p2, from, offset);
      var hit, idx := ScanVecs(mem, YMM_SZ, EqualityMaskPlusOne, Unaligned, p1, p2, from, remVecs * YMM_SZ);
      if hit {
        DifferenceBeyond(s, p1, p2, offset, idx);
        r := ByteDiffInt(mem, p1, p2, idx, size);
        return;
      }
    }
    NotFound(s, p1, p2, size);
    return Returned(0);
  }

  lemma DifferenceBeyond(s: seq<byte>, p1: nat, p2: nat, m: nat, d: nat)
    requires Same(s, p1, p2, m) && DiffersFirstAt(s, p1, p2, d)
    ensures m <= d
  {
    assert d < m ==> SameAt(s, p1, p2, d);
  }

  /** The main loop. It reports a difference below LoopEnd, whatever its index, or leaves at
      most 128 bytes for the tail. */
  method LoopZen4(mem: Memory, p1: nat, p2: nat, size: nat) returns (done: bool, r: int, offset: nat)
    requires 4 * ZMM_SZ < size && mem.CanRead(p1, size) && mem.CanRead(p2, size)
    ensures done ==> r == Expected(mem.Contents(), p1, p2, size)
    ensures done ==> DiffIn(mem.Contents(), p1, p2, size) < LoopEnd(size)
    ensures !done ==> LoopEnd(size) <= offset <= size <= offset + 4 * YMM_SZ && Same(mem.Contents(), p1, p2, offset)
  {
    hide Same, DiffersFirstAt, DiffIn, Expected;
    ghost var s := mem.Contents();
    offset := 0;
    Shorten(s, p1, p2, 0, 0);
    while size - 4 * YMM_SZ > offset
      invariant offset <= LoopEnd(size) && offset % 128 == 0 && Same(s, p1, p2, offset)
    {
      var hit, idx := ScanPass(mem, p1, p2, offset);
      if hit {
        r := ByteDiff(mem, p1, p2, idx, size);
        return true, r, offset;
      }
      offset := offset + 4 * YMM_SZ;
    }
    return false, 0, offset;
  }

  /** Right exactly when there is no difference, or the loop finds it, or its index fits an
      `int`. */
  method MemcmpZen4(mem: Memory, p1: nat, p2: nat, size: nat) returns (r: Outcome)
    requires mem.CanRead(p1, size) && mem.CanRead(p2, size)
    ensures var d := DiffIn(mem.Contents(), p1, p2, size);
            var e := Returned(Expected(mem.Contents(), p1, p2, size));
            && r == (if d == size || d < LoopEnd(size) || d < 0x8000_0000 then e else NarrowedOutcome(d))
            && (r == e <==> d == size || d < LoopEnd(size) || d < 0x8000_0000)
    ensures size <= 0x8000_0000 ==> r == Returned(Expected(mem.Contents(), p1, p2, size))
  {
    hide Multiple32, Multiple64, Same, DiffersFirstAt, DiffIn, Expected, NarrowedOutcome;
    WholeBlocks(ZMM_SZ);
    var diff;
    if size <= ZMM_SZ {
      diff := MaskedCompare(mem, p1, p2, size);
      return Returned(diff);
    } else if size <= 2 * ZMM_SZ {
      diff := VectorEnds(mem, ZMM_SZ, InequalityMask, p1, p2, size);
      return Returned(diff);
    }
    ghost var s := mem.Contents();
    var hit, idx;
    Shorten(s, p1, p2, 0, 0);
    if size <= 4 * ZMM_SZ {
      hit, idx := ScanVecs(mem, ZMM_SZ, InequalityMask, Unaligned, p1, p2, 0, 2 * ZMM_SZ);
      if !hit {
        Shorten(s, p1, p2, size - 2 * ZMM_SZ, 2 * ZMM_SZ);
        hit, idx := ScanVecs(mem, ZMM_SZ, InequalityMask, Unaligned, p1, p2, size - 2 * ZMM_SZ, 2 * ZMM_SZ);
      }
      if hit {
        diff := ByteDiff(mem, p1, p2, idx, size);
        return Returned(diff);
      }
      NotFound(s, p1, p2, size);
      return Returned(0);
    }

    var done, offset;
    done, diff, offset := LoopZen4(mem, p1, p2, size);
    if done { return Returned(diff); }
    if offset == size {
      NotFound(s, p1, p2, size);
      return Returned(0);
    }

    r := TailZen4(mem, p1, p2, size, offset);
  }

  // ---- What the narrowing means for callers --------------------------------------------------

  /** Two buffers of n bytes that differ in the last one only. */
  ghost function LastByteDiffers(n: nat): (ab: (seq<byte>, seq<byte>))
    requires n > 0
    ensures |ab.0| == |ab.1| == n && FirstDiff(ab.0, ab.1) == n - 1
  {
    var a: seq<byte> := seq(n, i => 0);
    var b: seq<byte> := seq(n, i => if i == n - 1 then 1 else 0);
    FirstDiffIs(a, b, n - 1);
    (a, b)
  }

  /** The condition of MemcmpAvx2 holds for all contents of a given size exactly when the size
      is at most 2^31; the same bound is exact for MemcmpZen4. */
  lemma IntIndexSizeLimit(n: nat)
    ensures (forall a: seq<byte>, b: seq<byte> | |a| == |b| == n ::
              FirstDiff(a, b) == n || FirstDiff(a, b) < 0x8000_0000)
       <==> n <= 0x8000_0000
    ensures (forall a: seq<byte>, b: seq<byte> | |a| == |b| == n ::
              FirstDiff(a, b) == n || FirstDiff(a, b) < LoopEnd(n) || FirstDiff(a, b) < 0x8000_0000)
       <==> n <= 0x8000_0000
  {
    if n > 0x8000_0000 {
      var (a, b) := LastByteDiffers(n);
      assert FirstDiff(a, b) == n - 1;
    }
  }

  /** The index 2^32 + 10 becomes 10, an earlier pair of bytes, and 2^31 + 10 becomes -2^31 + 10. */
  lemma NarrowedExamples()
    ensures NarrowedOutcome(0x1_0000_000a) == Returned(0) && ToInt32(0x1_0000_000a) == 10
    ensures NarrowedOutcome(0x8000_000a) == OutsideBuffers(-0x8000_0000 + 10)
  {
  }

  /** Two gigabytes and one byte that differ only in the last: the index 2^31 becomes -2^31, in
      front of the buffers, in both routines. */
  lemma SmallestFailure()
    ensures var n := 0x8000_0001;
            var (a, b) := LastByteDiffers(n);
            && FirstDiff(a, b) == 0x8000_0000 >= LoopEnd(n)
            && NarrowedOutcome(FirstDiff(a, b)) == OutsideBuffers(-0x8000_0000)
  {
    hide FirstDiff;
    var ab := LastByteDiffers(0x8000_0001);
  }
}
