/** Comparing short buffers by their two ends: scalars through a scan of their exclusive or,
    then vectors. */
module MemcmpSmall {
  import opened Alignment
  import opened Bits
  import opened Memory
  import opened Memcmp

  /** A scalar load: byte 0 is the lowest. */
  function LittleEndian(b: seq<byte>): nat {
    if b == [] then 0 else b[0] + 0x100 * LittleEndian(b[1..])
  }

  lemma {:induction false} XorZero(w: nat)
    ensures Tzcnt(w, Xor(w, 0, 0)) == w
  {
    if w != 0 { XorZero(w - 1); }
  }

  /** The lowest differing bit of two little-endian scalars lies in the first differing byte;
      the scan runs off the operand exactly when all bytes agree. */
  lemma {:induction false} XorScanFindsFirstDiff(w: nat, a: seq<byte>, b: seq<byte>)
    requires |a| == |b| && 8 * |a| <= w
    ensures var t := Tzcnt(w, Xor(w, LittleEndian(a), LittleEndian(b)));
            if FirstDiff(a, b) == |a| then t == w else t < w && t / 8 == FirstDiff(a, b)
  {
    hide Xor, Tzcnt, Join, Pow2;
    if a == [] {
      XorZero(w);
    } else {
      XorScanFindsFirstDiff(w - 8, a[1..], b[1..]);
      Pow2Of8();
      JoinIsSum(8, a[0], LittleEndian(a[1..]));
      JoinIsSum(8, b[0], LittleEndian(b[1..]));
      XorSplit(8, w - 8, a[0], b[0], LittleEndian(a[1..]), LittleEndian(b[1..]));
    }
  }

  /** The scan of one scalar pair of n bytes with a w-bit count: w when they agree. */
  method XorScan(mem: Memory, w: nat, n: nat, p1: nat, p2: nat) returns (ret: nat)
    requires 0 < n && 8 * n <= w && mem.CanRead(p1, n) && mem.CanRead(p2, n)
    ensures ret <= w
    ensures ret == w ==> Same(mem.Contents(), p1, p2, n)
    ensures ret < w ==> ret / 8 < n && DiffersFirstAt(mem.Contents(), p1, p2, ret / 8)
  {
    var x := mem.Load(n, Unaligned, p1);
    var y := mem.Load(n, Unaligned, p2);
    ret := Tzcnt(w, Xor(w, LittleEndian(x), LittleEndian(y)));
    XorScanFindsFirstDiff(w, x, y);
    LoadedDiff(mem.Contents(), p1, p2, n, x, y);
  }

  /** Sizes n..2n by a scalar at each end. */
  method ScalarEnds(mem: Memory, w: nat, n: nat, p1: nat, p2: nat, size: nat) returns (r: int)
    requires 0 < n <= size <= 2 * n && 8 * n <= w
    requires mem.CanRead(p1, size) && mem.CanRead(p2, size)
    ensures r == Expected(mem.Contents(), p1, p2, size)
  {
    hide Same, DiffersFirstAt, Expected;
    Shorten(mem.Contents(), p1, p2, 0, 0);
    var index := 0;
    var ret := XorScan(mem, w, n, p1, p2);
    if ret == w {
      index := size - n;
      Shorten(mem.Contents(), p1, p2, index, n);
      ret := XorScan(mem, w, n, p1 + index, p2 + index);
      if ret == w {
        JoinAgreement(mem.Contents(), p1, p2, index, size);
        NotFound(mem.Contents(), p1, p2, size);
        return 0;
      }
    }
    JoinDifference(mem.Contents(), p1, p2, index, ret / 8);
    index := index + ret / 8;
    r := ByteDiff(mem, p1, p2, index, size);
  }

  /** Sizes v..2v by a vector at each end. */
  method VectorEnds(mem: Memory, v: nat, scan: Scan, p1: nat, p2: nat, size: nat) returns (r: int)
    requires VectorWidth(v) && v <= size <= 2 * v
    requires mem.CanRead(p1, size) && mem.CanRead(p2, size)
    ensures r == Expected(mem.Contents(), p1, p2, size)
  {
    hide Same, DiffersFirstAt, Expected;
    Shorten(mem.Contents(), p1, p2, 0, 0);
    var index := 0;
    var ret := UnequalScan(mem, v, scan, Unaligned, p1, p2);
    if ret == 0 {
      index := size - v;
      Shorten(mem.Contents(), p1, p2, index, v);
      ret := UnequalScan(mem, v, scan, Unaligned, p1 + index, p2 + index);
      if ret == 0 {
        JoinAgreement(mem.Contents(), p1, p2, index, size);
        NotFound(mem.Contents(), p1, p2, size);
        return 0;
      }
    }
    JoinDifference(mem.Contents(), p1, p2, index, TzcntFor(v, ret));
    index := index + TzcntFor(v, ret);
    r := ByteDiff(mem, p1, p2, index, size);
  }

  /** The AVX-512 variants' comparison of at most two zmm registers. */
  method UpTo2Zmm(mem: Memory, p1: nat, p2: nat, size: nat) returns (r: int)
    requires size <= 2 * ZMM_SZ
    requires mem.CanRead(p1, size) && mem.CanRead(p2, size)
    ensures r == Expected(mem.Contents(), p1, p2, size)
  {
    if size == 0 {
      NotFound(mem.Contents(), p1, p2, 0);
      return 0;
    }
    if size == 1 {
      r := SingleByte(mem, p1, p2);
    } else if size <= 2 * WORD_SZ {
      r := ScalarEnds(mem, 32, WORD_SZ, p1, p2, size);
    } else if size <= 2 * DWORD_SZ {
      r := ScalarEnds(mem, 32, DWORD_SZ, p1, p2, size);
    } else if size <= 2 * QWORD_SZ {
      r := ScalarEnds(mem, 64, QWORD_SZ, p1, p2, size);
    } else if size <= 2 * XMM_SZ {
      r := VectorEnds(mem, XMM_SZ, EqualityMaskPlusOne, p1, p2, size);
    } else if size <= 2 * YMM_SZ {
      r := VectorEnds(mem, YMM_SZ, EqualityMaskPlusOne, p1, p2, size);
    } else {
      r := VectorEnds(mem, ZMM_SZ, EqualityMaskPlusOne, p1, p2, size);
    }
  }

  /** The AVX2 variants' comparison of at most two ymm registers, which cuts the sizes at other
      points than the AVX-512 one. */
  method UpTo2Ymm(mem: Memory, p1: nat, p2: nat, size: nat) returns (r: int)
    requires size <= 2 * YMM_SZ
    requires mem.CanRead(p1, size) && mem.CanRead(p2, size)
    ensures r == Expected(mem.Contents(), p1, p2, size)
  {
    if size == 0 {
      NotFound(mem.Contents(), p1, p2, 0);
      return 0;
    }
    if size >= QWORD_SZ {
      if size >= XMM_SZ {
        if size >= YMM_SZ {
          r := VectorEnds(mem, YMM_SZ, EqualityMaskPlusOne, p1, p2, size);
          return;
        }
        r := VectorEnds(mem, XMM_SZ, EqualityMaskPlusOne, p1, p2, size);
        return;
      }
      r := ScalarEnds(mem, 64, QWORD_SZ, p1, p2, size);
      return;
    }
    if size == 1 {
      r := SingleByte(mem, p1, p2);
    } else if size <= 2 * WORD_SZ {
      r := ScalarEnds(mem, 32, WORD_SZ, p1, p2, size);
    } else {
      r := ScalarEnds(mem, 32, DWORD_SZ, p1, p2, size);
    }
  }

  method SingleByte(mem: Memory, p1: nat, p2: nat) returns (r: int)
    requires mem.CanRead(p1, 1) && mem.CanRead(p2, 1)
    ensures r == Expected(mem.Contents(), p1, p2, 1)
  {
    var b1 := mem.Load(1, Unaligned, p1);
    var b2 := mem.Load(1, Unaligned, p2);
    r := (b1[0] as int) - (b2[0] as int);
  }
}
