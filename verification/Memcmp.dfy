/** memcmp: the byte-loop reference, the vector and scalar comparisons, and the Zen4, AVX-512
    and AVX2 routines proved against the reference. */
module Memcmp {
  import opened Alignment
  import opened Bits
  import opened Memory

  // ---- Reference ---------------------------------------------------------------------------

  /** Least index at which two byte strings of one length differ, or that length. */
  function FirstDiff(a: seq<byte>, b: seq<byte>): (d: nat)
    requires |a| == |b|
    ensures d <= |a|
    ensures forall j :: 0 <= j < d ==> a[j] == b[j]
    ensures d < |a| ==> a[d] != b[d]
  {
    if a == [] || a[0] != b[0] then 0 else 1 + FirstDiff(a[1..], b[1..])
  }

  /** Difference of the first pair of bytes that differ, as unsigned values, or zero. */
  function MemcmpSpec(a: seq<byte>, b: seq<byte>): int
    requires |a| == |b|
  {
    var d := FirstDiff(a, b);
    if d == |a| then 0 else (a[d] as int) - (b[d] as int)
  }

  /** The validator's byte loop. */
  method ReferenceMemcmp(a: seq<byte>, b: seq<byte>) returns (r: int)
    requires |a| == |b|
    ensures r == MemcmpSpec(a, b)
  {
    for i := 0 to |a|
      invariant a[..i] == b[..i]
    {
      if a[i] != b[i] {
        assert FirstDiff(a, b) == i by {
          assert forall j :: 0 <= j < i ==> a[..i][j] == a[j] && b[..i][j] == b[j];
        }
        return (a[i] as int) - (b[i] as int);
      }
    }
    assert a[..|a|] == a && b[..|a|] == b;
    return 0;
  }

  /** The first difference between the n bytes at p1 and the n bytes at p2. */
  ghost function DiffIn(s: seq<byte>, p1: nat, p2: nat, n: nat): (d: nat)
    requires n == 0 || (p1 + n <= |s| && p2 + n <= |s|)
    ensures d <= n
  {
    FirstDiff(Slice(s, p1, n), Slice(s, p2, n))
  }

  lemma ExpectedBytes(s: seq<byte>, p1: nat, p2: nat, n: nat)
    requires n == 0 || (p1 + n <= |s| && p2 + n <= |s|)
    ensures var d := DiffIn(s, p1, p2, n);
            var e := MemcmpSpec(Slice(s, p1, n), Slice(s, p2, n));
            e == if d == n then 0 else (s[p1 + d] as int) - (s[p2 + d] as int)
  {
    hide Slice, FirstDiff;
    var d := DiffIn(s, p1, p2, n);
    if d < n {
      SliceAt(s, p1, n, d);
      SliceAt(s, p2, n, d);
    }
  }

  /** memcmp's result for the n bytes at p1 and at p2: positive when the first pair of bytes that
      differ has the larger one at p1. */
  ghost function Expected(s: seq<byte>, p1: nat, p2: nat, n: nat): (e: int)
    requires n == 0 || (p1 + n <= |s| && p2 + n <= |s|)
    ensures var d := DiffIn(s, p1, p2, n);
            e == if d == n then 0 else (s[p1 + d] as int) - (s[p2 + d] as int)
  {
    ExpectedBytes(s, p1, p2, n);
    MemcmpSpec(Slice(s, p1, n), Slice(s, p2, n))
  }

  ghost predicate SameAt(s: seq<byte>, p1: nat, p2: nat, i: nat) {
    p1 + i < |s| && p2 + i < |s| && s[p1 + i] == s[p2 + i]
  }

  /** The first n bytes are known to agree. */
  ghost predicate Same(s: seq<byte>, p1: nat, p2: nat, n: nat) {
    forall i: nat :: i < n ==> SameAt(s, p1, p2, i)
  }

  /** Index d is where the buffers first differ. */
  ghost predicate DiffersFirstAt(s: seq<byte>, p1: nat, p2: nat, d: nat) {
    p1 + d < |s| && p2 + d < |s| && s[p1 + d] != s[p2 + d] && Same(s, p1, p2, d)
  }

  lemma FirstDiffIs(a: seq<byte>, b: seq<byte>, d: nat)
    requires |a| == |b| && d <= |a| && (forall j :: 0 <= j < d ==> a[j] == b[j]) && (d < |a| ==> a[d] != b[d])
    ensures FirstDiff(a, b) == d
  {
  }

  lemma Found(s: seq<byte>, p1: nat, p2: nat, n: nat, d: nat)
    requires d < n && p1 + n <= |s| && p2 + n <= |s| && DiffersFirstAt(s, p1, p2, d)
    ensures DiffIn(s, p1, p2, n) == d && Expected(s, p1, p2, n) == (s[p1 + d] as int) - (s[p2 + d] as int)
  {
    var a, b := Slice(s, p1, n), Slice(s, p2, n);
    forall j | 0 <= j < d ensures a[j] == b[j] {
      assert SameAt(s, p1, p2, j);
    }
    FirstDiffIs(a, b, d);
  }

  lemma NotFound(s: seq<byte>, p1: nat, p2: nat, n: nat)
    requires n == 0 || (p1 + n <= |s| && p2 + n <= |s|)
    requires Same(s, p1, p2, n)
    ensures DiffIn(s, p1, p2, n) == n && Expected(s, p1, p2, n) == 0
  {
    var a, b := Slice(s, p1, n), Slice(s, p2, n);
    forall j | 0 <= j < n ensures a[j] == b[j] {
      assert SameAt(s, p1, p2, j);
    }
    FirstDiffIs(a, b, n);
  }

  /** Agreement of two loaded registers is agreement of the memory they came from. */
  lemma LoadedDiff(s: seq<byte>, p1: nat, p2: nat, v: nat, a: seq<byte>, b: seq<byte>)
    requires p1 + v <= |s| && p2 + v <= |s| && a == s[p1..p1 + v] && b == s[p2..p2 + v]
    ensures FirstDiff(a, b) == v ==> Same(s, p1, p2, v)
    ensures FirstDiff(a, b) < v ==> DiffersFirstAt(s, p1, p2, FirstDiff(a, b))
  {
    forall i: nat | i < FirstDiff(a, b) ensures SameAt(s, p1, p2, i) {
      assert a[i] == b[i] && a[i] == s[p1 + i] && b[i] == s[p2 + i];
    }
  }

  // ---- Lane comparisons --------------------------------------------------------------------

  /** The lowest lane of the inequality mask, the lowest lane missing from the equality mask
      and the first differing byte are one position. */
  lemma LanesFindFirstDiff(a: seq<byte>, b: seq<byte>)
    requires |a| == |b|
    ensures FirstSet(Cmpneq(a, b)) == FirstDiff(a, b) == FirstSet(Not(Cmpeq(a, b)))
  {
    FirstSetIs(Cmpneq(a, b), FirstDiff(a, b));
    FirstSetIs(Not(Cmpeq(a, b)), FirstDiff(a, b));
  }

  /** The trailing-zero count used with registers of v bytes: 64 bits for zmm, otherwise 32. */
  function TzcntFor(v: nat, x: nat): nat {
    Tzcnt(if v == ZMM_SZ then 64 else 32, x)
  }

  predicate VectorWidth(v: nat) {
    v == XMM_SZ || v == YMM_SZ || v == ZMM_SZ
  }

  /** How a routine turns a lane comparison into a number to scan: the inequality mask itself,
      or the equality mask plus one, wrapped to the register (for xmm, 0xffff minus the mask). */
  datatype Scan = InequalityMask | EqualityMaskPlusOne

  /** Compares one vector pair: the number to scan, zero exactly when all lanes agree. */
  method UnequalScan(mem: Memory, v: nat, scan: Scan, kind: Access, p1: nat, p2: nat) returns (ret: nat)
    requires VectorWidth(v) && mem.CanRead(p1, v) && mem.CanRead(p2, v)
    requires AlignedFor(kind, v, p1) && AlignedFor(kind, v, p2)
    ensures ret == 0 ==> Same(mem.Contents(), p1, p2, v)
    ensures ret != 0 ==> TzcntFor(v, ret) < v
    ensures ret != 0 ==> DiffersFirstAt(mem.Contents(), p1, p2, TzcntFor(v, ret))
  {
    hide Tzcnt, Value, Wrap, Pow2, FirstSet, FirstDiff, Same, DiffersFirstAt, Not, Cmpeq, Cmpneq, Multiple32, Multiple64;
    var z2 := mem.Load(v, kind, p2);
    var z1 := mem.Load(v, kind, p1);
    var eq := Cmpeq(z1, z2);
    LanesFindFirstDiff(z1, z2);
    LoadedDiff(mem.Contents(), p1, p2, v, z1, z2);
    if scan.InequalityMask? {
      ret := Value(Cmpneq(z1, z2));
      TzcntFindsFirstSet(Cmpneq(z1, z2));
      if v == XMM_SZ && ret != 0 {
        ValueBound(Cmpneq(z1, z2));
        TzcntWiden(16, 32, ret);
      }
    } else if v == XMM_SZ {
      Pow2Of16And32();
      ValueBound(eq);
      Complement(eq);
      ret := 0xffff - Value(eq);
      TzcntFindsFirstSet(Not(eq));
      if ret != 0 { TzcntWiden(16, 32, ret); }
    } else {
      ret := Wrap(v, Value(eq) + 1);
      PlusOneFindsFirstClear(eq);
    }
  }

  /** `len` bytes of consecutive vectors from index `at`, stopping at the first difference. */
  method ScanVecs(mem: Memory, v: nat, scan: Scan, kind: Access, p1: nat, p2: nat, at: nat, len: nat)
    returns (hit: bool, idx: nat)
    requires Whole(v, len)
    requires mem.CanRead(p1 + at, len) && mem.CanRead(p2 + at, len)
    requires AlignedFor(kind, v, p1 + at) && AlignedFor(kind, v, p2 + at)
    requires Same(mem.Contents(), p1, p2, at)
    ensures hit ==> at <= idx < at + len && DiffersFirstAt(mem.Contents(), p1, p2, idx)
    ensures !hit ==> Same(mem.Contents(), p1, p2, at + len)
  {
    hide Multiple32, Multiple64, Same, DiffersFirstAt;
    var done := 0;
    WholeBlocks(v);
    while done < len
      invariant done <= len && Whole(v, done)
      invariant Same(mem.Contents(), p1, p2, at + done)
    {
      NextVector(v, done, len);
      NextAligned(v, kind, p1 + at, done);
      NextAligned(v, kind, p2 + at, done);
      var ret := UnequalScan(mem, v, scan, kind, p1 + at + done, p2 + at + done);
      if ret != 0 {
        idx := TzcntFor(v, ret) + at + done;
        JoinDifference(mem.Contents(), p1, p2, at + done, TzcntFor(v, ret));
        return true, idx;
      }
      JoinAgreement(mem.Contents(), p1, p2, at + done, at + done + v);
      done := done + v;
    }
    return false, 0;
  }

  lemma JoinAgreement(s: seq<byte>, p1: nat, p2: nat, m: nat, n: nat)
    requires m <= n && Same(s, p1, p2, m) && Same(s, p1 + m, p2 + m, n - m)
    ensures Same(s, p1, p2, n)
  {
    forall i: nat | i < n ensures SameAt(s, p1, p2, i) {
      if i >= m { assert SameAt(s, p1 + m, p2 + m, i - m); }
    }
  }

  lemma JoinDifference(s: seq<byte>, p1: nat, p2: nat, m: nat, d: nat)
    requires Same(s, p1, p2, m) && DiffersFirstAt(s, p1 + m, p2 + m, d)
    ensures DiffersFirstAt(s, p1, p2, m + d)
  {
    JoinAgreement(s, p1, p2, m, m + d);
  }

  /** An overlapping re-scan: a block that starts inside the agreeing prefix may be compared as
      if the prefix ended where it starts. */
  lemma Shorten(s: seq<byte>, p1: nat, p2: nat, m: nat, n: nat)
    requires m == 0 || (m <= n && Same(s, p1, p2, n))
    ensures Same(s, p1, p2, m)
  {
  }

  /** The difference of the two bytes at an index inside the buffers. */
  method ByteDiff(mem: Memory, p1: nat, p2: nat, idx: nat, ghost size: nat) returns (r: int)
    requires idx < size && mem.CanRead(p1, size) && mem.CanRead(p2, size)
    requires DiffersFirstAt(mem.Contents(), p1, p2, idx)
    ensures r == Expected(mem.Contents(), p1, p2, size) && DiffIn(mem.Contents(), p1, p2, size) == idx
  {
    var b1 := mem.Load(1, Unaligned, p1 + idx);
    var b2 := mem.Load(1, Unaligned, p2 + idx);
    Found(mem.Contents(), p1, p2, size, idx);
    r := (b1[0] as int) - (b2[0] as int);
  }
}
