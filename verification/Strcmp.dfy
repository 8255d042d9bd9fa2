/** strcmp and strncmp for Zen4. One scan serves both builds: it compares 64 bytes at a time at
    two unrelated addresses, reads past the ends of the strings, and still touches only pages
    that the strings reach. */
module Strcmp {
  import opened Alignment
  import opened Bits
  import opened Memory

  datatype Option<T> = None | Some(value: T)

  const PAGE_SZ := 4096

  // ---- Reference ---------------------------------------------------------------------------

  /** The two strings agree at index i and do not end there. */
  ghost predicate PassesAt(s: seq<byte>, p1: nat, p2: nat, i: nat) {
    p1 + i < |s| && p2 + i < |s| && s[p1 + i] == s[p2 + i] && s[p1 + i] != 0
  }

  /** The comparison goes past its first n indices. */
  ghost predicate Passes(s: seq<byte>, p1: nat, p2: nat, n: nat) {
    forall i: nat :: i < n ==> PassesAt(s, p1, p2, i)
  }

  /** Index k is the first at which the strings differ or both end. */
  ghost predicate StopsAt(s: seq<byte>, p1: nat, p2: nat, k: nat) {
    p1 + k < |s| && p2 + k < |s| && Passes(s, p1, p2, k) && !PassesAt(s, p1, p2, k)
  }

  /** The byte loop, for strcmp (no bound) and strncmp; None if it runs off the memory. */
  function ByteLoop(s: seq<byte>, p1: nat, p2: nat, bound: Option<nat>): Option<int>
    decreases |s| - p1
  {
    if bound == Some(0) then Some(0)
    else if p1 >= |s| || p2 >= |s| then None
    else if s[p1] != 0 && s[p1] == s[p2] then
      ByteLoop(s, p1 + 1, p2 + 1, if bound.None? then None else Some(bound.value - 1))
    else Some((s[p1] as int) - (s[p2] as int))
  }

  /** Index i is below the bound, if there is one. */
  predicate Below(i: nat, bound: Option<nat>) {
    bound.None? || i < bound.value
  }

  lemma PassesRest(s: seq<byte>, p1: nat, p2: nat, n: nat)
    requires n > 0 && Passes(s, p1, p2, n)
    ensures PassesAt(s, p1, p2, 0) && Passes(s, p1 + 1, p2 + 1, n - 1)
  {
    var q1, q2 := p1 + 1, p2 + 1;
    forall i: nat | i < n - 1 ensures PassesAt(s, q1, q2, i) {
      assert PassesAt(s, p1, p2, i + 1);
    }
  }

  /** Where the strings stop within the bound, the byte loop returns the difference there. */
  lemma {:induction false} LoopStops(s: seq<byte>, p1: nat, p2: nat, bound: Option<nat>, k: nat)
    requires StopsAt(s, p1, p2, k) && Below(k, bound)
    ensures ByteLoop(s, p1, p2, bound) == Some((s[p1 + k] as int) - (s[p2 + k] as int))
    decreases k
  {
    if k == 0 {
      assert !PassesAt(s, p1, p2, 0);
    } else {
      PassesRest(s, p1, p2, k);
      assert !PassesAt(s, p1, p2, k);
      LoopStops(s, p1 + 1, p2 + 1, if bound.None? then None else Some(bound.value - 1), k - 1);
    }
  }

  /** Where they agree up to the bound, it returns zero. */
  lemma {:induction false} LoopExhausts(s: seq<byte>, p1: nat, p2: nat, n: nat)
    requires Passes(s, p1, p2, n)
    ensures ByteLoop(s, p1, p2, Some(n)) == Some(0)
    decreases n
  {
    if n != 0 {
      PassesRest(s, p1, p2, n);
      LoopExhausts(s, p1 + 1, p2 + 1, n - 1);
    }
  }

  lemma JoinPasses(s: seq<byte>, p1: nat, p2: nat, m: nat, n: nat)
    requires Passes(s, p1, p2, m) && Passes(s, p1 + m, p2 + m, n)
    ensures Passes(s, p1, p2, m + n)
  {
    forall i: nat | i < m + n ensures PassesAt(s, p1, p2, i) {
      if i >= m { assert PassesAt(s, p1 + m, p2 + m, i - m); }
    }
  }

  lemma JoinStops(s: seq<byte>, p1: nat, p2: nat, m: nat, k: nat)
    requires Passes(s, p1, p2, m) && StopsAt(s, p1 + m, p2 + m, k)
    ensures StopsAt(s, p1, p2, m + k)
  {
    JoinPasses(s, p1, p2, m, k);
    assert PassesAt(s, p1, p2, m + k) == PassesAt(s, p1 + m, p2 + m, k);
  }

  lemma PassesFewer(s: seq<byte>, p1: nat, p2: nat, m: nat, n: nat)
    requires m == 0 || (m <= n && Passes(s, p1, p2, n))
    ensures Passes(s, p1, p2, m)
  {
  }

  /** What a result that matches the byte loop is, with nothing defined here on the right-hand
      side but the stop. */
  lemma LoopMeaning(s: seq<byte>, p1: nat, p2: nat, bound: Option<nat>, r: int)
    requires ByteLoop(s, p1, p2, bound) == Some(r)
    ensures forall k: nat :: StopsAt(s, p1, p2, k) && (bound.None? || k < bound.value) ==>
              r == (s[p1 + k] as int) - (s[p2 + k] as int)
    ensures bound.Some? && Passes(s, p1, p2, bound.value) ==> r == 0
  {
    forall k: nat | StopsAt(s, p1, p2, k) && Below(k, bound)
      ensures r == (s[p1 + k] as int) - (s[p2 + k] as int)
    {
      LoopStops(s, p1, p2, bound, k);
    }
    if bound.Some? && Passes(s, p1, p2, bound.value) { LoopExhausts(s, p1, p2, bound.value); }
  }

  // ---- Vector instructions -----------------------------------------------------------------

  /** Lanes that are zero. */
  function Testn(z: seq<byte>): (k: Mask)
    ensures |k| == |z|
  {
    seq(|z|, i requires 0 <= i < |z| => z[i] == 0)
  }

  /** Lanes whose flag is clear become zero. */
  function MaskzMov(k: Mask, z: seq<byte>): (r: seq<byte>)
    requires |k| == |z|
    ensures |r| == |z|
  {
    seq(|z|, i requires 0 <= i < |z| => if k[i] then z[i] else 0)
  }

  /** Lane-wise unsigned minimum. */
  function MinEpu8(a: seq<byte>, b: seq<byte>): (r: seq<byte>)
    requires |a| == |b|
    ensures |r| == |a|
  {
    seq(|a|, i requires 0 <= i < |a| => if a[i] <= b[i] then a[i] else b[i])
  }

  /** Lanes at which the scan must stop. */
  function StopLanes(a: seq<byte>, b: seq<byte>): (k: Mask)
    requires |a| == |b|
    ensures |k| == |a|
  {
    Or(Testn(a), Cmpneq(a, b))
  }

  /** The stop lanes of two registers loaded from the strings locate the stop. */
  lemma LanesLocateStop(s: seq<byte>, p1: nat, p2: nat, n: nat, a: seq<byte>, b: seq<byte>)
    requires |a| == |b| && n <= |a| && p1 + n <= |s| && p2 + n <= |s|
    requires forall i :: 0 <= i < n ==> a[i] == s[p1 + i] && b[i] == s[p2 + i]
    requires forall i :: n <= i < |a| ==> a[i] == b[i] && a[i] != 0
    ensures var t := FirstSet(StopLanes(a, b));
            if t == |a| then Passes(s, p1, p2, n) else t < n && StopsAt(s, p1, p2, t)
  {
    var k := StopLanes(a, b);
    var t := FirstSet(k);
    forall i: nat | i < t && i < n ensures PassesAt(s, p1, p2, i) {
      assert !k[i];
    }
    if t < |a| {
      assert k[t];
    }
  }

  /** One vector of the reduction: equal lanes keep their byte and unequal ones become zero, so
      the zero lanes are the stop lanes. */
  lemma MaskedMoveKeepsStops(a: seq<byte>, b: seq<byte>)
    requires |a| == |b|
    ensures Testn(MaskzMov(Cmpeq(a, b), a)) == StopLanes(a, b)
  {
  }

  /** The minimum is zero where either operand is. */
  lemma MinJoinsZeros(a: seq<byte>, b: seq<byte>)
    requires |a| == |b|
    ensures Testn(MinEpu8(a, b)) == Or(Testn(a), Testn(b))
  {
  }

  lemma {:induction false} OrIsZero(j: Mask, k: Mask)
    requires |j| == |k|
    ensures Value(Or(j, k)) == 0 <==> Value(j) == 0 && Value(k) == 0
  {
    if j != [] {
      OrIsZero(j[1..], k[1..]);
      assert Or(j, k)[1..] == Or(j[1..], k[1..]);
    }
  }

  // ---- Scanning steps ----------------------------------------------------------------------

  /** What a scan step reports for the index range that starts at p1 and p2: zero if all n
      bytes pass, else a mask whose lowest one is the stop. */
  ghost predicate Located(s: seq<byte>, p1: nat, p2: nat, n: nat, ret: nat) {
    if ret == 0 then Passes(s, p1, p2, n) else Tzcnt(64, ret) < n && StopsAt(s, p1, p2, Tzcnt(64, ret))
  }

  /** Loads one zmm register from each string and tests them. */
  method ScanVector(mem: Memory, kind: Access, p1: nat, p2: nat) returns (ret: nat)
    requires mem.CanRead(p1, ZMM_SZ) && mem.CanRead(p2, ZMM_SZ)
    requires AlignedFor(kind, ZMM_SZ, p1) && AlignedFor(kind, ZMM_SZ, p2)
    ensures Located(mem.Contents(), p1, p2, ZMM_SZ, ret)
  {
    hide Tzcnt, Value, FirstSet, StopLanes;
    var z1 := mem.Load(ZMM_SZ, kind, p1);
    var z2 := mem.Load(ZMM_SZ, kind, p2);
    ret := Value(StopLanes(z1, z2));
    TzcntFindsFirstSet(StopLanes(z1, z2));
    LanesLocateStop(mem.Contents(), p1, p2, ZMM_SZ, z1, z2);
  }

  /** The same with the loads masked to n bytes; the other lanes are 0xff in both registers. */
  method ScanMasked(mem: Memory, n: nat, p1: nat, p2: nat) returns (ret: nat)
    requires 0 < n < ZMM_SZ && mem.CanRead(p1, n) && mem.CanRead(p2, n)
    ensures Located(mem.Contents(), p1, p2, n, ret)
  {
    hide Tzcnt, Value, FirstSet, StopLanes;
    var mask := Bzhi(64, n);
    var z1 := mem.LoadMasked(0xff, mask, p1);
    var z2 := mem.LoadMasked(0xff, mask, p2);
    ret := Value(StopLanes(z1, z2));
    TzcntFindsFirstSet(StopLanes(z1, z2));
    LanesLocateStop(mem.Contents(), p1, p2, n, z1, z2);
  }

  /** One vector pair of the reduction. */
  method LoadForReduction(mem: Memory, kind: Access, p1: nat, p2: nat) returns (r: seq<byte>)
    requires mem.CanRead(p1, ZMM_SZ) && mem.CanRead(p2, ZMM_SZ)
    requires AlignedFor(kind, ZMM_SZ, p1) && AlignedFor(kind, ZMM_SZ, p2)
    ensures |r| == 64 && Located(mem.Contents(), p1, p2, ZMM_SZ, Value(Testn(r)))
  {
    hide Tzcnt, Value, FirstSet, StopLanes, Testn, Cmpeq, MaskzMov;
    var a := mem.Load(ZMM_SZ, kind, p1);
    var b := mem.Load(ZMM_SZ, kind, p2);
    r := MaskzMov(Cmpeq(a, b), a);
    MaskedMoveKeepsStops(a, b);
    TzcntFindsFirstSet(StopLanes(a, b));
    LanesLocateStop(mem.Contents(), p1, p2, ZMM_SZ, a, b);
  }

  /** What holds when a block that began at some offset has been scanned: either all of it
      passed and `offset` is its end, or `offset` plus the lowest one of `ret` is the stop. */
  ghost predicate Resolved(s: seq<byte>, p1: nat, p2: nat, offset: nat, ret: nat) {
    if ret == 0 then Passes(s, p1, p2, offset) else StopsAt(s, p1, p2, offset + Tzcnt(64, ret))
  }

  lemma Resolve(s: seq<byte>, p1: nat, p2: nat, offset: nat, n: nat, ret: nat)
    requires Passes(s, p1, p2, offset) && Located(s, p1 + offset, p2 + offset, n, ret)
    ensures Resolved(s, p1, p2, if ret == 0 then offset + n else offset, ret)
  {
    if ret == 0 {
      JoinPasses(s, p1, p2, offset, n);
    } else {
      JoinStops(s, p1, p2, offset, Tzcnt(64, ret));
    }
  }

  /** The reduction is zero exactly when all four vectors are free of stops. */
  lemma ReductionIsZero(r0: seq<byte>, r1: seq<byte>, r2: seq<byte>, r3: seq<byte>)
    requires |r0| == |r1| == |r2| == |r3|
    ensures Value(Testn(MinEpu8(MinEpu8(r0, r1), MinEpu8(r2, r3)))) == 0
       <==> Value(Testn(r0)) == 0 && Value(Testn(r1)) == 0 && Value(Testn(r2)) == 0 && Value(Testn(r3)) == 0
  {
    hide Value, Testn, MinEpu8, Or;
    MinJoinsZeros(r0, r1);
    MinJoinsZeros(r2, r3);
    MinJoinsZeros(MinEpu8(r0, r1), MinEpu8(r2, r3));
    OrIsZero(Testn(r0), Testn(r1));
    OrIsZero(Testn(r2), Testn(r3));
    OrIsZero(Testn(MinEpu8(r0, r1)), Testn(MinEpu8(r2, r3)));
  }

  /** Four vectors at once: compare, reduce by minimum, and only on a hit look for the vector
      and lane. It refines the vector-by-vector scan. */
  method CompareReduce4(mem: Memory, kind: Access, str1: nat, str2: nat, start: nat)
    returns (ret: nat, offset: nat)
    requires mem.CanRead(str1 + start, 4 * ZMM_SZ) && mem.CanRead(str2 + start, 4 * ZMM_SZ)
    requires AlignedFor(kind, ZMM_SZ, str1 + start) && AlignedFor(kind, ZMM_SZ, str2 + start)
    requires Passes(mem.Contents(), str1, str2, start)
    ensures Resolved(mem.Contents(), str1, str2, offset, ret)
    ensures if ret == 0 then offset == start + 4 * ZMM_SZ else start <= offset <= start + 3 * ZMM_SZ
  {
    hide Passes, StopsAt, Located, Testn, MinEpu8, Value, Tzcnt, Multiple64;
    WholeBlocks(ZMM_SZ);
    ghost var s := mem.Contents();
    offset := start;
    KeepsAlignment(ZMM_SZ, kind, str1 + offset, ZMM_SZ);
    KeepsAlignment(ZMM_SZ, kind, str2 + offset, ZMM_SZ);
    KeepsAlignment(ZMM_SZ, kind, str1 + offset, 2 * ZMM_SZ);
    KeepsAlignment(ZMM_SZ, kind, str2 + offset, 2 * ZMM_SZ);
    KeepsAlignment(ZMM_SZ, kind, str1 + offset, 3 * ZMM_SZ);
    KeepsAlignment(ZMM_SZ, kind, str2 + offset, 3 * ZMM_SZ);
    var r0 := LoadForReduction(mem, kind, str1 + offset, str2 + offset);
    var r1 := LoadForReduction(mem, kind, str1 + offset + ZMM_SZ, str2 + offset + ZMM_SZ);
    var r2 := LoadForReduction(mem, kind, str1 + offset + 2 * ZMM_SZ, str2 + offset + 2 * ZMM_SZ);
    var r3 := LoadForReduction(mem, kind, str1 + offset + 3 * ZMM_SZ, str2 + offset + 3 * ZMM_SZ);
    var reduced := MinEpu8(MinEpu8(r0, r1), MinEpu8(r2, r3));
    ret := Value(Testn(reduced));
    ReductionIsZero(r0, r1, r2, r3);

    var m0 := Value(Testn(r0));
    Resolve(s, str1, str2, offset, ZMM_SZ, m0);
    if ret != 0 && m0 != 0 { return m0, offset; }
    var m1 := Value(Testn(r1));
    Resolve(s, str1, str2, offset + ZMM_SZ, ZMM_SZ, m1);
    if ret != 0 && m1 != 0 { return m1, offset + ZMM_SZ; }
    var m2 := Value(Testn(r2));
    Resolve(s, str1, str2, offset + 2 * ZMM_SZ, ZMM_SZ, m2);
    if ret != 0 && m2 != 0 { return m2, offset + 2 * ZMM_SZ; }
    var m3 := Value(Testn(r3));
    Resolve(s, str1, str2, offset + 3 * ZMM_SZ, ZMM_SZ, m3);
    if ret != 0 { return m3, offset + 3 * ZMM_SZ; }
    offset := offset + 4 * ZMM_SZ;
  }

  /** `vecs` vectors inside one page: fours first, then the leftover singles. */
  method ScanBlock(mem: Memory, kind: Access, str1: nat, str2: nat, start: nat, vecs: nat)
    returns (ret: nat, offset: nat)
    requires mem.CanRead(str1 + start, vecs * ZMM_SZ) && mem.CanRead(str2 + start, vecs * ZMM_SZ)
    requires AlignedFor(kind, ZMM_SZ, str1 + start) && AlignedFor(kind, ZMM_SZ, str2 + start)
    requires Passes(mem.Contents(), str1, str2, start)
    ensures Resolved(mem.Contents(), str1, str2, offset, ret)
    ensures ret == 0 ==> offset == start + vecs * ZMM_SZ
    ensures ret == 0 ==> AlignedFor(kind, ZMM_SZ, str1 + offset) && AlignedFor(kind, ZMM_SZ, str2 + offset)
  {
    hide Passes, StopsAt, Located, Tzcnt, Multiple64;
    WholeBlocks(ZMM_SZ);
    ghost var s := mem.Contents();
    ret, offset := 0, start;
    var n4: nat := vecs / 4;
    while n4 != 0
      invariant start <= offset
      invariant offset + (4 * n4 + vecs % 4) * ZMM_SZ == start + vecs * ZMM_SZ
      invariant Passes(s, str1, str2, offset)
      invariant AlignedFor(kind, ZMM_SZ, str1 + offset) && AlignedFor(kind, ZMM_SZ, str2 + offset)
      decreases n4
    {
      KeepsAlignment(ZMM_SZ, kind, str1 + offset, 4 * ZMM_SZ);
      KeepsAlignment(ZMM_SZ, kind, str2 + offset, 4 * ZMM_SZ);
      ret, offset := CompareReduce4(mem, kind, str1, str2, offset);
      if ret != 0 { return; }
      n4 := n4 - 1;
    }
    var rest: nat := vecs % 4;
    while rest != 0
      invariant start <= offset
      invariant offset + rest * ZMM_SZ == start + vecs * ZMM_SZ && ret == 0
      invariant Passes(s, str1, str2, offset)
      invariant AlignedFor(kind, ZMM_SZ, str1 + offset) && AlignedFor(kind, ZMM_SZ, str2 + offset)
      decreases rest
    {
      rest := rest - 1;
      KeepsAlignment(ZMM_SZ, kind, str1 + offset, ZMM_SZ);
      KeepsAlignment(ZMM_SZ, kind, str2 + offset, ZMM_SZ);
      ret := ScanVector(mem, kind, str1 + offset, str2 + offset);
      Resolve(s, str1, str2, offset, ZMM_SZ, ret);
      if ret != 0 { return; }
      offset := offset + ZMM_SZ;
    }
  }

  // ---- Pages -------------------------------------------------------------------------------

  /** The machine's page that holds address a is mapped: pages are 4096 bytes, whatever page size
      the routine was compiled with. */
  ghost predicate PageMapped(mem: Memory, a: nat) {
    mem.CanRead(a / 4096 * 4096, 4096)
  }

  /** Bytes from a to the end of its page. */
  function PageSafeBytes(a: nat): (n: nat)
    ensures 1 <= n <= PAGE_SZ
  {
    PAGE_SZ - a % PAGE_SZ
  }

  lemma WithinPage(mem: Memory, a: nat, n: nat)
    requires PageMapped(mem, a) && n <= PageSafeBytes(a)
    ensures mem.CanRead(a, n) && a < mem.bytes.Length
  {
    assert a == a / 4096 * 4096 + a % 4096;
    assert a in mem.readable;
  }

  /** The byte loop gets to look at index i: everything before it passed, and it is below the
      bound. */
  ghost predicate Reached(s: seq<byte>, p1: nat, p2: nat, bound: Option<nat>, i: nat) {
    Below(i, bound) && Passes(s, p1, p2, i)
  }

  /** All a caller provides: the bytes the byte loop looks at are in mapped memory, and memory
      is mapped by pages. No other page may be touched. */
  ghost predicate StringsMapped(mem: Memory, p1: nat, p2: nat, bound: Option<nat>)
    reads mem.bytes
  {
    forall i: nat :: Reached(mem.Contents(), p1, p2, bound, i) ==> PageMapped(mem, p1 + i) && PageMapped(mem, p2 + i)
  }

  /** The pages at index i, given that the byte loop gets there. */
  lemma ReachedPages(mem: Memory, p1: nat, p2: nat, bound: Option<nat>, i: nat, n1: nat, n2: nat)
    requires StringsMapped(mem, p1, p2, bound) && Below(i, bound) && Passes(mem.Contents(), p1, p2, i)
    requires n1 <= PageSafeBytes(p1 + i) && n2 <= PageSafeBytes(p2 + i)
    ensures mem.CanRead(p1 + i, n1) && mem.CanRead(p2 + i, n2)
    ensures p1 + i < mem.bytes.Length && p2 + i < mem.bytes.Length
  {
    assert Reached(mem.Contents(), p1, p2, bound, i);
    WithinPage(mem, p1 + i, n1);
    WithinPage(mem, p2 + i, n2);
  }

  /** An aligned zmm access never crosses a page, and whole vectors remain to the page end. */
  lemma AlignedStaysInPage(a: nat)
    requires Whole(ZMM_SZ, a)
    ensures PageSafeBytes(a) % ZMM_SZ == 0 && PageSafeBytes(a) >= ZMM_SZ
  {
    assert a == 64 * (a / 64);
    assert PAGE_SZ - a % PAGE_SZ == 64 * (64 * (a / PAGE_SZ + 1) - a / 64);
  }

  /** The validator's strcmp: a plain loop over two pointers. */
  method ReferenceStrcmp(mem: Memory, str1: nat, str2: nat) returns (r: int)
    requires StringsMapped(mem, str1, str2, None)
    ensures ByteLoop(mem.Contents(), str1, str2, None) == Some(r)
  {
    hide ByteLoop, PageMapped, StringsMapped;
    ghost var s := mem.Contents();
    var i: nat := 0;
    while true
      invariant Passes(s, str1, str2, i)
      decreases |s| - i
    {
      ReachedPages(mem, str1, str2, None, i, 1, 1);
      var b1 := mem.Load(1, Unaligned, str1 + i);
      var b2 := mem.Load(1, Unaligned, str2 + i);
      if !(b1[0] != 0 && b1[0] == b2[0]) {
        LoopStops(s, str1, str2, None, i);
        return (b1[0] as int) - (b2[0] as int);
      }
      i := i + 1;
    }
  }

  // ---- The routine -------------------------------------------------------------------------

  /** The common exit: the lowest one of `ret` is the stop; past the bound it does not count. */
  method ReturnValue(mem: Memory, str1: nat, str2: nat, bound: Option<nat>, ret: nat, offset: nat)
    returns (r: int)
    requires StringsMapped(mem, str1, str2, bound)
    requires ret != 0 && Resolved(mem.Contents(), str1, str2, offset, ret)
    ensures ByteLoop(mem.Contents(), str1, str2, bound) == Some(r)
  {
    hide Tzcnt, Passes, ByteLoop, PageMapped, StringsMapped;
    ghost var s := mem.Contents();
    var cmpIdx := Tzcnt(64, ret) + offset;
    if bound.Some? && cmpIdx >= bound.value {
      PassesFewer(s, str1, str2, bound.value, cmpIdx);
      LoopExhausts(s, str1, str2, bound.value);
      return 0;
    }
    ReachedPages(mem, str1, str2, bound, cmpIdx, 1, 1);
    LoopStops(s, str1, str2, bound, cmpIdx);
    var b1 := mem.Load(1, Unaligned, str1 + cmpIdx);
    var b2 := mem.Load(1, Unaligned, str2 + cmpIdx);
    r := (b1[0] as int) - (b2[0] as int);
  }

  /** The first vector: a full load, or one masked to the nearer page end. It settles the result
      or hands over an offset that leaves no gap. */
  method FirstVector(mem: Memory, str1: nat, str2: nat, bound: Option<nat>)
    returns (done: bool, r: int, offset: nat)
    requires StringsMapped(mem, str1, str2, bound) && bound != Some(0)
    ensures done ==> ByteLoop(mem.Contents(), str1, str2, bound) == Some(r)
    ensures !done ==> Passes(mem.Contents(), str1, str2, offset) && Below(offset, bound)
    ensures !done ==> 0 < offset <= ZMM_SZ
    ensures !done ==> offset == ZMM_SZ - LowBits(ZMM_SZ, str1) || offset == ZMM_SZ - LowBits(ZMM_SZ, str2)
  {
    hide Passes, StopsAt, Tzcnt, ByteLoop, PageMapped, StringsMapped;
    ghost var s := mem.Contents();
    PassesFewer(s, str1, str2, 0, 0);
    var dist1 := PAGE_SZ - str1 % PAGE_SZ;
    var dist2 := PAGE_SZ - str2 % PAGE_SZ;
    var safe := if dist1 < dist2 then dist1 else dist2;
    ReachedPages(mem, str1, str2, bound, 0, safe, safe);
    var ret;
    var compared := if safe >= ZMM_SZ then ZMM_SZ else safe;
    if safe >= ZMM_SZ {
      ret := ScanVector(mem, Unaligned, str1, str2);
    } else {
      ret := ScanMasked(mem, safe, str1, str2);
    }
    Resolve(s, str1, str2, 0, compared, ret);
    if ret != 0 {
      r := ReturnValue(mem, str1, str2, bound, ret, 0);
      return true, r, 0;
    }
    if bound.Some? && bound.value <= compared {
      PassesFewer(s, str1, str2, bound.value, compared);
      LoopExhausts(s, str1, str2, bound.value);
      return true, 0, 0;
    }
    var offset1 := LowBits(ZMM_SZ, str1);
    var offset2 := LowBits(ZMM_SZ, str2);
    offset := if offset1 >= offset2 then offset1 else offset2;
    offset := ZMM_SZ - offset;
    HandOver(str1, str2, safe);
    PassesFewer(s, str1, str2, offset, compared);
    return false, 0, offset;
  }

  /** A string closer to the end of its page than 64 bytes is that far from the next vector
      boundary, so the hand-over offset never exceeds the bytes already compared. */
  lemma HandOver(a: nat, b: nat, safe: nat)
    requires safe == if PageSafeBytes(a) < PageSafeBytes(b) then PageSafeBytes(a) else PageSafeBytes(b)
    ensures var off1, off2 := LowBits(ZMM_SZ, a), LowBits(ZMM_SZ, b);
            ZMM_SZ - (if off1 >= off2 then off1 else off2) <= if safe >= ZMM_SZ then ZMM_SZ else safe
  {
    hide LowBits, PageSafeBytes;
    NearPageEnd(a);
    NearPageEnd(b);
  }

  lemma NearPageEnd(a: nat)
    ensures PageSafeBytes(a) < ZMM_SZ ==> PageSafeBytes(a) == ZMM_SZ - LowBits(ZMM_SZ, a)
  {
    var q, r := a / PAGE_SZ, a % PAGE_SZ;
    assert a == 64 * (64 * q + 63) + (r - 4032);
    if r > 4032 { assert a % 64 == r - 4032; }
  }

  /** The entry ramp of the aligned path: three single vectors. */
  method Ramp(mem: Memory, str1: nat, str2: nat, bound: Option<nat>, start: nat)
    returns (ret: nat, offset: nat)
    requires StringsMapped(mem, str1, str2, bound) && Passes(mem.Contents(), str1, str2, start)
    requires Whole(ZMM_SZ, str1 + start) && Whole(ZMM_SZ, str2 + start)
    requires bound.Some? ==> start + 3 * ZMM_SZ <= bound.value
    ensures Resolved(mem.Contents(), str1, str2, offset, ret)
    ensures ret == 0 ==> offset == start + 3 * ZMM_SZ
    ensures ret == 0 ==> Whole(ZMM_SZ, str1 + offset) && Whole(ZMM_SZ, str2 + offset)
  {
    hide Passes, StopsAt, Located, Tzcnt, PageMapped, StringsMapped, Multiple64;
    WholeBlocks(ZMM_SZ);
    ghost var s := mem.Contents();
    offset := start;
    var i := 0;
    while i < 3
      invariant i <= 3 && offset == start + i * ZMM_SZ
      invariant Passes(s, str1, str2, offset)
      invariant Whole(ZMM_SZ, str1 + offset) && Whole(ZMM_SZ, str2 + offset)
    {
      AlignedStaysInPage(str1 + offset);
      AlignedStaysInPage(str2 + offset);
      ReachedPages(mem, str1, str2, bound, offset, ZMM_SZ, ZMM_SZ);
      ret := ScanVector(mem, Aligned, str1 + offset, str2 + offset);
      Resolve(s, str1, str2, offset, ZMM_SZ, ret);
      if ret != 0 { return; }
      WholeSum(ZMM_SZ, str1 + offset, ZMM_SZ);
      WholeSum(ZMM_SZ, str2 + offset, ZMM_SZ);
      offset := offset + ZMM_SZ;
      i := i + 1;
    }
    return 0, offset;
  }

  /** Both strings at one offset within a vector: aligned loads, a page-bounded block a pass. */
  method AlignedPath(mem: Memory, str1: nat, str2: nat, bound: Option<nat>, start: nat) returns (r: int)
    requires StringsMapped(mem, str1, str2, bound) && Passes(mem.Contents(), str1, str2, start)
    requires Whole(ZMM_SZ, str1 + start) && Whole(ZMM_SZ, str2 + start)
    ensures ByteLoop(mem.Contents(), str1, str2, bound) == Some(r)
  {
    hide Passes, StopsAt, Located, Tzcnt, PageMapped, StringsMapped, ByteLoop, Multiple64;
    WholeBlocks(ZMM_SZ);
    ghost var s := mem.Contents();
    var ret, offset := 0, start;
    if bound.None? || offset + 3 * ZMM_SZ <= bound.value {
      ret, offset := Ramp(mem, str1, str2, bound, offset);
      if ret != 0 {
        r := ReturnValue(mem, str1, str2, bound, ret, offset);
        return;
      }
    }
    while bound.None? || offset < bound.value
      invariant Passes(s, str1, str2, offset)
      invariant Whole(ZMM_SZ, str1 + offset) && Whole(ZMM_SZ, str2 + offset)
      decreases |s| - offset
    {
      AlignedStaysInPage(str1 + offset);
      AlignedStaysInPage(str2 + offset);
      var v1 := PageSafeBytes(str1 + offset) / 64 % 0x1_0000;
      var v2 := PageSafeBytes(str2 + offset) / 64 % 0x1_0000;
      var vecs := if v1 < v2 then v1 else v2;
      ReachedPages(mem, str1, str2, bound, offset, vecs * ZMM_SZ, vecs * ZMM_SZ);
      ret, offset := ScanBlock(mem, Aligned, str1, str2, offset, vecs);
      if ret != 0 {
        r := ReturnValue(mem, str1, str2, bound, ret, offset);
        return;
      }
    }
    PassesFewer(s, str1, str2, bound.value, offset);
    LoopExhausts(s, str1, str2, bound.value);
    return 0;
  }

  /** Different offsets: unaligned loads, whole vectors up to the nearer page end and then a
      masked step of 1..63 bytes onto it. */
  method UnalignedPath(mem: Memory, str1: nat, str2: nat, bound: Option<nat>, start: nat) returns (r: int)
    requires StringsMapped(mem, str1, str2, bound) && Passes(mem.Contents(), str1, str2, start)
    ensures ByteLoop(mem.Contents(), str1, str2, bound) == Some(r)
  {
    hide Passes, StopsAt, Located, Tzcnt, PageMapped, StringsMapped, ByteLoop;
    ghost var s := mem.Contents();
    var ret, offset := 0, start;
    while bound.None? || offset < bound.value
      invariant Passes(s, str1, str2, offset)
      decreases |s| - offset
    {
      var s1 := PageSafeBytes(str1 + offset) % 0x1_0000;
      var s2 := PageSafeBytes(str2 + offset) % 0x1_0000;
      var safeBytes := if s1 < s2 then s1 else s2;
      var vecs := safeBytes / 64;
      ReachedPages(mem, str1, str2, bound, offset, safeBytes, safeBytes);
      if vecs == 0 {
        ret := ScanMasked(mem, safeBytes, str1 + offset, str2 + offset);
        Resolve(s, str1, str2, offset, safeBytes, ret);
        if ret != 0 {
          r := ReturnValue(mem, str1, str2, bound, ret, offset);
          return;
        }
        offset := offset + safeBytes;
      } else {
        ret, offset := ScanBlock(mem, Unaligned, str1, str2, offset, vecs);
        if ret != 0 {
          r := ReturnValue(mem, str1, str2, bound, ret, offset);
          return;
        }
      }
    }
    PassesFewer(s, str1, str2, bound.value, offset);
    LoopExhausts(s, str1, str2, bound.value);
    return 0;
  }

  /** The branches of the routine. */
  method Scan(mem: Memory, str1: nat, str2: nat, bound: Option<nat>) returns (r: int)
    requires StringsMapped(mem, str1, str2, bound)
    ensures ByteLoop(mem.Contents(), str1, str2, bound) == Some(r)
  {
    if bound == Some(0) { return 0; }
    var done, offset;
    done, r, offset := FirstVector(mem, str1, str2, bound);
    if done { return; }
    if LowBits(ZMM_SZ, str1) == LowBits(ZMM_SZ, str2) {
      LowBitsAlign(ZMM_SZ, str1);
      LowBitsAlign(ZMM_SZ, str2);
      r := AlignedPath(mem, str1, str2, bound, offset);
    } else {
      r := UnalignedPath(mem, str1, str2, bound, offset);
    }
  }

  /** strcmp (no bound) and strncmp: the byte loop's result, from mapped pages of the bytes the
      byte loop looks at and nothing else; and the scan ends. */
  method Compare(mem: Memory, str1: nat, str2: nat, bound: Option<nat>) returns (r: int)
    requires StringsMapped(mem, str1, str2, bound)
    ensures ByteLoop(mem.Contents(), str1, str2, bound) == Some(r)
    ensures forall k: nat :: StopsAt(mem.Contents(), str1, str2, k) && (bound.None? || k < bound.value) ==>
              r == (mem.Contents()[str1 + k] as int) - (mem.Contents()[str2 + k] as int)
    ensures bound.Some? && Passes(mem.Contents(), str1, str2, bound.value) ==> r == 0
  {
    hide Passes, StopsAt, ByteLoop, PageMapped, StringsMapped;
    r := Scan(mem, str1, str2, bound);
    LoopMeaning(mem.Contents(), str1, str2, bound, r);
  }
}
