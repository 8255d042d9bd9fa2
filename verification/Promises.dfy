/** What the contracts mean for callers: the exact access footprints, C strings as arguments of
    strcmp, and how the routines relate to each other. */
module Promises {
  import opened Memory
  import opened Memcmp
  import opened Strcmp
  import MemcpyZen4
  import Memset

  // ---- Footprints --------------------------------------------------------------------------

  /** memmove in a memory that grants the two buffers and not one byte more. */
  method MemmoveTouchesOnlyBuffers(bytes: array<byte>, dst: nat, src: nat, size: nat, l2: nat, ntStart: nat)
    requires size > 0 ==> src + size <= bytes.Length && dst + size <= bytes.Length
    modifies bytes
    ensures bytes[..] == Moved(old(bytes[..]), dst, src, size)
  {
    var mem := new Memory(bytes, Span(src, src + size), Span(dst, dst + size));
    var _ := MemcpyZen4.Memmove(mem, dst, src, size, l2, ntStart);
  }

  /** memset in a memory that grants the buffer only, and for writing only. */
  method MemsetTouchesOnlyBuffer(bytes: array<byte>, at: nat, val: int, size: nat, l2: nat)
    requires size > 0 ==> at + size <= bytes.Length
    modifies bytes
    ensures forall i :: 0 <= i < bytes.Length ==>
              bytes[i] as int == if at <= i < at + size then val % 256 else old(bytes[i] as int)
  {
    var mem := new Memory(bytes, iset{}, Span(at, at + size));
    var _ := Memset.MemsetZen4(mem, at, val, size, l2);
  }

  /** The page of address a is one that some byte the byte loop looks at lies on. */
  ghost predicate OnReachedPage(s: seq<byte>, p1: nat, p2: nat, bound: Option<nat>, a: int) {
    exists i: nat :: Reached(s, p1, p2, bound, i) && OnPageOf(a, p1 + i, p2 + i)
  }

  ghost predicate OnPageOf(a: int, b: nat, c: nat) {
    a / 4096 == b / 4096 || a / 4096 == c / 4096
  }

  /** strcmp and strncmp in a memory that grants exactly the pages reached by the byte loop:
      page safety of every run. All that is asked is that those pages exist. */
  method CompareTouchesOnlyReachedPages(bytes: array<byte>, p1: nat, p2: nat, bound: Option<nat>) returns (r: int)
    requires forall i: nat :: Reached(bytes[..], p1, p2, bound, i) ==>
               && (p1 + i) / 4096 * 4096 + 4096 <= bytes.Length
               && (p2 + i) / 4096 * 4096 + 4096 <= bytes.Length
    ensures ByteLoop(bytes[..], p1, p2, bound) == Some(r)
  {
    ghost var s := bytes[..];
    var mem := new Memory(bytes, iset a: int | OnReachedPage(s, p1, p2, bound, a), iset{});
    forall i: nat | Reached(mem.Contents(), p1, p2, bound, i)
      ensures PageMapped(mem, p1 + i) && PageMapped(mem, p2 + i)
    {
      forall a | (p1 + i) / 4096 * 4096 <= a < (p1 + i) / 4096 * 4096 + 4096 ensures a in mem.readable {
        SamePage(a, p1 + i);
        assert OnPageOf(a, p1 + i, p2 + i);
      }
      forall a | (p2 + i) / 4096 * 4096 <= a < (p2 + i) / 4096 * 4096 + 4096 ensures a in mem.readable {
        SamePage(a, p2 + i);
        assert OnPageOf(a, p1 + i, p2 + i);
      }
    }
    r := Compare(mem, p1, p2, bound);
  }

  lemma SamePage(a: int, b: nat)
    requires b / 4096 * 4096 <= a < b / 4096 * 4096 + 4096
    ensures a / 4096 == b / 4096
  {
  }

  /** The indices whose pages are needed: below the bound, with all earlier pairs of bytes equal
      and not NUL. */
  lemma ReachedMeaning(s: seq<byte>, p1: nat, p2: nat, bound: Option<nat>, i: nat)
    ensures Reached(s, p1, p2, bound, i) <==>
              && (bound.None? || i < bound.value)
              && (i == 0 || (p1 + i <= |s| && p2 + i <= |s|
                             && s[p1..p1 + i] == s[p2..p2 + i] && 0 !in s[p1..p1 + i]))
  {
    if Strcmp.Passes(s, p1, p2, i) && i > 0 {
      assert PassesAt(s, p1, p2, i - 1);
      var a, b := s[p1..p1 + i], s[p2..p2 + i];
      forall j | 0 <= j < i ensures a[j] == b[j] && a[j] != 0 {
        assert PassesAt(s, p1, p2, j);
      }
    }
    if i > 0 && p1 + i <= |s| && p2 + i <= |s| && s[p1..p1 + i] == s[p2..p2 + i] && 0 !in s[p1..p1 + i] {
      forall j: nat | j < i ensures PassesAt(s, p1, p2, j) {
        assert s[p1..p1 + i][j] == s[p2..p2 + i][j];
        assert s[p1..p1 + i][j] in s[p1..p1 + i];
      }
    }
  }

  // ---- C strings ---------------------------------------------------------------------------

  /** A string of n characters and its terminator stand at p. */
  ghost predicate CString(s: seq<byte>, p: nat, n: nat) {
    p + n < |s| && s[p + n] == 0 && forall a :: p <= a < p + n ==> s[a] != 0
  }

  /** Two terminated strings on mapped pages are all strcmp and strncmp need, with any bound,
      and the comparison stops by the end of the shorter one. */
  lemma TerminatedStringsSuffice(mem: Memory, p1: nat, n1: nat, p2: nat, n2: nat, bound: Option<nat>)
    requires CString(mem.Contents(), p1, n1) && (forall a :: p1 <= a <= p1 + n1 ==> PageMapped(mem, a))
    requires CString(mem.Contents(), p2, n2) && (forall a :: p2 <= a <= p2 + n2 ==> PageMapped(mem, a))
    ensures StringsMapped(mem, p1, p2, bound)
    ensures exists k: nat :: k <= n1 && k <= n2 && StopsAt(mem.Contents(), p1, p2, k)
  {
    var s := mem.Contents();
    forall i: nat | Reached(s, p1, p2, bound, i) ensures i <= n1 && i <= n2 {
      assert i > n1 ==> PassesAt(s, p1, p2, n1);
      assert i > n2 ==> PassesAt(s, p1, p2, n2);
    }
    var k := StopOfStrings(s, p1, n1, p2, n2, 0);
  }

  lemma {:induction false} StopOfStrings(s: seq<byte>, p1: nat, n1: nat, p2: nat, n2: nat, from: nat) returns (k: nat)
    requires CString(s, p1, n1) && CString(s, p2, n2) && from <= n1 && from <= n2
    requires Strcmp.Passes(s, p1, p2, from)
    ensures k <= n1 && k <= n2 && StopsAt(s, p1, p2, k)
    decreases n1 - from
  {
    if PassesAt(s, p1, p2, from) {
      k := StopOfStrings(s, p1, n1, p2, n2, from + 1);
    } else {
      k := from;
    }
  }

  // ---- Relations between routines ----------------------------------------------------------

  /** strncmp is strcmp when the strings stop below the bound, and zero otherwise. */
  lemma BoundedComparison(s: seq<byte>, p1: nat, p2: nat, k: nat, n: nat)
    requires StopsAt(s, p1, p2, k)
    ensures ByteLoop(s, p1, p2, Some(n)) == if k < n then ByteLoop(s, p1, p2, None) else Some(0)
  {
    if k < n {
      LoopStops(s, p1, p2, Some(n), k);
      LoopStops(s, p1, p2, None, k);
    } else {
      PassesFewer(s, p1, p2, n, k);
      LoopExhausts(s, p1, p2, n);
    }
  }

  /** strcmp is memcmp of the bytes up to and including the stop. */
  lemma StrcmpIsMemcmp(s: seq<byte>, p1: nat, p2: nat, k: nat)
    requires StopsAt(s, p1, p2, k)
    ensures ByteLoop(s, p1, p2, None) == Some(Expected(s, p1, p2, k + 1))
  {
    hide ByteLoop, Expected, DiffIn;
    LoopStops(s, p1, p2, None, k);
    forall i: nat | i < k ensures SameAt(s, p1, p2, i) {
      assert PassesAt(s, p1, p2, i);
    }
    if s[p1 + k] == s[p2 + k] {
      NotFound(s, p1, p2, k + 1);
    } else {
      Found(s, p1, p2, k + 1, k);
    }
  }

  /** memcmp's sign is the order of the first pair of bytes that differ, taken as unsigned. */
  lemma MemcmpSign(a: seq<byte>, b: seq<byte>)
    requires |a| == |b|
    ensures var d := FirstDiff(a, b);
            d < |a| ==>
              && MemcmpSpec(a, b) == (a[d] as int) - (b[d] as int)
              && (MemcmpSpec(a, b) > 0 <==> a[d] > b[d])
              && (MemcmpSpec(a, b) < 0 <==> a[d] < b[d])
  {
  }

  /** So is strcmp's at the stop. */
  lemma StrcmpSign(s: seq<byte>, p1: nat, p2: nat, k: nat)
    requires StopsAt(s, p1, p2, k)
    ensures var r := ByteLoop(s, p1, p2, None);
            && r == Some((s[p1 + k] as int) - (s[p2 + k] as int))
            && (r.value > 0 <==> s[p1 + k] > s[p2 + k])
            && (r.value < 0 <==> s[p1 + k] < s[p2 + k])
  {
    LoopStops(s, p1, p2, None, k);
  }

  /** memcmp is zero exactly for equal buffers, and exchanging the buffers changes its sign. */
  lemma MemcmpOrders(a: seq<byte>, b: seq<byte>)
    requires |a| == |b|
    ensures MemcmpSpec(a, b) == 0 <==> a == b
    ensures MemcmpSpec(b, a) == -MemcmpSpec(a, b)
  {
    FirstDiffIs(b, a, FirstDiff(a, b));
  }

  /** memmove then memcmp: the destination now equals what the source was, although the source
      itself may have been partly overwritten; nothing outside the destination changed. */
  lemma MoveMeaning(s: seq<byte>, dst: nat, src: nat, n: nat)
    requires src + n <= |s| && dst + n <= |s|
    ensures Moved(s, dst, src, n)[dst..dst + n] == s[src..src + n]
    ensures MemcmpSpec(Slice(Moved(s, dst, src, n), dst, n), Slice(s, src, n)) == 0
    ensures forall i :: 0 <= i < |s| && !(dst <= i < dst + n) ==> Moved(s, dst, src, n)[i] == s[i]
    ensures dst + n <= src || src + n <= dst ==> Expected(Moved(s, dst, src, n), dst, src, n) == 0
  {
    var m := Moved(s, dst, src, n);
    assert Slice(m, dst, n) == Slice(s, src, n);
    MemcmpOrders(Slice(m, dst, n), Slice(s, src, n));
    if dst + n <= src || src + n <= dst {
      assert Slice(m, src, n) == Slice(s, src, n);
      MemcmpOrders(Slice(m, dst, n), Slice(m, src, n));
    }
  }

  /** Saving a buffer elsewhere, filling it and moving the copy back restores it. */
  lemma SaveFillRestore(s: seq<byte>, buf: nat, copy: nat, c: byte, n: nat)
    requires buf + n <= |s| && copy + n <= |s| && (buf + n <= copy || copy + n <= buf)
    ensures Moved(Filled(Moved(s, copy, buf, n), buf, c, n), buf, copy, n) == Moved(s, copy, buf, n)
  {
  }
}
