/** What a block-by-block copy does to one memory when source and destination overlap, upwards
    and downwards, and exactly when that is the copy C11 asks of memmove. */
module Overlap {
  import opened Memory

  /** One pass: load `step` bytes at src, store them at dst. */
  ghost function Pass(s: seq<byte>, dst: nat, src: nat, step: nat): (r: seq<byte>)
    requires src + step <= |s| && dst + step <= |s|
    ensures |r| == |s|
  {
    Splice(s, dst, Slice(s, src, step))
  }

  lemma PassIs(s: seq<byte>, dst: nat, src: nat, step: nat)
    requires step > 0 && src + step <= |s| && dst + step <= |s|
    ensures Pass(s, dst, src, step) == Splice(s, dst, s[src..src + step])
  {
  }

  lemma PassAt(s: seq<byte>, dst: nat, src: nat, step: nat, i: nat)
    requires src + step <= |s| && dst + step <= |s| && i < |s|
    ensures Pass(s, dst, src, step)[i] == if dst <= i < dst + step then s[src + (i - dst)] else s[i]
  {
  }

  /** n is a whole number of passes. */
  ghost predicate WholePasses(n: nat, step: nat)
    requires step > 0
  {
    n == 0 || (n >= step && WholePasses(n - step, step))
  }

  /** Memory after copying n bytes in ascending passes. */
  ghost function CopyUp(s: seq<byte>, dst: nat, src: nat, step: nat, n: nat): (r: seq<byte>)
    requires step > 0 && WholePasses(n, step) && (n == 0 || (src + n <= |s| && dst + n <= |s|))
    ensures |r| == |s|
    decreases n
  {
    if n == 0 then s
    else Pass(CopyUp(s, dst, src, step, n - step), dst + n - step, src + n - step, step)
  }

  /** Memory after copying n bytes in descending passes. */
  ghost function CopyDown(s: seq<byte>, dst: nat, src: nat, step: nat, n: nat): (r: seq<byte>)
    requires step > 0 && WholePasses(n, step) && (n == 0 || (src + n <= |s| && dst + n <= |s|))
    ensures |r| == |s|
    decreases n
  {
    if n == 0 then s
    else Pass(CopyDown(s, dst + step, src + step, step, n - step), dst, src, step)
  }

  lemma MovedNothing(s: seq<byte>, dst: nat, src: nat)
    ensures Moved(s, dst, src, 0) == s
  {
  }

  /** A move that stopped may go on upwards as long as the destination is not ahead of the
      source: the bytes it reads next are still the original ones. */
  lemma MoveExtendsUp(s: seq<byte>, dst: nat, src: nat, step: nat, n: nat)
    requires 0 < step <= n && src + n <= |s| && dst + n <= |s|
    requires dst <= src || src + n <= dst || n <= step
    ensures Pass(Moved(s, dst, src, n - step), dst + n - step, src + n - step, step) == Moved(s, dst, src, n)
  {
  }

  lemma MoveExtendsDown(s: seq<byte>, dst: nat, src: nat, step: nat, n: nat)
    requires 0 < step <= n && src + n <= |s| && dst + n <= |s|
    requires src <= dst || dst + n <= src || n <= step
    ensures Pass(Moved(s, dst + step, src + step, n - step), dst, src, step) == Moved(s, dst, src, n)
  {
  }

  /** Ascending passes are a correct move when the destination is not ahead of the source
      inside the buffer. */
  lemma {:induction false} CopyUpIsMoved(s: seq<byte>, dst: nat, src: nat, step: nat, n: nat)
    requires step > 0 && WholePasses(n, step) && src + n <= |s| && dst + n <= |s|
    requires dst <= src || src + n <= dst || n <= step
    ensures CopyUp(s, dst, src, step, n) == Moved(s, dst, src, n)
  {
    hide Pass, Moved;
    if n == 0 {
      MovedNothing(s, dst, src);
    } else {
      CopyUpIsMoved(s, dst, src, step, n - step);
      MoveExtendsUp(s, dst, src, step, n);
    }
  }

  lemma {:induction false} CopyDownIsMoved(s: seq<byte>, dst: nat, src: nat, step: nat, n: nat)
    requires step > 0 && WholePasses(n, step) && src + n <= |s| && dst + n <= |s|
    requires src <= dst || dst + n <= src || n <= step
    ensures CopyDown(s, dst, src, step, n) == Moved(s, dst, src, n)
    decreases n
  {
    hide Pass, Moved;
    if n == 0 {
      MovedNothing(s, dst, src);
    } else {
      CopyDownIsMoved(s, dst + step, src + step, step, n - step);
      MoveExtendsDown(s, dst, src, step, n);
    }
  }

  /** The first ascending pass is never disturbed by later ones. */
  lemma {:induction false} FirstPassStays(s: seq<byte>, dst: nat, src: nat, step: nat, n: nat, y: nat)
    requires step > 0 && WholePasses(n, step) && step <= n && src + n <= |s| && dst + n <= |s| && y < step
    ensures CopyUp(s, dst, src, step, n)[dst + y] == s[src + y]
  {
    hide Pass;
    PassAt(CopyUp(s, dst, src, step, n - step), dst + n - step, src + n - step, step, dst + y);
    if n > step {
      FirstPassStays(s, dst, src, step, n - step, y);
    }
  }

  /** With the destination ahead, a byte past the first pass is replaced before it is read. */
  lemma {:induction false} SpoiledUp(s: seq<byte>, dst: nat, src: nat, step: nat, n: nat, x: nat, y: nat)
    requires step > 0 && WholePasses(n, step) && src + n <= |s| && dst + n <= |s|
    requires step <= x < n && y < step && src + x == dst + y
    ensures CopyUp(s, dst, src, step, n)[dst + x] == s[src + y]
  {
    hide Pass;
    PassAt(CopyUp(s, dst, src, step, n - step), dst + n - step, src + n - step, step, dst + x);
    if x < n - step {
      SpoiledUp(s, dst, src, step, n - step, x, y);
    } else {
      FirstPassStays(s, dst, src, step, n - step, y);
    }
  }

  lemma {:induction false} LastPassStays(s: seq<byte>, dst: nat, src: nat, step: nat, n: nat, y: nat)
    requires step > 0 && WholePasses(n, step) && n - step <= y < n && src + n <= |s| && dst + n <= |s|
    ensures CopyDown(s, dst, src, step, n)[dst + y] == s[src + y]
    decreases n
  {
    hide Pass;
    PassAt(CopyDown(s, dst + step, src + step, step, n - step), dst, src, step, dst + y);
    if n > step {
      LastPassStays(s, dst + step, src + step, step, n - step, y - step);
    }
  }

  lemma {:induction false} SpoiledDown(s: seq<byte>, dst: nat, src: nat, step: nat, n: nat, x: nat, y: nat)
    requires step > 0 && WholePasses(n, step) && src + n <= |s| && dst + n <= |s|
    requires x < n - step <= y < n && src + x == dst + y
    ensures CopyDown(s, dst, src, step, n)[dst + x] == s[src + y]
    decreases n
  {
    hide Pass;
    PassAt(CopyDown(s, dst + step, src + step, step, n - step), dst, src, step, dst + x);
    if x >= step {
      SpoiledDown(s, dst + step, src + step, step, n - step, x - step, y - step);
    } else {
      LastPassStays(s, dst + step, src + step, step, n - step, y - step);
    }
  }

  /** A memory with one byte set. */
  ghost function OneSet(len: nat, at: nat): (s: seq<byte>)
    ensures |s| == len && forall i :: 0 <= i < len ==> s[i] == if i == at then 1 else 0
  {
    seq(len, i => if i == at then 1 else 0)
  }

  lemma MovedAt(s: seq<byte>, dst: nat, src: nat, n: nat, i: nat)
    requires src + n <= |s| && dst + n <= |s| && i < n
    ensures Moved(s, dst, src, n)[dst + i] == s[src + i]
  {
  }

  /** The direction test is exact: ascending passes are right for every content of memory if
      and only if the destination is not strictly inside the source range, or one pass does
      it all. */
  lemma CopyUpExact(len: nat, dst: nat, src: nat, step: nat, n: nat)
    requires step > 0 && WholePasses(n, step) && src + n <= len && dst + n <= len
    ensures (forall s: seq<byte> | |s| == len :: CopyUp(s, dst, src, step, n) == Moved(s, dst, src, n))
       <==> dst <= src || src + n <= dst || n <= step
  {
    if dst <= src || src + n <= dst || n <= step {
      forall s: seq<byte> | |s| == len ensures CopyUp(s, dst, src, step, n) == Moved(s, dst, src, n) {
        CopyUpIsMoved(s, dst, src, step, n);
      }
    } else {
      hide CopyUp, WholePasses, Moved, OneSet;
      var d := dst - src;
      var x := if d >= step then d else step;
      var s := OneSet(len, src + x);
      SpoiledUp(s, dst, src, step, n, x, x - d);
      MovedAt(s, dst, src, n, x);
      assert s[src + x] == 1 && s[src + x - d] == 0;
    }
  }

  /** The mirror image for descending passes. */
  lemma CopyDownExact(len: nat, dst: nat, src: nat, step: nat, n: nat)
    requires step > 0 && WholePasses(n, step) && src + n <= len && dst + n <= len
    ensures (forall s: seq<byte> | |s| == len :: CopyDown(s, dst, src, step, n) == Moved(s, dst, src, n))
       <==> src <= dst || dst + n <= src || n <= step
  {
    if src <= dst || dst + n <= src || n <= step {
      forall s: seq<byte> | |s| == len ensures CopyDown(s, dst, src, step, n) == Moved(s, dst, src, n) {
        CopyDownIsMoved(s, dst, src, step, n);
      }
    } else {
      hide CopyDown, WholePasses, Moved, OneSet;
      var d := src - dst;
      var x := if d >= step then n - 1 - d else n - 1 - step;
      var s := OneSet(len, src + x);
      SpoiledDown(s, dst, src, step, n, x, x + d);
      MovedAt(s, dst, src, n, x);
      assert s[src + x] == 1 && s[src + x + d] == 0;
    }
  }
}
