/** Flat byte memory, the vector loads and stores the routines are built from, and the
    algebra of partially rewritten memory that every copy and fill proof uses. */
module Memory {
  import opened Alignment
  import opened Bits

  type byte = b: int | 0 <= b < 256

  /** Lane-wise comparisons of two registers. */
  function Cmpeq(a: seq<byte>, b: seq<byte>): (k: Mask)
    requires |a| == |b|
    ensures |k| == |a|
  {
    seq(|a|, i requires 0 <= i < |a| => a[i] == b[i])
  }

  function Cmpneq(a: seq<byte>, b: seq<byte>): (k: Mask)
    requires |a| == |b|
    ensures |k| == |a|
  {
    seq(|a|, i requires 0 <= i < |a| => a[i] != b[i])
  }

  const WORD_SZ := 2
  const DWORD_SZ := 4
  const QWORD_SZ := 8

  /** The interval [lo, hi). */
  ghost function Span(lo: int, hi: int): iset<int> {
    iset k | Between(lo, k, hi)
  }

  predicate Between(lo: int, k: int, hi: int) {
    lo <= k < hi
  }

  /** n bytes of s from a; no bytes may be asked for anywhere. */
  ghost function Slice(s: seq<byte>, a: nat, n: nat): (v: seq<byte>)
    requires n == 0 || a + n <= |s|
    ensures |v| == n
  {
    if n == 0 then [] else s[a..a + n]
  }

  lemma SliceAt(s: seq<byte>, a: nat, n: nat, i: nat)
    requires i < n && a + n <= |s|
    ensures Slice(s, a, n)[i] == s[a + i]
  {
  }

  lemma SliceOfSlice(s: seq<byte>, a: nat, n: nat, lo: nat, hi: nat)
    requires lo <= hi <= n && a + n <= |s|
    ensures Slice(s, a, n)[lo..hi] == s[a + lo..a + hi]
  {
    var l, r := Slice(s, a, n)[lo..hi], s[a + lo..a + hi];
    assert |l| == |r|;
    forall i | 0 <= i < hi - lo ensures l[i] == r[i] {
      assert l[i] == Slice(s, a, n)[lo + i];
    }
  }

  /** s with v written at a. */
  ghost function Splice(s: seq<byte>, a: nat, v: seq<byte>): (r: seq<byte>)
    requires v == [] || a + |v| <= |s|
    ensures |r| == |s|
  {
    seq(|s|, i requires 0 <= i < |s| => if a <= i < a + |v| then v[i - a] else s[i])
  }

  /** s after the bytes of image `img`, meant for address `at`, whose index is in `done` have
      been written: the state of a half-finished copy or fill. */
  ghost function Overlay(s: seq<byte>, at: nat, img: seq<byte>, done: iset<int>): (r: seq<byte>)
    ensures |r| == |s|
  {
    seq(|s|, i requires 0 <= i < |s| => if 0 <= i - at < |img| && i - at in done then img[i - at] else s[i])
  }

  /** What C11 promises of memmove: the n bytes at src, as they were, now stand at dst. */
  ghost function Moved(s: seq<byte>, dst: nat, src: nat, n: nat): (r: seq<byte>)
    requires n == 0 || (src + n <= |s| && dst + n <= |s|)
    ensures |r| == |s|
  {
    seq(|s|, i requires 0 <= i < |s| => if dst <= i < dst + n then s[src + (i - dst)] else s[i])
  }

  /** What C11 promises of memset. */
  ghost function Filled(s: seq<byte>, mem: nat, c: byte, n: nat): seq<byte>
    requires n == 0 || mem + n <= |s|
  {
    Splice(s, mem, seq(n, _ => c))
  }

  lemma OverlayNone(s: seq<byte>, at: nat, img: seq<byte>)
    ensures Overlay(s, at, img, iset{}) == s
  {
  }

  /** Writing a piece of the image at its own place marks that piece as done, whatever was
      done before: overlapping and repeated stores are harmless. */
  lemma Patch(s: seq<byte>, at: nat, img: seq<byte>, done: iset<int>, lo: nat, hi: nat)
    requires lo < hi <= |img| && at + |img| <= |s|
    ensures Splice(Overlay(s, at, img, done), at + lo, img[lo..hi]) == Overlay(s, at, img, done + Span(lo, hi))
  {
    var l := Splice(Overlay(s, at, img, done), at + lo, img[lo..hi]);
    var r := Overlay(s, at, img, done + Span(lo, hi));
    forall i | 0 <= i < |s| ensures l[i] == r[i] {
      assert i - at in Span(lo, hi) <==> lo <= i - at < hi;
    }
  }

  /** A load that meets no byte written so far still sees the original bytes. */
  lemma Intact(s: seq<byte>, at: nat, img: seq<byte>, done: iset<int>, a: nat, n: nat)
    requires a + n <= |s|
    requires forall k :: a - at <= k < a + n - at ==> k !in done
    ensures Overlay(s, at, img, done)[a..a + n] == s[a..a + n]
  {
    var o := Overlay(s, at, img, done);
    forall i | a <= i < a + n ensures o[i] == s[i] {
      assert i - at !in done;
    }
  }

  /** The memory a routine runs in. `readable` and `writable` say which addresses the caller
      has made accessible; every access must stay inside them, so a routine that verifies for
      all memories granting a region touches nothing outside that region. */
  class Memory {
    const bytes: array<byte>
    ghost const readable: iset<int>
    ghost const writable: iset<int>

    constructor (bytes: array<byte>, ghost readable: iset<int>, ghost writable: iset<int>)
      ensures this.bytes == bytes && this.readable == readable && this.writable == writable
    {
      this.bytes := bytes;
      this.readable := readable;
      this.writable := writable;
    }

    ghost function Contents(): (s: seq<byte>)
      reads bytes
      ensures |s| == bytes.Length
    {
      bytes[..]
    }

    ghost predicate CanRead(a: nat, n: nat) {
      && (n > 0 ==> a + n <= bytes.Length)
      && forall i :: a <= i < a + n ==> i in readable
    }

    /** What the accesses ask for: existing bytes, each of them in the caller's set. */
    lemma GrantMeaning(a: nat, n: nat)
      ensures CanRead(a, n) ==> forall i :: a <= i < a + n ==> i < bytes.Length && i in readable
      ensures CanWrite(a, n) ==> forall i :: a <= i < a + n ==> i < bytes.Length && i in writable
      ensures CanReadByte(a) ==> a < bytes.Length && a in readable
      ensures CanWriteByte(a) ==> a < bytes.Length && a in writable
    {
    }

    ghost predicate CanReadByte(a: nat) {
      a < bytes.Length && a in readable
    }

    ghost predicate CanWriteByte(a: nat) {
      a < bytes.Length && a in writable
    }

    ghost predicate CanWrite(a: nat, n: nat) {
      && (n > 0 ==> a + n <= bytes.Length)
      && forall i :: a <= i < a + n ==> i in writable
    }

    /** A load of n bytes, n > 0: one vector register or one scalar. */
    method Load(n: nat, kind: Access, a: nat) returns (z: seq<byte>)
      requires n > 0 && CanRead(a, n) && AlignedFor(kind, n, a)
      ensures |z| == n && z == Contents()[a..a + n]
    {
      z := bytes[a..a + n];
    }

    /** A store of n = |z| bytes, n > 0. */
    method Store(kind: Access, a: nat, z: seq<byte>)
      requires z != [] && CanWrite(a, |z|) && AlignedFor(kind, |z|, a)
      modifies bytes
      ensures Contents() == Splice(old(Contents()), a, z)
    {
      forall i | 0 <= i < |z| {
        bytes[a + i] := z[i];
      }
    }

    /** Masked load: lanes whose flag is clear are not read and take `fill`. */
    method LoadMasked(fill: byte, k: Mask, a: nat) returns (z: seq<byte>)
      requires forall i :: 0 <= i < |k| && k[i] ==> CanReadByte(a + i)
      ensures |z| == |k|
      ensures forall i :: 0 <= i < |k| && k[i] ==> a + i < bytes.Length && z[i] == Contents()[a + i]
      ensures forall i :: 0 <= i < |k| && !k[i] ==> z[i] == fill
    {
      z := seq(|k|, i requires 0 <= i < |k| && (k[i] ==> CanReadByte(a + i)) reads bytes
                    => if k[i] then bytes[a + i] else fill);
    }

    /** Masked store: lanes whose flag is clear are not written. */
    method StoreMasked(k: Mask, a: nat, z: seq<byte>)
      requires |z| == |k|
      requires forall i :: 0 <= i < |k| && k[i] ==> CanWriteByte(a + i)
      modifies bytes
      ensures forall i :: 0 <= i < bytes.Length ==>
                Contents()[i] == if 0 <= i - a < |k| && k[i - a] then z[i - a] else old(Contents()[i])
    {
      forall i | 0 <= i < |k| && k[i] {
        bytes[a + i] := z[i];
      }
    }

    /** `len` bytes at a, as consecutive registers of v bytes in ascending order. */
    method LoadVecs(v: nat, len: nat, kind: Access, a: nat) returns (z: seq<byte>)
      requires len > 0 && Whole(v, len) && CanRead(a, len) && AlignedFor(kind, v, a)
      ensures |z| == len && z == Contents()[a..a + len]
    {
      hide Multiple32, Multiple64;
      z := [];
      WholeBlocks(v);
      while |z| < len
        invariant |z| <= len && Whole(v, |z|)
        invariant z == Contents()[a..a + |z|]
      {
        NextVector(v, |z|, len);
        NextAligned(v, kind, a, |z|);
        var r := Load(v, kind, a + |z|);
        z := z + r;
      }
    }

    /** Stores the registers z, v bytes each, at consecutive ascending addresses. */
    method StoreVecs(v: nat, kind: Access, a: nat, z: seq<byte>)
      requires z != [] && Whole(v, |z|) && CanWrite(a, |z|) && AlignedFor(kind, v, a)
      modifies bytes
      ensures Contents() == Splice(old(Contents()), a, z)
    {
      hide Multiple32, Multiple64, Splice;
      var off := 0;
      WholeBlocks(v);
      SpliceNothing(Contents(), a);
      assert z[..0] == [];
      while off < |z|
        invariant off <= |z| && Whole(v, off)
        invariant Contents() == Splice(old(Contents()), a, z[..off])
      {
        NextVector(v, off, |z|);
        NextAligned(v, kind, a, off);
        Store(kind, a + off, z[off..off + v]);
        SpliceAppend(old(Contents()), a, z[..off], z[off..off + v]);
        assert z[..off] + z[off..off + v] == z[..off + v];
        off := off + v;
      }
      assert z[..off] == z;
    }
  }

  lemma NextAligned(v: nat, kind: Access, a: nat, off: nat)
    requires Whole(v, off) && AlignedFor(kind, v, a)
    ensures AlignedFor(kind, v, a + off)
  {
    KeepsAlignment(v, kind, a, off);
  }

  lemma SpliceNothing(s: seq<byte>, a: nat)
    ensures Splice(s, a, []) == s
  {
  }

  lemma SpliceAppend(s: seq<byte>, a: nat, u: seq<byte>, v: seq<byte>)
    requires v != [] && a + |u| + |v| <= |s|
    ensures Splice(Splice(s, a, u), a + |u|, v) == Splice(s, a, u + v)
  {
  }
}
