/** Lane masks, the numbers they stand for in a general register, and the bit-scan and
    narrowing operations the vector routines apply to those numbers. */
module Bits {
  /** A k-register or the result of a lane-wise comparison: one flag a lane, lane 0 lowest. */
  type Mask = seq<bool>

  function Pow2(n: nat): (p: nat)
    ensures p > 0
  {
    if n == 0 then 1 else 2 * Pow2(n - 1)
  }

  /** The mask as an unsigned integer (what movemask or a cast of a k-register yields). */
  function Value(k: Mask): nat {
    if k == [] then 0 else (if k[0] then 1 else 0) + 2 * Value(k[1..])
  }

  /** Count trailing zeros of a w-bit operand; w when the operand is zero. */
  function Tzcnt(w: nat, x: nat): (t: nat)
    ensures t <= w
  {
    if w == 0 || x % 2 == 1 then 0 else 1 + Tzcnt(w - 1, x / 2)
  }

  /** Count leading zeros of a w-bit operand. */
  function Lzcnt(w: nat, x: nat): (t: nat)
    ensures t <= w
  {
    if w == 0 || x >= Pow2(w - 1) then 0 else 1 + Lzcnt(w - 1, x)
  }

  /** Bitwise exclusive or of two w-bit operands. */
  function Xor(w: nat, x: nat, y: nat): nat {
    if w == 0 then 0 else (if x % 2 != y % 2 then 1 else 0) + 2 * Xor(w - 1, x / 2, y / 2)
  }

  /** All-ones mask of w lanes with the bits from (uint8_t) n upwards cleared. */
  function Bzhi(w: nat, n: nat): Mask {
    seq(w, i => i < n % 256)
  }

  lemma BzhiLanes(w: nat, n: nat)
    ensures |Bzhi(w, n % 256)| == w
    ensures n < 256 ==> forall i :: 0 <= i < w ==> Bzhi(w, n % 256)[i] == (i < n)
  {
  }

  /** All-ones mask of w lanes shifted right by n. */
  function OnesShiftedRight(w: nat, n: nat): Mask {
    seq(w, i => i < w - n)
  }

  function Not(k: Mask): (r: Mask)
    ensures |r| == |k|
  {
    seq(|k|, i requires 0 <= i < |k| => !k[i])
  }

  function And(j: Mask, k: Mask): (r: Mask)
    requires |j| == |k|
    ensures |r| == |j|
  {
    seq(|j|, i requires 0 <= i < |j| => j[i] && k[i])
  }

  function Or(j: Mask, k: Mask): (r: Mask)
    requires |j| == |k|
    ensures |r| == |j|
  {
    seq(|j|, i requires 0 <= i < |j| => j[i] || k[i])
  }

  /** Unsigned wrap-around of a w-bit register. */
  function Wrap(w: nat, x: nat): nat {
    x % Pow2(w)
  }

  /** Conversion of a 64-bit unsigned value to `int`. */
  function ToInt32(x: nat): int {
    var y := x % 0x1_0000_0000;
    if y < 0x8000_0000 then y else y - 0x1_0000_0000
  }

  /** The conversion keeps the value modulo 2^32 and yields a 32-bit signed number; there is one
      such number. */
  lemma ToInt32IsCongruent(x: nat)
    ensures -0x8000_0000 <= ToInt32(x) < 0x8000_0000
    ensures (x - ToInt32(x)) % 0x1_0000_0000 == 0
  {
    assert x == 0x1_0000_0000 * (x / 0x1_0000_0000) + x % 0x1_0000_0000;
  }

  /** Least set lane, or the number of lanes. */
  function FirstSet(k: Mask): (i: nat)
    ensures i <= |k|
    ensures forall j :: 0 <= j < i ==> !k[j]
    ensures i < |k| ==> k[i]
  {
    if k == [] || k[0] then 0 else 1 + FirstSet(k[1..])
  }

  lemma FirstSetIs(k: Mask, d: nat)
    requires d <= |k| && (forall j :: 0 <= j < d ==> !k[j]) && (d < |k| ==> k[d])
    ensures FirstSet(k) == d
  {
  }

  ghost predicate AllSet(k: Mask) {
    forall i :: 0 <= i < |k| ==> k[i]
  }

  lemma NoneClear(k: Mask)
    ensures FirstSet(Not(k)) == |k| <==> AllSet(k)
  {
    if FirstSet(Not(k)) == |k| {
      forall i | 0 <= i < |k| ensures k[i] {
        assert !Not(k)[i];
      }
    }
  }

  /** A conjunction is full exactly when both masks are, and is the second when the first is. */
  lemma AndOfMasks(j: Mask, k: Mask)
    requires |j| == |k|
    ensures AllSet(And(j, k)) <==> AllSet(j) && AllSet(k)
    ensures AllSet(j) ==> And(j, k) == k
  {
    if AllSet(And(j, k)) {
      forall i | 0 <= i < |j| ensures j[i] && k[i] {
        assert And(j, k)[i];
      }
    }
  }

  lemma {:induction false} ValueBound(k: Mask)
    ensures Value(k) < Pow2(|k|)
  {
    if k != [] { ValueBound(k[1..]); }
  }

  /** Scanning the number for its lowest one finds the lowest set lane. */
  lemma {:induction false} TzcntFindsFirstSet(k: Mask)
    ensures Tzcnt(|k|, Value(k)) == FirstSet(k)
    ensures Value(k) == 0 <==> FirstSet(k) == |k|
  {
    if k != [] { TzcntFindsFirstSet(k[1..]); }
  }

  lemma WrapSuccessor(w: nat, x: nat)
    requires x < Pow2(w)
    ensures Wrap(w, x + 1) == if x + 1 == Pow2(w) then 0 else x + 1
  {
    SmallRemainder(x + 1, Pow2(w));
  }

  lemma SmallRemainder(x: nat, p: nat)
    requires 0 < x <= p
    ensures x % p == if x == p then 0 else x
  {
  }

  /** Adding one to an equality mask, with register wrap-around, moves its lowest clear lane
      to the lowest one: zero exactly when every lane was set. */
  lemma {:induction false} PlusOneFindsFirstClear(k: Mask)
    ensures Tzcnt(|k|, Wrap(|k|, Value(k) + 1)) == FirstSet(Not(k))
    ensures Wrap(|k|, Value(k) + 1) == 0 <==> FirstSet(Not(k)) == |k|
  {
    hide Wrap;
    ValueBound(k);
    if k == [] {
      WrapSuccessor(0, 0);
    } else if !k[0] {
      WrapSuccessor(|k|, Value(k));
    } else {
      hide Wrap, Tzcnt;
      var t := k[1..];
      PlusOneFindsFirstClear(t);
      ValueBound(t);
      assert Not(k)[1..] == Not(t);
      WrapSuccessor(|t|, Value(t));
      WrapSuccessor(|k|, Value(k));
      TzcntDouble(|t|, Wrap(|t|, Value(t) + 1));
      assert Wrap(|k|, Value(k) + 1) == 2 * Wrap(|t|, Value(t) + 1);
    }
  }

  /** A mask is all ones as a number exactly when no lane is clear. */
  lemma {:induction false} AllOnes(k: Mask)
    ensures Value(k) == Pow2(|k|) - 1 <==> FirstSet(Not(k)) == |k|
  {
    if k != [] {
      AllOnes(k[1..]);
      ValueBound(k[1..]);
      assert Not(k)[1..] == Not(k[1..]);
    }
  }

  /** Subtracting a mask from all ones complements its lanes. */
  lemma {:induction false} Complement(k: Mask)
    ensures Pow2(|k|) - 1 - Value(k) == Value(Not(k))
  {
    if k != [] {
      Complement(k[1..]);
      assert Not(k)[1..] == Not(k[1..]);
    }
  }

  /** A wider scan of a non-zero number stops at the same bit. */
  lemma {:induction false} TzcntWiden(w: nat, v: nat, x: nat)
    requires w <= v && 0 < x < Pow2(w)
    ensures Tzcnt(v, x) == Tzcnt(w, x) < w
  {
    if x % 2 == 0 { TzcntWiden(w - 1, v - 1, x / 2); }
  }

  /** Between two powers of two the leading-zero count is constant. */
  lemma {:induction false} LzcntRange(w: nat, b: nat, x: nat)
    requires b < w && Pow2(b) <= x < Pow2(b + 1)
    ensures Lzcnt(w, x) == w - 1 - b
  {
    if b < w - 1 {
      Pow2Monotone(b + 1, w - 1);
      LzcntRange(w - 1, b, x);
    }
  }

  lemma Pow2Of8()
    ensures Pow2(8) == 0x100
  {
    assert Pow2(2) == 4 && Pow2(4) == 0x10 && Pow2(6) == 0x40;
  }

  lemma Pow2Of16And32()
    ensures Pow2(16) == 0x1_0000 && Pow2(32) == 0x1_0000_0000
  {
    assert Pow2(2) == 4 && Pow2(4) == 0x10 && Pow2(6) == 0x40 && Pow2(8) == 0x100;
    assert Pow2(10) == 0x400 && Pow2(12) == 0x1000 && Pow2(14) == 0x4000 && Pow2(16) == 0x1_0000;
    assert Pow2(18) == 0x4_0000 && Pow2(20) == 0x10_0000 && Pow2(22) == 0x40_0000;
    assert Pow2(24) == 0x100_0000 && Pow2(26) == 0x400_0000 && Pow2(28) == 0x1000_0000;
    assert Pow2(30) == 0x4000_0000;
  }

  lemma {:induction false} Pow2Monotone(m: nat, n: nat)
    requires m <= n
    ensures Pow2(m) <= Pow2(n)
  {
    if m < n { Pow2Monotone(m, n - 1); }
  }

  /** The low b bits of `low` under the bits of `high`. */
  function Join(b: nat, low: nat, high: nat): nat {
    if b == 0 then high else low % 2 + 2 * Join(b - 1, low / 2, high)
  }

  lemma {:induction false} JoinIsSum(b: nat, low: nat, high: nat)
    requires low < Pow2(b)
    ensures Join(b, low, high) == low + Pow2(b) * high
  {
    if b != 0 {
      JoinIsSum(b - 1, low / 2, high);
      DoubleProduct(Pow2(b - 1), high);
    }
  }

  lemma DoubleProduct(p: nat, h: nat)
    ensures 2 * p * h == 2 * (p * h)
  {
  }

  lemma JoinHalf(b: nat, low: nat, high: nat)
    requires b > 0
    ensures Join(b, low, high) % 2 == low % 2
    ensures Join(b, low, high) / 2 == Join(b - 1, low / 2, high)
  {
  }

  lemma XorScanStep(w: nat, x: nat, y: nat)
    requires w > 0
    ensures Tzcnt(w, Xor(w, x, y)) == if x % 2 != y % 2 then 0 else 1 + Tzcnt(w - 1, Xor(w - 1, x / 2, y / 2))
  {
  }

  lemma TzcntDouble(w: nat, x: nat)
    ensures Tzcnt(w + 1, 2 * x) == 1 + Tzcnt(w, x)
  {
  }

  /** The low b bits decide the scan of an exclusive or unless they agree. */
  lemma {:induction false} XorSplit(b: nat, w: nat, x: nat, y: nat, hx: nat, hy: nat)
    requires x < Pow2(b) && y < Pow2(b)
    ensures Tzcnt(b + w, Xor(b + w, Join(b, x, hx), Join(b, y, hy)))
         == if x == y then b + Tzcnt(w, Xor(w, hx, hy)) else Tzcnt(b, Xor(b, x, y))
    ensures x != y ==> Tzcnt(b, Xor(b, x, y)) < b
  {
    if b != 0 {
      hide Tzcnt, Xor, Join;
      XorSplit(b - 1, w, x / 2, y / 2, hx, hy);
      JoinHalf(b, x, hx);
      JoinHalf(b, y, hy);
      XorScanStep(b + w, Join(b, x, hx), Join(b, y, hy));
      XorScanStep(b, x, y);
    }
  }
}
