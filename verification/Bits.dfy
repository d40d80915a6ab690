/** Unsigned C bit operators on natural numbers, and the alignment facts the
    allocators draw from them.  The operators are defined one binary digit at
    a time, so every lemma here is an induction on digits. */
module Bits {

  function Pow2(k: nat): (r: nat)
    ensures r > 0
  {
    if k == 0 then 1 else 2 * Pow2(k - 1)
  }

  function And(a: nat, b: nat): (r: nat)
    ensures r <= a && r <= b
  {
    if a == 0 || b == 0 then 0
    else (if a % 2 == 1 && b % 2 == 1 then 1 else 0) + 2 * And(a / 2, b / 2)
  }

  function Xor(a: nat, b: nat): nat
    decreases a + b
  {
    if a == 0 && b == 0 then 0
    else (if a % 2 != b % 2 then 1 else 0) + 2 * Xor(a / 2, b / 2)
  }

  /** `p` with its low `k` bits cleared. */
  function Base(p: nat, k: nat): nat
  {
    if k == 0 then p else 2 * Base(p / 2, k - 1)
  }

  lemma {:induction false} BaseBounds(p: nat, k: nat)
    ensures Base(p, k) <= p < Base(p, k) + Pow2(k)
  {
    if k > 0 { BaseBounds(p / 2, k - 1); }
  }

  /** `p` without its low `k` bits. */
  function Shifted(p: nat, k: nat): nat
  {
    if k == 0 then p else Shifted(p / 2, k - 1)
  }

  lemma {:induction false} BaseMultiple(p: nat, k: nat)
    ensures Base(p, k) == Pow2(k) * Shifted(p, k)
  {
    if k > 0 { BaseMultiple(p / 2, k - 1); }
  }

  lemma {:induction false} Pow2Sum(a: nat, b: nat)
    ensures Pow2(a + b) == Pow2(a) * Pow2(b)
  {
    if a > 0 { Pow2Sum(a - 1, b); }
  }

  lemma {:induction false} BaseBase(p: nat, k: nat, m: nat)
    requires k <= m
    ensures Base(Base(p, k), m) == Base(p, m)
  {
    if k > 0 { BaseBase(p / 2, k - 1, m - 1); }
  }

  lemma {:induction false} BaseUnique(i: nat, p: nat, k: nat)
    requires Base(i, k) == i && i <= p < i + Pow2(k)
    ensures Base(p, k) == i
  {
    if k > 0 { BaseUnique(i / 2, p / 2, k - 1); }
  }

  lemma {:induction false} Pow2Monotone(k: nat, m: nat)
    requires k <= m
    ensures Pow2(k) <= Pow2(m)
    decreases m
  {
    if k < m { Pow2Monotone(k, m - 1); }
  }

  /** A number that is a multiple of `2^k` is either the lower or the upper
      half of its `2^(k+1)` block. */
  lemma {:induction false} BaseHalf(i: nat, k: nat)
    requires Base(i, k) == i
    ensures Base(i, k + 1) == i || Base(i, k + 1) + Pow2(k) == i
  {
    if k > 0 { BaseHalf(i / 2, k - 1); }
  }

  lemma {:induction false} BaseUpperHalf(i: nat, k: nat)
    requires Base(i, k + 1) == i
    ensures Base(i + Pow2(k), k) == i + Pow2(k) && Base(i + Pow2(k), k + 1) == i
    ensures Base(i, k) == i
  {
    if k > 0 {
      BaseUpperHalf(i / 2, k - 1);
      assert (i + Pow2(k)) / 2 == i / 2 + Pow2(k - 1);
    }
  }

  /** `idx ^ (1 << k)` for a multiple of `2^k`: the other half of the block of
      size `2^(k+1)`. */
  lemma {:induction false} XorPow2(i: nat, k: nat)
    requires Base(i, k) == i
    ensures Xor(i, Pow2(k)) == if Base(i, k + 1) == i then i + Pow2(k) else Base(i, k + 1)
  {
    if k == 0 {
      XorZero(i / 2);
    } else {
      XorPow2(i / 2, k - 1);
      assert Pow2(k) / 2 == Pow2(k - 1) && Pow2(k) % 2 == 0;
      assert i % 2 == 0;
      assert Base(i, k + 1) == 2 * Base(i / 2, k);
    }
  }

  lemma {:induction false} XorZero(a: nat)
    ensures Xor(a, 0) == a
  {
    if a > 0 { XorZero(a / 2); }
  }

  /** `idx & ((1 << k) - 1)` is the distance to the next lower multiple. */
  lemma {:induction false} AndLowMask(i: nat, k: nat)
    ensures And(i, Pow2(k) - 1) == i - Base(i, k)
  {
    if k > 0 {
      AndLowMask(i / 2, k - 1);
      assert (Pow2(k) - 1) / 2 == Pow2(k - 1) - 1 && (Pow2(k) - 1) % 2 == 1;
    }
  }

  /** `idx & (1 << k)` tests whether a multiple of `2^k` is an upper half. */
  lemma {:induction false} AndPow2(i: nat, k: nat)
    requires Base(i, k) == i
    ensures And(i, Pow2(k)) == 0 <==> Base(i, k + 1) == i
  {
    if k == 0 {
      AndZero(i / 2);
    } else {
      AndPow2(i / 2, k - 1);
      assert Pow2(k) / 2 == Pow2(k - 1) && Pow2(k) % 2 == 0;
    }
  }

  lemma {:induction false} AndZero(a: nat)
    ensures And(a, 0) == 0
  {
  }

  lemma {:induction false} BaseSmall(x: nat, w: nat)
    requires x < Pow2(w)
    ensures Base(x, w) == 0
  {
    if w > 0 { BaseSmall(x / 2, w - 1); }
  }

  /** `x & ~((1 << k) - 1)` in words of `w` bits clears the low `k` bits. */
  lemma {:induction false} AndHighMask(x: nat, w: nat, k: nat)
    requires x < Pow2(w) && k <= w && Pow2(k) <= Pow2(w)
    ensures And(x, Pow2(w) - Pow2(k)) == Base(x, k)
  {
    if k == 0 {
      AndLowMask(x, w);
      BaseSmall(x, w);
    } else {
      assert (Pow2(w) - Pow2(k)) / 2 == Pow2(w - 1) - Pow2(k - 1) && (Pow2(w) - Pow2(k)) % 2 == 0;
      AndHighMask(x / 2, w - 1, k - 1);
    }
  }

  /** `(b + mask) & ~mask`: the least multiple of `2^k` not below `b`. */
  function AlignUp(b: nat, k: nat): nat { Base(b + (Pow2(k) - 1), k) }

  lemma AlignUpLeast(b: nat, k: nat)
    ensures b <= AlignUp(b, k) < b + Pow2(k) && Base(AlignUp(b, k), k) == AlignUp(b, k)
    ensures forall a: nat :: Base(a, k) == a && b <= a ==> AlignUp(b, k) <= a
  {
    var x := b + (Pow2(k) - 1);
    BaseBounds(x, k);
    BaseBase(x, k, k);
    forall a: nat | Base(a, k) == a && b <= a ensures AlignUp(b, k) <= a {
      if a <= x { BaseUnique(a, x, k); }
    }
  }
}
