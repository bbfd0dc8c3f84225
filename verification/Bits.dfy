/** Powers of two, alignment and bitwise operations on natural numbers. Everything is
    defined by recursion on the binary digits, so that proofs stay linear. */
module Bits {

  function Pow2(k: nat): (r: nat)
    ensures r >= 1
  {
    if k == 0 then 1 else 2 * Pow2(k - 1)
  }

  /** `p` is a multiple of `Pow2(k)` (see `AlignedIsMod`). */
  predicate Aligned(p: nat, k: nat) {
    k == 0 || (p % 2 == 0 && Aligned(p / 2, k - 1))
  }

  lemma {:induction false} ModHalves(p: nat, m: nat)
    requires m > 0
    ensures p % (2 * m) == 2 * ((p / 2) % m) + p % 2
  {
    var q, r := (p / 2) / m, (p / 2) % m;
    assert p / 2 == q * m + r;
    assert p == 2 * (q * m + r) + p % 2;
    assert p == q * (2 * m) + (2 * r + p % 2);
    ModUnique(p, 2 * m, q, 2 * r + p % 2);
  }

  lemma ModUnique(p: nat, m: nat, q: nat, r: nat)
    requires 0 <= r < m && p == q * m + r
    ensures p % m == r && p / m == q
  {
    var d := p / m - q;
    assert p == (p / m) * m + p % m;
    assert d * m == r - p % m;
    MulGap(d, m);
  }

  lemma MulGap(d: int, m: nat)
    ensures d >= 1 ==> d * m >= m
    ensures d <= -1 ==> d * m <= 0 - m
  {
  }

  lemma {:induction false} AlignedIsMod(p: nat, k: nat)
    ensures Aligned(p, k) <==> p % Pow2(k) == 0
  {
    if k > 0 {
      AlignedIsMod(p / 2, k - 1);
      ModHalves(p, Pow2(k - 1));
    }
  }

  lemma {:induction false} AlignedZero(k: nat)
    ensures Aligned(0, k)
  {
    if k > 0 { AlignedZero(k - 1); }
  }

  lemma {:induction false} AlignedWeaken(p: nat, a: nat, b: nat)
    requires Aligned(p, b) && a <= b
    ensures Aligned(p, a)
  {
    if a > 0 { AlignedWeaken(p / 2, a - 1, b - 1); }
  }

  /** Two distinct multiples of `Pow2(a)` are at least `Pow2(a)` apart. */
  lemma {:induction false} AlignedGap(x: nat, y: nat, a: nat)
    requires Aligned(x, a) && Aligned(y, a) && x < y
    ensures x + Pow2(a) <= y
  {
    if a > 0 { AlignedGap(x / 2, y / 2, a - 1); }
  }

  lemma {:induction false} AlignedShift(x: nat, a: nat)
    requires Aligned(x, a)
    ensures Aligned(x + Pow2(a), a)
    ensures Aligned(x, a + 1) <==> !Aligned(x + Pow2(a), a + 1)
    ensures !Aligned(x, a + 1) ==> x >= Pow2(a) && Aligned(x - Pow2(a), a + 1)
  {
    if a > 0 { AlignedShift(x / 2, a - 1); }
  }

  lemma {:induction false} AlignedSum(x: nat, y: nat, a: nat)
    requires Aligned(x, a)
    ensures Aligned(x + y, a) <==> Aligned(y, a)
  {
    if a > 0 && y % 2 == 0 {
      AlignedSum(x / 2, y / 2, a - 1);
      assert (x + y) / 2 == x / 2 + y / 2;
    }
  }

  /** A coarse block that contains the start of a finer aligned block contains all of it. */
  lemma Nested(h: nat, b: nat, q: nat, a: nat)
    requires Aligned(h, b) && Aligned(q, a) && a <= b && h <= q < h + Pow2(b)
    ensures q + Pow2(a) <= h + Pow2(b)
  {
  }

  lemma {:induction false} Pow2Monotone(a: nat, b: nat)
    requires a <= b
    ensures Pow2(a) <= Pow2(b)
    ensures a < b ==> 2 * Pow2(a) <= Pow2(b)
  {
    if a < b { Pow2Monotone(a, b - 1); }
  }

  /** Rounding down to a multiple of `Pow2(k)`. */
  function RoundDown(p: nat, k: nat): nat {
    ModAtMost(p, Pow2(k));
    p - p % Pow2(k)
  }

  lemma ModAtMost(p: nat, m: nat)
    requires m > 0
    ensures p % m <= p
    ensures p - p % m == (p / m) * m
  {
  }

  lemma RoundDownIs(p: nat, k: nat)
    ensures RoundDown(p, k) <= p < RoundDown(p, k) + Pow2(k)
    ensures Aligned(RoundDown(p, k), k)
  {
    var m := Pow2(k);
    ModAtMost(p, m);
    ModUnique(RoundDown(p, k), m, p / m, 0);
    AlignedIsMod(RoundDown(p, k), k);
  }

  lemma RoundDownUnique(p: nat, k: nat, h: nat)
    requires Aligned(h, k) && h <= p < h + Pow2(k)
    ensures h == RoundDown(p, k)
  {
    RoundDownIs(p, k);
    var r := RoundDown(p, k);
    if h < r { AlignedGap(h, r, k); }
    if r < h { AlignedGap(r, h, k); }
  }

  /** Bitwise exclusive or. */
  function Xor(a: nat, b: nat): nat
    decreases a + b
  {
    if a == 0 && b == 0 then 0
    else 2 * Xor(a / 2, b / 2) + (a % 2 + b % 2) % 2
  }

  lemma {:induction false} XorZero(a: nat)
    ensures Xor(a, 0) == a
  {
    if a > 0 { XorZero(a / 2); }
  }

  lemma XorOne(p: nat)
    ensures Xor(p, 1) == if p % 2 == 0 then p + 1 else p - 1
  {
    XorZero(p / 2);
    assert Xor(p, 1) == 2 * Xor(p / 2, 0) + (p % 2 + 1) % 2;
  }

  /** Flipping bit `k` of a multiple of `Pow2(k)` moves to the other half of the enclosing
      block of order `k + 1`. */
  lemma {:induction false} XorFlip(p: nat, k: nat)
    requires Aligned(p, k)
    ensures Aligned(p, k + 1) ==> Xor(p, Pow2(k)) == p + Pow2(k)
    ensures !Aligned(p, k + 1) ==> p >= Pow2(k) && Xor(p, Pow2(k)) == p - Pow2(k)
  {
    if k == 0 {
      XorOne(p);
      assert Pow2(0) == 1 && (Aligned(p, 1) <==> p % 2 == 0 && Aligned(p / 2, 0));
    } else {
      XorFlip(p / 2, k - 1);
      assert Xor(p, Pow2(k)) == 2 * Xor(p / 2, Pow2(k - 1));
    }
  }

  /** Bitwise or. */
  function Or(a: nat, b: nat): nat
    decreases a + b
  {
    if a == 0 && b == 0 then 0
    else 2 * Or(a / 2, b / 2) + (if a % 2 == 1 || b % 2 == 1 then 1 else 0)
  }

  lemma {:induction false} OrZero(a: nat)
    ensures Or(a, 0) == a
  {
    if a > 0 { OrZero(a / 2); }
  }

  /** Or-ing into the `k` low zero bits is addition. */
  lemma {:induction false} OrLow(a: nat, b: nat, k: nat)
    requires b < Pow2(k)
    ensures Or(a * Pow2(k), b) == a * Pow2(k) + b
  {
    if k == 0 {
      OrZero(a);
    } else {
      var m := a * Pow2(k - 1);
      assert a * Pow2(k) == 2 * m;
      OrLow(a, b / 2, k - 1);
    }
  }

  /** `a & ~b`: the binary digits of `a` where `b` has a zero. */
  function AndNot(a: nat, b: nat): nat
    decreases a
  {
    if a == 0 then 0
    else 2 * AndNot(a / 2, b / 2) + (if a % 2 == 1 && b % 2 == 0 then 1 else 0)
  }

  /** Clearing the low `k` bits rounds down to a multiple of `Pow2(k)`. */
  lemma {:induction false} AndNotMask(a: nat, k: nat)
    ensures AndNot(a, Pow2(k) - 1) == RoundDown(a, k)
  {
    hide RoundDown, AndNot;
    RoundDownBase(a, k);
    if a == 0 {
      assert AndNot(0, Pow2(k) - 1) == 0 by { AndNotBase(Pow2(k) - 1); }
    } else if k == 0 {
      AndNotZero(a);
    } else {
      OddMask(a, Pow2(k - 1) - 1);
      AndNotMask(a / 2, k - 1);
      RoundDownHalves(a, k);
    }
  }

  lemma RoundDownBase(a: nat, k: nat)
    ensures RoundDown(0, k) == 0 && RoundDown(a, 0) == a
  {
    hide RoundDown;
    RoundDownIs(0, k);
    RoundDownUnique(a, 0, a);
  }

  lemma AndNotBase(b: nat)
    ensures AndNot(0, b) == 0
  {
  }

  lemma OddMask(a: nat, m: nat)
    ensures AndNot(a, 2 * m + 1) == 2 * AndNot(a / 2, m)
  {
    assert (2 * m + 1) / 2 == m && (2 * m + 1) % 2 == 1;
  }

  lemma RoundDownHalves(a: nat, k: nat)
    requires k > 0
    ensures RoundDown(a, k) == 2 * RoundDown(a / 2, k - 1)
  {
    ModHalves(a, Pow2(k - 1));
  }

  lemma {:induction false} AndNotZero(a: nat)
    ensures AndNot(a, 0) == a
  {
    if a > 0 { AndNotZero(a / 2); }
  }

  lemma Powers()
    ensures Pow2(2) == 4 && Pow2(4) == 16 && Pow2(10) == 1024 && Pow2(12) == 4096
  {
  }
}
