/** Shifts, or and and on natural numbers, bit by bit, and the arithmetic they amount to. */
module Bits {

  function Pow2(n: nat): (p: nat)
    ensures p > 0
  {
    if n == 0 then 1 else 2 * Pow2(n - 1)
  }

  lemma Powers()
    ensures Pow2(6) == 0x40 && Pow2(8) == 0x100 && Pow2(12) == 0x1000
    ensures Pow2(16) == 0x1_0000 && Pow2(18) == 0x4_0000 && Pow2(22) == 0x40_0000
  {
    assert Pow2(10) == 0x400 && Pow2(20) == 0x10_0000;
  }

  function Shl(a: nat, k: nat): nat { a * Pow2(k) }

  function Shr(a: nat, k: nat): nat { if k == 0 then a else Shr(a / 2, k - 1) }

  function Or(a: nat, b: nat): nat
    decreases a + b
  {
    if a == 0 && b == 0 then 0 else 2 * Or(a / 2, b / 2) + if a % 2 == 1 || b % 2 == 1 then 1 else 0
  }

  function And(a: nat, b: nat): nat {
    if a == 0 then 0 else 2 * And(a / 2, b / 2) + if a % 2 == 1 && b % 2 == 1 then 1 else 0
  }

  lemma {:induction false} OrZero(a: nat)
    ensures Or(a, 0) == a && Or(0, a) == a
  {
    if a > 0 {
      OrZero(a / 2);
    }
  }

  lemma HalfOfProduct(a: nat, p: nat)
    ensures a * (2 * p) / 2 == a * p && a * (2 * p) % 2 == 0
  {
    assert a * (2 * p) == 2 * (a * p);
  }

  /** Or-ing a number into the bits that a shift has freed adds it. */
  lemma {:induction false} OrIsSum(a: nat, b: nat, k: nat)
    requires b < Pow2(k)
    ensures Or(Shl(a, k), b) == Shl(a, k) + b
  {
    if k == 0 {
      OrZero(a);
    } else {
      HalfOfProduct(a, Pow2(k - 1));
      OrIsSum(a, b / 2, k - 1);
    }
  }

  lemma DivideByDouble(n: nat, p: nat)
    requires p > 0
    ensures n % (2 * p) == 2 * (n / 2 % p) + n % 2 && n / (2 * p) == n / 2 / p
  {
    var h := n / 2;
    var q, r := h / p, h % p;
    assert h == p * q + r;
    assert n == (2 * p) * q + (2 * r + n % 2) by {
      assert n == 2 * h + n % 2 && 2 * (p * q) == (2 * p) * q;
    }
    Remainder(n, 2 * p, q, 2 * r + n % 2);
  }

  lemma Remainder(n: int, d: int, q: int, r: int)
    requires d > 0 && n == d * q + r && 0 <= r < d
    ensures n / d == q && n % d == r
  {
    var e := n / d - q;
    assert n == d * (n / d) + n % d;
    assert d * e == r - n % d by {
      assert d * (n / d - q) == d * (n / d) - d * q;
    }
    assert e >= 1 ==> d * e >= d;
    assert e <= -1 ==> d * e <= -d;
  }

  /** Shifting right divides. */
  lemma {:induction false} ShrIsQuotient(n: nat, k: nat, p: nat)
    requires p == Pow2(k)
    ensures Shr(n, k) == n / p
  {
    if k > 0 {
      ShrIsQuotient(n / 2, k - 1, Pow2(k - 1));
      DivideByDouble(n, Pow2(k - 1));
    }
  }

  /** The low `k` bits of a number. */
  function Low(n: nat, k: nat): nat { if k == 0 then 0 else 2 * Low(n / 2, k - 1) + n % 2 }

  lemma {:induction false} LowIsRemainder(n: nat, k: nat, p: nat)
    requires p == Pow2(k)
    ensures Low(n, k) == n % p
  {
    if k > 0 {
      LowIsRemainder(n / 2, k - 1, Pow2(k - 1));
      DivideByDouble(n, Pow2(k - 1));
    }
  }

  /** And-ing with a mask of `k` ones leaves the low `k` bits. */
  lemma {:induction false} AndIsLow(n: nat, k: nat, mask: nat)
    requires mask + 1 == Pow2(k)
    ensures And(n, mask) == Low(n, k)
  {
    if k > 0 {
      AndIsLow(n / 2, k - 1, mask / 2);
    } else {
      AndZero(n);
    }
  }

  lemma {:induction false} AndZero(n: nat)
    ensures And(n, 0) == 0
  {
    if n > 0 {
      AndZero(n / 2);
    }
  }

  /** And so it is the remainder. */
  lemma AndIsRemainder(n: nat, k: nat, mask: nat)
    requires mask + 1 == Pow2(k)
    ensures And(n, mask) == n % (mask + 1)
  {
    AndIsLow(n, k, mask);
    LowIsRemainder(n, k, mask + 1);
  }
}
