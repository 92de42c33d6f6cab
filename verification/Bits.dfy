/** Bitwise or and and on naturals, and what masks of the form 2^n - 1 do. */
module Bits {
  import opened MemConfig

  function Pow2(n: nat): (p: nat)
    ensures p > 0
  {
    if n == 0 then 1 else 2 * Pow2(n - 1)
  }

  function BitOr(x: nat, y: nat): nat {
    if x == 0 && y == 0 then 0 else 2 * BitOr(x / 2, y / 2) + if x % 2 == 1 || y % 2 == 1 then 1 else 0
  }

  function BitAnd(x: nat, y: nat): nat {
    if x == 0 && y == 0 then 0 else 2 * BitAnd(x / 2, y / 2) + if x % 2 == 1 && y % 2 == 1 then 1 else 0
  }

  lemma {:induction false} Pow2Grows(m: nat, n: nat)
    requires m <= n
    ensures Pow2(m) <= Pow2(n)
    decreases n
  {
    if m >= n {
    } else {
      Pow2Grows(m, n - 1);
    }
  }

  lemma {:induction false} RemainderIs(x: nat, p: nat, q: nat, r: nat)
    requires p > 0 && x == q * p + r && r < p
    ensures x % p == r && x / p == q
  {
    QuotientFrom(x, p, q, r);
  }

  lemma {:induction false} HalfOfRemainder(x: nat, p: nat)
    requires p > 0
    ensures x % (2 * p) == 2 * (x / 2 % p) + x % 2
  {
    var q, r := x / 2 / p, x / 2 % p;
    assert x / 2 == q * p + r;
    assert q * (2 * p) == 2 * (q * p);
    RemainderIs(x, 2 * p, q, 2 * r + x % 2);
  }

  lemma {:induction false} AndZero(x: nat)
    ensures BitAnd(x, 0) == 0
  {
    if x == 0 {
    } else {
      AndZero(x / 2);
    }
  }

  lemma {:induction false} AndOddStep(x: nat, p: nat)
    requires p > 0
    ensures BitAnd(x, 2 * p - 1) == 2 * BitAnd(x / 2, p - 1) + x % 2
  {
  }

  /** Masking with 2^n - 1 is the remainder by 2^n. */
  lemma {:induction false} MaskIsRemainder(x: nat, n: nat)
    ensures BitAnd(x, Pow2(n) - 1) == x % Pow2(n)
  {
    hide BitAnd;
    if n == 0 {
      AndZero(x);
    } else {
      AndOddStep(x, Pow2(n - 1));
      MaskIsRemainder(x / 2, n - 1);
      HalfOfRemainder(x, Pow2(n - 1));
    }
  }

  lemma {:induction false} OrZero(x: nat)
    ensures BitOr(x, 0) == x
  {
    if x == 0 {
    } else {
      OrZero(x / 2);
    }
  }

  /** Setting low bits of a multiple of 2^n is adding them. */
  lemma {:induction false} OrIsSum(x: nat, y: nat, n: nat)
    requires x % Pow2(n) == 0 && y < Pow2(n)
    ensures BitOr(x, y) == x + y
  {
    if n == 0 {
      OrZero(x);
    } else {
      HalfOfRemainder(x, Pow2(n - 1));
      OrIsSum(x / 2, y / 2, n - 1);
    }
  }

  /** Setting bits never makes a number smaller, and keeps the low bits set. */
  lemma {:induction false} OrIsLarger(x: nat, y: nat)
    ensures BitOr(x, y) >= x
  {
    if x == 0 && y == 0 {
    } else {
      OrIsLarger(x / 2, y / 2);
    }
  }

  lemma {:induction false} OrIsBounded(x: nat, y: nat, n: nat)
    requires x < Pow2(n) && y < Pow2(n)
    ensures BitOr(x, y) < Pow2(n)
  {
    if n == 0 || (x == 0 && y == 0) {
    } else {
      OrIsBounded(x / 2, y / 2, n - 1);
    }
  }

  ghost predicate IsPowerOfTwo(c: nat) {
    exists n: nat :: Pow2(n) == c
  }

  lemma {:induction false} HalfIsPower(c: nat)
    requires c > 1
    ensures IsPowerOfTwo(c) <==> c % 2 == 0 && IsPowerOfTwo(c / 2)
  {
    if IsPowerOfTwo(c) {
      var n: nat :| Pow2(n) == c;
      assert n > 0 && Pow2(n - 1) == c / 2;
    } else if c % 2 == 0 && IsPowerOfTwo(c / 2) {
      var n: nat :| Pow2(n) == c / 2;
      assert Pow2(n + 1) == c;
    }
  }

  lemma {:induction false} AndSelf(x: nat)
    ensures BitAnd(x, x) == x
  {
    if x == 0 {
    } else {
      AndSelf(x / 2);
    }
  }

  /** The test for a power of two. */
  lemma {:induction false} PowerOfTwoTest(c: nat)
    requires c > 0
    ensures BitAnd(c, c - 1) == 0 <==> IsPowerOfTwo(c)
  {
    if c == 1 {
      assert Pow2(0) == 1;
      AndZero(1);
    } else if c % 2 == 1 {
      HalfIsPower(c);
      assert (c - 1) / 2 == c / 2;
      AndSelf(c / 2);
    } else {
      HalfIsPower(c);
      assert (c - 1) / 2 == c / 2 - 1;
      PowerOfTwoTest(c / 2);
    }
  }
}
