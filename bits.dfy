/** Bitwise AND on non-negative integers and the power-of-two test
    `(ps & (ps-1)) == 0` that the field request constructor relies on. */
module Bits {

  function Pow2(k: nat): (p: nat)
    ensures p >= 1
  {
    if k == 0 then 1 else 2 * Pow2(k - 1)
  }

  /** n is 2^k for some k. */
  ghost predicate IsPowerOfTwo(n: int) {
    exists k: nat :: Pow2(k) == n
  }

  /** C++ `a & b` on non-negative ints, bit by bit from the least significant
      bit up. Every bit of the result is set in both operands, so the result
      is never larger than either. */
  function BitAnd(a: nat, b: nat): (r: nat)
    ensures r <= a && r <= b
    decreases a
  {
    if a == 0 || b == 0 then 0
    else 2 * BitAnd(a / 2, b / 2) + (if a % 2 == 1 && b % 2 == 1 then 1 else 0)
  }

  lemma {:induction false} BitAndSelf(a: nat)
    ensures BitAnd(a, a) == a
    decreases a
  {
    if a > 0 {
      BitAndSelf(a / 2);
    }
  }

  lemma {:induction false} Pow2Even(k: nat)
    ensures k > 0 ==> Pow2(k) % 2 == 0
  {
  }

  /** The test `(n & (n-1)) == 0`, for n at least 1, holds exactly for the
      powers of two. */
  lemma {:induction false} PowerOfTwoTest(n: nat)
    requires n >= 1
    ensures BitAnd(n, n - 1) == 0 <==> IsPowerOfTwo(n)
    decreases n
  {
    if n == 1 {
      assert Pow2(0) == 1;
    } else if n % 2 == 1 {
      var m := n / 2;
      assert BitAnd(n, n - 1) == 2 * BitAnd(m, m);
      BitAndSelf(m);
      forall k: nat ensures Pow2(k) != n {
        Pow2Even(k);
      }
    } else {
      var m := n / 2;
      assert BitAnd(n, n - 1) == 2 * BitAnd(m, m - 1);
      PowerOfTwoTest(m);
      if IsPowerOfTwo(m) {
        var k: nat :| Pow2(k) == m;
        assert Pow2(k + 1) == n;
      }
      if IsPowerOfTwo(n) {
        var k: nat :| Pow2(k) == n;
        assert k > 0;
        assert Pow2(k - 1) == m;
      }
    }
  }
}
