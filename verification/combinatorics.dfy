/** The `combination` and `permutation` helpers, in exact integer arithmetic. */
module Combinatorics {

  /** n (n-1) ... (n-r+1) */
  function FallingFactorial(n: int, r: nat): int
    decreases r
  {
    if r == 0 then 1 else n * FallingFactorial(n - 1, r - 1)
  }

  function Factorial(r: nat): (f: nat)
    ensures f >= 1
  {
    if r == 0 then 1 else r * Factorial(r - 1)
  }

  /** Number of ordered choices of r items out of n. */
  function Permutation(n: int, r: int): int {
    if r > n || r < 0 then 0 else FallingFactorial(n, r)
  }

  /** Number of unordered choices of r items out of n; the product of the source's
      loop `∏ (n-i)/(i+1)` equals FallingFactorial(n, r) / r! exactly. */
  function Combination(n: int, r: int): int {
    if r > n || r < 0 then 0
    else if r == 0 || r == n then 1
    else FallingFactorial(n, r) / Factorial(r)
  }

  lemma {:induction false} SmallFactorials(n: int)
    ensures FallingFactorial(n, 1) == n
    ensures FallingFactorial(n, 2) == n * (n - 1)
    ensures FallingFactorial(n, 3) == n * (n - 1) * (n - 2)
    ensures Factorial(1) == 1 && Factorial(2) == 2 && Factorial(3) == 6
  {
    assert FallingFactorial(n - 2, 1) == n - 2 by {
      assert FallingFactorial(n - 3, 0) == 1;
    }
    assert FallingFactorial(n - 1, 1) == n - 1 by {
      assert FallingFactorial(n - 2, 0) == 1;
    }
    assert FallingFactorial(n, 1) == n by {
      assert FallingFactorial(n - 1, 0) == 1;
    }
    assert FallingFactorial(n - 1, 2) == (n - 1) * (n - 2);
    assert FallingFactorial(n, 2) == n * (n - 1);
    assert FallingFactorial(n, 3) == n * ((n - 1) * (n - 2));
  }

  /** Choosing one of n (n >= 0) leaves n choices, ordered or not. */
  lemma ChooseOne(n: nat)
    ensures Combination(n, 1) == n && Permutation(n, 1) == n
  {
    SmallFactorials(n);
  }

  /** Two of n: n(n-1) ordered, half of that unordered. */
  lemma ChooseTwo(n: nat, pairs: int)
    requires 2 * pairs == n * (n - 1)
    ensures Permutation(n, 2) == n * (n - 1)
    ensures Combination(n, 2) == pairs
  {
    SmallFactorials(n);
  }

  /** Three of n: n(n-1)(n-2) ordered, a sixth of that unordered. */
  lemma ChooseThree(n: nat, trios: int)
    requires 6 * trios == n * (n - 1) * (n - 2)
    ensures Permutation(n, 3) == n * (n - 1) * (n - 2)
    ensures Combination(n, 3) == trios
  {
    SmallFactorials(n);
    if n < 3 {
      assert n * (n - 1) * (n - 2) == 0 by {
        assert n == 0 || n - 1 == 0 || n - 2 == 0;
      }
    }
  }
}
