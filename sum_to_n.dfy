/** Three ways of computing 1 + 2 + ... + n (problem 4): a counting loop,
    the closed formula n(n+1)/2 and plain recursion.  `n` is an unbounded
    integer; the loss of precision of JavaScript numbers beyond 2^53 and
    non-integer arguments are not modelled. */
module SumToN {

  /** The recursive implementation: 0 for every n <= 0, else n plus the sum below n. */
  function SumToNRecursion(n: int): (r: int)
    decreases if n <= 0 then 0 else n
    ensures n <= 0 ==> r == 0
    ensures r >= 0
    ensures n > 0 ==> r >= n
  {
    if n <= 0 then 0 else n + SumToNRecursion(n - 1)
  }

  /** The closed formula.  The product of two consecutive integers is even,
      so the division by two is exact for every integer n. */
  function SumToNFormula(n: int): (r: int)
    ensures 2 * r == n * (n + 1)
  {
    ProductOfConsecutiveIsEven(n);
    (n * (n + 1)) / 2
  }

  lemma {:induction false} ProductOfConsecutiveIsEven(n: int)
    ensures (n * (n + 1)) % 2 == 0
  {
    var k := n / 2;
    if n % 2 == 0 {
      assert n == 2 * k;
      var m := k * (n + 1);
      assert n * (n + 1) == 2 * m;
    } else {
      assert n + 1 == 2 * (k + 1);
      var m := n * (k + 1);
      assert n * (n + 1) == 2 * m;
    }
  }

  /** The loop: `sum` holds 1 + ... + (i - 1) at every loop head. */
  method SumToNLoop(n: int) returns (sum: int)
    ensures sum == SumToNRecursion(n)
    ensures n <= 0 ==> sum == 0
    ensures n >= 0 ==> 2 * sum == n * (n + 1)
  {
    sum := 0;
    var i := 1;
    while i <= n
      invariant 1 <= i
      invariant n >= 0 ==> i <= n + 1
      invariant n < 0 ==> i == 1
      invariant sum == SumToNRecursion(i - 1)
      invariant 2 * sum == (i - 1) * i
    {
      sum := sum + i;
      i := i + 1;
    }
  }

  /** For n >= 0 the recursion computes n(n+1)/2. */
  lemma {:induction false} RecursionClosedForm(n: int)
    requires n >= 0
    ensures 2 * SumToNRecursion(n) == n * (n + 1)
    ensures SumToNRecursion(n) == SumToNFormula(n)
  {
    if n > 0 {
      RecursionClosedForm(n - 1);
    }
  }

  /** The formula agrees with the recursion (and so with the loop) for every n >= -1. */
  lemma FormulaAgreesFromMinusOne(n: int)
    requires n >= -1
    ensures SumToNFormula(n) == SumToNRecursion(n)
  {
    if n >= 0 {
      RecursionClosedForm(n);
    }
  }

  /** Below -1 the formula is positive while the other two return 0, so the
      three implementations coincide only on n >= -1. */
  lemma FormulaDisagreesBelowMinusOne(n: int)
    requires n <= -2
    ensures SumToNFormula(n) > 0
    ensures SumToNFormula(n) != SumToNRecursion(n)
  {
    assert n * (n + 1) > 0 by {
      assert -n >= 2 && -(n + 1) >= 1;
      assert n * (n + 1) == (-n) * (-(n + 1));
    }
  }
}
