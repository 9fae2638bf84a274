/** Facts about natural-number multiplication and division used by the index
    arithmetic of the chunk planner and the splitter ranks. */
module Arithmetic {

  /** Multiplication by a natural number is monotone. */
  lemma MulMonotone(a: nat, b: nat, c: nat)
    requires a <= b
    ensures a * c <= b * c
  {
    assert b * c == a * c + (b - a) * c;
    assert (b - a) * c >= 0;
  }

  /** (a + 1) * c == a * c + c. */
  lemma MulSucc(a: nat, c: nat)
    ensures (a + 1) * c == a * c + c
  {
  }

  /** Euclidean division brackets k between consecutive multiples of c. */
  lemma DivBrackets(k: nat, c: nat)
    requires c > 0
    ensures (k / c) * c <= k < (k / c + 1) * c
  {
    assert k == (k / c) * c + k % c;
    MulSucc(k / c, c);
  }

  /** p copies of n / p fit in n. */
  lemma DivTimesAtMost(n: nat, p: nat)
    requires p > 0
    ensures p * (n / p) <= n
  {
    assert n == p * (n / p) + n % p;
  }
}
