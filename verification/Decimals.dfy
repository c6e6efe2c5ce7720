/** Numbers with finitely many decimals. */
module Decimals {
  predicate IsWhole(x: real) { x == x.Floor as real }

  /** No more than `k` decimals. */
  predicate EndsAfter(x: real, k: nat)
    decreases k
  {
    if k == 0 then IsWhole(x) else EndsAfter(10.0 * x, k - 1)
  }

  ghost predicate IsDecimal(v: real)
  {
    v >= 0.0 && exists k :: EndsAfter(v, k)
  }

  lemma WholeSum(x: real, y: real)
    requires IsWhole(x) && IsWhole(y)
    ensures IsWhole(x + y) && IsWhole(x - y)
  {
    IntegerIsWhole(x.Floor + y.Floor);
    IntegerIsWhole(x.Floor - y.Floor);
  }

  lemma IntegerIsWhole(n: int)
    ensures IsWhole(n as real)
  {
  }

  lemma WholeTimesTen(x: real)
    requires IsWhole(x)
    ensures IsWhole(10.0 * x)
  {
    IntegerIsWhole(10 * x.Floor);
  }

  lemma {:induction false} WholeEnds(x: real, k: nat)
    requires IsWhole(x)
    ensures EndsAfter(x, k)
    decreases k
  {
    if k > 0 {
      WholeTimesTen(x);
      WholeEnds(10.0 * x, k - 1);
    }
  }

  lemma {:induction false} EndsSum(x: real, y: real, k: nat)
    requires EndsAfter(x, k) && EndsAfter(y, k)
    ensures EndsAfter(x + y, k) && EndsAfter(x - y, k)
    decreases k
  {
    if k == 0 {
      WholeSum(x, y);
    } else {
      EndsSum(10.0 * x, 10.0 * y, k - 1);
      assert 10.0 * (x + y) == 10.0 * x + 10.0 * y && 10.0 * (x - y) == 10.0 * x - 10.0 * y;
    }
  }
}
