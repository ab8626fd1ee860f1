/** Products of reals under a name of their own, so that proofs meet nonlinear arithmetic only in
    these lemmas. */
module RealArithmetic {

  function Times(x: real, y: real): real {
    x * y
  }

  lemma Commuted(x: real, y: real)
    ensures Times(x, y) == Times(y, x)
  {
  }

  lemma Distribute(s: real, x: real, y: real)
    ensures Times(s, x + y) == Times(s, x) + Times(s, y)
    ensures Times(s, x - y) == Times(s, x) - Times(s, y)
  {
  }

  lemma NonNegativeProduct(x: real, y: real)
    requires x >= 0.0 && y >= 0.0
    ensures Times(x, y) >= 0.0
  {
  }

  lemma LargerProduct(x: real, y: real, z: real)
    requires x < y && z > 0.0
    ensures Times(x, z) < Times(y, z)
  {
    assert Times(y - x, z) > 0.0;
    assert Times(y, z) == Times(x, z) + Times(y - x, z);
  }

  lemma Associate(x: real, y: real, z: real)
    ensures Times(x, Times(y, z)) == Times(Times(x, y), z)
  {
  }

  lemma TimesZero(x: real)
    ensures Times(x, 0.0) == 0.0 && Times(0.0, x) == 0.0
  {
  }

  lemma NoZeroDivisors(x: real, y: real)
    ensures Times(x, y) == 0.0 <==> x == 0.0 || y == 0.0
  {
  }
}
