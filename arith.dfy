/**
 * Facts about products that the length arguments over text replacement
 * need, stated once so that the solver meets them apart from the string
 * reasoning around them.
 */
module Arith {

  lemma MulSucc(k: int, d: int)
    ensures (1 + k) * d == d + k * d
  {
  }

  lemma MulMonotone(k: int, d: int)
    requires k > 0 && d > 0
    ensures k * d >= d
  {
  }

  lemma MulNonZero(k: int, d: int)
    requires k > 0 && d != 0
    ensures k * d != 0
  {
    if d > 0 {
      MulMonotone(k, d);
    } else {
      MulMonotone(k, -d);
      assert k * -d == -(k * d);
    }
  }
}
