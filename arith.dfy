/** Sign facts about real products that the solver does not find alone. */
module Arith {

  /** Multiplying by a positive factor keeps the sign. */
  lemma ScaleSign(a: real, n: real)
    requires n > 0.0
    ensures a > 0.0 ==> a * n > 0.0
    ensures a >= 0.0 ==> a * n >= 0.0
    ensures a < 0.0 ==> a * n < 0.0
  {
  }
}
