/** Products of reals, kept apart so that proofs need not look into them. */
module Reals {

  function Product(x: real, y: real): real {
    x * y
  }

  lemma SignOfProduct(x: real, y: real)
    ensures x > 0.0 && y > 0.0 ==> Product(x, y) > 0.0
    ensures x < 0.0 && y < 0.0 ==> Product(x, y) > 0.0
    ensures x > 0.0 && y <= 0.0 ==> Product(x, y) <= 0.0
    ensures x == 0.0 ==> Product(x, y) == 0.0
  {
    assert x * y == -x * -y;
  }
}
