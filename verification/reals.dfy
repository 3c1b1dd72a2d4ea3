/** Arithmetic of reals that several models use. */
module Reals {

  lemma Positive(x: real, y: real)
    requires x > 0.0 && y > 0.0
    ensures x * y > 0.0
  {
  }

  // A product under a name, so that facts about it are found by its factors.
  function Times(x: real, y: real): real {
    x * y
  }

  function Square(x: real): real {
    Times(x, x)
  }

  lemma SquareNotNegative(x: real)
    ensures Square(x) >= 0.0
  {
  }
}
