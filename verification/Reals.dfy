/** Real arithmetic shared by the models: absolute value and the C cast from double to long. */
module Reals {

  function Abs(x: real): (y: real)
    ensures y >= 0.0 && (y == x || y == -x)
  {
    if x < 0.0 then -x else x
  }

  /** Truncation toward zero. */
  function Trunc(x: real): (n: int)
    ensures x >= 0.0 ==> 0.0 <= n as real <= x < n as real + 1.0
    ensures x <= 0.0 ==> n as real - 1.0 < x <= n as real <= 0.0
  {
    if x >= 0.0 then x.Floor else -(-x).Floor
  }

  lemma ProductZero(p: real, d: real, e: real)
    requires e == p * d
    ensures e == 0.0 <==> p == 0.0 || d == 0.0
  {}

  lemma MulPositive(x: real, y: real)
    requires x > 0.0 && y > 0.0
    ensures x * y > 0.0
  {}

  lemma MulNonNegative(x: real, y: real)
    requires x >= 0.0 && y >= 0.0
    ensures x * y >= 0.0
  {}

  /** Names a square, so that later steps need not look inside it. */
  lemma Square(x: real) returns (s: real)
    ensures s == x * x && s >= 0.0
    ensures s == 0.0 <==> x == 0.0
  {
    s := x * x;
    ProductZero(x, x, s);
  }
}
