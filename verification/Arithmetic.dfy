/** The few facts about products and quotients of reals that the other modules lean on. */
module Arithmetic {

  function Abs(x: real): real {
    if x < 0.0 then -x else x
  }

  function Min(x: real, y: real): real {
    if x <= y then x else y
  }

  function Max(x: real, y: real): real {
    if x <= y then y else x
  }

  lemma MulNonNeg(x: real, y: real)
    requires x >= 0.0 && y >= 0.0
    ensures x * y >= 0.0
  {
  }

  lemma MulMono(x: real, y: real, z: real)
    requires x <= y && z >= 0.0
    ensures x * z <= y * z
  {
    MulNonNeg(y - x, z);
    assert (y - x) * z == y * z - x * z;
  }

  /** A weighted mix lies between its ends. */
  lemma MixBetween(a: real, b: real, t: real)
    requires 0.0 <= t <= 1.0
    ensures Min(a, b) <= a + (b - a) * t <= Max(a, b)
  {
    if a <= b {
      MulNonNeg(b - a, t);
      MulNonNeg(b - a, 1.0 - t);
      assert (b - a) * (1.0 - t) == (b - a) - (b - a) * t;
    } else {
      MulNonNeg(a - b, t);
      MulNonNeg(a - b, 1.0 - t);
      assert (a - b) * (1.0 - t) == (a - b) - (a - b) * t;
      assert (b - a) * t == -((a - b) * t);
    }
  }
}
