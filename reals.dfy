/**
 * Small facts about real products and quotients. Each is stated over plain
 * variables so that the larger proofs can cite it instead of asking the
 * solver for non-linear reasoning in a crowded context.
 */
module Reals {

  lemma MulPos(x: real, y: real)
    requires x > 0.0 && y > 0.0
    ensures x * y > 0.0
  {
  }

  lemma MulNonNeg(x: real, y: real)
    requires x >= 0.0 && y >= 0.0
    ensures x * y >= 0.0
  {
  }

  /** A real square is never negative. */
  lemma SquareNonNeg(x: real)
    ensures x * x >= 0.0
  {
    if x >= 0.0 {
      MulNonNeg(x, x);
    } else {
      MulNonNeg(-x, -x);
      assert (-x) * (-x) == x * x;
    }
  }

  /** The square of a non-zero real is positive. */
  lemma SquarePos(x: real)
    requires x != 0.0
    ensures x * x > 0.0
  {
    if x > 0.0 {
      MulPos(x, x);
    } else {
      MulPos(-x, -x);
      assert (-x) * (-x) == x * x;
    }
  }

  lemma SumSquaresNonNeg(x: real, y: real, z: real)
    ensures x * x + y * y + z * z >= 0.0
  {
    SquareNonNeg(x);
    SquareNonNeg(y);
    SquareNonNeg(z);
  }

  lemma SumSquaresPos(x: real, y: real, z: real)
    requires x != 0.0 || y != 0.0 || z != 0.0
    ensures x * x + y * y + z * z > 0.0
  {
    SquareNonNeg(x);
    SquareNonNeg(y);
    SquareNonNeg(z);
    if x != 0.0 {
      SquarePos(x);
    } else if y != 0.0 {
      SquarePos(y);
    } else {
      SquarePos(z);
    }
  }

  lemma DiffSquares(a: real, b: real)
    ensures b * b - a * a == (b - a) * (b + a)
  {
  }

  /** Squaring is strictly increasing on the non-negative reals. */
  lemma SquareMonotone(a: real, b: real)
    requires 0.0 <= a < b
    ensures a * a < b * b
  {
    DiffSquares(a, b);
    MulPos(b - a, b + a);
  }

  /** A product of non-zero reals is non-zero. */
  lemma NonZeroProduct(a: real, b: real)
    requires a != 0.0 && b != 0.0
    ensures a * b != 0.0
  {
  }

  lemma MulZero(a: real, z: real)
    requires z == 0.0
    ensures a * z == 0.0
  {
  }

  /** A non-zero factor can be cancelled. */
  lemma CancelRight(x: real, y: real, n: real)
    requires n != 0.0
    requires x * n == y * n
    ensures x == y
  {
    assert (x - y) * n == x * n - y * n;
    if x != y {
      NonZeroProduct(x - y, n);
    }
  }

  lemma DivMul(a: real, s: real)
    requires s != 0.0
    ensures a / s * s == a
  {
  }

  /** A common non-zero factor of two weighted sums can be cancelled. */
  lemma CancelCommonFactor(m: real, a: real, b: real, c: real, d: real)
    requires m != 0.0
    requires m * a + m * b == m * c + m * d
    ensures a + b == c + d
  {
    assert (a + b) * m == m * a + m * b;
    assert (c + d) * m == m * c + m * d;
    CancelRight(a + b, c + d, m);
  }

  lemma NegTimesPos(x: real, y: real)
    requires x < 0.0 && y > 0.0
    ensures x * y < 0.0
  {
    MulPos(-x, y);
    assert (-x) * y == -(x * y);
  }

  lemma NegSquare(x: real)
    ensures (-x) * (-x) == x * x
  {
  }

  lemma DivNonNeg(a: real, s: real)
    requires a >= 0.0 && s > 0.0
    ensures a / s >= 0.0
  {
  }

  lemma DivMonotone(a: real, b: real, s: real)
    requires a <= b && s > 0.0
    ensures a / s <= b / s
  {
  }
}
