/**
 * Real multiplication behind named functions.
 *
 * The model writes every product as `Mul(a, b)` and every square as `Square(a)`, and uses the
 * lemmas here for their sign facts, so that products of compound terms stay single terms.
 */
module Reals {

  function Mul(a: real, b: real): real
  {
    a * b
  }

  function Square(a: real): real
  {
    Mul(a, a)
  }

  function Abs(a: real): real
  {
    if a < 0.0 then -a else a
  }

  lemma MulSigns(a: real, b: real)
    ensures (a > 0.0 && b > 0.0) || (a < 0.0 && b < 0.0) ==> Mul(a, b) > 0.0
    ensures (a > 0.0 && b < 0.0) || (a < 0.0 && b > 0.0) ==> Mul(a, b) < 0.0
    ensures a == 0.0 || b == 0.0 ==> Mul(a, b) == 0.0
    ensures Mul(a, b) == Mul(b, a)
    ensures Mul(-a, -b) == Mul(a, b)
    ensures Mul(-a, b) == -Mul(a, b)
  {
    if a > 0.0 && b > 0.0 {
      assert a * b > 0.0;
    } else if a < 0.0 && b < 0.0 {
      assert (-a) * (-b) > 0.0;
    } else if a > 0.0 && b < 0.0 {
      assert a * (-b) > 0.0;
    } else if a < 0.0 && b > 0.0 {
      assert (-a) * b > 0.0;
    }
    assert (-a) * (-b) == a * b;
    assert (-a) * b == -(a * b);
    assert a * (-b) == -(a * b);
  }

  lemma SquareFacts(a: real)
    ensures Square(a) >= 0.0
    ensures Square(a) == 0.0 <==> a == 0.0
    ensures Square(-a) == Square(a)
  {
    MulSigns(a, a);
  }

  lemma SquareOfDifference(a: real, b: real)
    ensures Square(a - b) == Square(b - a)
  {
    SquareFacts(a - b);
    assert b - a == -(a - b);
  }

  lemma DiffOfSquares(a: real, b: real)
    ensures Mul(a - b, a + b) == Square(a) - Square(b)
  {
  }

  lemma SquareOfProduct(a: real, b: real)
    ensures Mul(Square(a), Square(b)) == Square(Mul(a, b))
  {
  }

  lemma DivideThenMultiply(a: real, s: real)
    requires s != 0.0
    ensures Mul(a / s, s) == a
  {
  }

  lemma AbsSquare(a: real)
    ensures Abs(a) >= 0.0
    ensures Square(Abs(a)) == Square(a)
  {
    SquareFacts(a);
  }

  /** On non-negative reals, squaring preserves and reflects the strict order. */
  lemma SquareMonotone(u: real, v: real)
    requires u >= 0.0 && v >= 0.0
    ensures u < v <==> Square(u) < Square(v)
  {
    DiffOfSquares(v, u);
    MulSigns(v - u, v + u);
  }

  /** Multiplying by a positive factor preserves and reflects the strict order. */
  lemma MulMonotone(a: real, b: real, s: real)
    requires s > 0.0
    ensures a < b <==> Mul(a, s) < Mul(b, s)
  {
    MulSigns(b - a, s);
    assert Mul(b - a, s) == Mul(b, s) - Mul(a, s);
  }

  /** Multiplication distributes over addition and subtraction, on either side. */
  lemma Distributes(a: real, b: real, c: real)
    ensures Mul(a, b + c) == Mul(a, b) + Mul(a, c)
    ensures Mul(a + b, c) == Mul(a, c) + Mul(b, c)
    ensures Mul(a, b - c) == Mul(a, b) - Mul(a, c)
    ensures Mul(a - b, c) == Mul(a, c) - Mul(b, c)
  {
  }

  /** Factors of a product of three can be regrouped and reordered. */
  lemma Regroup(a: real, b: real, c: real)
    ensures Mul(a, Mul(b, c)) == Mul(b, Mul(a, c))
    ensures Mul(Mul(a, b), c) == Mul(a, Mul(b, c))
  {
  }
}
