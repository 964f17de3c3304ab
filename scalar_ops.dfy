/**
 The scalar layer of the operators prelude: elementary operators of one or
 two real numbers, and the derivative-weighted ("backward") helpers used by
 reverse-mode differentiation. Every scalar is a mathematical `real`; the
 floating-point behaviour of the original (rounding, overflow, NaN, signed
 zero) is not modelled.
 */
module ScalarOps {

  /** The small shift the logarithm adds to its argument to stay defined at 0. */
  const EPS: real := 0.000001

  /** Tolerance of `IsClose`. */
  const TOLERANCE: real := 0.01

  /** A comparison result used as a number: true is 1.0 and false is 0.0. */
  function BoolAsReal(b: bool): (r: real)
    ensures r == 1.0 <==> b
    ensures r == 0.0 <==> !b
  {
    if b then 1.0 else 0.0
  }

  /** f(x, y) = x * y */
  function Mul(x: real, y: real): (r: real)
  {
    x * y
  }

  /** f(x) = x */
  function Id(x: real): (r: real)
  {
    x
  }

  /** f(x, y) = x + y */
  function Add(x: real, y: real): (r: real)
  {
    x + y
  }

  /** f(x) = -x */
  function Neg(x: real): (r: real)
  {
    -x
  }

  /** 1.0 when x is less than y, else 0.0. */
  function Lt(x: real, y: real): (r: real)
    ensures r == 1.0 <==> x < y
    ensures r == 0.0 <==> y <= x
  {
    BoolAsReal(x < y)
  }

  /** 1.0 when x equals y, else 0.0. */
  function Eq(x: real, y: real): (r: real)
    ensures r == 1.0 <==> x == y
    ensures r == 0.0 <==> x != y
  {
    BoolAsReal(x == y)
  }

  /** x when x is greater than y, else y (so a tie returns y). */
  function Max(x: real, y: real): (r: real)
    ensures r == x || r == y
    ensures r >= x && r >= y
    ensures y < x ==> r == x
  {
    if x > y then x else y
  }

  function Abs(x: real): (r: real)
    ensures r >= 0.0
    ensures r == x || r == -x
  {
    if x < 0.0 then -x else x
  }

  /** The two values lie strictly within `TOLERANCE` of each other. */
  function IsClose(x: real, y: real): (r: bool)
    ensures r <==> x - TOLERANCE < y < x + TOLERANCE
  {
    Abs(x - y) < TOLERANCE
  }

  /** x when x is positive, else 0: the rectifier, computed as Max(x, 0). */
  function Relu(x: real): (r: real)
    ensures r >= 0.0
    ensures 0.0 < x ==> r == x
    ensures x <= 0.0 ==> r == 0.0
  {
    Max(x, 0.0)
  }

  /** f(x) = 1 / x; the original raises a division error at 0. */
  function Inv(x: real): (r: real)
    requires x != 0.0
    ensures r * x == 1.0
    ensures r != 0.0
  {
    1.0 / x
  }

  /**
   d times the derivative of the logarithm, computed as Inv(x) * d. It uses
   1/x, not the 1/(x + EPS) that the EPS shift of the logarithm would give.
   */
  function LogBack(x: real, d: real): (r: real)
    requires x != 0.0
    ensures r * x == d
  {
    Mul(Inv(x), d)
  }

  /** d times the derivative of 1/x, computed as -(Inv(x) ** 2) * d. */
  function InvBack(x: real, d: real): (r: real)
    requires x != 0.0
    ensures r * (x * x) == -d
  {
    Mul(Neg(Inv(x) * Inv(x)), d)
  }

  /** d times the derivative of the rectifier: d when x is positive, else 0. */
  function ReluBack(x: real, d: real): (r: real)
  {
    if x > 0.0 then d else 0.0
  }

  // ---------------------------------------------------------------------
  // Laws of the scalar operators

  /** Neg is an involution and gives the additive inverse. */
  lemma NegLaws(x: real)
    ensures Neg(Neg(x)) == x
    ensures Add(x, Neg(x)) == 0.0
    ensures Neg(x) == Mul(-1.0, x)
  {
  }

  /** IsClose is reflexive and symmetric. */
  lemma IsCloseLaws(x: real, y: real)
    ensures IsClose(x, x)
    ensures IsClose(x, y) == IsClose(y, x)
  {
  }

  /** Inv undoes itself, so Inv(Inv(x)) is close to x. */
  lemma InvInvolution(x: real)
    requires x != 0.0
    ensures Inv(Inv(x)) == x
    ensures IsClose(Inv(Inv(x)), x)
  {
    var y := Inv(x);
    assert y * x == 1.0;
    assert Inv(y) * y == 1.0;
    calc {
      Inv(y);
    ==  Inv(y) * (y * x);
    ==  (Inv(y) * y) * x;
    ==  x;
    }
  }

  /** LogBack(x, d) is d / x and, for d != 0, not d / (x + EPS). */
  lemma LogBackIsUnshifted(x: real, d: real)
    requires x != 0.0 && x + EPS != 0.0
    ensures LogBack(x, d) == d / x
    ensures d != 0.0 ==> LogBack(x, d) != d / (x + EPS)
  {
    var r := LogBack(x, d);
    assert r * (x + EPS) == d + r * EPS;
    if d != 0.0 {
      assert r != 0.0;
      assert r * (x + EPS) != d;
    }
  }

  /**
   InvBack is the derivative of Inv: the change of Inv over a step t differs
   from InvBack(x, t) by a term of second order in t.
   */
  lemma InvBackIsDerivative(x: real, t: real)
    requires x != 0.0 && x + t != 0.0
    ensures Inv(x + t) - Inv(x) - InvBack(x, t) == t * t * Inv(x) * Inv(x) * Inv(x + t)
  {
    var a, b := Inv(x), Inv(x + t);
    assert a * x == 1.0 && b * (x + t) == 1.0;
    assert InvBack(x, t) == -(a * a) * t;
    // b - a == (1 - a (x + t)) b == -t a b
    assert b - a == -t * a * b by {
      calc {
        b - a;
      ==  b - a * (b * (x + t));
      ==  b * (1.0 - a * (x + t));
      ==  b * (1.0 - a * x - a * t);
      ==  -t * a * b;
      }
    }
    // -t a b + t a a == t a (a - b) == t a (t a b)
    calc {
      b - a - InvBack(x, t);
    ==  -t * a * b + a * a * t;
    ==  t * a * (a - b);
    ==  t * a * (t * a * b);
    ==  t * t * a * a * b;
    }
  }

  /**
   ReluBack weights d by the slope of Relu at x: the slope is Lt(0, x), Relu
   is that slope times x, and within distance |x| of a non-zero x the change
   of Relu over a step t is exactly ReluBack(x, t).
   */
  lemma ReluBackIsSlope(x: real, d: real, t: real)
    ensures ReluBack(x, d) == Mul(d, Lt(0.0, x))
    ensures Relu(x) == Mul(x, ReluBack(x, 1.0))
    ensures x != 0.0 && Abs(t) < Abs(x) ==> Relu(x + t) == Relu(x) + ReluBack(x, t)
  {
    if x > 0.0 {
      assert Lt(0.0, x) == 1.0;
    } else {
      assert Lt(0.0, x) == 0.0;
    }
  }
}
