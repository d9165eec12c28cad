/**
 * `Point2D` of src/geometry.rs at an integer coordinate type: componentwise
 * arithmetic with a scalar, the 90-degree rotations and the `Display` form.
 * Coordinates are unbounded integers. Rust's integer `/` and `%` truncate
 * toward zero, so they are defined here explicitly on top of Dafny's
 * Euclidean ones.
 */
module Geometry {
  import opened Decimal

  /** A point, or a vector from the origin; `Point2D::new(x, y)` is `Point2D(x, y)`. */
  datatype Point2D = Point2D(x: int, y: int)

  // ---------------------------------------------------------------------------
  // Integer division as Rust does it

  /**
   * `a / b` on a Rust integer type: the quotient rounded toward zero. Its
   * multiple of b never overshoots a in size and falls short of a by less
   * than b, which leaves exactly one candidate.
   */
  function TruncDiv(a: int, b: int): (q: int)
    requires b != 0
    ensures Abs(b * q) <= Abs(a) && Abs(a - b * q) < Abs(b)
  {
    EuclideanMultipleBelow(Abs(a), b);
    NegatedFactor(b, Abs(a) / b);
    // For a non-negative dividend the Euclidean quotient already rounds toward zero.
    if a >= 0 then a / b else -((-a) / b)
  }

  /**
   * `a % b` on a Rust integer type: what is left of a after `TruncDiv`,
   * smaller than b in size and with the sign of a.
   */
  function TruncRem(a: int, b: int): (r: int)
    requires b != 0
    ensures a == b * TruncDiv(a, b) + r
    ensures Abs(r) < Abs(b)
    ensures (a >= 0 ==> r >= 0) && (a <= 0 ==> r <= 0)
  {
    EuclideanMultipleBelow(Abs(a), b);
    NegatedFactor(b, Abs(a) / b);
    if a >= 0 then a % b else -((-a) % b)
  }

  function Abs(a: int): nat
  {
    if a < 0 then -a else a
  }

  /** For a non-negative dividend the Euclidean quotient's multiple lies between 0 and the dividend. */
  lemma EuclideanMultipleBelow(n: nat, b: int)
    requires b != 0
    ensures n == b * (n / b) + n % b && 0 <= n % b < Abs(b)
    ensures 0 <= b * (n / b) <= n
  {
    var q, r := n / b, n % b;
    MulAtLeast(b, q);
    assert b * 0 == 0;
  }

  lemma NegatedFactor(b: int, q: int)
    ensures b * -q == -(b * q)
  {
  }

  /** Dividing an exact multiple by a nonzero b gives the factor back, whatever the signs. */
  lemma TruncDivOfMultiple(a: int, b: int)
    ensures b != 0 ==> TruncDiv(a * b, b) == a && TruncRem(a * b, b) == 0
  {
    if b != 0 {
      var q, r := TruncDiv(a * b, b), TruncRem(a * b, b);
      assert b * (a - q) == r by {
        assert a * b == b * q + r;
      }
      MulAtLeast(b, a - q);
    }
  }

  /** A nonzero multiple of `b` is at least `b` in size. */
  lemma MulAtLeast(b: int, c: int)
    ensures c != 0 ==> Abs(b * c) >= Abs(b)
  {
    if c > 0 {
      if b >= 0 { assert b * c >= b * 1; } else { assert b * c <= b * 1; }
    } else if c < 0 {
      if b >= 0 { assert b * c <= b * -1; } else { assert b * c >= b * -1; }
    }
  }

  // ---------------------------------------------------------------------------
  // Operators

  /** `p + q`, with the origin as the unit on either side. */
  function Add(p: Point2D, q: Point2D): (r: Point2D)
    ensures q == Point2D(0, 0) ==> r == p
    ensures p == Point2D(0, 0) ==> r == q
  {
    Point2D(p.x + q.x, p.y + q.y)
  }

  /** `p - q`: adding q back gives p, and the difference is the origin exactly when the points coincide. */
  function Sub(p: Point2D, q: Point2D): (r: Point2D)
    ensures Add(r, q) == p
    ensures r == Point2D(0, 0) <==> p == q
  {
    Point2D(p.x - q.x, p.y - q.y)
  }

  /** `p * s`: dividing by a nonzero s gives p back and leaves nothing over. */
  function Mul(p: Point2D, s: int): (r: Point2D)
    ensures s != 0 ==> Div(r, s) == p && Rem(r, s) == Point2D(0, 0)
  {
    TruncDivOfMultiple(p.x, s);
    TruncDivOfMultiple(p.y, s);
    Point2D(p.x * s, p.y * s)
  }

  /**
   * `p / s`, each coordinate rounded toward zero; Rust panics on a zero
   * divisor. Scaling the quotient back by s and adding `p % s` gives p.
   */
  function Div(p: Point2D, s: int): (r: Point2D)
    requires s != 0
    ensures Add(Point2D(s * r.x, s * r.y), Rem(p, s)) == p
  {
    Point2D(TruncDiv(p.x, s), TruncDiv(p.y, s))
  }

  /**
   * `p % s`; Rust panics on a zero divisor. Each coordinate is smaller than s
   * in size and has the sign of p's.
   */
  function Rem(p: Point2D, s: int): (r: Point2D)
    requires s != 0
    ensures Abs(r.x) < Abs(s) && Abs(r.y) < Abs(s)
    ensures (p.x >= 0 ==> r.x >= 0) && (p.x <= 0 ==> r.x <= 0)
    ensures (p.y >= 0 ==> r.y >= 0) && (p.y <= 0 ==> r.y <= 0)
  {
    Point2D(TruncRem(p.x, s), TruncRem(p.y, s))
  }

  /**
   * `rotcw`: a quarter turn clockwise. The result has p's length, is
   * perpendicular to p, and lies clockwise of it (negative cross product).
   */
  function RotatedCw(p: Point2D): (r: Point2D)
    ensures SquaredLength(r) == SquaredLength(p)
    ensures p.x * r.x + p.y * r.y == 0
    ensures p.x * r.y - p.y * r.x == -SquaredLength(p)
  {
    Point2D(p.y, -p.x)
  }

  /**
   * `rotccw`: a quarter turn counter-clockwise, which a clockwise turn undoes;
   * the result lies counter-clockwise of p (positive cross product).
   */
  function RotatedCcw(p: Point2D): (r: Point2D)
    ensures RotatedCw(r) == p
    ensures p.x * r.y - p.y * r.x == SquaredLength(p)
  {
    Point2D(-p.y, p.x)
  }

  /** The `Display` form "(x, y)": both coordinates' text in parentheses, with ", " between. */
  function Display(p: Point2D): (r: string)
    ensures |r| == |IntToString(p.x)| + |IntToString(p.y)| + 4
    ensures r[0] == '(' && r[|r| - 1] == ')'
  {
    "(" + IntToString(p.x) + ", " + IntToString(p.y) + ")"
  }

  function SquaredLength(p: Point2D): int
  {
    p.x * p.x + p.y * p.y
  }

  // ---------------------------------------------------------------------------
  // Properties

  /** Subtraction undoes addition: `(p + q) - q == p`. */
  lemma SubUndoesAdd(p: Point2D, q: Point2D)
    ensures Sub(Add(p, q), q) == p
    ensures Add(Sub(p, q), q) == p
  {
  }

  /** Addition is commutative and associative, with the origin as unit. */
  lemma AddIsCommutativeMonoid(p: Point2D, q: Point2D, r: Point2D)
    ensures Add(p, q) == Add(q, p)
    ensures Add(Add(p, q), r) == Add(p, Add(q, r))
    ensures Add(p, Point2D(0, 0)) == p
  {
  }

  /**
   * `p / s` and `p % s` split `p`: `(p / s) * s + p % s == p`, each remainder
   * coordinate smaller than `s` in size and with the sign of `p`'s.
   */
  lemma DivRemSplit(p: Point2D, s: int)
    requires s != 0
    ensures Add(Mul(Div(p, s), s), Rem(p, s)) == p
    ensures Abs(Rem(p, s).x) < Abs(s) && Abs(Rem(p, s).y) < Abs(s)
    ensures (p.x >= 0 ==> Rem(p, s).x >= 0) && (p.x <= 0 ==> Rem(p, s).x <= 0)
    ensures (p.y >= 0 ==> Rem(p, s).y >= 0) && (p.y <= 0 ==> Rem(p, s).y <= 0)
  {
    assert TruncDiv(p.x, s) * s == s * TruncDiv(p.x, s);
    assert TruncDiv(p.y, s) * s == s * TruncDiv(p.y, s);
  }

  /** The two rotations undo each other. */
  lemma RotationsAreInverse(p: Point2D)
    ensures RotatedCcw(RotatedCw(p)) == p
    ensures RotatedCw(RotatedCcw(p)) == p
  {
  }

  /** Four clockwise quarter turns give the point back; three give the counter-clockwise turn. */
  lemma RotatedCwFourTimes(p: Point2D)
    ensures RotatedCw(RotatedCw(RotatedCw(RotatedCw(p)))) == p
    ensures RotatedCw(RotatedCw(RotatedCw(p))) == RotatedCcw(p)
  {
  }

  /** Rotation keeps the length and distributes over addition and scaling. */
  lemma RotationIsLinearIsometry(p: Point2D, q: Point2D, s: int)
    ensures SquaredLength(RotatedCw(p)) == SquaredLength(p)
    ensures SquaredLength(RotatedCcw(p)) == SquaredLength(p)
    ensures RotatedCw(Add(p, q)) == Add(RotatedCw(p), RotatedCw(q))
    ensures RotatedCw(Mul(p, s)) == Mul(RotatedCw(p), s)
  {
  }

  /** The examples given with the operators. */
  lemma OperatorExamples()
    ensures Add(Point2D(1, 2), Point2D(1, 2)) == Point2D(2, 4)
    ensures Sub(Point2D(2, 3), Point2D(1, 2)) == Point2D(1, 1)
    ensures Mul(Point2D(1, 2), 2) == Point2D(2, 4)
    ensures Div(Point2D(2, 4), 2) == Point2D(1, 2)
    ensures Rem(Point2D(4, 5), 3) == Point2D(1, 2)
    ensures RotatedCw(Point2D(1, 2)) == Point2D(2, -1)
    ensures RotatedCcw(Point2D(1, 2)) == Point2D(-2, 1)
  {
  }

  /** Rounding toward zero, unlike Dafny's own division: `-7 / 2 == -3` and `-7 % 2 == -1`. */
  lemma TruncationExamples()
    ensures Div(Point2D(-7, 7), 2) == Point2D(-3, 3)
    ensures Rem(Point2D(-7, 7), 2) == Point2D(-1, 1)
    ensures Div(Point2D(-7, 7), -2) == Point2D(3, -3)
    ensures Rem(Point2D(-7, 7), -2) == Point2D(-1, 1)
  {
  }

  // ---------------------------------------------------------------------------
  // The compound assignments and rotations, which update a point in place

  /** A `Point2D` variable, updated through `&mut self`. */
  class PointVar {
    var x: int
    var y: int

    function Value(): Point2D
      reads this
    {
      Point2D(x, y)
    }

    constructor (p: Point2D)
      ensures Value() == p
    {
      x := p.x;
      y := p.y;
    }

    /** `p += q` */
    method AddAssign(q: Point2D)
      modifies this
      ensures Value() == Add(old(Value()), q)
    {
      x, y := x + q.x, y + q.y;
    }

    /** `p -= q` */
    method SubAssign(q: Point2D)
      modifies this
      ensures Value() == Sub(old(Value()), q)
    {
      x, y := x - q.x, y - q.y;
    }

    /** `p *= s` */
    method MulAssign(s: int)
      modifies this
      ensures Value() == Mul(old(Value()), s)
    {
      x, y := x * s, y * s;
    }

    /** `p /= s` */
    method DivAssign(s: int)
      requires s != 0
      modifies this
      ensures Value() == Div(old(Value()), s)
    {
      x, y := TruncDiv(x, s), TruncDiv(y, s);
    }

    /** `p %= s` */
    method RemAssign(s: int)
      requires s != 0
      modifies this
      ensures Value() == Rem(old(Value()), s)
    {
      x, y := TruncRem(x, s), TruncRem(y, s);
    }

    /** `rotcw`: saves `y`, negates `x` into `y`, then moves the saved value into `x`. */
    method RotCw()
      modifies this
      ensures Value() == RotatedCw(old(Value()))
    {
      var saved := y;
      y := -x;
      x := saved;
    }

    /** `rotccw`: saves `x`, negates `y` into `x`, then moves the saved value into `y`. */
    method RotCcw()
      modifies this
      ensures Value() == RotatedCcw(old(Value()))
    {
      var saved := x;
      x := -y;
      y := saved;
    }
  }

  /** The examples given with `+=`: (1, 2) += (3, 4) is (4, 6), and (1, 2) += (1, 2) is (2, 4). */
  method AddAssignExamples() returns (a: Point2D, b: Point2D)
    ensures a == Point2D(4, 6) && b == Point2D(2, 4)
  {
    var p := new PointVar(Point2D(1, 2));
    p.AddAssign(Point2D(3, 4));
    a := p.Value();
    p := new PointVar(Point2D(1, 2));
    p.AddAssign(Point2D(1, 2));
    b := p.Value();
  }

  /** The examples given with `-=` and `/=`: (1, 2) -= (1, 1) is (0, 1), and (2, 4) /= 2 is (1, 2). */
  method SubDivAssignExamples() returns (c: Point2D, d: Point2D)
    ensures c == Point2D(0, 1) && d == Point2D(1, 2)
  {
    var p := new PointVar(Point2D(1, 2));
    p.SubAssign(Point2D(1, 1));
    c := p.Value();
    p := new PointVar(Point2D(2, 4));
    p.DivAssign(2);
    d := p.Value();
  }

  /** The examples given with the rotations: (1, 2) turned clockwise is (2, -1), counter-clockwise (-2, 1). */
  method RotationExamples() returns (e: Point2D, f: Point2D)
    ensures e == Point2D(2, -1) && f == Point2D(-2, 1)
  {
    var p := new PointVar(Point2D(1, 2));
    p.RotCw();
    e := p.Value();
    p := new PointVar(Point2D(1, 2));
    p.RotCcw();
    f := p.Value();
  }
}
