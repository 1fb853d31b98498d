/**
 Lengths and angles of pointer steps, over the reals. The one thing assumed of square roots is
 what makes them square roots; the functions that need one are given it as `root`.
 */
module Geometry {

  type RootFn = real -> real

  ghost predicate IsRoot(root: RootFn) {
    forall x: real :: x >= 0.0 ==> root(x) >= 0.0 && root(x) * root(x) == x
  }

  /** A place on the page, in whole pixels. */
  datatype Spot = Spot(x: int, y: int)

  /** A pointer sample as it is sent: a place, and milliseconds since the sample before it. */
  datatype Point = Point(spot: Spot, dtMs: nat)

  /** A direction and a distance. */
  datatype Vector = Vector(dx: real, dy: real)

  function Between(a: Spot, b: Spot): Vector {
    Vector((b.x - a.x) as real, (b.y - a.y) as real)
  }

  function Dot(u: Vector, v: Vector): real {
    u.dx * v.dx + u.dy * v.dy
  }

  function Length(root: RootFn, v: Vector): real {
    root(Dot(v, v))
  }

  function Dist(root: RootFn, a: Spot, b: Spot): real {
    Length(root, Between(a, b))
  }

  function Clamp(v: real, lo: real, hi: real): real {
    if v > hi then hi else if v < lo then lo else v
  }

  /**
   Whether the angle between two steps exceeds 60 degrees. The arccosine falls as its argument
   grows and is 60 degrees at one half, so the test is on the cosine.
   */
  predicate TurnsSharply(root: RootFn, u: Vector, v: Vector) {
    var m, n := Length(root, u), Length(root, v);
    m != 0.0 && n != 0.0 && CosineBelowHalf(m, n, Dot(u, v))
  }

  predicate CosineBelowHalf(m: real, n: real, d: real)
    requires m != 0.0 && n != 0.0
  {
    ProductNotZero(m, n);
    Clamp(d / (m * n), -1.0, 1.0) < 0.5
  }

  /** The same, from the squares of the lengths and without a division. */
  predicate DotsTurn(d: real, a: real, b: real) {
    d < 0.0 || 4.0 * (d * d) < a * b
  }

  /** Named so that a product known to be positive is known to be so under any other name it has. */
  predicate Positive(x: real) {
    x > 0.0
  }

  lemma PositiveProduct(m: real, n: real)
    requires m > 0.0 && n > 0.0
    ensures Positive(m * n)
  {}

  lemma ProductNotZero(m: real, n: real)
    requires m != 0.0 && n != 0.0
    ensures m * n != 0.0
  {}

  lemma SquareIsNotNegative(x: real)
    ensures x * x >= 0.0
  {}

  lemma SquaresGrow(a: real, b: real)
    requires a > b >= 0.0
    ensures a * a > b * b
  {
    PositiveProduct(a - b, a + b);
    assert (a - b) * (a + b) == a * a - b * b;
  }

  lemma SquaresOrder(a: real, b: real)
    requires b >= 0.0 && a * a <= b * b
    ensures a <= b
  {
    if a > b {
      SquaresGrow(a, b);
    }
  }

  lemma LengthIsRoot(root: RootFn, v: Vector)
    requires IsRoot(root)
    ensures Length(root, v) >= 0.0 && Length(root, v) * Length(root, v) == Dot(v, v)
  {
    SquareIsNotNegative(v.dx);
    SquareIsNotNegative(v.dy);
  }

  lemma CauchySchwarz(u: Vector, v: Vector)
    ensures Dot(u, v) * Dot(u, v) <= Dot(u, u) * Dot(v, v)
  {
    var cross := u.dx * v.dy - u.dy * v.dx;
    SquareIsNotNegative(cross);
    Lagrange(u.dx, u.dy, v.dx, v.dy);
  }

  lemma Lagrange(a: real, b: real, c: real, d: real)
    ensures (a * a + b * b) * (c * c + d * d) == (a * c + b * d) * (a * c + b * d) + (a * d - b * c) * (a * d - b * c)
  {}

  lemma ProductOfSquares(m: real, n: real, a: real, b: real)
    requires m * m == a && n * n == b
    ensures (m * n) * (m * n) == a * b
  {
    calc {
      (m * n) * (m * n);
      (m * m) * (n * n);
      a * b;
    }
  }

  lemma DotIsAtMostTheLengths(root: RootFn, u: Vector, v: Vector)
    requires IsRoot(root)
    ensures Dot(u, v) <= Length(root, u) * Length(root, v)
  {
    var m, n := Length(root, u), Length(root, v);
    LengthIsRoot(root, u);
    LengthIsRoot(root, v);
    CauchySchwarz(u, v);
    ProductOfSquares(m, n, Dot(u, u), Dot(v, v));
    NonNegativeProduct(m, n);
    SquaresOrder(Dot(u, v), m * n);
  }

  lemma NonNegativeProduct(m: real, n: real)
    requires m >= 0.0 && n >= 0.0
    ensures m * n >= 0.0
  {}

  lemma FractionBelowOne(a: real, n: real)
    requires 0.0 <= a < n
    ensures 0.0 <= a / n < 1.0 && (a > 0.0 ==> a / n > 0.0)
  {
    var q := a / n;
    assert q * n == a;
    if q < 0.0 {
      PositiveProduct(-q, n);
    }
    if q >= 1.0 {
      NonNegativeProduct(q - 1.0, n);
    }
  }

  /** A distance in pixels: the root of the squared differences of the coordinates. */
  lemma DistIsEuclidean(root: RootFn, a: Spot, b: Spot)
    requires IsRoot(root)
    ensures Dist(root, a, b) >= 0.0
    ensures Dist(root, a, b) * Dist(root, a, b) == ((b.x - a.x) * (b.x - a.x) + (b.y - a.y) * (b.y - a.y)) as real
  {
    var dx, dy := b.x - a.x, b.y - a.y;
    CastSquare(dx);
    CastSquare(dy);
    LengthIsRoot(root, Between(a, b));
    hide IsRoot, Length;
  }

  lemma CastSquare(n: int)
    ensures (n * n) as real == n as real * n as real
  {}

  /** The straight way is no longer than the way round. */
  lemma TriangleInequality(root: RootFn, a: Spot, b: Spot, c: Spot)
    requires IsRoot(root)
    ensures Dist(root, a, c) <= Dist(root, a, b) + Dist(root, b, c)
  {
    var u, v, w := Between(a, b), Between(b, c), Between(a, c);
    assert w.dx == u.dx + v.dx && w.dy == u.dy + v.dy;
    LengthIsRoot(root, u);
    LengthIsRoot(root, v);
    LengthIsRoot(root, w);
    DotIsAtMostTheLengths(root, u, v);
    var m, n := Length(root, u), Length(root, v);
    SumSquared(u, v, w);
    BinomialSquare(m, n);
    SquaresOrder(Length(root, w), m + n);
  }

  lemma SumSquared(u: Vector, v: Vector, w: Vector)
    requires w.dx == u.dx + v.dx && w.dy == u.dy + v.dy
    ensures Dot(w, w) == Dot(u, u) + Dot(v, v) + 2.0 * Dot(u, v)
  {
    BinomialSquare(u.dx, v.dx);
    BinomialSquare(u.dy, v.dy);
  }

  lemma BinomialSquare(m: real, n: real)
    ensures (m + n) * (m + n) == m * m + n * n + 2.0 * (m * n)
  {}

  /** The turn test needs neither a root nor an angle: it is decided by three dot products. */
  lemma TurnIsExact(root: RootFn, u: Vector, v: Vector)
    requires IsRoot(root)
    ensures TurnsSharply(root, u, v) <==>
      (Dot(u, u) != 0.0 && Dot(v, v) != 0.0
       && (Dot(u, v) < 0.0 || 4.0 * (Dot(u, v) * Dot(u, v)) < Dot(u, u) * Dot(v, v)))
  {
    hide Dot, Length, IsRoot, CosineBelowHalf;
    var m, n := Length(root, u), Length(root, v);
    LengthIsRoot(root, u);
    LengthIsRoot(root, v);
    ZeroRoot(m, Dot(u, u));
    ZeroRoot(n, Dot(v, v));
    if m != 0.0 && n != 0.0 {
      CosineIsExact(m, n, Dot(u, v), Dot(u, u), Dot(v, v));
    }
  }

  lemma ZeroRoot(m: real, a: real)
    requires m >= 0.0 && m * m == a
    ensures m == 0.0 <==> a == 0.0
  {
    if m > 0.0 {
      PositiveProduct(m, m);
      assert Positive(a);
    }
  }

  lemma CosineIsExact(m: real, n: real, d: real, a: real, b: real)
    requires m > 0.0 && n > 0.0 && m * m == a && n * n == b
    ensures CosineBelowHalf(m, n, d) <==> DotsTurn(d, a, b)
  {
    var p := m * n;
    PositiveProduct(m, n);
    ProductOfSquares(m, n, a, b);
    HalfOf(d, p);
    if d >= 0.0 {
      BelowHalf(d, p);
    }
  }

  lemma HalfOf(d: real, p: real)
    requires p > 0.0
    ensures d / p < 0.5 <==> d < 0.5 * p
  {
    var q := d / p;
    assert q * p == d;
    if q < 0.5 {
      PositiveProduct(0.5 - q, p);
    } else if q > 0.5 {
      PositiveProduct(q - 0.5, p);
    }
  }

  lemma BelowHalf(d: real, p: real)
    requires d >= 0.0 && p > 0.0
    ensures d < 0.5 * p <==> 4.0 * (d * d) < p * p
  {
    var e := 2.0 * d;
    assert e * e == 4.0 * (d * d);
    if e < p {
      PositiveProduct(p - e, p + e);
      assert (p - e) * (p + e) == p * p - e * e;
    } else {
      NonNegativeProduct(e - p, e + p);
      assert (e - p) * (e + p) == e * e - p * p;
    }
  }
}
