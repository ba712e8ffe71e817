// The two vector helpers of util.h that the steering code relies on:
// circles_overlap and truncate. Coordinates are real numbers; the source's
// single-precision rounding is not modelled.
module Util {

  /** A 2D vector (glm::vec2), over the reals. */
  datatype Vec2 = Vec2(x: real, y: real)

  function Sub(a: Vec2, b: Vec2): Vec2 {
    Vec2(a.x - b.x, a.y - b.y)
  }

  function Add(a: Vec2, b: Vec2): Vec2 {
    Vec2(a.x + b.x, a.y + b.y)
  }

  /** Component-wise multiplication by a scalar (glm's `v * k`). */
  function Scale(v: Vec2, k: real): Vec2 {
    Vec2(v.x * k, v.y * k)
  }

  /** Component-wise division by a scalar (glm's `v / k`). */
  function Div(v: Vec2, k: real): Vec2
    requires k != 0.0
  {
    Vec2(v.x / k, v.y / k)
  }

  function Dot(a: Vec2, b: Vec2): real {
    a.x * b.x + a.y * b.y
  }

  /** The z component of the 3D cross product; zero exactly when a and b are parallel. */
  function Cross(a: Vec2, b: Vec2): real {
    a.x * b.y - a.y * b.x
  }

  /** The squared Euclidean length. */
  function LengthSq(v: Vec2): real {
    Dot(v, v)
  }

  /** `len` is the Euclidean length of v, as glm::length computes it. */
  ghost predicate IsLength(len: real, v: Vec2) {
    len >= 0.0 && len * len == LengthSq(v)
  }

  /** The point q lies in the closed disc of radius r around c (for r >= 0). */
  ghost predicate InDisc(q: Vec2, c: Vec2, r: real) {
    LengthSq(Sub(q, c)) <= r * r
  }

  // ---------------------------------------------------------------------------
  // circles_overlap
  // ---------------------------------------------------------------------------

  /** circles_overlap: compares the squared distance of the centres with the
      squared sum of the radii, so touching circles overlap. */
  function CirclesOverlap(p1: Vec2, p2: Vec2, r1: real, r2: real): bool {
    var dx := p2.x - p1.x;
    var dy := p2.y - p1.y;
    var distSqrd := dx * dx + dy * dy;
    var sqrdRadii := (r1 + r2) * (r1 + r2);
    distSqrd <= sqrdRadii
  }

  /** The test is the squared-distance comparison, and it is symmetric in the two circles. */
  lemma CirclesOverlapMeaning(p1: Vec2, p2: Vec2, r1: real, r2: real)
    ensures CirclesOverlap(p1, p2, r1, r2) <==> LengthSq(Sub(p2, p1)) <= (r1 + r2) * (r1 + r2)
    ensures CirclesOverlap(p1, p2, r1, r2) == CirclesOverlap(p2, p1, r2, r1)
  {
    var dx, dy := p2.x - p1.x, p2.y - p1.y;
    assert (p1.x - p2.x) * (p1.x - p2.x) == dx * dx;
    assert (p1.y - p2.y) * (p1.y - p2.y) == dy * dy;
    assert (r2 + r1) * (r2 + r1) == (r1 + r2) * (r1 + r2);
  }

  /** Circles whose centres are exactly r1 + r2 apart (touching) count as overlapping. */
  lemma TouchingCirclesOverlap(p1: Vec2, p2: Vec2, r1: real, r2: real)
    requires LengthSq(Sub(p2, p1)) == (r1 + r2) * (r1 + r2)
    ensures CirclesOverlap(p1, p2, r1, r2)
  {
    CirclesOverlapMeaning(p1, p2, r1, r2);
  }

  /** For non-negative radii the squared test is the geometric one: the two
      closed discs overlap exactly when they have a point in common. */
  lemma OverlapIffCommonPoint(p1: Vec2, p2: Vec2, r1: real, r2: real)
    requires r1 >= 0.0 && r2 >= 0.0
    ensures CirclesOverlap(p1, p2, r1, r2) <==> exists q :: InDisc(q, p1, r1) && InDisc(q, p2, r2)
  {
    CirclesOverlapMeaning(p1, p2, r1, r2);
    if CirclesOverlap(p1, p2, r1, r2) {
      var q := CommonPoint(p1, p2, r1, r2);
      assert InDisc(q, p1, r1) && InDisc(q, p2, r2);
    }
    if exists q :: InDisc(q, p1, r1) && InDisc(q, p2, r2) {
      var q :| InDisc(q, p1, r1) && InDisc(q, p2, r2);
      CommonPointBoundsDistance(p1, p2, r1, r2, q);
    }
  }

  /** When the squared test holds, the point dividing the centre segment in the
      ratio r1 : r2 lies in both discs. */
  lemma CommonPoint(p1: Vec2, p2: Vec2, r1: real, r2: real) returns (q: Vec2)
    requires r1 >= 0.0 && r2 >= 0.0
    requires LengthSq(Sub(p2, p1)) <= (r1 + r2) * (r1 + r2)
    ensures InDisc(q, p1, r1) && InDisc(q, p2, r2)
  {
    if r1 + r2 == 0.0 {
      // Both radii are zero, and so is the distance of the centres.
      assert r1 == 0.0 && r2 == 0.0;
      q := p1;
      CoincidentCentres(p1, p2);
    } else {
      q := DividingPoint(p1, p2, r1, r2);
    }
  }

  lemma CoincidentCentres(p1: Vec2, p2: Vec2)
    requires LengthSq(Sub(p2, p1)) <= 0.0 * 0.0
    ensures InDisc(p1, p1, 0.0) && InDisc(p1, p2, 0.0)
  {
    assert Sub(p1, p1) == Vec2(0.0, 0.0);
    assert LengthSq(Sub(p1, p2)) == LengthSq(Sub(p2, p1));
  }

  lemma DividingPoint(p1: Vec2, p2: Vec2, r1: real, r2: real) returns (q: Vec2)
    requires r1 >= 0.0 && r2 >= 0.0 && r1 + r2 != 0.0
    requires LengthSq(Sub(p2, p1)) <= (r1 + r2) * (r1 + r2)
    ensures InDisc(q, p1, r1) && InDisc(q, p2, r2)
  {
    var d := Sub(p2, p1);
    var s := r1 + r2;
    var t := r1 / s;
    assert t * s == r1;
    assert (t - 1.0) * s == -r2;
    q := Add(p1, Scale(d, t));
    assert Sub(q, p1) == Scale(d, t);
    assert Sub(q, p2) == Scale(d, t - 1.0);
    ScaledWithinRadius(d, t, s, r1);
    ScaledWithinRadius(d, t - 1.0, s, r2);
  }

  /** Scaling a vector no longer than |s| by k, where |k * s| == r, gives one no longer than r. */
  lemma ScaledWithinRadius(d: Vec2, k: real, s: real, r: real)
    requires LengthSq(d) <= s * s && s != 0.0 && (k * s == r || k * s == -r)
    ensures LengthSq(Scale(d, k)) <= r * r
  {
    LengthSqNonNegative(d);
    ScaledLengthSq(d, k);
    ScaledBound(LengthSq(d), s, k, r);
  }

  lemma ScaledLengthSq(d: Vec2, k: real)
    ensures LengthSq(Scale(d, k)) == k * k * LengthSq(d)
  {
    calc {
      LengthSq(Scale(d, k));
      (d.x * k) * (d.x * k) + (d.y * k) * (d.y * k);
      k * k * (d.x * d.x) + k * k * (d.y * d.y);
    }
  }

  /** If dd <= s*s and k*s is a radius r, then k*k*dd <= r*r. */
  lemma ScaledBound(dd: real, s: real, k: real, r: real)
    requires 0.0 <= dd <= s * s && s != 0.0 && (k * s == r || k * s == -r)
    ensures k * k * dd <= r * r
  {
    assert k * k >= 0.0;
    calc {
      k * k * dd;
    <= { MulLeftMono(k * k, dd, s * s); }
      k * k * (s * s);
    ==
      (k * s) * (k * s);
    ==
      r * r;
    }
  }

  lemma MulPositive(a: real, b: real)
    requires a > 0.0 && b > 0.0
    ensures a * b > 0.0
  {
  }

  lemma Square(x: real)
    ensures x * x >= 0.0
  {
    if x > 0.0 {
      MulPositive(x, x);
    } else if x < 0.0 {
      MulPositive(-x, -x);
      assert (-x) * (-x) == x * x;
    }
  }

  lemma MulLeftMono(c: real, a: real, b: real)
    requires c >= 0.0 && a <= b
    ensures c * a <= c * b
  {
    assert c * b - c * a == c * (b - a);
  }

  /** A point common to both discs puts the centres at most r1 + r2 apart. */
  lemma CommonPointBoundsDistance(p1: Vec2, p2: Vec2, r1: real, r2: real, q: Vec2)
    requires r1 >= 0.0 && r2 >= 0.0
    requires InDisc(q, p1, r1) && InDisc(q, p2, r2)
    ensures LengthSq(Sub(p2, p1)) <= (r1 + r2) * (r1 + r2)
  {
    var a := Sub(q, p1);
    var b := Sub(p2, q);
    assert Sub(p2, p1) == Add(a, b);
    assert LengthSq(b) == LengthSq(Sub(q, p2));
    calc {
      LengthSq(Add(a, b));
    ==
      LengthSq(a) + LengthSq(b) + 2.0 * Dot(a, b);
    <= { DotBound(a, b, r1, r2); }
      r1 * r1 + r2 * r2 + 2.0 * (r1 * r2);
    ==
      (r1 + r2) * (r1 + r2);
    }
  }

  /** Cauchy-Schwarz, bounded by the radii. */
  lemma DotBound(a: Vec2, b: Vec2, r1: real, r2: real)
    requires r1 >= 0.0 && r2 >= 0.0
    requires LengthSq(a) <= r1 * r1 && LengthSq(b) <= r2 * r2
    ensures Dot(a, b) <= r1 * r2
  {
    var la, lb, dot, cross := LengthSq(a), LengthSq(b), Dot(a, b), Cross(a, b);
    LengthSqNonNegative(a);
    LengthSqNonNegative(b);
    Lagrange(a, b);
    Square(cross);
    ProductBound(la, lb, r1 * r1, r2 * r2);
    assert (r1 * r1) * (r2 * r2) == (r1 * r2) * (r1 * r2);
    NonNegativeProduct(r1, r2);
    SquareMono(dot, r1 * r2);
  }

  lemma LengthSqNonNegative(v: Vec2)
    ensures LengthSq(v) >= 0.0
  {
    Square(v.x);
    Square(v.y);
  }

  /** Lagrange's identity in two dimensions. */
  lemma Lagrange(a: Vec2, b: Vec2)
    ensures LengthSq(a) * LengthSq(b) == Dot(a, b) * Dot(a, b) + Cross(a, b) * Cross(a, b)
  {
  }

  lemma NonNegativeProduct(a: real, b: real)
    requires a >= 0.0 && b >= 0.0
    ensures a * b >= 0.0
  {
    if a > 0.0 && b > 0.0 {
      MulPositive(a, b);
    }
  }

  lemma ProductBound(a: real, b: real, c: real, d: real)
    requires 0.0 <= a <= c && 0.0 <= b <= d
    ensures a * b <= c * d
  {
    MulLeftMono(a, b, d);
    MulLeftMono(d, a, c);
    assert d * a == a * d && d * c == c * d;
  }

  /** x * x <= y * y with y >= 0 gives x <= y. */
  lemma SquareMono(x: real, y: real)
    requires y >= 0.0 && x * x <= y * y
    ensures x <= y
  {
    if x > y {
      MulPositive(x - y, x + y);
      assert false;
    }
  }

  // ---------------------------------------------------------------------------
  // truncate
  // ---------------------------------------------------------------------------

  /** truncate: a vector longer than maxLength (and not zero) is rescaled to
      length maxLength along its own direction; any other vector is returned
      as it is. `length` is glm::length(v), which the source computes itself. */
  function Truncate(v: Vec2, maxLength: real, length: real): (r: Vec2)
    requires IsLength(length, v)
    ensures !(length > maxLength && length > 0.0) ==> r == v
    ensures length > maxLength && length > 0.0 ==>
              LengthSq(r) == maxLength * maxLength && Dot(r, v) == maxLength * length && Cross(r, v) == 0.0
  {
    if length > maxLength && length > 0.0 then
      TruncatedGeometry(v, maxLength, length);
      Scale(Div(v, length), maxLength)
    else
      v
  }

  lemma TruncatedGeometry(v: Vec2, maxLength: real, length: real)
    requires IsLength(length, v) && length > 0.0
    ensures var r := Scale(Div(v, length), maxLength);
            LengthSq(r) == maxLength * maxLength && Dot(r, v) == maxLength * length && Cross(r, v) == 0.0
  {
    var k := maxLength / length;
    DivThenScale(v, length, maxLength);
    ScaledLengthSq(v, k);
    ScaledAlong(v, k);
    QuotientTimes(maxLength, length);
  }

  /** Dividing by l and then scaling by m is scaling by m / l. */
  lemma DivThenScale(v: Vec2, l: real, m: real)
    requires l != 0.0
    ensures Scale(Div(v, l), m) == Scale(v, m / l)
  {
    assert v.x / l * m == v.x * (m / l);
    assert v.y / l * m == v.y * (m / l);
  }

  /** A scaled vector has dot product k·|v|² with the original and lies on its line. */
  lemma ScaledAlong(v: Vec2, k: real)
    ensures Dot(Scale(v, k), v) == k * LengthSq(v)
    ensures Cross(Scale(v, k), v) == 0.0
  {
    assert (v.x * k) * v.x + (v.y * k) * v.y == k * (v.x * v.x + v.y * v.y);
    assert (v.x * k) * v.y == (v.y * k) * v.x;
  }

  /** With k = m / l: k·k·(l·l) = m·m and k·(l·l) = m·l. */
  lemma QuotientTimes(m: real, l: real)
    requires l != 0.0
    ensures (m / l) * (m / l) * (l * l) == m * m
    ensures (m / l) * (l * l) == m * l
  {
    var k := m / l;
    assert k * l == m;
    assert k * k * (l * l) == (k * l) * (k * l);
    assert k * (l * l) == (k * l) * l;
  }

  /** With a non-negative limit, the result is never longer than maxLength. */
  lemma TruncateBounded(v: Vec2, maxLength: real, length: real)
    requires IsLength(length, v) && maxLength >= 0.0
    ensures LengthSq(Truncate(v, maxLength, length)) <= maxLength * maxLength
  {
    if !(length > maxLength && length > 0.0) {
      MulLeftMono(length, length, maxLength);
      MulLeftMono(maxLength, length, maxLength);
    }
  }

  /** With a non-negative limit, truncating twice is truncating once. */
  lemma TruncateIdempotent(v: Vec2, maxLength: real, length: real)
    requires IsLength(length, v) && maxLength >= 0.0
    ensures var r := Truncate(v, maxLength, length);
            var rLength := if length > maxLength && length > 0.0 then maxLength else length;
            IsLength(rLength, r) && Truncate(r, maxLength, rLength) == r
  {
  }
}
