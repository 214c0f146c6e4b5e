/** The distance of a point from a line segment, over the reals and squared. */
module Geometry {
  datatype Vec = Vec(x: real, y: real)

  function Minus(a: Vec, b: Vec): Vec { Vec(a.x - b.x, a.y - b.y) }

  function Along(a: Vec, t: real, d: Vec): Vec { Vec(a.x + t * d.x, a.y + t * d.y) }

  function Dot(a: Vec, b: Vec): real { a.x * b.x + a.y * b.y }

  function Square(a: Vec): real { Dot(a, a) }

  const FUZZ: real := 0.000000000001

  predicate FuzzyNull(x: real) { -FUZZ <= x <= FUZZ }

  /** pointToSegmentDistance, squared. */
  function SegmentDistance(point: Vec, start: Vec, end: Vec): real {
    var direction := Minus(end, start);
    var toPoint := Minus(point, start);
    var denom := Dot(direction, direction);
    if FuzzyNull(denom) then Square(Minus(point, start))
    else
      var t := Dot(toPoint, direction) / denom;
      if t < 0.0 then Square(Minus(point, start))
      else if t > 1.0 then Square(Minus(point, end))
      else Square(Minus(point, Along(start, t, direction)))
  }

  /** The squared distance from the point to the place at t on the line. */
  function DistanceAt(point: Vec, start: Vec, end: Vec, t: real): real {
    Square(Minus(point, Along(start, t, Minus(end, start))))
  }

  ghost predicate OnSegment(point: Vec, start: Vec, end: Vec, r: real) {
    exists t: real :: 0.0 <= t <= 1.0 && DistanceAt(point, start, end, t) == r
  }

  ghost predicate NotBeaten(point: Vec, start: Vec, end: Vec, r: real) {
    forall t: real :: 0.0 <= t <= 1.0 ==> r <= DistanceAt(point, start, end, t)
  }

  /** Along the line the squared distance is a parabola in t. */
  lemma Parabola(point: Vec, start: Vec, end: Vec, t: real)
    ensures var v, d := Minus(point, start), Minus(end, start);
            DistanceAt(point, start, end, t) == Square(v) - 2.0 * t * Dot(v, d) + t * t * Square(d)
  {
    var v, d := Minus(point, start), Minus(end, start);
    var w := Minus(point, Along(start, t, d));
    assert w.x == v.x - t * d.x && w.y == v.y - t * d.y;
    Expand(v.x, t, d.x);
    Expand(v.y, t, d.y);
  }

  lemma Expand(v: real, t: real, d: real)
    ensures (v - t * d) * (v - t * d) == v * v - 2.0 * t * (v * d) + t * t * (d * d)
  {
  }

  lemma SquareNonNegative(x: real)
    ensures x * x >= 0.0
  {
  }

  /** The parabola falls until its vertex and rises after it. */
  lemma Falls(b: real, c: real, s: real, t: real)
    requires c >= 0.0 && s <= t && t * c <= b
    ensures t * t * c - 2.0 * t * b <= s * s * c - 2.0 * s * b
  {
    var u := t - s;
    assert s * s * c - 2.0 * s * b - (t * t * c - 2.0 * t * b) == u * (b - t * c) * 2.0 + u * u * c;
    assert u * (b - t * c) >= 0.0;
    assert u * u >= 0.0;
    assert (u * u) * c >= 0.0;
  }

  lemma Rises(b: real, c: real, s: real, t: real)
    requires c >= 0.0 && s <= t && s * c >= b
    ensures s * s * c - 2.0 * s * b <= t * t * c - 2.0 * t * b
  {
    Falls(-b, c, -t, -s);
  }

  lemma QuotientBounds(b: real, c: real)
    requires c > 0.0
    ensures (b / c) * c == b && (b / c < 0.0 ==> b < 0.0) && (b / c > 1.0 ==> b > c)
  {
    var t := b / c;
    assert t * c == b;
    if t > 1.0 {
      assert (t - 1.0) * c > 0.0;
    }
    if t < 0.0 {
      assert -t * c > 0.0;
    }
  }

  /** The place the code chooses, when it does not give up. */
  function Chosen(point: Vec, start: Vec, end: Vec): real {
    var d := Minus(end, start);
    if FuzzyNull(Dot(d, d)) then 0.0
    else
      var t := Dot(Minus(point, start), d) / Dot(d, d);
      if t < 0.0 then 0.0 else if t > 1.0 then 1.0 else t
  }

  /** The result is the squared distance to a place on the segment. */
  lemma Attained(point: Vec, start: Vec, end: Vec)
    ensures 0.0 <= Chosen(point, start, end) <= 1.0
    ensures SegmentDistance(point, start, end) == DistanceAt(point, start, end, Chosen(point, start, end))
    ensures OnSegment(point, start, end, SegmentDistance(point, start, end))
  {
    var d := Minus(end, start);
    assert Along(start, 0.0, d) == start;
    assert Along(start, 1.0, d) == end;
  }

  /** No place on a segment that is not degenerate is nearer than the result. */
  lemma Nearest(point: Vec, start: Vec, end: Vec, t: real)
    requires Square(Minus(end, start)) > 0.000000000001 && 0.0 <= t <= 1.0
    ensures SegmentDistance(point, start, end) <= DistanceAt(point, start, end, t)
  {
    hide DistanceAt, SegmentDistance;
    var v, d := Minus(point, start), Minus(end, start);
    var b, c, t0 := Dot(v, d), Square(d), Chosen(point, start, end);
    SquareNonNegative(d.x);
    SquareNonNegative(d.y);
    QuotientBounds(b, c);
    Attained(point, start, end);
    Parabola(point, start, end, t);
    Parabola(point, start, end, t0);
    if t < t0 {
      assert t0 * c <= b;
      Falls(b, c, t, t0);
    } else if t > t0 {
      Rises(b, c, t0, t);
    }
  }

  /** With a segment so short that its squared length counts as zero, the distance to the start is
      returned: some place is nearer iff the point lies on the side of the end. */
  lemma NearestIff(point: Vec, start: Vec, end: Vec)
    ensures NotBeaten(point, start, end, SegmentDistance(point, start, end))
            <==> Square(Minus(end, start)) > 0.000000000001 || Dot(Minus(point, start), Minus(end, start)) <= 0.0
  {
    hide DistanceAt, SegmentDistance;
    var v, d := Minus(point, start), Minus(end, start);
    var b, c, r := Dot(v, d), Square(d), SegmentDistance(point, start, end);
    SquareNonNegative(d.x);
    SquareNonNegative(d.y);
    if !FuzzyNull(c) {
      forall t: real | 0.0 <= t <= 1.0 ensures r <= DistanceAt(point, start, end, t) {
        Nearest(point, start, end, t);
      }
    } else {
      Attained(point, start, end);
      Parabola(point, start, end, 0.0);
      if b <= 0.0 {
        forall t: real | 0.0 <= t <= 1.0 ensures r <= DistanceAt(point, start, end, t) {
          Parabola(point, start, end, t);
          Rises(b, c, 0.0, t);
        }
      } else {
        var t := Nearer(b, c);
        Parabola(point, start, end, t);
      }
    }
  }

  lemma FlatSquare(start: Vec, end: Vec)
    requires start == Vec(0.0, 0.0) && end == Vec(0.0000001, 0.0)
    ensures Square(Minus(end, start)) == 0.00000000000001
  {
  }

  lemma FlatDot(point: Vec, start: Vec, end: Vec)
    requires point == Vec(1.0, 0.0) && start == Vec(0.0, 0.0) && end == Vec(0.0000001, 0.0)
    ensures Dot(Minus(point, start), Minus(end, start)) == 0.0000001
  {
  }

  /** It happens: some place on the segment from (0, 0) to (1e-7, 0) is nearer to (1, 0) than the result. */
  lemma ShortSegmentMissed(point: Vec, start: Vec, end: Vec)
    requires point == Vec(1.0, 0.0) && start == Vec(0.0, 0.0) && end == Vec(0.0000001, 0.0)
    ensures !NotBeaten(point, start, end, SegmentDistance(point, start, end))
  {
    hide SegmentDistance, NotBeaten, Dot, Square, Minus;
    FlatSquare(start, end);
    FlatDot(point, start, end);
    NearestIff(point, start, end);
  }

  lemma Nearer(b: real, c: real) returns (t: real)
    requires b > 0.0 && c >= 0.0
    ensures 0.0 <= t <= 1.0 && t * t * c - 2.0 * t * b < 0.0
  {
    if c <= b {
      t := 1.0;
    } else {
      t := b / c;
      QuotientBounds(b, c);
      assert t > 0.0;
      assert t * t * c == t * b;
      assert t * b > 0.0;
    }
  }
}
