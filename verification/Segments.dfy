/**
 * The segment-intersection test and the wall-loss sum of coverage/propagation.ts,
 * over exact reals, proved equivalent to "the two closed segments share a point".
 */
module Segments {

  datatype Point = Point(x: real, y: real)

  datatype Turn = Collinear | Clockwise | CounterClockwise

  function Min(a: real, b: real): real { if a <= b then a else b }

  function Max(a: real, b: real): real { if a >= b then a else b }

  /** The cross product pq x pr, whose sign orients the triple. */
  function Cross(p: Point, q: Point, r: Point): real {
    (q.x - p.x) * (r.y - p.y) - (q.y - p.y) * (r.x - p.x)
  }

  function Orientation(p: Point, q: Point, r: Point): Turn {
    var val := Cross(p, q, r);
    if val == 0.0 then Collinear else if val > 0.0 then Clockwise else CounterClockwise
  }

  /** r lies in the bounding box of pq. */
  predicate OnSegment(p: Point, q: Point, r: Point) {
    && r.x >= Min(p.x, q.x)
    && r.x <= Max(p.x, q.x)
    && r.y >= Min(p.y, q.y)
    && r.y <= Max(p.y, q.y)
  }

  predicate SegmentsIntersect(a: Point, b: Point, c: Point, d: Point) {
    var o1 := Orientation(a, b, c);
    var o2 := Orientation(a, b, d);
    var o3 := Orientation(c, d, a);
    var o4 := Orientation(c, d, b);
    if o1 != o2 && o3 != o4 then true
    else if o1 == Collinear && OnSegment(a, b, c) then true
    else if o2 == Collinear && OnSegment(a, b, d) then true
    else if o3 == Collinear && OnSegment(c, d, a) then true
    else if o4 == Collinear && OnSegment(c, d, b) then true
    else false
  }

  // ----- The meaning: two closed segments share a point

  /** From p towards q, by the fraction t of the way. */
  function Along(p: real, q: real, t: real): real { p + t * (q - p) }

  /** The point at parameter t of the segment from p (t = 0) to q (t = 1). */
  function At(p: Point, q: Point, t: real): Point {
    Point(Along(p.x, q.x, t), Along(p.y, q.y, t))
  }

  ghost predicate OnClosedSegment(p: Point, q: Point, r: Point) {
    exists t: real :: 0.0 <= t <= 1.0 && At(p, q, t) == r
  }

  ghost predicate SharePoint(a: Point, b: Point, c: Point, d: Point) {
    exists p: Point :: OnClosedSegment(a, b, p) && OnClosedSegment(c, d, p)
  }

  // ----- Real-arithmetic steps

  lemma ProductSign(x: real, y: real)
    ensures x * y > 0.0 <==> (x > 0.0 && y > 0.0) || (x < 0.0 && y < 0.0)
    ensures x * y == 0.0 <==> x == 0.0 || y == 0.0
  {
    if x > 0.0 && y < 0.0 { assert x * -y > 0.0; }
    if x < 0.0 && y > 0.0 { assert -x * y > 0.0; }
    if x < 0.0 && y < 0.0 { assert -x * -y > 0.0; }
  }

  lemma ScaleIntoRange(u: real, v: real, t: real)
    requires 0.0 <= t <= 1.0
    ensures Min(u, v) <= u + t * (v - u) <= Max(u, v)
  {
    ProductSign(t, v - u);
    ProductSign(1.0 - t, v - u);
    assert (1.0 - t) * (v - u) == v - u - t * (v - u);
  }

  /** g / f lies in [0, 1] when g lies between 0 and f. */
  lemma UnitRatio(g: real, f: real)
    requires f != 0.0
    requires 0.0 <= g <= f || f <= g <= 0.0
    ensures 0.0 <= g / f <= 1.0
    ensures g / f * f == g
  {
    var t := g / f;
    assert t * f == g;
    ProductSign(t, f);
    ProductSign(1.0 - t, f);
    assert (1.0 - t) * f == f - g;
  }

  lemma CancelFactor(u: real, v: real, f: real)
    requires f != 0.0 && u * f == v * f
    ensures u == v
  {
    ProductSign(u - v, f);
    assert (u - v) * f == u * f - v * f;
  }

  /** The ratio that places w between u and v when u != v. */
  lemma RatioInRange(u: real, v: real, w: real)
    requires u != v && Min(u, v) <= w <= Max(u, v)
    ensures 0.0 <= (w - u) / (v - u) <= 1.0
    ensures (w - u) / (v - u) * (v - u) == w - u
  {
    UnitRatio(w - u, v - u);
  }

  /** From the collinearity equation dx * ey == dy * ex, with dx != 0. */
  lemma OtherCoordinate(dx: real, dy: real, ex: real, ey: real, t: real)
    requires dx != 0.0 && dx * ey == dy * ex && t * dx == ex
    ensures ey == t * dy
  {
    assert dy * ex == dy * (t * dx) == (t * dy) * dx;
    CancelFactor(ey, t * dy, dx);
  }

  lemma CollinearAlongX(p: Point, q: Point, r: Point)
    requires Orientation(p, q, r) == Collinear
    requires p.x != q.x && Min(p.x, q.x) <= r.x <= Max(p.x, q.x)
    ensures OnClosedSegment(p, q, r)
  {
    RatioInRange(p.x, q.x, r.x);
    var t := (r.x - p.x) / (q.x - p.x);
    OtherCoordinate(q.x - p.x, q.y - p.y, r.x - p.x, r.y - p.y, t);
    assert At(p, q, t) == r;
  }

  lemma CollinearAlongY(p: Point, q: Point, r: Point)
    requires Orientation(p, q, r) == Collinear
    requires p.y != q.y && Min(p.y, q.y) <= r.y <= Max(p.y, q.y)
    ensures OnClosedSegment(p, q, r)
  {
    RatioInRange(p.y, q.y, r.y);
    var t := (r.y - p.y) / (q.y - p.y);
    OtherCoordinate(q.y - p.y, q.x - p.x, r.y - p.y, r.x - p.x, t);
    assert At(p, q, t) == r;
  }

  lemma CrossAt(p: Point, q: Point, c: Point, d: Point, t: real)
    ensures Cross(p, q, At(c, d, t)) == (1.0 - t) * Cross(p, q, c) + t * Cross(p, q, d)
  {
  }

  lemma CrossOnLine(p: Point, q: Point, t: real)
    ensures Cross(p, q, At(p, q, t)) == 0.0
  {
  }

  /** The collinear branches of the test decide membership in the closed segment. */
  lemma CollinearMembership(p: Point, q: Point, r: Point)
    ensures Orientation(p, q, r) == Collinear && OnSegment(p, q, r) <==> OnClosedSegment(p, q, r)
  {
    if Orientation(p, q, r) == Collinear && OnSegment(p, q, r) {
      if p.x != q.x {
        CollinearAlongX(p, q, r);
      } else if p.y != q.y {
        CollinearAlongY(p, q, r);
      } else {
        assert At(p, q, 0.0) == r;
      }
    }
    if t :| 0.0 <= t <= 1.0 && At(p, q, t) == r {
      PointIsOnSegment(p, q, t);
    }
  }

  lemma PointIsOnSegment(p: Point, q: Point, t: real)
    requires 0.0 <= t <= 1.0
    ensures Orientation(p, q, At(p, q, t)) == Collinear && OnSegment(p, q, At(p, q, t))
  {
    CrossOnLine(p, q, t);
    ScaleIntoRange(p.x, q.x, t);
    ScaleIntoRange(p.y, q.y, t);
  }

  // ----- Soundness: the general branch finds a common point

  lemma CrossDifferences(a: Point, b: Point, c: Point, d: Point)
    ensures Cross(a, b, c) - Cross(a, b, d) == Cross(c, d, b) - Cross(c, d, a)
  {
  }

  /** When signs differ, m / (m - n) is a parameter of the segment. */
  lemma CrossingParameter(m: real, n: real)
    requires (m > 0.0 && n <= 0.0) || (m < 0.0 && n >= 0.0) || (m == 0.0 && n != 0.0)
    ensures m - n != 0.0
    ensures 0.0 <= m / (m - n) <= 1.0
    ensures m / (m - n) * (m - n) == m
  {
    UnitRatio(m, m - n);
  }

  lemma ScaledCoordinates(a: Point, b: Point, c: Point, d: Point)
    ensures var m, n := Cross(a, b, c), Cross(a, b, d);
            var k := Cross(c, d, a);
            && a.x * (m - n) - k * (b.x - a.x) == c.x * (m - n) + m * (d.x - c.x)
            && a.y * (m - n) - k * (b.y - a.y) == c.y * (m - n) + m * (d.y - c.y)
  {
  }

  /** One coordinate of the crossing: both parametrisations, scaled by f, agree. */
  lemma SameCoordinate(a: real, b: real, c: real, d: real, m: real, k: real, f: real, s: real, t: real)
    requires f != 0.0 && t * f == m && s * f == -k
    requires a * f - k * (b - a) == c * f + m * (d - c)
    ensures Along(a, b, s) == Along(c, d, t)
  {
    assert (a + s * (b - a)) * f == a * f + (s * f) * (b - a);
    assert (c + t * (d - c)) * f == c * f + (t * f) * (d - c);
    CancelFactor(a + s * (b - a), c + t * (d - c), f);
  }

  lemma GeneralCase(a: Point, b: Point, c: Point, d: Point)
    requires Orientation(a, b, c) != Orientation(a, b, d)
    requires Orientation(c, d, a) != Orientation(c, d, b)
    ensures SharePoint(a, b, c, d)
  {
    var m, n := Cross(a, b, c), Cross(a, b, d);
    var k, l := Cross(c, d, a), Cross(c, d, b);
    CrossDifferences(a, b, c, d);
    ScaledCoordinates(a, b, c, d);
    CommonPoint(a, b, c, d, m, n, k, l);
  }

  lemma CommonPoint(a: Point, b: Point, c: Point, d: Point, m: real, n: real, k: real, l: real)
    requires (m > 0.0 && n <= 0.0) || (m < 0.0 && n >= 0.0) || (m == 0.0 && n != 0.0)
    requires (k > 0.0 && l <= 0.0) || (k < 0.0 && l >= 0.0) || (k == 0.0 && l != 0.0)
    requires m - n == l - k
    requires a.x * (m - n) - k * (b.x - a.x) == c.x * (m - n) + m * (d.x - c.x)
    requires a.y * (m - n) - k * (b.y - a.y) == c.y * (m - n) + m * (d.y - c.y)
    ensures SharePoint(a, b, c, d)
  {
    CrossingParameter(m, n);
    CrossingParameter(k, l);
    var t := m / (m - n);
    var s := k / (k - l);
    assert s * (m - n) == -(s * (k - l));
    SameCoordinate(a.x, b.x, c.x, d.x, m, k, m - n, s, t);
    SameCoordinate(a.y, b.y, c.y, d.y, m, k, m - n, s, t);
    SharedAt(a, b, c, d, s, t);
  }

  lemma SharedAt(a: Point, b: Point, c: Point, d: Point, s: real, t: real)
    requires 0.0 <= s <= 1.0 && 0.0 <= t <= 1.0 && At(a, b, s) == At(c, d, t)
    ensures SharePoint(a, b, c, d)
  {
    assert OnClosedSegment(a, b, At(a, b, s)) && OnClosedSegment(c, d, At(c, d, t));
  }

  lemma EndpointOnOther(a: Point, b: Point, c: Point, d: Point)
    requires OnClosedSegment(a, b, c) || OnClosedSegment(a, b, d) || OnClosedSegment(c, d, a) || OnClosedSegment(c, d, b)
    ensures SharePoint(a, b, c, d)
  {
    assert At(a, b, 0.0) == a && At(a, b, 1.0) == b;
    assert At(c, d, 0.0) == c && At(c, d, 1.0) == d;
  }

  lemma Sound(a: Point, b: Point, c: Point, d: Point)
    requires SegmentsIntersect(a, b, c, d)
    ensures SharePoint(a, b, c, d)
  {
    if Orientation(a, b, c) != Orientation(a, b, d) && Orientation(c, d, a) != Orientation(c, d, b) {
      GeneralCase(a, b, c, d);
    } else {
      CollinearMembership(a, b, c);
      CollinearMembership(a, b, d);
      CollinearMembership(c, d, a);
      CollinearMembership(c, d, b);
      EndpointOnOther(a, b, c, d);
    }
  }

  // ----- Completeness: a common point makes some branch fire

  /** A common point off an endpoint of cd forces c and d to opposite sides of ab, or onto its line. */
  lemma SidesOf(a: Point, b: Point, c: Point, d: Point, t: real)
    requires 0.0 <= t <= 1.0 && Cross(a, b, At(c, d, t)) == 0.0
    ensures || At(c, d, t) == c
            || At(c, d, t) == d
            || (Orientation(a, b, c) == Orientation(a, b, d) == Collinear)
            || Orientation(a, b, c) != Orientation(a, b, d)
  {
    CrossAt(a, b, c, d, t);
    var m, n := Cross(a, b, c), Cross(a, b, d);
    if t == 0.0 {
    } else if t == 1.0 {
    } else {
      ProductSign(1.0 - t, m);
      ProductSign(t, n);
    }
  }

  lemma LineThrough(a: Point, b: Point, c: Point, d: Point)
    requires Cross(a, b, c) == 0.0 && Cross(a, b, d) == 0.0 && a != b
    ensures Cross(c, d, a) == 0.0 && Cross(c, d, b) == 0.0
  {
    CrossDifferences(a, b, c, d);
    var k := Cross(c, d, a);
    ScaledCoordinates(a, b, c, d);
    assert k * (b.x - a.x) == 0.0 && k * (b.y - a.y) == 0.0;
    if k != 0.0 {
      CancelFactor(b.x - a.x, 0.0, k);
      CancelFactor(b.y - a.y, 0.0, k);
    }
  }

  /** Two closed intervals with a common point: one contains an endpoint of the other. */
  lemma IntervalOverlap(a: real, b: real, c: real, d: real, p: real)
    requires Min(a, b) <= p <= Max(a, b) && Min(c, d) <= p <= Max(c, d)
    ensures || Min(a, b) <= c <= Max(a, b) || Min(a, b) <= d <= Max(a, b)
            || Min(c, d) <= a <= Max(c, d) || Min(c, d) <= b <= Max(c, d)
  {
  }

  /** All four points on one line: overlapping segments contain an endpoint of each other. */
  lemma CollinearOverlap(a: Point, b: Point, c: Point, d: Point, p: Point)
    requires Orientation(a, b, c) == Orientation(a, b, d) == Collinear
    requires OnClosedSegment(a, b, p) && OnClosedSegment(c, d, p)
    ensures OnClosedSegment(a, b, c) || OnClosedSegment(a, b, d) || OnClosedSegment(c, d, a) || OnClosedSegment(c, d, b)
  {
    if a == b {
      assert p == a;
    } else if c == d {
      assert p == c;
    } else {
      LineThrough(a, b, c, d);
      CollinearMembership(a, b, p);
      CollinearMembership(c, d, p);
      if a.x != b.x {
        if c.x == d.x { SteepInside(a, b, c, d); }
        IntervalOverlap(a.x, b.x, c.x, d.x, p.x);
        if Min(a.x, b.x) <= c.x <= Max(a.x, b.x) { CollinearAlongX(a, b, c); }
        else if Min(a.x, b.x) <= d.x <= Max(a.x, b.x) { CollinearAlongX(a, b, d); }
        else if Min(c.x, d.x) <= a.x <= Max(c.x, d.x) { CollinearAlongX(c, d, a); }
        else { CollinearAlongX(c, d, b); }
      } else {
        if c.y == d.y { FlatInside(a, b, c, d); }
        IntervalOverlap(a.y, b.y, c.y, d.y, p.y);
        if Min(a.y, b.y) <= c.y <= Max(a.y, b.y) { CollinearAlongY(a, b, c); }
        else if Min(a.y, b.y) <= d.y <= Max(a.y, b.y) { CollinearAlongY(a, b, d); }
        else if Min(c.y, d.y) <= a.y <= Max(c.y, d.y) { CollinearAlongY(c, d, a); }
        else { CollinearAlongY(c, d, b); }
      }
    }
  }

  lemma SteepInside(a: Point, b: Point, c: Point, d: Point)
    requires Cross(a, b, c) == 0.0 && Cross(a, b, d) == 0.0 && a.x != b.x && c.x == d.x
    ensures c == d
  {
    CancelFactor(c.y - a.y, d.y - a.y, b.x - a.x);
  }

  lemma FlatInside(a: Point, b: Point, c: Point, d: Point)
    requires Cross(a, b, c) == 0.0 && Cross(a, b, d) == 0.0 && a.y != b.y && c.y == d.y
    ensures c == d
  {
    CancelFactor(c.x - a.x, d.x - a.x, b.y - a.y);
  }

  lemma Complete(a: Point, b: Point, c: Point, d: Point)
    requires SharePoint(a, b, c, d)
    ensures SegmentsIntersect(a, b, c, d)
  {
    var p :| OnClosedSegment(a, b, p) && OnClosedSegment(c, d, p);
    var s :| 0.0 <= s <= 1.0 && At(a, b, s) == p;
    var t :| 0.0 <= t <= 1.0 && At(c, d, t) == p;
    CrossOnLine(a, b, s);
    CrossOnLine(c, d, t);
    SidesOf(a, b, c, d, t);
    SidesOf(c, d, a, b, s);
    if Orientation(a, b, c) == Orientation(a, b, d) == Collinear {
      CollinearOverlap(a, b, c, d, p);
    } else if Orientation(c, d, a) == Orientation(c, d, b) == Collinear {
      CollinearOverlap(c, d, a, b, p);
    }
    CollinearMembership(a, b, c);
    CollinearMembership(a, b, d);
    CollinearMembership(c, d, a);
    CollinearMembership(c, d, b);
  }

  /** The orientation test decides exactly whether the two closed segments share a point. */
  lemma IntersectIffSharePoint(a: Point, b: Point, c: Point, d: Point)
    ensures SegmentsIntersect(a, b, c, d) <==> SharePoint(a, b, c, d)
  {
    if SegmentsIntersect(a, b, c, d) { Sound(a, b, c, d); }
    if SharePoint(a, b, c, d) { Complete(a, b, c, d); }
  }

  lemma ReverseSegment(a: Point, b: Point, p: Point)
    requires OnClosedSegment(a, b, p)
    ensures OnClosedSegment(b, a, p)
  {
    var t :| 0.0 <= t <= 1.0 && At(a, b, t) == p;
    assert At(b, a, 1.0 - t) == p;
  }

  /** The verdict does not depend on which segment comes first nor on the direction of either. */
  lemma IntersectSymmetric(a: Point, b: Point, c: Point, d: Point)
    ensures SegmentsIntersect(a, b, c, d) == SegmentsIntersect(c, d, a, b)
    ensures SegmentsIntersect(a, b, c, d) == SegmentsIntersect(b, a, c, d)
    ensures SegmentsIntersect(a, b, c, d) == SegmentsIntersect(a, b, d, c)
  {
    IntersectIffSharePoint(a, b, c, d);
    IntersectIffSharePoint(c, d, a, b);
    IntersectIffSharePoint(b, a, c, d);
    IntersectIffSharePoint(a, b, d, c);
    forall p: Point
      ensures OnClosedSegment(a, b, p) <==> OnClosedSegment(b, a, p)
      ensures OnClosedSegment(c, d, p) <==> OnClosedSegment(d, c, p)
    {
      if OnClosedSegment(a, b, p) { ReverseSegment(a, b, p); }
      if OnClosedSegment(b, a, p) { ReverseSegment(b, a, p); }
      if OnClosedSegment(c, d, p) { ReverseSegment(c, d, p); }
      if OnClosedSegment(d, c, p) { ReverseSegment(d, c, p); }
    }
  }

  // ----- Walls

  datatype Band = Band24 | Band5 | Band6

  datatype Material = Drywall | Wood | Glass | Brick | Concrete | Metal

  datatype Wall = Wall(c: Point, d: Point, material: Material)

  function BaseAttenuationDb(material: Material): real {
    match material
    case Drywall => 3.0
    case Wood => 4.0
    case Glass => 6.0
    case Brick => 8.0
    case Concrete => 12.0
    case Metal => 20.0
  }

  function BandWallScale(band: Band): real {
    match band
    case Band24 => 0.75
    case Band5 => 1.0
    case Band6 => 1.15
  }

  function WallAttenuationDb(material: Material, band: Band): real {
    BaseAttenuationDb(material) * BandWallScale(band)
  }

  /** The walls that share a point with the ray, in list order. */
  ghost function Crossed(a: Point, b: Point, walls: seq<Wall>): seq<Wall> {
    if walls == [] then []
    else
      var last := walls[|walls| - 1];
      var before := Crossed(a, b, walls[..|walls| - 1]);
      if SharePoint(a, b, last.c, last.d) then before + [last] else before
  }

  ghost function TotalAttenuation(walls: seq<Wall>, band: Band): real {
    if walls == [] then 0.0
    else TotalAttenuation(walls[..|walls| - 1], band) + WallAttenuationDb(walls[|walls| - 1].material, band)
  }

  /** What the loop of wallLossAlong accumulates: the attenuation of exactly the walls the ray meets. */
  ghost function WallLoss(a: Point, b: Point, walls: seq<Wall>, band: Band): real {
    TotalAttenuation(Crossed(a, b, walls), band)
  }

  method WallLossAlong(a: Point, b: Point, walls: seq<Wall>, band: Band) returns (total: real)
    ensures total == WallLoss(a, b, walls, band)
  {
    total := 0.0;
    for i := 0 to |walls|
      invariant total == WallLoss(a, b, walls[..i], band)
    {
      var wall := walls[i];
      assert walls[..i + 1][..i] == walls[..i];
      IntersectIffSharePoint(a, b, wall.c, wall.d);
      if SegmentsIntersect(a, b, wall.c, wall.d) {
        assert (Crossed(a, b, walls[..i]) + [wall])[..|Crossed(a, b, walls[..i])|] == Crossed(a, b, walls[..i]);
        total := total + WallAttenuationDb(wall.material, band);
      }
    }
    assert walls[..|walls|] == walls;
  }

  lemma {:induction false} CrossedReversed(a: Point, b: Point, walls: seq<Wall>)
    ensures Crossed(a, b, walls) == Crossed(b, a, walls)
  {
    if walls != [] {
      var last := walls[|walls| - 1];
      CrossedReversed(a, b, walls[..|walls| - 1]);
      IntersectSymmetric(a, b, last.c, last.d);
      IntersectIffSharePoint(a, b, last.c, last.d);
      IntersectIffSharePoint(b, a, last.c, last.d);
    }
  }

  /** The loss from the access point to a cell is the loss from the cell to the access point. */
  lemma WallLossSymmetric(a: Point, b: Point, walls: seq<Wall>, band: Band)
    ensures WallLoss(a, b, walls, band) == WallLoss(b, a, walls, band)
  {
    CrossedReversed(a, b, walls);
  }
}
