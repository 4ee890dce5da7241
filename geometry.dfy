/**
  The shape layer of pqmesh: axis-aligned squares and rectangles that sample
  their boundary and answer closed point-containment queries, and composite
  shapes built from solid parts and holes.

  Coordinates are exact reals; the source computes with Python floats, so
  every statement here is about exact arithmetic.
 */
module Geometry {

  /** A point of the plane. */
  datatype Point = Point(x: real, y: real)

  function Abs(r: real): (a: real)
    ensures a >= 0.0 && (a == r || a == -r)
  {
    if r < 0.0 then -r else r
  }

  /** The fraction `i / n` that the sampling loops call `t`. */
  function Fraction(i: nat, n: nat): (t: real)
    requires i < n
    ensures 0.0 <= t < 1.0
  {
    FractionBounds(i, n);
    i as real / n as real
  }

  lemma FractionBounds(i: nat, n: nat)
    requires i < n
    ensures 0.0 <= i as real / n as real < 1.0
  {
  }

  /** `t` is below `k / 4` exactly when `4 * i` is below `k * n`. */
  lemma QuarterCompare(i: nat, n: nat, k: nat)
    requires i < n
    ensures Fraction(i, n) < k as real / 4.0 <==> 4 * i < k * n
  {
    var t := Fraction(i, n);
    assert t * (n as real) == i as real;
    assert (4 * i) as real == 4.0 * t * (n as real);
    assert (k * n) as real == (k as real / 4.0) * 4.0 * (n as real);
  }

  /** Cancelling a positive factor. */
  lemma MulCancel(a: real, b: real, c: real)
    requires c > 0.0 && a * c == b * c
    ensures a == b
  {
  }

  /** A fraction is determined by what it gives when multiplied by its denominator. */
  lemma FractionIs(i: nat, n: nat, t0: real)
    requires i < n && t0 * (n as real) == i as real
    ensures Fraction(i, n) == t0
  {
    var t := Fraction(i, n);
    assert t * (n as real) == i as real;
    MulCancel(t, t0, n as real);
  }

  /** A quarter of the way or less along a non-negative length stays within a quarter of it. */
  lemma ScaleQuarter(len: real, u: real)
    requires len >= 0.0 && 0.0 <= u <= 0.25
    ensures 0.0 <= len * u * 4.0 <= len
  {
    assert len * u <= len * 0.25;
  }

  /** Scaling a non-negative length by a factor in [0, 1] stays within [0, length]. */
  lemma ScaleWithin(len: real, u: real)
    requires len >= 0.0 && 0.0 <= u <= 1.0
    ensures 0.0 <= len * u <= len
  {
    assert len * u <= len * 1.0;
  }

  /** An axis-aligned square given by its centre and side length. */
  datatype Square = Square(centerX: real, centerY: real, sideLength: real, material: int)
  {
    function Left(): real { centerX - sideLength / 2.0 }
    function Right(): real { centerX + sideLength / 2.0 }
    function Bottom(): real { centerY - sideLength / 2.0 }
    function Top(): real { centerY + sideLength / 2.0 }

    /** Closed containment: points on the edges are inside. */
    function InsidePoint(p: Point): (inside: bool)
      ensures inside <==> Left() <= p.x <= Right() && Bottom() <= p.y <= Top()
    {
      Abs(p.x - centerX) <= sideLength / 2.0 && Abs(p.y - centerY) <= sideLength / 2.0
    }

    /** The point the boundary walk emits at fraction `t` of its length. */
    function WalkPoint(t: real): Point
    {
      if t < 0.25 then
        Point(centerX - sideLength / 2.0 + sideLength * t * 4.0, centerY - sideLength / 2.0)
      else if t < 0.5 then
        Point(centerX + sideLength / 2.0, centerY - sideLength / 2.0 + sideLength * (t - 0.25) * 4.0)
      else if t < 0.75 then
        Point(centerX + sideLength / 2.0 - sideLength * (t - 0.5) * 4.0, centerY + sideLength / 2.0)
      else
        Point(centerX - sideLength / 2.0, centerY + sideLength / 2.0 - sideLength * (t - 0.75) * 4.0)
    }

    /** The point that step `i` of an `n`-step boundary walk emits. */
    function BoundaryPoint(i: nat, n: nat): Point
      requires i < n
    {
      WalkPoint(Fraction(i, n))
    }

    /** The whole walk; a non-positive count gives no points. */
    function Samples(numPoints: int): seq<Point>
    {
      if numPoints <= 0 then []
      else seq(numPoints, i requires 0 <= i < numPoints => BoundaryPoint(i, numPoints))
    }

    /** Samples the boundary counter-clockwise from the bottom-left corner. */
    method ToPoints(numPoints: int) returns (points: seq<Point>)
      ensures |points| == if numPoints < 0 then 0 else numPoints
      ensures points == Samples(numPoints)
    {
      points := [];
      var i := 0;
      while i < numPoints
        invariant 0 <= i <= if numPoints < 0 then 0 else numPoints
        invariant |points| == i
        invariant forall j :: 0 <= j < i ==> points[j] == BoundaryPoint(j, numPoints)
      {
        var t := i as real / numPoints as real;
        var x: real, y: real;
        if t < 0.25 {
          x := centerX - sideLength / 2.0 + sideLength * t * 4.0;
          y := centerY - sideLength / 2.0;
        } else if t < 0.5 {
          x := centerX + sideLength / 2.0;
          y := centerY - sideLength / 2.0 + sideLength * (t - 0.25) * 4.0;
        } else if t < 0.75 {
          x := centerX + sideLength / 2.0 - sideLength * (t - 0.5) * 4.0;
          y := centerY + sideLength / 2.0;
        } else {
          x := centerX - sideLength / 2.0;
          y := centerY + sideLength / 2.0 - sideLength * (t - 0.75) * 4.0;
        }
        points := points + [Point(x, y)];
        i := i + 1;
      }
    }
  }

  /** An axis-aligned rectangle given by its centre, width and height. */
  datatype Rectangle = Rectangle(centerX: real, centerY: real, width: real, height: real, material: int)
  {
    function Left(): real { centerX - width / 2.0 }
    function Right(): real { centerX + width / 2.0 }
    function Bottom(): real { centerY - height / 2.0 }
    function Top(): real { centerY + height / 2.0 }

    /** Closed containment: points on the edges are inside. */
    function InsidePoint(p: Point): (inside: bool)
      ensures inside <==> Left() <= p.x <= Right() && Bottom() <= p.y <= Top()
    {
      Abs(p.x - centerX) <= width / 2.0 && Abs(p.y - centerY) <= height / 2.0
    }

    /** The point on side `side` (0 bottom, 1 right, 2 top, 3 left) at fraction `t` of that side. */
    function EdgePoint(t: real, side: nat): Point
      requires side < 4
    {
      if side == 0 then Point(centerX - width / 2.0 + width * t, centerY - height / 2.0)
      else if side == 1 then Point(centerX + width / 2.0, centerY - height / 2.0 + height * t)
      else if side == 2 then Point(centerX + width / 2.0 - width * t, centerY + height / 2.0)
      else Point(centerX - width / 2.0, centerY + height / 2.0 - height * t)
    }

    /** Side `side` of group `g` out of `perSide` groups. */
    function SidePoint(g: nat, side: nat, perSide: nat): Point
      requires g < perSide && side < 4
    {
      EdgePoint(Fraction(g, perSide), side)
    }

    /** `numPoints / 4` groups of four points; the divisor 4 is positive, so this is floor division. */
    function Samples(numPoints: int): seq<Point>
    {
      var perSide := numPoints / 4;
      if perSide <= 0 then []
      else seq(4 * perSide, j requires 0 <= j < 4 * perSide => SidePoint(j / 4, j % 4, perSide))
    }

    /** Emits one point on each side per step, in the order bottom, right, top, left. */
    method ToPoints(numPoints: int) returns (points: seq<Point>)
      ensures points == Samples(numPoints)
    {
      points := [];
      var perSide := numPoints / 4;
      var i := 0;
      while i < perSide
        invariant 0 <= i <= if perSide < 0 then 0 else perSide
        invariant |points| == 4 * i
        invariant forall j :: 0 <= j < 4 * i ==> points[j] == SidePoint(j / 4, j % 4, perSide)
      {
        var t := i as real / perSide as real;
        points := points + [Point(centerX - width / 2.0 + width * t, centerY - height / 2.0)];
        points := points + [Point(centerX + width / 2.0, centerY - height / 2.0 + height * t)];
        points := points + [Point(centerX + width / 2.0 - width * t, centerY + height / 2.0)];
        points := points + [Point(centerX - width / 2.0, centerY + height / 2.0 - height * t)];
        assert forall j :: 4 * i <= j < 4 * i + 4 ==> j / 4 == i && j % 4 == j - 4 * i;
        i := i + 1;
      }
    }
  }

  // Properties of the square's boundary walk

  /** The first quarter of the walk runs along the bottom edge, left to right. */
  lemma BottomRun(sq: Square, t: real)
    requires 0.0 <= t < 0.25
    ensures sq.WalkPoint(t).y == sq.Bottom()
    ensures sq.sideLength >= 0.0 ==> sq.Left() <= sq.WalkPoint(t).x <= sq.Right()
  {
    var cx, cy, s := sq.centerX, sq.centerY, sq.sideLength;
    assert sq.WalkPoint(t) == Point(cx - s / 2.0 + s * t * 4.0, cy - s / 2.0);
    if s >= 0.0 {
      ScaleQuarter(s, t);
    }
  }

  /** The second quarter runs up the right edge. */
  lemma RightRun(sq: Square, t: real)
    requires 0.25 <= t < 0.5
    ensures sq.WalkPoint(t).x == sq.Right()
    ensures sq.sideLength >= 0.0 ==> sq.Bottom() <= sq.WalkPoint(t).y <= sq.Top()
  {
  }

  /** The third quarter runs along the top edge, right to left. */
  lemma TopRun(sq: Square, t: real)
    requires 0.5 <= t < 0.75
    ensures sq.WalkPoint(t).y == sq.Top()
    ensures sq.sideLength >= 0.0 ==> sq.Left() <= sq.WalkPoint(t).x <= sq.Right()
  {
  }

  /** The last quarter runs down the left edge. */
  lemma LeftRun(sq: Square, t: real)
    requires 0.75 <= t < 1.0
    ensures sq.WalkPoint(t).x == sq.Left()
    ensures sq.sideLength >= 0.0 ==> sq.Bottom() <= sq.WalkPoint(t).y <= sq.Top()
  {
  }

  /** With a non-negative side, every point of the walk lies in the closed square. */
  lemma SquareWalkInside(sq: Square, t: real)
    requires 0.0 <= t < 1.0 && sq.sideLength >= 0.0
    ensures sq.InsidePoint(sq.WalkPoint(t))
  {
    if t < 0.25 {
      BottomRun(sq, t);
    } else if t < 0.5 {
      RightRun(sq, t);
    } else if t < 0.75 {
      TopRun(sq, t);
    } else {
      LeftRun(sq, t);
    }
  }

  /** A non-empty walk stays inside the square exactly when the side is non-negative. */
  lemma SquareSamplesInside(sq: Square, n: int)
    requires n > 0
    ensures (forall p :: p in sq.Samples(n) ==> sq.InsidePoint(p)) <==> sq.sideLength >= 0.0
  {
    var pts := sq.Samples(n);
    if sq.sideLength >= 0.0 {
      forall p | p in pts
        ensures sq.InsidePoint(p)
      {
        var i :| 0 <= i < |pts| && pts[i] == p;
        SquareWalkInside(sq, Fraction(i, n));
      }
    } else {
      assert pts[0] in pts && !sq.InsidePoint(pts[0]);
    }
  }

  /** Step 0 is the bottom-left corner. */
  lemma SquareFirstPoint(sq: Square, n: nat)
    requires n > 0
    ensures sq.BoundaryPoint(0, n) == Point(sq.Left(), sq.Bottom())
  {
  }

  /** Steps with `t` in [0, 0.25), that is `4 * i < n`, lie on the bottom edge. */
  lemma SquareBottomEdge(sq: Square, i: nat, n: nat)
    requires 4 * i < n
    ensures sq.BoundaryPoint(i, n).y == sq.Bottom()
    ensures sq.sideLength >= 0.0 ==> sq.Left() <= sq.BoundaryPoint(i, n).x <= sq.Right()
  {
    QuarterCompare(i, n, 1);
    BottomRun(sq, Fraction(i, n));
  }

  /** Steps with `t` in [0.25, 0.5) lie on the right edge. */
  lemma SquareRightEdge(sq: Square, i: nat, n: nat)
    requires n <= 4 * i < 2 * n
    ensures sq.BoundaryPoint(i, n).x == sq.Right()
    ensures sq.sideLength >= 0.0 ==> sq.Bottom() <= sq.BoundaryPoint(i, n).y <= sq.Top()
  {
    QuarterCompare(i, n, 1);
    QuarterCompare(i, n, 2);
    RightRun(sq, Fraction(i, n));
  }

  /** Steps with `t` in [0.5, 0.75) lie on the top edge. */
  lemma SquareTopEdge(sq: Square, i: nat, n: nat)
    requires 2 * n <= 4 * i < 3 * n
    ensures sq.BoundaryPoint(i, n).y == sq.Top()
    ensures sq.sideLength >= 0.0 ==> sq.Left() <= sq.BoundaryPoint(i, n).x <= sq.Right()
  {
    QuarterCompare(i, n, 2);
    QuarterCompare(i, n, 3);
    TopRun(sq, Fraction(i, n));
  }

  /** The remaining steps, `t` in [0.75, 1), lie on the left edge. */
  lemma SquareLeftEdge(sq: Square, i: nat, n: nat)
    requires i < n && 3 * n <= 4 * i
    ensures sq.BoundaryPoint(i, n).x == sq.Left()
    ensures sq.sideLength >= 0.0 ==> sq.Bottom() <= sq.BoundaryPoint(i, n).y <= sq.Top()
  {
    QuarterCompare(i, n, 3);
    LeftRun(sq, Fraction(i, n));
  }

  /** When four divides the count, the walk passes through all four corners, counter-clockwise. */
  lemma SquareCornersSampled(sq: Square, n: nat)
    requires n > 0 && n % 4 == 0
    ensures sq.BoundaryPoint(0, n) == Point(sq.Left(), sq.Bottom())
    ensures sq.BoundaryPoint(n / 4, n) == Point(sq.Right(), sq.Bottom())
    ensures sq.BoundaryPoint(n / 2, n) == Point(sq.Right(), sq.Top())
    ensures sq.BoundaryPoint(3 * n / 4, n) == Point(sq.Left(), sq.Top())
  {
    var m := n / 4;
    FractionIs(m, n, 0.25);
    FractionIs(2 * m, n, 0.5);
    FractionIs(3 * m, n, 0.75);
    assert n / 2 == 2 * m && 3 * n / 4 == 3 * m;
  }

  /** A square answers containment exactly as the rectangle with equal width and height. */
  lemma SquareInsideAsRectangle(sq: Square, p: Point)
    ensures sq.InsidePoint(p)
        <==> Rectangle(sq.centerX, sq.centerY, sq.sideLength, sq.sideLength, sq.material).InsidePoint(p)
  {
  }

  // Properties of the rectangle's boundary walk

  /** Only whole groups of four are emitted; fewer than four requested points give none. */
  lemma RectangleSampleCount(r: Rectangle, n: int)
    ensures |r.Samples(n)| == if n < 0 then 0 else 4 * (n / 4)
    ensures n < 4 ==> r.Samples(n) == []
  {
  }

  /** Group `g` is one point on the bottom, right, top and left edges, in that order. */
  lemma RectangleGroupOrder(r: Rectangle, n: int, g: nat)
    requires g < n / 4
    ensures 4 * g + 3 < |r.Samples(n)|
    ensures r.Samples(n)[4 * g].y == r.Bottom()
    ensures r.Samples(n)[4 * g + 1].x == r.Right()
    ensures r.Samples(n)[4 * g + 2].y == r.Top()
    ensures r.Samples(n)[4 * g + 3].x == r.Left()
  {
    var pts := r.Samples(n);
    assert (4 * g) / 4 == g && (4 * g) % 4 == 0;
    assert (4 * g + 1) / 4 == g && (4 * g + 1) % 4 == 1;
    assert (4 * g + 2) / 4 == g && (4 * g + 2) % 4 == 2;
    assert (4 * g + 3) / 4 == g && (4 * g + 3) % 4 == 3;
  }

  /** The first group is the four corners: bottom-left, bottom-right, top-right, top-left. */
  lemma RectangleFirstCorners(r: Rectangle, n: int)
    requires n >= 4
    ensures |r.Samples(n)| >= 4
    ensures r.Samples(n)[..4] == [Point(r.Left(), r.Bottom()), Point(r.Right(), r.Bottom()),
                                  Point(r.Right(), r.Top()), Point(r.Left(), r.Top())]
  {
    var pts := r.Samples(n);
    var k := n / 4;
    assert Fraction(0, k) == 0.0;
    assert pts[0] == r.EdgePoint(0.0, 0) == Point(r.Left(), r.Bottom());
    assert pts[1] == r.EdgePoint(0.0, 1) == Point(r.Right(), r.Bottom());
    assert pts[2] == r.EdgePoint(0.0, 2) == Point(r.Right(), r.Top());
    assert pts[3] == r.EdgePoint(0.0, 3) == Point(r.Left(), r.Top());
  }

  /** With a non-negative width, the bottom and top points lie between the left and right edges. */
  lemma HorizontalRun(r: Rectangle, t: real, side: nat)
    requires 0.0 <= t < 1.0 && (side == 0 || side == 2)
    requires r.width >= 0.0 && r.height >= 0.0
    ensures r.InsidePoint(r.EdgePoint(t, side))
  {
    var cx, cy, w, h := r.centerX, r.centerY, r.width, r.height;
    ScaleWithin(w, t);
    if side == 0 {
      assert r.EdgePoint(t, side) == Point(cx - w / 2.0 + w * t, cy - h / 2.0);
    } else {
      assert r.EdgePoint(t, side) == Point(cx + w / 2.0 - w * t, cy + h / 2.0);
    }
  }

  /** With a non-negative height, the right and left points lie between the bottom and top edges. */
  lemma VerticalRun(r: Rectangle, t: real, side: nat)
    requires 0.0 <= t < 1.0 && (side == 1 || side == 3)
    requires r.width >= 0.0 && r.height >= 0.0
    ensures r.InsidePoint(r.EdgePoint(t, side))
  {
    var cx, cy, w, h := r.centerX, r.centerY, r.width, r.height;
    ScaleWithin(h, t);
    if side == 1 {
      assert r.EdgePoint(t, side) == Point(cx + w / 2.0, cy - h / 2.0 + h * t);
    } else {
      assert r.EdgePoint(t, side) == Point(cx - w / 2.0, cy + h / 2.0 - h * t);
    }
  }

  /** With non-negative sides, every sampled point lies in the closed rectangle. */
  lemma RectanglePointInside(r: Rectangle, g: nat, side: nat, perSide: nat)
    requires g < perSide && side < 4
    requires r.width >= 0.0 && r.height >= 0.0
    ensures r.InsidePoint(r.SidePoint(g, side, perSide))
  {
    if side == 0 || side == 2 {
      HorizontalRun(r, Fraction(g, perSide), side);
    } else {
      VerticalRun(r, Fraction(g, perSide), side);
    }
  }

  /** At least one group is emitted and all of them lie inside exactly when both sides are non-negative. */
  lemma RectangleSamplesInside(r: Rectangle, n: int)
    requires n >= 4
    ensures (forall p :: p in r.Samples(n) ==> r.InsidePoint(p)) <==> r.width >= 0.0 && r.height >= 0.0
  {
    var pts := r.Samples(n);
    var k := n / 4;
    if r.width >= 0.0 && r.height >= 0.0 {
      forall p | p in pts
        ensures r.InsidePoint(p)
      {
        var j :| 0 <= j < |pts| && pts[j] == p;
        RectanglePointInside(r, j / 4, j % 4, k);
      }
    } else {
      RectangleFirstCorners(r, n);
      assert pts[0] == pts[..4][0];
      assert pts[0] in pts && !r.InsidePoint(pts[0]);
    }
  }

  // Composite shapes

  /**
    A circle, kept opaque: its boundary sampling uses sine and cosine and its
    containment test a square root, so the sampling is carried as a given
    function and the covered region as a given set of points.
   */
  datatype Circle = Circle(material: int, sampler: int -> seq<Point>, region: iset<Point>)

  /** A shape that can be a part of a composite shape. */
  datatype Part =
    | CirclePart(circle: Circle)
    | SquarePart(square: Square)
    | RectanglePart(rectangle: Rectangle)
  {
    function InsidePoint(p: Point): bool
    {
      match this
      case CirclePart(c) => p in c.region
      case SquarePart(sq) => sq.InsidePoint(p)
      case RectanglePart(r) => r.InsidePoint(p)
    }

    function Samples(numPoints: int): seq<Point>
    {
      match this
      case CirclePart(c) => c.sampler(numPoints)
      case SquarePart(sq) => sq.Samples(numPoints)
      case RectanglePart(r) => r.Samples(numPoints)
    }

    method ToPoints(numPoints: int) returns (points: seq<Point>)
      ensures points == Samples(numPoints)
    {
      match this
      case CirclePart(c) =>
        points := c.sampler(numPoints);
      case SquarePart(sq) =>
        points := sq.ToPoints(numPoints);
      case RectanglePart(r) =>
        points := r.ToPoints(numPoints);
    }
  }

  /** Each part's own samples, one list per part, in list order. */
  function SampleLists(parts: seq<(Part, bool)>, numPoints: int): seq<seq<Point>>
  {
    seq(|parts|, i requires 0 <= i < |parts| => parts[i].0.Samples(numPoints))
  }

  /** The lists laid end to end. */
  function Flatten(lists: seq<seq<Point>>): seq<Point>
  {
    if lists == [] then [] else Flatten(lists[..|lists| - 1]) + lists[|lists| - 1]
  }

  /** The sum of the lists' lengths. */
  function TotalLength(lists: seq<seq<Point>>): nat
  {
    if lists == [] then 0 else |lists[0]| + TotalLength(lists[1..])
  }

  /** The boundary samples of a list of `(part, isHole)` pairs. */
  function BoundarySamples(parts: seq<(Part, bool)>, numPoints: int): seq<Point>
  {
    Flatten(SampleLists(parts, numPoints))
  }

  /** The running count the containment loop keeps: +1 per solid part and -1 per hole containing `p`. */
  function SignedCount(parts: seq<(Part, bool)>, p: Point): int
  {
    if parts == [] then 0
    else
      var (part, isHole) := parts[|parts| - 1];
      SignedCount(parts[..|parts| - 1], p) + (if part.InsidePoint(p) then (if !isHole then 1 else -1) else 0)
  }

  /** For each part, whether it contains `p` and whether it is a hole. */
  function Hits(parts: seq<(Part, bool)>, p: Point): seq<(bool, bool)>
  {
    seq(|parts|, i requires 0 <= i < |parts| => (parts[i].0.InsidePoint(p), parts[i].1))
  }

  /** The number of hits whose hole flag is `hole`. */
  function CountHits(hits: seq<(bool, bool)>, hole: bool): nat
  {
    |set i | 0 <= i < |hits| && hits[i].0 && hits[i].1 == hole|
  }

  /** The number of solid parts that contain `p`. */
  function SolidCount(parts: seq<(Part, bool)>, p: Point): nat
  {
    CountHits(Hits(parts, p), false)
  }

  /** The number of hole parts that contain `p`. */
  function HoleCount(parts: seq<(Part, bool)>, p: Point): nat
  {
    CountHits(Hits(parts, p), true)
  }

  /** A shape made of solid parts and holes, built up by appending parts. */
  class MultiPartShape {
    const material: int
    var parts: seq<(Part, bool)>

    constructor (material: int)
      ensures this.material == material && parts == []
    {
      this.material := material;
      parts := [];
    }

    /** Appends one part; earlier parts are untouched. */
    method AddPart(part: Part, isHole: bool := false)
      modifies this
      ensures parts == old(parts) + [(part, isHole)]
    {
      parts := parts + [(part, isHole)];
    }

    /** Every part's samples in the order the parts were added; holes contribute theirs unchanged. */
    method ToPoints(numPoints: int) returns (points: seq<Point>)
      ensures points == BoundarySamples(parts, numPoints)
      ensures |points| == TotalLength(SampleLists(parts, numPoints))
    {
      points := [];
      var i := 0;
      while i < |parts|
        invariant 0 <= i <= |parts|
        invariant points == BoundarySamples(parts[..i], numPoints)
      {
        var (part, isHole) := parts[i];
        var partPoints := part.ToPoints(numPoints);
        if isHole {
          partPoints := seq(|partPoints|, j requires 0 <= j < |partPoints| => Point(partPoints[j].x, partPoints[j].y));
        }
        assert partPoints == part.Samples(numPoints);
        assert SampleLists(parts[..i + 1], numPoints) == SampleLists(parts[..i], numPoints) + [partPoints];
        points := points + partPoints;
        i := i + 1;
      }
      assert parts[..|parts|] == parts;
      FlattenLength(SampleLists(parts, numPoints));
    }

    /** Inside exactly when more solid parts than holes contain the point. */
    method InsidePoint(p: Point) returns (inside: bool)
      ensures inside <==> SolidCount(parts, p) > HoleCount(parts, p)
    {
      var insideCount := 0;
      var i := 0;
      while i < |parts|
        invariant 0 <= i <= |parts|
        invariant insideCount == SignedCount(parts[..i], p)
      {
        var (part, isHole) := parts[i];
        if part.InsidePoint(p) {
          insideCount := insideCount + if !isHole then 1 else -1;
        }
        assert parts[..i + 1][..i] == parts[..i];
        i := i + 1;
      }
      assert parts[..|parts|] == parts;
      SignedCountIsDifference(parts, p);
      inside := insideCount > 0;
    }
  }

  // Properties of composite shapes

  /** Flattening distributes over concatenation. */
  lemma {:induction false} FlattenAppend(a: seq<seq<Point>>, b: seq<seq<Point>>)
    ensures Flatten(a + b) == Flatten(a) + Flatten(b)
    decreases |b|
  {
    if b == [] {
      assert a + b == a;
    } else {
      var b' := b[..|b| - 1];
      assert (a + b)[..|a + b| - 1] == a + b';
      FlattenAppend(a, b');
    }
  }

  lemma FlattenSingle(list: seq<Point>)
    ensures Flatten([list]) == list
  {
    assert [list][..0] == [];
  }

  /** A flattened list is as long as the lists together. */
  lemma {:induction false} FlattenLength(lists: seq<seq<Point>>)
    ensures |Flatten(lists)| == TotalLength(lists)
    decreases |lists|
  {
    if lists != [] {
      assert lists == [lists[0]] + lists[1..];
      FlattenAppend([lists[0]], lists[1..]);
      FlattenSingle(lists[0]);
      FlattenLength(lists[1..]);
    }
  }

  /** Sampling two part lists one after the other concatenates their samples. */
  lemma SamplesOfAppend(a: seq<(Part, bool)>, b: seq<(Part, bool)>, n: int)
    ensures BoundarySamples(a + b, n) == BoundarySamples(a, n) + BoundarySamples(b, n)
  {
    assert SampleLists(a + b, n) == SampleLists(a, n) + SampleLists(b, n);
    FlattenAppend(SampleLists(a, n), SampleLists(b, n));
  }

  /** The number of composite samples is the sum of the parts' sample counts. */
  lemma SamplesLength(parts: seq<(Part, bool)>, n: int)
    ensures |BoundarySamples(parts, n)| == TotalLength(SampleLists(parts, n))
  {
    FlattenLength(SampleLists(parts, n));
  }

  /** Part `k`'s samples sit, unchanged, between those of the parts before it and those after it. */
  lemma PartSamplesInPlace(parts: seq<(Part, bool)>, k: nat, n: int)
    requires k < |parts|
    ensures BoundarySamples(parts, n)
         == BoundarySamples(parts[..k], n) + parts[k].0.Samples(n) + BoundarySamples(parts[k + 1..], n)
  {
    assert parts == parts[..k] + [parts[k]] + parts[k + 1..];
    SamplesOfAppend(parts[..k] + [parts[k]], parts[k + 1..], n);
    SamplesOfAppend(parts[..k], [parts[k]], n);
    assert SampleLists([parts[k]], n) == [parts[k].0.Samples(n)];
    FlattenSingle(parts[k].0.Samples(n));
  }

  /** The running count is the number of containing solid parts minus the number of containing holes. */
  lemma {:induction false} SignedCountIsDifference(parts: seq<(Part, bool)>, p: Point)
    ensures SignedCount(parts, p) == SolidCount(parts, p) - HoleCount(parts, p)
    decreases |parts|
  {
    if parts != [] {
      SignedCountIsDifference(parts[..|parts| - 1], p);
      CountStep(parts, p);
    }
  }

  /** The last part adds one to the solid or to the hole count exactly when it contains `p`. */
  lemma CountStep(parts: seq<(Part, bool)>, p: Point)
    requires parts != []
    ensures var (last, isHole) := parts[|parts| - 1];
      && SolidCount(parts, p) == SolidCount(parts[..|parts| - 1], p) + (if !isHole && last.InsidePoint(p) then 1 else 0)
      && HoleCount(parts, p) == HoleCount(parts[..|parts| - 1], p) + (if isHole && last.InsidePoint(p) then 1 else 0)
  {
    var m := |parts| - 1;
    assert Hits(parts[..m], p) == Hits(parts, p)[..m];
    CountHitsStep(Hits(parts, p), false);
    CountHitsStep(Hits(parts, p), true);
  }

  /** Dropping the last hit lowers the count by one exactly when that hit is counted. */
  lemma CountHitsStep(hits: seq<(bool, bool)>, hole: bool)
    requires hits != []
    ensures CountHits(hits, hole) == CountHits(hits[..|hits| - 1], hole)
              + (if hits[|hits| - 1].0 && hits[|hits| - 1].1 == hole then 1 else 0)
  {
    var m := |hits| - 1;
    var init := hits[..m];
    var all := set i | 0 <= i < |hits| && hits[i].0 && hits[i].1 == hole;
    var all' := set i | 0 <= i < |init| && init[i].0 && init[i].1 == hole;
    forall i | 0 <= i < m
      ensures i in all <==> i in all'
    {
      assert init[i] == hits[i];
    }
    assert m !in all';
    if hits[m].0 && hits[m].1 == hole {
      assert all == all' + {m};
    } else {
      assert all == all';
    }
  }

  /** Appending a part moves the count by that part's contribution alone. */
  lemma AppendShiftsCount(parts: seq<(Part, bool)>, part: Part, isHole: bool, p: Point)
    ensures SolidCount(parts + [(part, isHole)], p) - HoleCount(parts + [(part, isHole)], p)
         == SolidCount(parts, p) - HoleCount(parts, p)
            + (if part.InsidePoint(p) then (if isHole then -1 else 1) else 0)
  {
    var longer := parts + [(part, isHole)];
    assert longer[..|longer| - 1] == parts;
    CountStep(longer, p);
  }

  /** A point that no solid part contains is never inside, however many holes there are. */
  lemma NoSolidNotInside(parts: seq<(Part, bool)>, p: Point)
    requires forall i :: 0 <= i < |parts| && !parts[i].1 ==> !parts[i].0.InsidePoint(p)
    ensures !(SolidCount(parts, p) > HoleCount(parts, p))
  {
    var hits := Hits(parts, p);
    assert (set i | 0 <= i < |hits| && hits[i].0 && hits[i].1 == false) == {};
  }

  /** A point inside one solid part and one hole cancels out to outside. */
  lemma SolidAndHoleCancel(solid: Part, hole: Part, p: Point)
    requires solid.InsidePoint(p) && hole.InsidePoint(p)
    ensures SolidCount([(solid, false), (hole, true)], p) == 1
    ensures HoleCount([(solid, false), (hole, true)], p) == 1
  {
    var hits := Hits([(solid, false), (hole, true)], p);
    assert hits == [(true, false), (true, true)];
    assert (set i | 0 <= i < |hits| && hits[i].0 && hits[i].1 == false) == {0};
    assert (set i | 0 <= i < |hits| && hits[i].0 && hits[i].1 == true) == {1};
  }

  /** Counting is signed, not a union minus holes: two overlapping solids outvote one hole. */
  lemma TwoSolidsOutvoteHole(a: Part, b: Part, hole: Part, p: Point)
    requires a.InsidePoint(p) && b.InsidePoint(p) && hole.InsidePoint(p)
    ensures SolidCount([(a, false), (b, false), (hole, true)], p) == 2
    ensures HoleCount([(a, false), (b, false), (hole, true)], p) == 1
  {
    var hits := Hits([(a, false), (b, false), (hole, true)], p);
    assert hits == [(true, false), (true, false), (true, true)];
    assert (set i | 0 <= i < |hits| && hits[i].0 && hits[i].1 == false) == {0, 1};
    assert (set i | 0 <= i < |hits| && hits[i].0 && hits[i].1 == true) == {2};
  }
}
