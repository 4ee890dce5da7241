# pqmesh shape layer in Dafny

This project models the shape layer of pqmesh, a small quadrilateral mesher.
A shape has two capabilities: it samples points on its boundary, and it
answers whether a point lies inside it. The model covers these shapes:

- `Square` and `Rectangle`: axis-aligned boxes given by centre and size.
  Containment is a closed box test, so points on an edge count as inside.
  `Square.ToPoints(n)` walks the boundary counter-clockwise from the
  bottom-left corner. The walk picks its edge from `t = i / n`.
  `Rectangle.ToPoints(n)` emits `n // 4` groups. Each group has one point
  on the bottom, right, top and left edges, in that order.
- `MultiPartShape`: a class holding an append-only list of
  `(part, isHole)` pairs. Its boundary samples are the parts' samples laid
  end to end. Hole parts contribute their samples unchanged. Its
  containment test is a signed count: +1 for each solid part containing
  the point, -1 for each hole containing it. The point is inside when the
  count is positive.
- `Circle`: an opaque part. Its sampler is a given function and its
  covered region a given set of points.

`_geom.py` is an older copy of the same `Square`, so one `Square` model
serves both files. The per-edge lemmas cite `_geom.py`. The others cite
`src/geometry.py`.

Coordinates are exact reals. The sample count is an `int`. In Python,
`range` of a negative number is empty, so a negative count yields no
points here too. Python's `num_points // 4` floors, and Dafny's `/` by the
positive divisor 4 floors as well, so the model writes `numPoints / 4`.

The loops of the source are methods with loop invariants. Each method is
proved equal to a specification function: `Square.Samples`,
`Rectangle.Samples`, `BoundarySamples` or the counts `SolidCount` /
`HoleCount`. The lemmas state the properties of those functions.

src/main.py:6 and tests/test_geometry.py:25 call `get_boundary_points()`,
but the shapes in src/geometry.py define `to_points(num_points)`. The model
follows src/geometry.py.

## Model

| member | source | states |
|---|---|---|
| `Geometry.Square.InsidePoint` | src/geometry.py:97-101 | the absolute-value test holds exactly when the point lies in the closed interval of the square on both axes, edges included |
| `Geometry.Square.ToPoints` | src/geometry.py:66-95 | returns exactly `n` points (none when `n <= 0`); point `i` is the walk point at `t = i / n`; equal to `Square.Samples(n)` |
| `Geometry.BottomRun` | src/geometry.py:70-72 | for `t` in [0, 0.25) the point is on the bottom edge, and between the left and right edges when the side is non-negative |
| `Geometry.RightRun` | src/geometry.py:73-79 | for `t` in [0.25, 0.5) the point is on the right edge, and between the bottom and top edges when the side is non-negative |
| `Geometry.TopRun` | src/geometry.py:80-86 | for `t` in [0.5, 0.75) the point is on the top edge, and between the left and right edges when the side is non-negative |
| `Geometry.LeftRun` | src/geometry.py:87-93 | for `t` in [0.75, 1) the point is on the left edge, and between the bottom and top edges when the side is non-negative |
| `Geometry.SquareWalkInside` | src/geometry.py:68-101 | with side length >= 0, every walk point for `t` in [0, 1) satisfies `Square.InsidePoint` |
| `Geometry.SquareSamplesInside` | src/geometry.py:66-101 | for `n > 0`, all sampled points satisfy `Square.InsidePoint` if and only if the side length is >= 0 |
| `Geometry.SquareFirstPoint` | _geom.py:61-63 | step 0 is the bottom-left corner `(cx - s/2, cy - s/2)` |
| `Geometry.SquareBottomEdge` | _geom.py:61-63 | steps with `i/n` in [0, 0.25), that is `4i < n`, have `y = cy - s/2`, and `x` within the square when `s >= 0` |
| `Geometry.SquareRightEdge` | _geom.py:64-66 | steps with `i/n` in [0.25, 0.5) have `x = cx + s/2`, and `y` within the square when `s >= 0` |
| `Geometry.SquareTopEdge` | _geom.py:67-69 | steps with `i/n` in [0.5, 0.75) have `y = cy + s/2`, and `x` within the square when `s >= 0` |
| `Geometry.SquareLeftEdge` | _geom.py:70-72 | the remaining steps, `i/n` >= 0.75, have `x = cx - s/2`, and `y` within the square when `s >= 0` |
| `Geometry.SquareCornersSampled` | src/geometry.py:68-93 | when 4 divides `n`, steps `0`, `n/4`, `n/2` and `3n/4` are the bottom-left, bottom-right, top-right and top-left corners |
| `Geometry.SquareInsideAsRectangle` | src/geometry.py:147-151 | a square's containment equals that of the rectangle with width and height both equal to its side length |
| `Geometry.Rectangle.InsidePoint` | src/geometry.py:147-151 | the absolute-value test holds exactly when the point lies in the closed interval of the rectangle on both axes, edges included |
| `Geometry.Rectangle.ToPoints` | src/geometry.py:112-145 | the loop's output equals `Rectangle.Samples(n)`: `n // 4` groups of four points; no division happens when there are no groups |
| `Geometry.RectangleSampleCount` | src/geometry.py:113-115 | the output has `4 * (n // 4)` points for `n >= 0`, none for negative `n`, and is empty whenever `n < 4` |
| `Geometry.RectangleGroupOrder` | src/geometry.py:115-144 | group `g` is, in order, a point on the bottom edge, the right edge, the top edge and the left edge |
| `Geometry.RectangleFirstCorners` | src/geometry.py:115-144 | for `n >= 4` the first four points are the corners bottom-left, bottom-right, top-right, top-left |
| `Geometry.HorizontalRun` | src/geometry.py:117-137 | with width and height >= 0, the bottom and top points of any group satisfy `Rectangle.InsidePoint` |
| `Geometry.VerticalRun` | src/geometry.py:124-144 | with width and height >= 0, the right and left points of any group satisfy `Rectangle.InsidePoint` |
| `Geometry.RectanglePointInside` | src/geometry.py:112-151 | with width and height >= 0, every emitted point satisfies `Rectangle.InsidePoint` |
| `Geometry.RectangleSamplesInside` | src/geometry.py:112-151 | for `n >= 4`, all emitted points satisfy `Rectangle.InsidePoint` if and only if width and height are both >= 0 |
| `Geometry.Part.ToPoints` | src/geometry.py:165 | a part's points are its own shape's samples, whatever kind of shape it is |
| `Geometry.MultiPartShape.constructor` | src/geometry.py:155-157 | a new composite shape keeps its material and has no parts |
| `Geometry.MultiPartShape.AddPart` | src/geometry.py:159-160 | appends exactly one `(part, isHole)` pair at the end, with `isHole` false by default; earlier parts are unchanged |
| `Geometry.MultiPartShape.ToPoints` | src/geometry.py:162-171 | returns the parts' samples concatenated in part order, hole parts' samples unchanged; its length is the sum of the parts' sample counts |
| `Geometry.MultiPartShape.InsidePoint` | src/geometry.py:173-178 | returns true exactly when more solid parts than hole parts contain the point |
| `Geometry.SamplesOfAppend` | tests/test_geometry.py:54-69 | the samples of two part lists, one after the other, are the first list's samples followed by the second's |
| `Geometry.SamplesLength` | src/geometry.py:162-171 | the number of composite samples is the sum of the parts' sample counts |
| `Geometry.PartSamplesInPlace` | src/geometry.py:164-170 | part `k`'s samples appear unchanged between the samples of the parts before it and those of the parts after it |
| `Geometry.SignedCountIsDifference` | src/geometry.py:174-178 | the loop's running count equals the number of containing solid parts minus the number of containing holes |
| `Geometry.CountStep` | src/geometry.py:175-177 | the last part adds one to the solid count or to the hole count exactly when it contains the point, according to its hole flag |
| `Geometry.AppendShiftsCount` | src/geometry.py:159-178 | adding a part changes solid-minus-holes by +1 for a containing solid, -1 for a containing hole and 0 otherwise |
| `Geometry.NoSolidNotInside` | src/geometry.py:173-178 | a point that no solid part contains is never inside; this includes a shape with no parts |
| `Geometry.SolidAndHoleCancel` | src/geometry.py:176-178 | a point inside one solid part and one hole has solid count 1 and hole count 1, so it is not inside |
| `Geometry.TwoSolidsOutvoteHole` | src/geometry.py:176-178 | a point covered by two solid parts and one hole has solid count 2 and hole count 1, so it is inside despite the hole |

## Left out

- `Circle` (src/geometry.py:35-55, _geom.py:27-45): sampling uses `sin`/`cos` and containment uses `sqrt`, in floating point. Inside a composite shape a circle is a part whose sampler is a given function `int -> seq<Point>` and whose containment is membership in a given set of points.
- A `MultiPartShape` used as a part of another `MultiPartShape`: `Part` covers circles, squares and rectangles only. A composite part would be an object inside another object's part list, and that aliasing is not modelled.
- `Shape` (src/geometry.py:21-31): the abstract base class becomes the closed datatype `Part`. The `material` attribute is stored but nothing in the shape layer reads it.
- `Point.to_numpy_array` (src/geometry.py:14-17): a numpy conversion.
- Floating-point rounding: all properties hold for exact reals. Python floats may round `i / n`, `s / 2` and the products differently, for example placing a point a rounding error outside the closed box.
- Module-level sample shapes (src/geometry.py:181-184, _geom.py:81-84): constants, not logic.
- src/quadtree.py, src/domain_box.py, src/plot.py, src/main.py: plotting, reporting and an entry script. src/domain_box.py uses a `Quadtree` class that src/quadtree.py does not define (that file holds only `Node` and a plotting helper), so subdivision and mesh generation are not modelled.
- tests/test_geometry.py: it calls `get_boundary_points` and a `num_points` constructor argument that the shapes do not define. It serves only as evidence that composite samples are the concatenation of the parts' samples.
