/** `generate_pattern` of `squares.py`: a 20 x 20 grid of black shapes, one per
    cell, each either a square turned by a quarter-turn multiple or a diamond
    inscribed in its cell. The geometry is exact rational arithmetic: cell
    origins are multiples of 0.5 and diamond vertices lie at the midpoints of
    the cell's edges. The model keeps the patches handed to the plotting
    library, in the order they are added. */
module Pattern {
  import opened Draws

  const Rows: nat := 20
  const Cols: nat := 20
  const CellSize: real := 0.5

  /** Both axes run from 0 to this. */
  const AxisLimit: real := 10.0

  /** The rotations a square may get, in degrees. */
  const QuarterTurns: seq<int> := [0, 90, 180, 270]

  /** The shape names the kind is chosen from. */
  const ShapeNames: seq<string> := ["square", "diamond"]

  const Ink: string := "black"

  datatype Point = Point(x: real, y: real)

  /** A patch: a rectangle anchored at its lower-left corner, turned by `angle`
      degrees about that corner, or a closed polygon through `vertices`. */
  datatype Figure =
    | Rectangle(corner: Point, width: real, height: real, angle: int, colour: string)
    | Polygon(vertices: seq<Point>, closed: bool, colour: string)

  /** The point half-way between `a` and `b`. */
  function Midpoint(a: Point, b: Point): Point
  {
    Point((a.x + b.x) / 2.0, (a.y + b.y) / 2.0)
  }

  /** The closed square of side `CellSize` whose lower-left corner is `o`. */
  ghost predicate InCell(v: Point, o: Point)
  {
    o.x <= v.x <= o.x + CellSize && o.y <= v.y <= o.y + CellSize
  }

  ghost predicate InAxes(v: Point)
  {
    0.0 <= v.x <= AxisLimit && 0.0 <= v.y <= AxisLimit
  }

  /** `(i * cell_size, j * cell_size)`: the lower-left corner of cell `(i, j)`.
      The whole cell square lies within the axis limits. */
  function Origin(i: nat, j: nat): (o: Point)
    requires i < Rows && j < Cols
    ensures 0.0 <= o.x && o.x + CellSize <= AxisLimit
    ensures 0.0 <= o.y && o.y + CellSize <= AxisLimit
  {
    Point(i as real * CellSize, j as real * CellSize)
  }

  /** The diamond of the cell at `o`: the midpoints of the bottom, right, top
      and left edges of the cell square, in that order. */
  function DiamondAt(o: Point): (vs: seq<Point>)
    ensures |vs| == 4
    ensures vs[0] == Midpoint(o, Point(o.x + CellSize, o.y))
    ensures vs[1] == Midpoint(Point(o.x + CellSize, o.y), Point(o.x + CellSize, o.y + CellSize))
    ensures vs[2] == Midpoint(Point(o.x, o.y + CellSize), Point(o.x + CellSize, o.y + CellSize))
    ensures vs[3] == Midpoint(o, Point(o.x, o.y + CellSize))
    ensures forall k :: 0 <= k < 4 ==> InCell(vs[k], o)
  {
    [ Point(o.x + CellSize / 2.0, o.y),
      Point(o.x + CellSize, o.y + CellSize / 2.0),
      Point(o.x + CellSize / 2.0, o.y + CellSize),
      Point(o.x, o.y + CellSize / 2.0) ]
  }

  /** The patch of cell `(i, j)` given its rotation draw `ua` and its kind draw
      `uk`: a square of side `CellSize` at the cell origin turned by a quarter
      turn multiple, or the cell's diamond, both in black. */
  function CellFigure(i: nat, j: nat, ua: real, uk: real): (f: Figure)
    requires i < Rows && j < Cols && IsUnit(ua) && IsUnit(uk)
    ensures f.Rectangle? <==> Choice(ShapeNames, uk) == "square"
    ensures f.Rectangle? ==> f.corner == Origin(i, j) && f.width == CellSize && f.height == CellSize
    ensures f.Rectangle? ==> f.angle in QuarterTurns
    ensures f.Polygon? ==> f.closed && f.vertices == DiamondAt(Origin(i, j))
    ensures f.colour == Ink
  {
    var angle := Choice(QuarterTurns, ua);
    var o := Origin(i, j);
    var shapeType := Choice(ShapeNames, uk);
    if shapeType == "square" then Rectangle(o, CellSize, CellSize, angle, Ink)
    else Polygon(DiamondAt(o), true, Ink)
  }

  /** The cell a patch is anchored at: a square's corner, or for a diamond the
      corner recovered from its left and bottom vertices. */
  function Anchor(f: Figure): Point
    requires f.Polygon? ==> |f.vertices| == 4
  {
    match f
    case Rectangle(corner, _, _, _, _) => corner
    case Polygon(vs, _, _) => Point(vs[3].x, vs[0].y)
  }

  /** The patches `generate_pattern` adds, in order, when the draws start at
      `draws(0)`: figure `k` belongs to cell `(k / Cols, k % Cols)` and uses
      draws `2k` (rotation) and `2k + 1` (kind). */
  ghost predicate IsPattern(figures: seq<Figure>, draws: nat -> real, n: nat)
    requires IsUnitStream(draws) && n <= Rows * Cols
  {
    && |figures| == n
    && forall k :: 0 <= k < n ==>
         figures[k] == CellFigure(k / Cols, k % Cols, draws(2 * k), draws(2 * k + 1))
  }

  // ---------------------------------------------------------------------------
  // Properties of the geometry
  // ---------------------------------------------------------------------------

  /** Distinct cells have distinct origins. */
  lemma OriginInjective(i1: nat, j1: nat, i2: nat, j2: nat)
    requires i1 < Rows && j1 < Cols && i2 < Rows && j2 < Cols
    ensures Origin(i1, j1) == Origin(i2, j2) <==> i1 == i2 && j1 == j2
  {
  }

  /** Every patch of a cell is anchored at that cell's origin, and all its
      vertices (for a diamond) or its unturned square (for a square) lie within
      the cell square and so within the axes. */
  lemma CellFigureInCell(i: nat, j: nat, ua: real, uk: real)
    requires i < Rows && j < Cols && IsUnit(ua) && IsUnit(uk)
    ensures var f := CellFigure(i, j, ua, uk);
            && Anchor(f) == Origin(i, j)
            && (f.Polygon? ==> forall k :: 0 <= k < |f.vertices| ==>
                                 InCell(f.vertices[k], Origin(i, j)) && InAxes(f.vertices[k]))
            && (f.Rectangle? ==> InAxes(f.corner)
                                 && InAxes(Point(f.corner.x + f.width, f.corner.y + f.height)))
  {
  }

  /** A complete pattern has one patch per cell: the patch anchored at the
      origin of cell `(i, j)` is exactly the one at position `i * Cols + j`. */
  lemma OnePatchPerCell(figures: seq<Figure>, draws: nat -> real, i: nat, j: nat)
    requires IsUnitStream(draws) && IsPattern(figures, draws, Rows * Cols)
    requires i < Rows && j < Cols
    ensures forall k :: 0 <= k < |figures| ==>
              (Anchor(figures[k]) == Origin(i, j) <==> k == i * Cols + j)
  {
    forall k | 0 <= k < |figures|
      ensures Anchor(figures[k]) == Origin(i, j) <==> k == i * Cols + j
    {
      CellFigureInCell(k / Cols, k % Cols, draws(2 * k), draws(2 * k + 1));
      OriginInjective(k / Cols, k % Cols, i, j);
      assert k == (k / Cols) * Cols + k % Cols;
    }
  }

  // ---------------------------------------------------------------------------
  // The generator
  // ---------------------------------------------------------------------------

  /** Appending the patch of the next cell extends a pattern by one. */
  lemma PatternStep(figures: seq<Figure>, draws: nat -> real, n: nat, shape: Figure)
    requires IsUnitStream(draws) && n < Rows * Cols && IsPattern(figures, draws, n)
    requires shape == CellFigure(n / Cols, n % Cols, draws(2 * n), draws(2 * n + 1))
    ensures IsPattern(figures + [shape], draws, n + 1)
  {
    var next := figures + [shape];
    forall k | 0 <= k < n + 1
      ensures next[k] == CellFigure(k / Cols, k % Cols, draws(2 * k), draws(2 * k + 1))
    {
      if k < n {
        assert next[k] == figures[k];
      }
    }
  }

  /** The inner loop of `generate_pattern`: one patch for each cell of row `i`,
      the rotation drawn before the kind. */
  method VisitRow(i: nat, pos0: nat, figures0: seq<Figure>, draws: nat -> real)
      returns (pos: nat, figures: seq<Figure>)
    requires IsUnitStream(draws) && i < Rows
    requires IsPattern(figures0, draws, i * Cols) && pos0 == 2 * |figures0|
    ensures IsPattern(figures, draws, (i + 1) * Cols) && pos == 2 * |figures|
  {
    pos, figures := pos0, figures0;
    for j := 0 to Cols
      invariant IsPattern(figures, draws, i * Cols + j)
      invariant pos == 2 * |figures|
    {
      var angle := Choice(QuarterTurns, draws(pos));
      var o := Origin(i, j);
      var shapeType := Choice(ShapeNames, draws(pos + 1));
      var shape;
      if shapeType == "square" {
        shape := Rectangle(o, CellSize, CellSize, angle, Ink);
      } else {
        shape := Polygon(DiamondAt(o), true, Ink);
      }
      ghost var k := i * Cols + j;
      assert k / Cols == i && k % Cols == j;
      assert shape == CellFigure(k / Cols, k % Cols, draws(2 * k), draws(2 * k + 1));
      PatternStep(figures, draws, k, shape);
      figures := figures + [shape];
      pos := pos + 2;
    }
  }

  /** `generate_pattern`: visit the 20 x 20 cells row by row and add one patch
      per cell, never skipping one. */
  method GeneratePattern(draws: nat -> real) returns (figures: seq<Figure>)
    requires IsUnitStream(draws)
    ensures |figures| == Rows * Cols
    ensures forall k :: 0 <= k < |figures| ==>
              figures[k] == CellFigure(k / Cols, k % Cols, draws(2 * k), draws(2 * k + 1))
  {
    var pos: nat := 0;
    figures := [];
    for i := 0 to Rows
      invariant IsPattern(figures, draws, i * Cols)
      invariant pos == 2 * |figures|
    {
      pos, figures := VisitRow(i, pos, figures, draws);
    }
  }
}
