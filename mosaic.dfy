/** `generate_squares`: the "squares" style. For every kept cell of the 15 x 15
    grid one shape is drawn: a square, a diamond or a circle, placed at the
    jittered cell coordinates, turned by `(i*j) % 90` degrees plus a jitter of
    up to 10 degrees, filled with a colour of the palette chosen once for the
    image. The model keeps the shape descriptors handed to the plotting
    library; the size factor (a product of sine and cosine) is not part of it. */
module Mosaic {
  import opened Draws
  import opened Grid

  datatype ShapeKind = Square | Diamond | Circle

  const ShapeKinds: seq<ShapeKind> := [Square, Diamond, Circle]

  /** One shape of the mosaic: its cell, the jittered point `(x, y)` of that
      cell (the centre of a diamond or circle; for a square, the centre before
      the rectangle is turned about its lower-left corner), its rotation in
      degrees, its kind and its fill colour. */
  datatype Tile = Tile(row: nat, col: nat, x: real, y: real, angle: real, kind: ShapeKind, colour: string)

  /** Draws a kept cell consumes: skip, x, y, angle, kind, colour. */
  const DrawsPerTile: nat := 6

  /** Half the width of the random rotation jitter, in degrees. */
  const AngleJitter: real := 10.0

  /** `(i * j) % 90`: the rotation a cell starts from. */
  function BaseRotation(i: nat, j: nat): (d: nat)
    ensures d <= 89
  {
    (i * j) % 90
  }

  /** The shape of cell `(i, j)` whose skip draw is at position `p`. */
  function TileAt(i: nat, j: nat, p: nat, draws: nat -> real, palette: seq<string>): Tile
    requires IsUnitStream(draws) && |palette| > 0
  {
    Tile(i, j,
         CellCoord(i) + Uniform(-Jitter, Jitter, draws(p + 1)),
         CellCoord(j) + Uniform(-Jitter, Jitter, draws(p + 2)),
         BaseRotation(i, j) as real + Uniform(-AngleJitter, AngleJitter, draws(p + 3)),
         Choice(ShapeKinds, draws(p + 4)),
         Choice(palette, draws(p + 5)))
  }

  /** The shapes of cells `c` onwards when the skip draw of cell `c` is at
      position `p`. */
  function TilesFrom(c: nat, p: nat, draws: nat -> real, palette: seq<string>): seq<Tile>
    requires IsUnitStream(draws) && |palette| > 0 && c <= Cells
    decreases Cells - c
  {
    if c == Cells then []
    else if draws(p) < SkipBelow then TilesFrom(c + 1, p + 1, draws, palette)
    else [TileAt(c / Cols, c % Cols, p, draws, palette)] + TilesFrom(c + 1, p + DrawsPerTile, draws, palette)
  }

  function Cell(t: Tile): nat
  {
    CellIndex(t.row, t.col)
  }

  /** What every emitted shape satisfies: its cell is on the grid, its centre
      is within 0.5 of the cell coordinates, its rotation within 10 degrees of
      the cell's base rotation, and its colour comes from the palette. */
  ghost predicate TileFits(t: Tile, palette: seq<string>)
  {
    && t.row < Rows && t.col < Cols
    && CellCoord(t.row) - Jitter <= t.x < CellCoord(t.row) + Jitter
    && CellCoord(t.col) - Jitter <= t.y < CellCoord(t.col) + Jitter
    && BaseRotation(t.row, t.col) as real - AngleJitter <= t.angle
    && t.angle < BaseRotation(t.row, t.col) as real + AngleJitter
    && t.colour in palette
  }

  /** Shapes in strictly increasing row-major cell order: no cell twice. */
  ghost predicate RowMajor(ts: seq<Tile>)
  {
    forall k1, k2 :: 0 <= k1 < k2 < |ts| ==> Cell(ts[k1]) < Cell(ts[k2])
  }

  /** The position of the skip draw of cell `c` when cell 0's is at 1 (the
      first draw chooses the palette). */
  ghost function SkipDrawPos(c: nat, draws: nat -> real): nat
    decreases c
  {
    if c == 0 then 1
    else
      var p := SkipDrawPos(c - 1, draws);
      if draws(p) < SkipBelow then p + 1 else p + DrawsPerTile
  }

  // ---------------------------------------------------------------------------
  // Properties of the specification
  // ---------------------------------------------------------------------------

  /** The shape of cell `c` sits in cell `c` and fits it. */
  lemma TileAtFits(c: nat, p: nat, draws: nat -> real, palette: seq<string>)
    requires IsUnitStream(draws) && |palette| > 0 && c < Cells
    ensures Cell(TileAt(c / Cols, c % Cols, p, draws, palette)) == c
    ensures TileFits(TileAt(c / Cols, c % Cols, p, draws, palette), palette)
  {
  }

  /** From cell `c` on, at most one shape per remaining cell is emitted, every
      shape fits its cell, and the shapes are in row-major order. */
  lemma {:induction false} TilesFromShape(c: nat, p: nat, draws: nat -> real, palette: seq<string>)
    requires IsUnitStream(draws) && |palette| > 0 && c <= Cells
    ensures var ts := TilesFrom(c, p, draws, palette);
            && |ts| <= Cells - c
            && (forall k :: 0 <= k < |ts| ==> c <= Cell(ts[k]) < Cells && TileFits(ts[k], palette))
            && RowMajor(ts)
    decreases Cells - c
  {
    if c < Cells {
      if draws(p) < SkipBelow {
        TilesFromShape(c + 1, p + 1, draws, palette);
      } else {
        var rest := TilesFrom(c + 1, p + DrawsPerTile, draws, palette);
        TilesFromShape(c + 1, p + DrawsPerTile, draws, palette);
        var t := TileAt(c / Cols, c % Cols, p, draws, palette);
        TileAtFits(c, p, draws, palette);
        var ts := [t] + rest;
        assert ts == TilesFrom(c, p, draws, palette);
        forall k1, k2 | 0 <= k1 < k2 < |ts| ensures Cell(ts[k1]) < Cell(ts[k2]) {
          if k1 > 0 {
            assert ts[k1] == rest[k1 - 1] && ts[k2] == rest[k2 - 1];
          } else {
            assert ts[k2] == rest[k2 - 1];
          }
        }
        forall k | 0 <= k < |ts| ensures c <= Cell(ts[k]) < Cells && TileFits(ts[k], palette) {
          if k > 0 {
            assert ts[k] == rest[k - 1];
          }
        }
      }
    }
  }

  /** Some shape of `ts` sits in cell `c`. */
  ghost predicate HasCell(ts: seq<Tile>, c: nat)
  {
    exists k :: 0 <= k < |ts| && Cell(ts[k]) == c
  }

  lemma HasCellCons(t: Tile, rest: seq<Tile>, c: nat)
    ensures HasCell([t] + rest, c) <==> Cell(t) == c || HasCell(rest, c)
  {
    var ts := [t] + rest;
    if HasCell(ts, c) && Cell(t) != c {
      var k :| 0 <= k < |ts| && Cell(ts[k]) == c;
      assert k > 0 && ts[k] == rest[k - 1];
    }
    if HasCell(rest, c) {
      var k :| 0 <= k < |rest| && Cell(rest[k]) == c;
      assert ts[k + 1] == rest[k];
    }
    if Cell(t) == c {
      assert ts[0] == t;
    }
  }

  /** Past cell `c0`, the shapes from `c0` on and those from `c0 + 1` on
      agree: they have a shape in the same cells, and the latter are among the
      former. */
  lemma StepFrom(c0: nat, c: nat, draws: nat -> real, palette: seq<string>)
    requires IsUnitStream(draws) && |palette| > 0 && c0 < c < Cells
    ensures var xs := TilesFrom(c0, SkipDrawPos(c0, draws), draws, palette);
            var rest := TilesFrom(c0 + 1, SkipDrawPos((c0 + 1), draws), draws, palette);
            && (HasCell(xs, c) <==> HasCell(rest, c))
            && (forall x :: x in rest ==> x in xs)
  {
    var p := SkipDrawPos(c0, draws);
    var q := SkipDrawPos((c0 + 1), draws);
    var x := TileAt(c0 / Cols, c0 % Cols, p, draws, palette);
    assert q == if draws(p) < SkipBelow then p + 1 else p + DrawsPerTile;
    if draws(p) < SkipBelow {
      assert TilesFrom(c0, p, draws, palette) == TilesFrom(c0 + 1, p + 1, draws, palette);
    } else {
      assert TilesFrom(c0, p, draws, palette) == [x] + TilesFrom(c0 + 1, p + DrawsPerTile, draws, palette);
      TileAtFits(c0, p, draws, palette);
      HasCellCons(x, TilesFrom(c0 + 1, q, draws, palette), c);
    }
  }

  /** A cell whose skip draw is below 0.3 has no shape among those from it on. */
  lemma SkippedCellEmpty(c0: nat, p: nat, draws: nat -> real, palette: seq<string>)
    requires IsUnitStream(draws) && |palette| > 0 && c0 < Cells && draws(p) < SkipBelow
    ensures !HasCell(TilesFrom(c0, p, draws, palette), c0)
  {
    assert TilesFrom(c0, p, draws, palette) == TilesFrom(c0 + 1, p + 1, draws, palette);
    TilesFromShape(c0 + 1, p + 1, draws, palette);
  }

  /** A cell whose skip draw is at least 0.3 gets the shape its draws describe. */
  lemma KeptCellPresent(c0: nat, p: nat, draws: nat -> real, palette: seq<string>)
    requires IsUnitStream(draws) && |palette| > 0 && c0 < Cells && draws(p) >= SkipBelow
    ensures var x := TileAt(c0 / Cols, c0 % Cols, p, draws, palette);
            x in TilesFrom(c0, p, draws, palette) && HasCell(TilesFrom(c0, p, draws, palette), c0)
  {
    var x := TileAt(c0 / Cols, c0 % Cols, p, draws, palette);
    assert TilesFrom(c0, p, draws, palette) == [x] + TilesFrom(c0 + 1, p + DrawsPerTile, draws, palette);
    assert TilesFrom(c0, p, draws, palette)[0] == x;
    TileAtFits(c0, p, draws, palette);
  }

  /** Cell `c` (at or after `c0`) gets a shape exactly when its skip draw is
      at least 0.3, and that shape is the one its draws describe. */
  lemma {:induction false} KeptIffDrawFrom(c0: nat, c: nat, draws: nat -> real, palette: seq<string>)
    requires IsUnitStream(draws) && |palette| > 0 && c0 <= c < Cells
    ensures var xs := TilesFrom(c0, SkipDrawPos(c0, draws), draws, palette);
            var pc := SkipDrawPos(c, draws);
            && (HasCell(xs, c) <==> draws(pc) >= SkipBelow)
            && (draws(pc) >= SkipBelow ==> TileAt(c / Cols, c % Cols, pc, draws, palette) in xs)
    decreases c - c0
  {
    if c0 < c {
      StepFrom(c0, c, draws, palette);
      KeptIffDrawFrom(c0 + 1, c, draws, palette);
    } else if draws(SkipDrawPos(c0, draws)) < SkipBelow {
      SkippedCellEmpty(c0, SkipDrawPos(c0, draws), draws, palette);
    } else {
      KeptCellPresent(c0, SkipDrawPos(c0, draws), draws, palette);
    }
  }

  /** Over the whole grid: a cell gets a shape exactly when its skip draw is at
      least 0.3. */
  lemma KeptIffDraw(c: nat, draws: nat -> real, palette: seq<string>)
    requires IsUnitStream(draws) && |palette| > 0 && c < Cells
    ensures var ts := TilesFrom(0, 1, draws, palette);
            (exists k :: 0 <= k < |ts| && Cell(ts[k]) == c) <==> draws(SkipDrawPos(c, draws)) >= SkipBelow
  {
    KeptIffDrawFrom(0, c, draws, palette);
  }

  /** The shapes so far, `done`, followed by those of cells `c` onwards when
      the skip draw of cell `c` is at position `p`: what the generator's loops
      end with from a given point on. */
  function Finish(done: seq<Tile>, c: nat, p: nat, draws: nat -> real, palette: seq<string>): seq<Tile>
    requires IsUnitStream(draws) && |palette| > 0 && c <= Cells
    decreases Cells - c
  {
    if c == Cells then done
    else if draws(p) < SkipBelow then Finish(done, c + 1, p + 1, draws, palette)
    else Finish(done + [TileAt(c / Cols, c % Cols, p, draws, palette)], c + 1, p + DrawsPerTile, draws, palette)
  }

  /** Carrying `done` along is appending it in front. */
  lemma {:induction false} FinishAppends(done: seq<Tile>, c: nat, p: nat, draws: nat -> real, palette: seq<string>)
    requires IsUnitStream(draws) && |palette| > 0 && c <= Cells
    ensures Finish(done, c, p, draws, palette) == done + TilesFrom(c, p, draws, palette)
    decreases Cells - c
  {
    if c < Cells {
      if draws(p) < SkipBelow {
        FinishAppends(done, c + 1, p + 1, draws, palette);
      } else {
        var t := TileAt(c / Cols, c % Cols, p, draws, palette);
        FinishAppends(done + [t], c + 1, p + DrawsPerTile, draws, palette);
        assert done + ([t] + TilesFrom(c + 1, p + DrawsPerTile, draws, palette))
            == (done + [t]) + TilesFrom(c + 1, p + DrawsPerTile, draws, palette);
      }
    }
  }

  // ---------------------------------------------------------------------------
  // The generator
  // ---------------------------------------------------------------------------

  /** The inner loop of `generate_squares`: visit the cells of row `i`,
      skipping a cell when its draw is below 0.3 and otherwise appending one
      shape. */
  method VisitRow(i: nat, pos0: nat, tiles0: seq<Tile>, draws: nat -> real, palette: seq<string>)
      returns (pos: nat, tiles: seq<Tile>)
    requires IsUnitStream(draws) && |palette| > 0 && i < Rows
    ensures Finish(tiles, CellIndex(i + 1, 0), pos, draws, palette)
         == Finish(tiles0, CellIndex(i, 0), pos0, draws, palette)
  {
    pos, tiles := pos0, tiles0;
    for j := 0 to Cols
      invariant Finish(tiles, CellIndex(i, j), pos, draws, palette)
             == Finish(tiles0, CellIndex(i, 0), pos0, draws, palette)
    {
      ghost var c := CellIndex(i, j);
      CellIndexInverse(i, j);
      CellIndexBelow(i, j);
      assert CellIndex(i, j + 1) == c + 1;
      if draws(pos) < SkipBelow {
        pos := pos + 1;
        continue;
      }
      var x := CellCoord(i) + Uniform(-Jitter, Jitter, draws(pos + 1));
      var y := CellCoord(j) + Uniform(-Jitter, Jitter, draws(pos + 2));
      var angle := BaseRotation(i, j) as real + Uniform(-AngleJitter, AngleJitter, draws(pos + 3));
      var kind := Choice(ShapeKinds, draws(pos + 4));
      var colour := Choice(palette, draws(pos + 5));
      var tile := Tile(i, j, x, y, angle, kind, colour);
      assert tile == TileAt(c / Cols, c % Cols, pos, draws, palette);
      tiles := tiles + [tile];
      pos := pos + DrawsPerTile;
    }
    assert CellIndex(i, Cols) == CellIndex(i + 1, 0);
  }

  /** `generate_squares`: choose a palette, then visit the cells row by row. */
  method GenerateSquares(draws: nat -> real) returns (palette: seq<string>, tiles: seq<Tile>)
    requires IsUnitStream(draws)
    ensures palette == ChoosePalette(draws(0)) && palette in Palettes
    ensures tiles == TilesFrom(0, 1, draws, palette)
    ensures |tiles| <= Cells
    ensures RowMajor(tiles)
    ensures forall k :: 0 <= k < |tiles| ==> TileFits(tiles[k], palette)
  {
    palette := ChoosePalette(draws(0));
    ghost var whole := Finish([], 0, 1, draws, palette);
    var pos: nat := 1;
    tiles := [];
    for i := 0 to Rows
      invariant Finish(tiles, CellIndex(i, 0), pos, draws, palette) == whole
    {
      pos, tiles := VisitRow(i, pos, tiles, draws, palette);
    }
    assert CellIndex(Rows, 0) == Cells;
    assert tiles == TilesFrom(0, 1, draws, palette) by {
      FinishAppends([], 0, 1, draws, palette);
      assert [] + TilesFrom(0, 1, draws, palette) == TilesFrom(0, 1, draws, palette);
    }
    assert |tiles| <= Cells && RowMajor(tiles)
        && forall k :: 0 <= k < |tiles| ==> TileFits(tiles[k], palette) by {
      TilesFromShape(0, 1, draws, palette);
    }
  }
}
