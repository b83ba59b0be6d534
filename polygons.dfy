/** `generate_irregular_polygons`: the "polygons" style. For every kept cell
    of the 15 x 15 grid one closed polygon is drawn around the jittered cell
    coordinates, with 3 to 8 vertices at evenly spaced angles, each at a radius
    of `cell_size * (0.7 + uniform(-0.3, 0.3))`, filled with a colour of the
    palette chosen once for the image and outlined in white. The model keeps,
    per polygon, its centre, its radius factors and its colour; the vertex
    coordinates (cosine and sine of the angles) and the size factor are not
    part of it. */
module Polygons {
  import opened Draws
  import opened Grid

  /** One polygon: its cell, its centre, the factor by which each vertex's
      radius scales the cell size, its fill colour and its outline colour. */
  datatype Blob = Blob(row: nat, col: nat, x: real, y: real, radiusFactors: seq<real>, colour: string, edge: string)

  const MinVertices: int := 3
  const MaxVertices: int := 8
  const MeanRadius: real := 0.7
  const RadiusJitter: real := 0.3
  const EdgeColour: string := "white"

  /** The radius factors of `n` vertices, drawn from positions `p` onwards. */
  function RadiusFactors(n: nat, p: nat, draws: nat -> real): (fs: seq<real>)
    requires IsUnitStream(draws)
    ensures |fs| == n
    ensures forall k :: 0 <= k < n ==> MeanRadius - RadiusJitter <= fs[k] <= MeanRadius + RadiusJitter
  {
    var fs := seq(n, k requires 0 <= k < n => MeanRadius + Uniform(-RadiusJitter, RadiusJitter, draws(p + k)));
    assert forall k :: 0 <= k < n ==> fs[k] == MeanRadius + Uniform(-RadiusJitter, RadiusJitter, draws(p + k));
    fs
  }

  /** The polygon of cell `(i, j)` whose skip draw is at position `p`: draws
      p+1 and p+2 jitter the centre, p+3 gives the vertex count `n`, the next
      `n` the radii and the one after them the colour. */
  function BlobAt(i: nat, j: nat, p: nat, draws: nat -> real, palette: seq<string>): Blob
    requires IsUnitStream(draws) && |palette| > 0
  {
    var n := RandInt(MinVertices, MaxVertices, draws(p + 3));
    Blob(i, j,
         CellCoord(i) + Uniform(-Jitter, Jitter, draws(p + 1)),
         CellCoord(j) + Uniform(-Jitter, Jitter, draws(p + 2)),
         RadiusFactors(n, p + 4, draws),
         Choice(palette, draws(p + 4 + n)),
         EdgeColour)
  }

  /** Draws a kept cell consumes: skip, x, y, count, one per vertex, colour. */
  function DrawsUsed(b: Blob): nat
  {
    5 + |b.radiusFactors|
  }

  /** The polygons of cells `c` onwards when the skip draw of cell `c` is at
      position `p`. */
  function BlobsFrom(c: nat, p: nat, draws: nat -> real, palette: seq<string>): seq<Blob>
    requires IsUnitStream(draws) && |palette| > 0 && c <= Cells
    decreases Cells - c
  {
    if c == Cells then []
    else if draws(p) < SkipBelow then BlobsFrom(c + 1, p + 1, draws, palette)
    else
      var b := BlobAt(c / Cols, c % Cols, p, draws, palette);
      [b] + BlobsFrom(c + 1, p + DrawsUsed(b), draws, palette)
  }

  function Cell(b: Blob): nat
  {
    CellIndex(b.row, b.col)
  }

  /** What every emitted polygon satisfies: its cell is on the grid, its
      centre is within 0.5 of the cell coordinates, it has 3 to 8 vertices,
      each radius factor is in [0.4, 1.0], its fill comes from the palette and
      its outline is white. */
  ghost predicate BlobFits(b: Blob, palette: seq<string>)
  {
    && b.row < Rows && b.col < Cols
    && CellCoord(b.row) - Jitter <= b.x < CellCoord(b.row) + Jitter
    && CellCoord(b.col) - Jitter <= b.y < CellCoord(b.col) + Jitter
    && MinVertices <= |b.radiusFactors| <= MaxVertices
    && (forall k :: 0 <= k < |b.radiusFactors| ==> 0.4 <= b.radiusFactors[k] <= 1.0)
    && b.colour in palette
    && b.edge == EdgeColour
  }

  /** Polygons in strictly increasing row-major cell order: no cell twice. */
  ghost predicate RowMajor(bs: seq<Blob>)
  {
    forall k1, k2 :: 0 <= k1 < k2 < |bs| ==> Cell(bs[k1]) < Cell(bs[k2])
  }

  /** The position of the skip draw of cell `c` when cell 0's is at 1 (the
      first draw chooses the palette). */
  ghost function SkipDrawPos(c: nat, draws: nat -> real, palette: seq<string>): nat
    requires IsUnitStream(draws) && |palette| > 0 && c <= Cells
    decreases c
  {
    if c == 0 then 1
    else
      var p := SkipDrawPos(c - 1, draws, palette);
      if draws(p) < SkipBelow then p + 1
      else p + DrawsUsed(BlobAt((c - 1) / Cols, (c - 1) % Cols, p, draws, palette))
  }

  // ---------------------------------------------------------------------------
  // Properties of the specification
  // ---------------------------------------------------------------------------

  /** The polygon of cell `c` sits in cell `c` and fits it. */
  lemma BlobAtFits(c: nat, p: nat, draws: nat -> real, palette: seq<string>)
    requires IsUnitStream(draws) && |palette| > 0 && c < Cells
    ensures Cell(BlobAt(c / Cols, c % Cols, p, draws, palette)) == c
    ensures BlobFits(BlobAt(c / Cols, c % Cols, p, draws, palette), palette)
  {
  }

  /** From cell `c` on, at most one polygon per remaining cell is emitted,
      every polygon fits its cell, and the polygons are in row-major order. */
  lemma {:induction false} BlobsFromShape(c: nat, p: nat, draws: nat -> real, palette: seq<string>)
    requires IsUnitStream(draws) && |palette| > 0 && c <= Cells
    ensures var bs := BlobsFrom(c, p, draws, palette);
            && |bs| <= Cells - c
            && (forall k :: 0 <= k < |bs| ==> c <= Cell(bs[k]) < Cells && BlobFits(bs[k], palette))
            && RowMajor(bs)
    decreases Cells - c
  {
    if c < Cells {
      if draws(p) < SkipBelow {
        BlobsFromShape(c + 1, p + 1, draws, palette);
      } else {
        var b := BlobAt(c / Cols, c % Cols, p, draws, palette);
        var rest := BlobsFrom(c + 1, p + DrawsUsed(b), draws, palette);
        BlobsFromShape(c + 1, p + DrawsUsed(b), draws, palette);
        BlobAtFits(c, p, draws, palette);
        var bs := [b] + rest;
        assert bs == BlobsFrom(c, p, draws, palette);
        forall k1, k2 | 0 <= k1 < k2 < |bs| ensures Cell(bs[k1]) < Cell(bs[k2]) {
          if k1 > 0 {
            assert bs[k1] == rest[k1 - 1] && bs[k2] == rest[k2 - 1];
          } else {
            assert bs[k2] == rest[k2 - 1];
          }
        }
        forall k | 0 <= k < |bs| ensures c <= Cell(bs[k]) < Cells && BlobFits(bs[k], palette) {
          if k > 0 {
            assert bs[k] == rest[k - 1];
          }
        }
      }
    }
  }

  /** Some polygon of `bs` sits in cell `c`. */
  ghost predicate HasCell(bs: seq<Blob>, c: nat)
  {
    exists k :: 0 <= k < |bs| && Cell(bs[k]) == c
  }

  lemma HasCellCons(b: Blob, rest: seq<Blob>, c: nat)
    ensures HasCell([b] + rest, c) <==> Cell(b) == c || HasCell(rest, c)
  {
    var bs := [b] + rest;
    if HasCell(bs, c) && Cell(b) != c {
      var k :| 0 <= k < |bs| && Cell(bs[k]) == c;
      assert k > 0 && bs[k] == rest[k - 1];
    }
    if HasCell(rest, c) {
      var k :| 0 <= k < |rest| && Cell(rest[k]) == c;
      assert bs[k + 1] == rest[k];
    }
    if Cell(b) == c {
      assert bs[0] == b;
    }
  }

  /** Past cell `c0`, the polygons from `c0` on and those from `c0 + 1` on
      agree: they have a polygon in the same cells, and the latter are among the
      former. */
  lemma StepFrom(c0: nat, c: nat, draws: nat -> real, palette: seq<string>)
    requires IsUnitStream(draws) && |palette| > 0 && c0 < c < Cells
    ensures var xs := BlobsFrom(c0, SkipDrawPos(c0, draws, palette), draws, palette);
            var rest := BlobsFrom(c0 + 1, SkipDrawPos((c0 + 1), draws, palette), draws, palette);
            && (HasCell(xs, c) <==> HasCell(rest, c))
            && (forall x :: x in rest ==> x in xs)
  {
    var p := SkipDrawPos(c0, draws, palette);
    var q := SkipDrawPos((c0 + 1), draws, palette);
    var x := BlobAt(c0 / Cols, c0 % Cols, p, draws, palette);
    assert q == if draws(p) < SkipBelow then p + 1 else p + DrawsUsed(x);
    if draws(p) < SkipBelow {
      SkipStep(c0, p, draws, palette);
    } else {
      KeepStep(c0, p, draws, palette);
      BlobAtFits(c0, p, draws, palette);
      HasCellCons(x, BlobsFrom(c0 + 1, q, draws, palette), c);
    }
  }

  /** A cell whose skip draw is below 0.3 has no polygon among those from it on. */
  lemma SkippedCellEmpty(c0: nat, p: nat, draws: nat -> real, palette: seq<string>)
    requires IsUnitStream(draws) && |palette| > 0 && c0 < Cells && draws(p) < SkipBelow
    ensures !HasCell(BlobsFrom(c0, p, draws, palette), c0)
  {
    SkipStep(c0, p, draws, palette);
    BlobsFromShape(c0 + 1, p + 1, draws, palette);
  }

  /** A cell whose skip draw is at least 0.3 gets the polygon its draws describe. */
  lemma KeptCellPresent(c0: nat, p: nat, draws: nat -> real, palette: seq<string>)
    requires IsUnitStream(draws) && |palette| > 0 && c0 < Cells && draws(p) >= SkipBelow
    ensures var x := BlobAt(c0 / Cols, c0 % Cols, p, draws, palette);
            x in BlobsFrom(c0, p, draws, palette) && HasCell(BlobsFrom(c0, p, draws, palette), c0)
  {
    var x := BlobAt(c0 / Cols, c0 % Cols, p, draws, palette);
    KeepStep(c0, p, draws, palette);
    assert BlobsFrom(c0, p, draws, palette)[0] == x;
    BlobAtFits(c0, p, draws, palette);
  }

  /** Cell `c` (at or after `c0`) gets a polygon exactly when its skip draw is
      at least 0.3, and that polygon is the one its draws describe. */
  lemma {:induction false} KeptIffDrawFrom(c0: nat, c: nat, draws: nat -> real, palette: seq<string>)
    requires IsUnitStream(draws) && |palette| > 0 && c0 <= c < Cells
    ensures var xs := BlobsFrom(c0, SkipDrawPos(c0, draws, palette), draws, palette);
            var pc := SkipDrawPos(c, draws, palette);
            && (HasCell(xs, c) <==> draws(pc) >= SkipBelow)
            && (draws(pc) >= SkipBelow ==> BlobAt(c / Cols, c % Cols, pc, draws, palette) in xs)
    decreases c - c0
  {
    if c0 < c {
      StepFrom(c0, c, draws, palette);
      KeptIffDrawFrom(c0 + 1, c, draws, palette);
    } else if draws(SkipDrawPos(c0, draws, palette)) < SkipBelow {
      SkippedCellEmpty(c0, SkipDrawPos(c0, draws, palette), draws, palette);
    } else {
      KeptCellPresent(c0, SkipDrawPos(c0, draws, palette), draws, palette);
    }
  }

  /** Over the whole grid: a cell gets a polygon exactly when its skip draw is
      at least 0.3. */
  lemma KeptIffDraw(c: nat, draws: nat -> real, palette: seq<string>)
    requires IsUnitStream(draws) && |palette| > 0 && c < Cells
    ensures var bs := BlobsFrom(0, 1, draws, palette);
            (exists k :: 0 <= k < |bs| && Cell(bs[k]) == c) <==> draws(SkipDrawPos(c, draws, palette)) >= SkipBelow
  {
    KeptIffDrawFrom(0, c, draws, palette);
  }

  /** A skipped cell contributes nothing and uses one draw. */
  lemma SkipStep(c: nat, p: nat, draws: nat -> real, palette: seq<string>)
    requires IsUnitStream(draws) && |palette| > 0 && c < Cells && draws(p) < SkipBelow
    ensures BlobsFrom(c, p, draws, palette) == BlobsFrom(c + 1, p + 1, draws, palette)
  {
  }

  /** A kept cell contributes its polygon and uses the draws that polygon needs. */
  lemma KeepStep(c: nat, p: nat, draws: nat -> real, palette: seq<string>)
    requires IsUnitStream(draws) && |palette| > 0 && c < Cells && draws(p) >= SkipBelow
    ensures var b := BlobAt(c / Cols, c % Cols, p, draws, palette);
            BlobsFrom(c, p, draws, palette) == [b] + BlobsFrom(c + 1, p + DrawsUsed(b), draws, palette)
  {
  }

  /** The polygons so far, `done`, followed by those of cells `c` onwards when
      the skip draw of cell `c` is at position `p`: the state the loop of the
      generator carries from cell to cell. */
  function Finish(done: seq<Blob>, c: nat, p: nat, draws: nat -> real, palette: seq<string>): seq<Blob>
    requires IsUnitStream(draws) && |palette| > 0 && c <= Cells
    decreases Cells - c
  {
    if c == Cells then done
    else if draws(p) < SkipBelow then Finish(done, c + 1, p + 1, draws, palette)
    else
      var b := BlobAt(c / Cols, c % Cols, p, draws, palette);
      Finish(done + [b], c + 1, p + DrawsUsed(b), draws, palette)
  }

  /** Carrying `done` along is appending it in front. */
  lemma {:induction false} FinishAppends(done: seq<Blob>, c: nat, p: nat, draws: nat -> real, palette: seq<string>)
    requires IsUnitStream(draws) && |palette| > 0 && c <= Cells
    ensures Finish(done, c, p, draws, palette) == done + BlobsFrom(c, p, draws, palette)
    decreases Cells - c
  {
    if c < Cells {
      if draws(p) < SkipBelow {
        FinishAppends(done, c + 1, p + 1, draws, palette);
      } else {
        var b := BlobAt(c / Cols, c % Cols, p, draws, palette);
        FinishAppends(done + [b], c + 1, p + DrawsUsed(b), draws, palette);
        assert done + ([b] + BlobsFrom(c + 1, p + DrawsUsed(b), draws, palette))
            == (done + [b]) + BlobsFrom(c + 1, p + DrawsUsed(b), draws, palette);
      }
    }
  }

  // ---------------------------------------------------------------------------
  // The generator
  // ---------------------------------------------------------------------------

  /** The inner loop of `generate_irregular_polygons`: visit the cells of row
      `i`, skipping a cell when its draw is below 0.3 and otherwise appending
      one polygon. */
  method VisitRow(i: nat, pos0: nat, blobs0: seq<Blob>, draws: nat -> real, palette: seq<string>)
      returns (pos: nat, blobs: seq<Blob>)
    requires IsUnitStream(draws) && |palette| > 0 && i < Rows
    ensures Finish(blobs, CellIndex(i + 1, 0), pos, draws, palette)
         == Finish(blobs0, CellIndex(i, 0), pos0, draws, palette)
  {
    pos, blobs := pos0, blobs0;
    for j := 0 to Cols
      invariant Finish(blobs, CellIndex(i, j), pos, draws, palette)
             == Finish(blobs0, CellIndex(i, 0), pos0, draws, palette)
    {
      ghost var c := CellIndex(i, j);
      CellIndexInverse(i, j);
      CellIndexBelow(i, j);
      assert CellIndex(i, j + 1) == c + 1;
      if draws(pos) < SkipBelow {
        pos := pos + 1;
        continue;
      }
      var x := CellCoord(i) + Uniform(-Jitter, Jitter, draws(pos + 1));
      var y := CellCoord(j) + Uniform(-Jitter, Jitter, draws(pos + 2));
      var n := RandInt(MinVertices, MaxVertices, draws(pos + 3));
      var radii := RadiusFactors(n, pos + 4, draws);
      var colour := Choice(palette, draws(pos + 4 + n));
      var blob := Blob(i, j, x, y, radii, colour, EdgeColour);
      assert blob == BlobAt(c / Cols, c % Cols, pos, draws, palette);
      blobs := blobs + [blob];
      pos := pos + 5 + n;
    }
    assert CellIndex(i, Cols) == CellIndex(i + 1, 0);
  }

  /** `generate_irregular_polygons`: choose a palette, then visit the cells row
      by row. */
  method GenerateIrregularPolygons(draws: nat -> real) returns (palette: seq<string>, blobs: seq<Blob>)
    requires IsUnitStream(draws)
    ensures palette == ChoosePalette(draws(0)) && palette in Palettes
    ensures blobs == BlobsFrom(0, 1, draws, palette)
    ensures |blobs| <= Cells
    ensures RowMajor(blobs)
    ensures forall k :: 0 <= k < |blobs| ==> BlobFits(blobs[k], palette)
  {
    palette := ChoosePalette(draws(0));
    ghost var whole := Finish([], 0, 1, draws, palette);
    var pos: nat := 1;
    blobs := [];
    for i := 0 to Rows
      invariant Finish(blobs, CellIndex(i, 0), pos, draws, palette) == whole
    {
      pos, blobs := VisitRow(i, pos, blobs, draws, palette);
    }
    assert CellIndex(Rows, 0) == Cells;
    assert blobs == BlobsFrom(0, 1, draws, palette) by {
      FinishAppends([], 0, 1, draws, palette);
      assert [] + BlobsFrom(0, 1, draws, palette) == BlobsFrom(0, 1, draws, palette);
    }
    assert |blobs| <= Cells && RowMajor(blobs)
        && forall k :: 0 <= k < |blobs| ==> BlobFits(blobs[k], palette) by {
      BlobsFromShape(0, 1, draws, palette);
    }
  }
}
