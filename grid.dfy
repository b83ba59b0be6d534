/** What `generate_squares` and `generate_irregular_polygons` share: a 15 x 15
    grid visited row by row, a cell skipped when its first draw is below 0.3,
    cell coordinates spaced 10/15 apart, and six colour palettes of which one
    is chosen per image. */
module Grid {
  import opened Draws

  const Rows: nat := 15
  const Cols: nat := 15
  const Cells: nat := Rows * Cols

  /** A cell is left empty when its skip draw is below this. */
  const SkipBelow: real := 0.3

  /** Half the width of the random offset added to each cell coordinate. */
  const Jitter: real := 0.5

  const Palettes: seq<seq<string>> := [
    ["#FF5733", "#33FF57", "#3357FF", "#FFC300", "#900C3F"],
    ["#FFD700", "#0057E7", "#FF4F81", "#00C49F", "#7B2CBF"],
    ["#2E86C1", "#EC7063", "#F4D03F", "#58D68D", "#AF7AC5"],
    ["#1F618D", "#F1C40F", "#E74C3C", "#239B56", "#884EA0"],
    ["#DFFF00", "#FF1493", "#40E0D0", "#800080", "#FFD700"],
    ["#8E44AD", "#3498DB", "#F39C12", "#2ECC71", "#E74C3C"]
  ]

  lemma PalettesOfFive()
    ensures forall p :: p in Palettes ==> |p| == 5
  {
  }

  /** `random.choice(color_palettes)`: the palette of the whole image. */
  function ChoosePalette(u: real): (p: seq<string>)
    requires IsUnit(u)
    ensures p in Palettes && |p| == 5
  {
    PalettesOfFive();
    Choice(Palettes, u)
  }

  /** `i * (10 / rows)`: the unjittered coordinate of row or column `i`. */
  function CellCoord(i: nat): (x: real)
    ensures i < Rows ==> 0.0 <= x < 10.0
  {
    i as real * (10.0 / Rows as real)
  }

  /** The cell index of `(i, j)` in row-major order. */
  function CellIndex(i: nat, j: nat): nat
  {
    i * Cols + j
  }

  /** Row and column are recovered from the row-major cell index. */
  lemma CellIndexInverse(i: nat, j: nat)
    requires j < Cols
    ensures CellIndex(i, j) / Cols == i && CellIndex(i, j) % Cols == j
  {
  }

  lemma CellIndexBelow(i: nat, j: nat)
    requires i < Rows && j < Cols
    ensures CellIndex(i, j) < Cells
  {
  }
}
