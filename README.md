# Generative art scripts: colour parsing, style dispatch and grid layouts

This project models the deterministic core of two command-line art scripts
(`arthurian.py`, `art_generator.py`) and of the pattern script `squares.py`,
and proves properties of the model in Dafny.

- **Colour arguments.** `parse_color` turns a `--background` token into a
  colour. A token with a comma must be `r,g,b` with three integers in 0..255,
  and it becomes `(r/255, g/255, b/255)`. Any other token is lower-cased and
  looked up first in the CSS4 table, then in a table of four custom colours.
  `normalize_color_to_255` converts a tuple back with `int(c*255)` per channel
  and passes hex strings through. In module `Colours`, `ParseColor` (with
  `ParseRgb` for the comma branch) models `parse_color` and
  `NormalizeColorTo255` models `normalize_color_to_255`. Module `Text` holds
  the string functions they rely on: `lower`, `split`, `strip` and `int` in
  base ten.
- **Style dispatch.** `main` accepts a style from a fixed list of choices, an
  output file (default `art.png`) and a background (default `black`, parsed
  like a given one). It then calls the generator the style selects with the
  normalised background. Module `Cli` models this and keeps the two tables as
  parameters. `Arthurian` instantiates it with five styles, `ArtGenerator`
  with four (no `rectangles`).
- **Grid generators.** The randomness is an explicit input: a stream
  `draws: nat -> real` of `random()` values in [0,1), one per call of
  `random`, `uniform`, `randint` or `choice` (module `Draws`).
  - `generate_squares` (module `Mosaic`) and `generate_irregular_polygons`
    (module `Polygons`) share a 15 x 15 grid, the 0.3 skip rule and the six
    palettes (module `Grid`). Each is a method with the source's outer loop
    over rows; the inner loop over columns, with its `continue`, is the
    method `VisitRow`. The method's result is proved equal to a recursive
    specification over the cell index: `Mosaic.TilesFrom`, built from the
    per-cell `Mosaic.TileAt`, and `Polygons.BlobsFrom`, built from
    `Polygons.BlobAt`. Counts, row-major order, per-cell bounds and "a cell
    is drawn iff its skip draw is at least 0.3" are proved about that
    specification.
  - `generate_pattern` (module `Pattern`) fills all 20 x 20 cells with a
    square or a diamond, in exact rational geometry. Its inner loop is also
    a method `VisitRow`.

`parse_color`, `normalize_color_to_255`, `generate_squares` and
`generate_irregular_polygons` are textually identical in `arthurian.py` and
`art_generator.py`. Each is modelled once, and the rows below cite the
`arthurian.py` lines. The `art_generator.py` copies are at
art_generator.py:12-44, 291-299, 141-219 and 221-287.

## Model

| member | source | states |
|---|---|---|
| Text.LowerChar | arthurian.py:39 | an ASCII capital maps to its lower-case letter (+32); every other character stays; the result is never a capital |
| Text.Lower | arthurian.py:39 | `lower()` keeps the length and lowers each character |
| Text.LowerIdempotent | arthurian.py:39-43 | lower-casing twice is lower-casing once, so both table lookups see a stable key |
| Text.LowerKeeps | arthurian.py:28 | a non-letter (the comma) occurs in a token iff it occurs in its lower-case form |
| Text.CountZero | arthurian.py:28 | a separator count of zero means the separator does not occur |
| Colours.CommaTestSplits | arthurian.py:28-31 | a token takes the `r,g,b` branch iff splitting it on commas gives more than one part |
| Text.Split | arthurian.py:31 | `split(',')` yields one more part than there are commas, and no part holds a comma |
| Text.JoinSplit | arthurian.py:31 | joining the parts of a split with the separator gives back the string |
| Text.SplitJoin | arthurian.py:31 | splitting a join of comma-free parts gives back the parts |
| Text.ParseInt | arthurian.py:31 | `int(s)` succeeds only on text holding a digit |
| Text.ParseIntSpaceAndSign | arthurian.py:31 | `int` accepts surrounding white space and a leading `+` or `-` |
| Text.ParseIntUnderscores | arthurian.py:31 | `int` accepts single underscores between digits and refuses doubled, leading and trailing ones |
| Text.ParseIntRefusesNonIntegers | arthurian.py:31 | `int` refuses an empty part, a blank part and a decimal fraction |
| Text.ParseIntText | arthurian.py:31 | `int(str(n)) == n` for every integer |
| Draws.Uniform | arthurian.py:180-181 | `uniform(a, b)` lies in [a, b], strictly below `b` when `a < b` |
| Draws.RandInt | arthurian.py:327 | `randint(a, b)` lies in a..b inclusive |
| Draws.Choice | arthurian.py:168 | `choice(xs)` is an element of `xs` |
| Colours.FromBytes | arthurian.py:21-26 | dividing a triple of bytes by 255 gives a colour with every channel in [0,1] |
| Colours.ParseColor | arthurian.py:12-44 | a comma token fails only with the RGB-format error and a name only with the unknown-colour error naming the token as given; an accepted colour has channels in [0,1] or is a CSS4 hex value; a comma token never yields a hex value |
| Colours.Message | arthurian.py:44 | the unknown-colour message embeds the token as given, after `Unknown color: ` |
| Colours.Trunc | arthurian.py:362 | `int(x)` on a real truncates toward zero |
| Colours.TruncInt | arthurian.py:362 | truncation leaves an integer unchanged |
| Colours.NormalizeFromBytes | arthurian.py:360-362 | normalising the colour of a byte triple gives back the triple |
| Colours.NormalizeKeepsHex | arthurian.py:363 | a hex string passes through normalisation unchanged |
| Colours.RgbTokenDecides | arthurian.py:28-36 | the token `r,g,b` is accepted iff all three are in 0..255, yielding `(r/255, g/255, b/255)`, and fails with the RGB-format error otherwise |
| Colours.NormalizeParsedRgb | arthurian.py:360-362 | normalising a parsed `r,g,b` with channels in 0..255 returns `(r, g, b)` |
| Colours.RgbAcceptedIsByteTriple | arthurian.py:31-34 | every colour accepted from a comma token is a byte triple over 255, and normalisation recovers that triple |
| Colours.WrongPartCountRejected | arthurian.py:31-36 | a comma token with other than three parts fails with the RGB-format error |
| Colours.RejectedArityExamples | arthurian.py:31-36 | `1,2` and `1,2,3,4` fail with the RGB-format error |
| Colours.RejectedRangeExamples | arthurian.py:32-36 | `300,0,0`, `999,0,0` and `-5,0,0` fail with the RGB-format error |
| Colours.CommaTokenDecides | arthurian.py:28-36 | every comma token is accepted iff it splits into three parts that `int` reads as values in 0..255, yielding those values over 255, and fails with the RGB-format error otherwise |
| Colours.NonIntegerPartRejected | arthurian.py:31-36 | any comma token with a part `int` refuses fails with the RGB-format error |
| Colours.OutOfRangePartRejected | arthurian.py:31-36 | any comma token with an integer part outside 0..255, however written, fails with the RGB-format error |
| Colours.NonIntegerPartExamples | arthurian.py:31-36 | `a,b,c` and `1,,3` fail with the RGB-format error |
| Colours.NameCaseInsensitive | arthurian.py:39-43 | two comma-free tokens with the same lower-case form parse alike |
| Colours.CssBeforeCustom | arthurian.py:39-43 | the CSS4 table wins; the custom table is used only for names the CSS4 table lacks |
| Colours.CustomSkyBlueUnreachable | arthurian.py:24-43 | when the CSS4 table has `skyblue`, the custom `skyblue` triple is never returned |
| Colours.UnknownNameRejected | arthurian.py:39-44 | a comma-free token fails iff its lower-case form is in neither table, and then with the unknown-colour error naming it |
| Colours.CustomColoursBytes | arthurian.py:21-26 | the four custom colours normalise back to the integer triples they are written with |
| Grid.ChoosePalette | arthurian.py:158-168 | the image palette is one of the six palettes, each of five colours |
| Grid.CellCoord | arthurian.py:180-181 | the unjittered coordinate `i * (10 / 15)` of a grid row or column lies in [0, 10) |
| Grid.CellIndexInverse | arthurian.py:170-171 | row and column are recovered from the row-major cell index |
| Mosaic.BaseRotation | arthurian.py:183 | `(i * j) % 90` lies in 0..89 |
| Mosaic.TileAtFits | arthurian.py:176-186 | the shape of a cell is placed from that cell: the point `(x, y)` the source computes lies within 0.5 of the cell coordinates, angle within 10 degrees of the base rotation, colour from the palette |
| Mosaic.TilesFromShape | arthurian.py:154-174 | from any cell on, at most one shape per remaining cell, every shape fitting its cell, in strictly increasing row-major order |
| Mosaic.KeptIffDraw | arthurian.py:170-174 | a cell gets a shape iff its skip draw is at least 0.3 |
| Mosaic.KeptIffDrawFrom | arthurian.py:170-174 | from any cell on, a later cell gets a shape iff its skip draw is at least 0.3, and then it gets the shape its own draws describe |
| Mosaic.FinishAppends | arthurian.py:170-174 | running the remaining cells with the shapes so far carried along is appending the specified shapes of those cells to them |
| Mosaic.VisitRow | arthurian.py:171-215 | one pass of the column loop over row `i` leaves the shapes and the draw position where the specification says the next row begins |
| Mosaic.GenerateSquares | arthurian.py:141-219 | the palette is the one the first draw picks, and the loop emits exactly the specified shapes: at most 225, row-major, each fitting its cell, all coloured from that palette |
| Polygons.RadiusFactors | arthurian.py:331 | one radius factor `0.7 + uniform(-0.3, 0.3)` per vertex, each in [0.4, 1.0] |
| Polygons.BlobAtFits | arthurian.py:320-337 | the polygon of a cell sits on that cell, with 3 to 8 vertices, radius factors in [0.4, 1.0], fill from the palette and a white outline |
| Polygons.BlobsFromShape | arthurian.py:298-318 | from any cell on, at most one polygon per remaining cell, every one fitting its cell, in strictly increasing row-major order |
| Polygons.KeptIffDraw | arthurian.py:314-318 | a cell gets a polygon iff its skip draw is at least 0.3 |
| Polygons.KeptIffDrawFrom | arthurian.py:314-318 | from any cell on, a later cell gets a polygon iff its skip draw is at least 0.3, and then it gets the polygon its own draws describe |
| Polygons.FinishAppends | arthurian.py:314-318 | running the remaining cells with the polygons so far carried along is appending the specified polygons of those cells to them |
| Polygons.VisitRow | arthurian.py:315-348 | one pass of the column loop over row `i` leaves the polygons and the draw position where the specification says the next row begins |
| Polygons.GenerateIrregularPolygons | arthurian.py:285-351 | the palette is the one the first draw picks, and the loop emits exactly the specified polygons: at most 225, row-major, each fitting its cell and filled from that palette |
| Pattern.Origin | squares.py:11-24 | the cell origin is `(i * 0.5, j * 0.5)` and the whole cell square lies inside the axis limits [0,10] x [0,10] |
| Pattern.DiamondAt | squares.py:31-36 | a diamond has four vertices: the midpoints of the bottom, right, top and left edges of the cell square, in that order, all inside the cell square |
| Pattern.CellFigure | squares.py:23-37 | a cell's patch is a square iff the kind draw picks `square`; a square sits at the cell origin with width and height 0.5 and a rotation of 0, 90, 180 or 270 degrees; otherwise it is the closed diamond of the cell; both are black |
| Pattern.OriginInjective | squares.py:24 | two cells have the same origin iff they are the same cell |
| Pattern.CellFigureInCell | squares.py:24-36 | every patch is anchored at its cell's origin; a diamond lies in its cell square, inside the axes; for a square only the unturned square is stated to lie there |
| Pattern.OnePatchPerCell | squares.py:20-39 | in a complete pattern exactly one patch, the one at position `i * 20 + j`, is anchored at cell `(i, j)` |
| Pattern.PatternStep | squares.py:21-39 | appending the specified patch of the next cell to a pattern of `n` cells gives a pattern of `n + 1` cells |
| Pattern.VisitRow | squares.py:21-39 | the column loop turns a pattern of the first `i` rows into one of the first `i + 1` rows, two draws per patch |
| Pattern.GeneratePattern | squares.py:5-43 | the loop adds exactly 400 patches in row-major order, patch `k` being the specified patch of cell `(k / 20, k % 20)` built from draws `2k` and `2k + 1` |
| Cli.BackgroundToken | arthurian.py:372 | the background token is the one given, or `black` |
| Cli.Dispatch | arthurian.py:366-390 | a run is accepted iff the style is a choice, the table knows it and the background parses; then the selected generator gets the output in effect and the normalised background; the style error comes first |
| Cli.NoMissingGenerator | arthurian.py:368-384 | when the choices are the table's keys, no accepted style misses its generator |
| Cli.DefaultBackgroundIsBlack | arthurian.py:372 | without `--background` the colour is the CSS4 `black`, or the unknown-colour error when the table lacks it |
| Cli.RgbBackgroundReachesGenerator | arthurian.py:387-389 | a background `r,g,b` reaches the generator as `(r, g, b)` iff all three are in 0..255, and the run fails with the RGB-format error otherwise |
| Arthurian.Run | arthurian.py:366-390 | a run is accepted iff the style is one of the five and the background parses, and the missing-generator case never arises |
| Arthurian.ChoicesAreTableKeys | arthurian.py:368-384 | a style is a choice iff the table has it |
| Arthurian.GeneratorsDistinct | arthurian.py:378-384 | distinct styles select distinct generators, and all five generators are reachable |
| Arthurian.AcceptedStyles | arthurian.py:368 | with a valid background, exactly noise, radial, squares, polygons and rectangles are accepted, and any other style fails with the invalid-choice error |
| Arthurian.RectanglesSelected | arthurian.py:383 | `rectangles` selects the abstract-rectangles generator |
| Arthurian.RgbRoundTrip | arthurian.py:366-390 | end to end, a parsed background value `r,g,b` gives the generator `(r, g, b)` iff the channels are bytes, and the RGB-format error otherwise |
| ArtGenerator.Run | art_generator.py:302-325 | a run is accepted iff the style is one of the four and the background parses, and the missing-generator case never arises |
| ArtGenerator.ChoicesAreTableKeys | art_generator.py:304-319 | a style is a choice iff the table has it |
| ArtGenerator.GeneratorsDistinct | art_generator.py:314-319 | distinct styles select distinct generators, and no style selects the rectangles generator |
| ArtGenerator.RectanglesRefused | art_generator.py:304 | `rectangles` fails with the invalid-choice error, and this script's styles are `arthurian.py`'s minus `rectangles` |
| ArtGenerator.AgreesWithArthurian | art_generator.py:302-325 | on every style except `rectangles` both scripts behave identically |
| ArtGenerator.RgbRoundTrip | art_generator.py:302-325 | end to end, a parsed background value `r,g,b` gives the generator `(r, g, b)` iff the channels are bytes, and the RGB-format error otherwise |

## Left out

- Rendering and file output are not modelled. This covers the matplotlib figure and axes, `add_patch`, `savefig`, `plt.show`, `plt.close` and the progress `print`s. The model stops at the patch descriptors and at the generator call `main` makes.
- The contents of the CSS4 colour table come from the plotting library, so it is a parameter (`CssTable`).
- Trigonometry and square roots are not modelled. This covers the size factor `0.5 + 0.5*sin(i/3)*cos(j/3)`, the polygon vertices' cosines and sines at `linspace` angles, and the diamond radius `cell_size/sqrt(2)`. Polygons carry their radius factors, and mosaic shapes the point `(x, y)` the source computes, their angle, kind and colour.
- Floating point is not modelled. `r/255`, `int(c*255)` and `i * (10/15)` are exact rational arithmetic, so there is no rounding drift.
- `random` is modelled as one uniform draw in [0,1) per call. CPython derives `choice` and `randint` from `getrandbits` through `_randbelow`, not from one `random()` value, so the model does not fix which values a given seed produces.
- Python's `int` also accepts non-ASCII digits and white space. In the model (`Text.ParseInt`, `Text.Strip`) only ASCII digits, the space and `\t`..`\r` count. Python 3.11 and later also refuse a numeral of more than 4300 digits, leading zeros included; the model has no such limit, so for example 4301 zeros followed by `,0,0` is accepted as (0, 0, 0).
- Python's `lower()` also lowers non-ASCII letters. The model's `Text.Lower` lowers A-Z only.
- Argparse usage and error text, `--help` and the `-o`/`--bg` aliases are not modelled. The model starts from the option value argparse hands over: a value starting with `-`, such as `-5,0,0`, is taken by argparse for an option unless it is written `--background=-5,0,0`, so the rejection of negative channels is reached from the command line only in that form.
- When both the style and a given background are invalid, argparse reports whichever comes first on the command line. `Cli.Dispatch` always reports the style.
- `generate_noise`, `generate_radial` and `generate_abstract_rectangles` are shown only as generator tags. So are `noise.py`, `radial.py` and `tri.py`. They only sample random numbers and trigonometry for plot calls.
- The module-level call at squares.py:46 is not modelled.
- Mosaic.TileAtFits: for a square, `(x, y)` is the centre before matplotlib turns the rectangle about its lower-left corner by `angle` (up to 99 degrees). The drawn square can therefore leave its cell and overlap a neighbouring one; the lemma bounds only the computed point. Diamonds and circles are centred at `(x, y)`.
- Pattern.CellFigureInCell: the square's extent is stated before its rotation. Matplotlib turns a rectangle about its anchor, and that transform is not modelled. A square turned by 90, 180 or 270 degrees therefore leaves its own cell, and in row 0 or column 0 it crosses the axis limits; the lemma does not claim otherwise.
- The fixed transparency `alpha=0.7` of every mosaic shape and polygon is a rendering attribute and is not part of the descriptors.
