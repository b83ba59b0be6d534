/** The style dispatch of `art_generator.py`: the same command line as
    `arthurian.py` but four styles, without `rectangles`. */
module ArtGenerator {
  import opened Results
  import opened Colours
  import opened Cli
  import Arthurian

  /** The styles the command line accepts. */
  const Choices: seq<string> := ["noise", "radial", "squares", "polygons"]

  /** The dispatch table from style names to generators. */
  const Generators: map<string, Generator> := map[
    "noise" := Noise,
    "radial" := Radial,
    "squares" := Squares,
    "polygons" := Polygons
  ]

  /** `main` of `art_generator.py` on a parsed command line. */
  function Run(style: string, output: Option<string>, background: Option<string>, css: CssTable)
    : (r: Result<Invocation, CliError>)
    ensures r.Ok? <==> style in Choices && ParseColor(BackgroundToken(background), css).Ok?
    ensures r.Err? ==> !r.error.MissingGenerator?
  {
    NoMissingGenerator(Choices, Generators, style, output, background, css);
    Dispatch(Choices, Generators, style, output, background, css)
  }

  /** The choices and the table's keys coincide: every accepted style has a
      generator and every generator's style is accepted. */
  lemma ChoicesAreTableKeys()
    ensures forall s :: s in Choices <==> s in Generators
  {
  }

  /** No two styles share a generator, and none selects the rectangles
      generator. */
  lemma GeneratorsDistinct()
    ensures forall s1, s2 :: s1 in Generators && s2 in Generators && Generators[s1] == Generators[s2] ==> s1 == s2
    ensures Rectangles !in Generators.Values
  {
  }

  /** `rectangles` is refused as a style whatever the rest of the command line,
      and this script's styles are the other script's minus `rectangles`. */
  lemma RectanglesRefused(output: Option<string>, background: Option<string>, css: CssTable)
    ensures Run("rectangles", output, background, css) == Err(InvalidChoice("rectangles"))
    ensures forall s :: s in Choices <==> s in Arthurian.Choices && s != "rectangles"
  {
  }

  /** On every style both scripts accept, the two scripts do the same. */
  lemma AgreesWithArthurian(style: string, output: Option<string>, background: Option<string>, css: CssTable)
    requires style != "rectangles"
    ensures Run(style, output, background, css) == Arthurian.Run(style, output, background, css)
  {
  }

  /** End to end: `--background r,g,b` reaches the generator as `(r, g, b)` when
      the three are in 0..255 and the run is refused otherwise. */
  lemma RgbRoundTrip(style: string, r: int, g: int, b: int, css: CssTable)
    requires style in Choices
    ensures var run := Run(style, None, Some(RgbText(r, g, b)), css);
            if IsByte(r) && IsByte(g) && IsByte(b)
            then run == Ok(Invocation(Generators[style], DefaultOutput, Channels(r, g, b)))
            else run == Err(BadBackground(InvalidRgbFormat))
  {
    RgbBackgroundReachesGenerator(Choices, Generators, style, None, r, g, b, css);
  }
}
