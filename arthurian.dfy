/** The style dispatch of `arthurian.py`: five styles, each the key of one
    generator in the dispatch table. */
module Arthurian {
  import opened Results
  import opened Colours
  import opened Cli

  /** The styles the command line accepts. */
  const Choices: seq<string> := ["noise", "radial", "squares", "polygons", "rectangles"]

  /** The dispatch table from style names to generators. */
  const Generators: map<string, Generator> := map[
    "noise" := Noise,
    "radial" := Radial,
    "squares" := Squares,
    "polygons" := Polygons,
    "rectangles" := Rectangles
  ]

  /** `main` of `arthurian.py` on a parsed command line. */
  function Run(style: string, output: Option<string>, background: Option<string>, css: CssTable)
    : (r: Result<Invocation, CliError>)
    ensures r.Ok? <==> style in Choices && ParseColor(BackgroundToken(background), css).Ok?
    ensures r.Err? ==> !r.error.MissingGenerator?
  {
    NoMissingGenerator(Choices, Generators, style, output, background, css);
    Dispatch(Choices, Generators, style, output, background, css)
  }

  /** The choices and the table's keys coincide: every accepted style has a
      generator and every generator's style is accepted. */
  lemma ChoicesAreTableKeys()
    ensures forall s :: s in Choices <==> s in Generators
  {
  }

  /** No two styles share a generator, and all five generators are reachable:
      every accepted style selects a generator of its own. */
  lemma GeneratorsDistinct()
    ensures forall s1, s2 :: s1 in Generators && s2 in Generators && Generators[s1] == Generators[s2] ==> s1 == s2
    ensures Generators.Values == {Noise, Radial, Squares, Polygons, Rectangles}
  {
    assert Generators.Values == {Noise, Radial, Squares, Polygons, Rectangles} by {
      assert Generators["noise"] == Noise && Generators["radial"] == Radial;
      assert Generators["squares"] == Squares && Generators["polygons"] == Polygons;
      assert Generators["rectangles"] == Rectangles;
    }
  }

  /** Exactly the five styles are accepted: with a background that parses, a
      run is refused only for a style outside them, and then with the style
      named. */
  lemma AcceptedStyles(style: string, output: Option<string>, background: Option<string>, css: CssTable)
    requires ParseColor(BackgroundToken(background), css).Ok?
    ensures Run(style, output, background, css).Ok?
            <==> style in {"noise", "radial", "squares", "polygons", "rectangles"}
    ensures Run(style, output, background, css).Err?
            ==> Run(style, output, background, css) == Err(InvalidChoice(style))
  {
  }

  /** A run that names `rectangles` calls the abstract-rectangles generator. */
  lemma RectanglesSelected(output: Option<string>, background: Option<string>, css: CssTable)
    requires ParseColor(BackgroundToken(background), css).Ok?
    ensures Run("rectangles", output, background, css).Ok?
    ensures Run("rectangles", output, background, css).value.generator == Rectangles
  {
  }

  /** End to end: `--background r,g,b` reaches the generator as `(r, g, b)` when
      the three are in 0..255 and the run is refused otherwise. */
  lemma RgbRoundTrip(style: string, r: int, g: int, b: int, css: CssTable)
    requires style in Choices
    ensures var run := Run(style, None, Some(RgbText(r, g, b)), css);
            if IsByte(r) && IsByte(g) && IsByte(b)
            then run == Ok(Invocation(Generators[style], DefaultOutput, Channels(r, g, b)))
            else run == Err(BadBackground(InvalidRgbFormat))
  {
    RgbBackgroundReachesGenerator(Choices, Generators, style, None, r, g, b, css);
  }
}
