/** What the `main` functions of both scripts share: the command line names a
    style, optionally an output file (default `art.png`) and optionally a
    background colour (default `black`, parsed like a given one); the style
    must be one of the script's choices, the colour must parse, and the style
    then selects a generator from the script's dispatch table, which is called
    with the output file and the background converted back to 0..255. */
module Cli {
  import opened Results
  import opened Text
  import opened Colours

  /** The generator functions a style can select. */
  datatype Generator = Noise | Radial | Squares | Polygons | Rectangles

  /** The call `main` ends with: which generator, with which arguments. */
  datatype Invocation = Invocation(generator: Generator, output: string, background: Background)

  /** Why a command line is refused: a style outside the choices, a background
      `parse_color` rejects, or (had the choices and the table disagreed) a
      style the table does not know. */
  datatype CliError =
    | InvalidChoice(style: string)
    | BadBackground(error: ColourError)
    | MissingGenerator(style: string)

  const DefaultOutput: string := "art.png"
  const DefaultBackground: string := "black"

  /** The background token in effect: the one given, or the default. */
  function BackgroundToken(background: Option<string>): (t: string)
    ensures background.Some? ==> t == background.value
    ensures background.None? ==> t == DefaultBackground
  {
    background.GetOr(DefaultBackground)
  }

  /** One run of `main` with the given choices and dispatch table. The style is
      checked against the choices before the background is parsed; a run is
      accepted exactly when the style is a choice known to the table and the
      background parses, and then the chosen generator gets the output file in
      effect and the normalised background. */
  function Dispatch(choices: seq<string>, generators: map<string, Generator>,
                    style: string, output: Option<string>, background: Option<string>,
                    css: CssTable): (r: Result<Invocation, CliError>)
    ensures r.Ok? <==> style in choices && style in generators
                       && ParseColor(BackgroundToken(background), css).Ok?
    ensures r.Ok? ==> r.value.generator == generators[style]
    ensures r.Ok? ==> r.value.output == output.GetOr(DefaultOutput)
    ensures r.Ok? ==> r.value.background
                      == NormalizeColorTo255(ParseColor(BackgroundToken(background), css).value)
    ensures r == Err(InvalidChoice(style)) <==> style !in choices
    ensures r.Err? && r.error.BadBackground? ==>
              style in choices && ParseColor(BackgroundToken(background), css) == Err(r.error.error)
    ensures r.Err? && r.error.MissingGenerator? ==> style in choices && style !in generators
  {
    if style !in choices then Err(InvalidChoice(style))
    else
      match ParseColor(BackgroundToken(background), css)
      case Err(e) => Err(BadBackground(e))
      case Ok(colour) =>
        if style !in generators then Err(MissingGenerator(style))
        else Ok(Invocation(generators[style], output.GetOr(DefaultOutput), NormalizeColorTo255(colour)))
  }

  /** When the choices are exactly the table's keys, no accepted style misses
      its generator. */
  lemma NoMissingGenerator(choices: seq<string>, generators: map<string, Generator>,
                           style: string, output: Option<string>, background: Option<string>,
                           css: CssTable)
    requires forall s :: s in choices <==> s in generators
    ensures !Dispatch(choices, generators, style, output, background, css).Err?
            || !Dispatch(choices, generators, style, output, background, css).error.MissingGenerator?
  {
  }

  /** Without `--background` the background is the default name `black`, which
      is taken from the CSS4 table when it holds it and refused otherwise. */
  lemma DefaultBackgroundIsBlack(css: CssTable)
    ensures "black" in css ==> ParseColor(BackgroundToken(None), css) == Ok(Hex(css["black"]))
    ensures "black" !in css ==> ParseColor(BackgroundToken(None), css) == Err(UnknownColour("black"))
  {
    LowerNoCapitals("black");
  }

  /** An `r,g,b` background reaches the generator as the same three integers
      exactly when each is in 0..255; otherwise the run is refused with the
      RGB-format error. */
  lemma RgbBackgroundReachesGenerator(choices: seq<string>, generators: map<string, Generator>,
                                      style: string, output: Option<string>,
                                      r: int, g: int, b: int, css: CssTable)
    requires style in choices && style in generators
    ensures var run := Dispatch(choices, generators, style, output, Some(RgbText(r, g, b)), css);
            if IsByte(r) && IsByte(g) && IsByte(b)
            then run == Ok(Invocation(generators[style], output.GetOr(DefaultOutput), Channels(r, g, b)))
            else run == Err(BadBackground(InvalidRgbFormat))
  {
    RgbTokenDecides(r, g, b, css);
    if IsByte(r) && IsByte(g) && IsByte(b) {
      NormalizeParsedRgb(r, g, b, css);
    }
  }
}
