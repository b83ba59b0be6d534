/** The background-colour token of both command-line scripts: `parse_color`,
    which turns a token into a colour (an RGB triple in [0,1] or a CSS hex
    string), and `normalize_color_to_255`, which turns a triple back into
    0..255 integers. Both scripts carry the same two functions. */
module Colours {
  import opened Results
  import opened Text

  /** What `parse_color` returns: a tuple of three channels, or the hex string
      stored in a colour table. */
  datatype Colour = Rgb(r: real, g: real, b: real) | Hex(code: string)

  /** What `normalize_color_to_255` returns: a tuple of three integers, or the
      hex string it was given. */
  datatype Background = Channels(r: int, g: int, b: int) | HexCode(code: string)

  /** The two `ArgumentTypeError`s that `parse_color` raises. */
  datatype ColourError = InvalidRgbFormat | UnknownColour(token: string)

  /** The CSS4 table: lower-case colour names to hex strings. Its contents come
      from the plotting library and are a parameter of the model. */
  type CssTable = map<string, string>

  const MaxChannel: int := 255

  predicate IsByte(n: int) { 0 <= n <= MaxChannel }

  predicate IsChannel(x: real) { 0.0 <= x <= 1.0 }

  /** A colour whose channels all lie in [0,1]. */
  predicate InUnitCube(c: Colour)
  {
    c.Rgb? ==> IsChannel(c.r) && IsChannel(c.g) && IsChannel(c.b)
  }

  /** The tuple `(r / 255, g / 255, b / 255)`, exactly. */
  function FromBytes(r: int, g: int, b: int): (c: Colour)
    ensures c.Rgb?
    ensures IsByte(r) && IsByte(g) && IsByte(b) ==> InUnitCube(c)
  {
    Rgb(r as real / 255.0, g as real / 255.0, b as real / 255.0)
  }

  /** The extended custom colours that are looked up after the CSS4 table. */
  const CustomColours: map<string, Colour> := map[
    "lemonyellow" := FromBytes(255, 250, 205),
    "grassgreen" := FromBytes(124, 252, 0),
    "skyblue" := FromBytes(135, 206, 235),
    "coralred" := FromBytes(255, 127, 80)
  ]

  /** The `r,g,b` branch of `parse_color`: the token must split on commas into
      exactly three integers, each in 0..255. */
  function ParseRgb(token: string): Result<Colour, ColourError>
  {
    var parts := Split(token, ',');
    if |parts| != 3 then Err(InvalidRgbFormat)
    else
      match (ParseInt(parts[0]), ParseInt(parts[1]), ParseInt(parts[2]))
      case (Some(r), Some(g), Some(b)) =>
        if IsByte(r) && IsByte(g) && IsByte(b) then Ok(FromBytes(r, g, b))
        else Err(InvalidRgbFormat)
      case _ => Err(InvalidRgbFormat)
  }

  /** `parse_color(token)`: a token with a comma is an RGB triple; any other
      token is looked up, lower-cased, first in the CSS4 table and then in the
      custom table. An RGB token fails only with the RGB-format error, a name
      only with the unknown-colour error naming the token as given; every
      accepted colour has its channels in [0,1] or is a hex string of the CSS4
      table. */
  function ParseColor(token: string, css: CssTable): (r: Result<Colour, ColourError>)
    ensures r.Err? ==> (r.error == InvalidRgbFormat <==> ',' in token)
    ensures r.Err? && r.error.UnknownColour? ==> r.error.token == token
    ensures r.Ok? ==> InUnitCube(r.value)
    ensures r.Ok? && r.value.Hex? ==> r.value.code in css.Values
    ensures r.Ok? && ',' in token ==> r.value.Rgb?
  {
    if ',' in token then ParseRgb(token)
    else
      var key := Lower(token);
      if key in css then Ok(Hex(css[key]))
      else if key in CustomColours then Ok(CustomColours[key])
      else Err(UnknownColour(token))
  }

  /** The text of each error, as the scripts print it. */
  function Message(e: ColourError): (m: string)
    ensures e.UnknownColour? ==> |m| > 15 + |e.token| && m[15..15 + |e.token|] == e.token
  {
    match e
    case InvalidRgbFormat =>
      "RGB color must be in the format r,g,b where r, g, b are integers between 0 and 255."
    case UnknownColour(t) =>
      "Unknown color: " + t + ". Use RGB (e.g., '255,255,0') or a valid color name."
  }

  /** `int(x)` on a real: truncation toward zero. */
  function Trunc(x: real): (n: int)
    ensures 0.0 <= x ==> n as real <= x < n as real + 1.0
    ensures x < 0.0 ==> n as real - 1.0 < x <= n as real
  {
    if 0.0 <= x then x.Floor else -((-x).Floor)
  }

  /** `normalize_color_to_255(c)`: each channel of a tuple becomes `int(c * 255)`;
      a hex string is passed through. */
  function NormalizeColorTo255(c: Colour): Background
  {
    match c
    case Rgb(r, g, b) => Channels(Trunc(r * 255.0), Trunc(g * 255.0), Trunc(b * 255.0))
    case Hex(s) => HexCode(s)
  }

  /** The token that writes the three integers as `r,g,b`. */
  function RgbText(r: int, g: int, b: int): string
  {
    IntText(r) + "," + IntText(g) + "," + IntText(b)
  }

  // ---------------------------------------------------------------------------
  // Properties
  // ---------------------------------------------------------------------------

  lemma TruncInt(n: int)
    ensures Trunc(n as real) == n
  {
  }

  /** Back-conversion undoes the division by 255 on every byte triple. */
  lemma NormalizeFromBytes(r: int, g: int, b: int)
    requires IsByte(r) && IsByte(g) && IsByte(b)
    ensures NormalizeColorTo255(FromBytes(r, g, b)) == Channels(r, g, b)
  {
    assert (r as real / 255.0) * 255.0 == r as real;
    assert (g as real / 255.0) * 255.0 == g as real;
    assert (b as real / 255.0) * 255.0 == b as real;
    TruncInt(r);
    TruncInt(g);
    TruncInt(b);
  }

  /** A hex string comes back from back-conversion unchanged. */
  lemma NormalizeKeepsHex(s: string)
    ensures NormalizeColorTo255(Hex(s)) == HexCode(s)
  {
  }

  /** The token `r,g,b` written from any three integers is accepted exactly when
      all three are in 0..255, and then yields `(r/255, g/255, b/255)`; otherwise
      it fails with the RGB-format error. */
  lemma RgbTokenDecides(r: int, g: int, b: int, css: CssTable)
    ensures ParseColor(RgbText(r, g, b), css)
         == if IsByte(r) && IsByte(g) && IsByte(b) then Ok(FromBytes(r, g, b))
            else Err(InvalidRgbFormat)
  {
    var t := RgbText(r, g, b);
    SplitThree(IntText(r), IntText(g), IntText(b));
    assert t[|IntText(r)|] == ',';
    ParseIntText(r);
    ParseIntText(g);
    ParseIntText(b);
  }

  /** Three comma-free parts joined by commas split back into those parts. */
  lemma SplitThree(a: string, b: string, c: string)
    requires ',' !in a && ',' !in b && ',' !in c
    ensures Split(a + "," + b + "," + c, ',') == [a, b, c]
  {
    var parts := [a, b, c];
    assert Join(parts, ',') == a + "," + b + "," + c by {
      assert parts[1..] == [b, c];
      assert parts[1..][1..] == [c];
      assert Join(parts[1..], ',') == b + [','] + c;
      assert Join(parts, ',') == a + [','] + (b + [','] + c);
    }
    SplitJoin(parts, ',');
  }

  /** Parsing `r,g,b` and converting back gives `(r, g, b)` for every byte triple. */
  lemma NormalizeParsedRgb(r: int, g: int, b: int, css: CssTable)
    requires IsByte(r) && IsByte(g) && IsByte(b)
    ensures ParseColor(RgbText(r, g, b), css).Ok?
    ensures NormalizeColorTo255(ParseColor(RgbText(r, g, b), css).value) == Channels(r, g, b)
  {
    RgbTokenDecides(r, g, b, css);
    NormalizeFromBytes(r, g, b);
  }

  /** Every colour accepted from a token with a comma is a byte triple divided
      by 255: back-conversion gives integers in 0..255 from which dividing by
      255 gives the colour again. */
  lemma RgbAcceptedIsByteTriple(token: string, css: CssTable)
    requires ',' in token && ParseColor(token, css).Ok?
    ensures var n := NormalizeColorTo255(ParseColor(token, css).value);
            && n.Channels? && IsByte(n.r) && IsByte(n.g) && IsByte(n.b)
            && FromBytes(n.r, n.g, n.b) == ParseColor(token, css).value
  {
    var parts := Split(token, ',');
    var r, g, b := ParseInt(parts[0]).value, ParseInt(parts[1]).value, ParseInt(parts[2]).value;
    assert ParseColor(token, css).value == FromBytes(r, g, b);
    NormalizeFromBytes(r, g, b);
  }

  /** A comma token with other than exactly two commas, i.e. other than three
      parts, fails with the RGB-format error. */
  lemma WrongPartCountRejected(token: string, css: CssTable)
    requires ',' in token && Count(token, ',') != 2
    ensures ParseColor(token, css) == Err(InvalidRgbFormat)
  {
  }

  /** The comma test that selects the `r,g,b` branch is the same as the token
      splitting into more than one part. */
  lemma CommaTestSplits(token: string)
    ensures ',' in token <==> |Split(token, ',')| >= 2
  {
    CountZero(token, ',');
  }

  /** Tokens with the wrong number of parts fail with the RGB-format error. */
  lemma RejectedArityExamples(css: CssTable)
    ensures ParseColor("1,2", css) == Err(InvalidRgbFormat)
    ensures ParseColor("1,2,3,4", css) == Err(InvalidRgbFormat)
  {
    assert "1,2"[1] == ',';
    assert Count("1,2", ',') == 1;
    assert "1,2,3,4"[1] == ',';
    assert Count("1,2,3,4", ',') == 3;
  }

  lemma Rejected300(css: CssTable)
    ensures ParseColor("300,0,0", css) == Err(InvalidRgbFormat)
  {
    assert DecimalString(0) == "0";
    assert DecimalString(300) == "300" by {
      assert DecimalString(3) == "3";
      assert DecimalString(30) == "30";
    }
    assert RgbText(300, 0, 0) == "300,0,0";
    RgbTokenDecides(300, 0, 0, css);
  }

  lemma Rejected999(css: CssTable)
    ensures ParseColor("999,0,0", css) == Err(InvalidRgbFormat)
  {
    assert DecimalString(0) == "0";
    assert DecimalString(999) == "999" by {
      assert DecimalString(9) == "9";
      assert DecimalString(99) == "99";
    }
    assert RgbText(999, 0, 0) == "999,0,0";
    RgbTokenDecides(999, 0, 0, css);
  }

  lemma RejectedMinus5(css: CssTable)
    ensures ParseColor("-5,0,0", css) == Err(InvalidRgbFormat)
  {
    assert DecimalString(0) == "0";
    assert DecimalString(5) == "5";
    assert RgbText(-5, 0, 0) == "-5,0,0";
    RgbTokenDecides(-5, 0, 0, css);
  }

  /** Tokens with a channel above 255 or below 0 fail with the RGB-format
      error. */
  lemma RejectedRangeExamples(css: CssTable)
    ensures ParseColor("300,0,0", css) == Err(InvalidRgbFormat)
    ensures ParseColor("999,0,0", css) == Err(InvalidRgbFormat)
    ensures ParseColor("-5,0,0", css) == Err(InvalidRgbFormat)
  {
    Rejected300(css);
    Rejected999(css);
    RejectedMinus5(css);
  }

  lemma LettersRejected(css: CssTable)
    ensures ParseColor("a,b,c", css) == Err(InvalidRgbFormat)
  {
    SplitThree("a", "b", "c");
    assert "a" + "," + "b" + "," + "c" == "a,b,c";
    assert "a,b,c"[1] == ',';
    assert Strip("a") == "a";
    assert ParseInt("a") == None;
  }

  lemma EmptyPartRejected(css: CssTable)
    ensures ParseColor("1,,3", css) == Err(InvalidRgbFormat)
  {
    SplitThree("1", "", "3");
    assert "1" + "," + "" + "," + "3" == "1,,3";
    assert "1,,3"[1] == ',';
    assert ParseInt("") == None;
  }

  /** Every comma token is decided by its parts: it is accepted exactly when it
      splits into three parts that `int` reads as values in 0..255, and then
      yields those values over 255; any other comma token fails with the
      RGB-format error. */
  lemma CommaTokenDecides(token: string, css: CssTable)
    requires ',' in token
    ensures var ps := Split(token, ',');
            ParseColor(token, css)
            == if |ps| == 3 && forall k :: 0 <= k < 3 ==> ParseInt(ps[k]).Some? && IsByte(ParseInt(ps[k]).value)
               then Ok(FromBytes(ParseInt(ps[0]).value, ParseInt(ps[1]).value, ParseInt(ps[2]).value))
               else Err(InvalidRgbFormat)
  {
    var ps := Split(token, ',');
    assert ParseColor(token, css) == ParseRgb(token);
    if |ps| == 3 {
      PartsDecide(ps[0], ps[1], ps[2], ps);
    }
  }

  /** The three-part case of `CommaTokenDecides`, for parts `p0`, `p1`, `p2`. */
  lemma PartsDecide(p0: string, p1: string, p2: string, ps: seq<string>)
    requires ps == [p0, p1, p2]
    ensures (forall k :: 0 <= k < 3 ==> ParseInt(ps[k]).Some? && IsByte(ParseInt(ps[k]).value))
            <==> (ParseInt(p0).Some? && IsByte(ParseInt(p0).value)
                  && ParseInt(p1).Some? && IsByte(ParseInt(p1).value)
                  && ParseInt(p2).Some? && IsByte(ParseInt(p2).value))
  {
    if !(ParseInt(p0).Some? && IsByte(ParseInt(p0).value)) {
      assert ps[0] == p0;
    } else if !(ParseInt(p1).Some? && IsByte(ParseInt(p1).value)) {
      assert ps[1] == p1;
    } else if !(ParseInt(p2).Some? && IsByte(ParseInt(p2).value)) {
      assert ps[2] == p2;
    }
  }

  /** A comma token with a part `int` refuses fails with the RGB-format error,
      whatever its other parts. */
  lemma NonIntegerPartRejected(token: string, css: CssTable)
    requires ',' in token
    requires exists k :: 0 <= k < |Split(token, ',')| && ParseInt(Split(token, ',')[k]).None?
    ensures ParseColor(token, css) == Err(InvalidRgbFormat)
  {
    CommaTokenDecides(token, css);
  }

  /** A comma token with an integer part outside 0..255 fails with the
      RGB-format error, however that integer is written. */
  lemma OutOfRangePartRejected(token: string, css: CssTable)
    requires ',' in token
    requires exists k :: 0 <= k < |Split(token, ',')| && ParseInt(Split(token, ',')[k]).Some?
                         && !IsByte(ParseInt(Split(token, ',')[k]).value)
    ensures ParseColor(token, css) == Err(InvalidRgbFormat)
  {
    CommaTokenDecides(token, css);
  }

  /** Examples: letters and an empty part are refused. */
  lemma NonIntegerPartExamples(css: CssTable)
    ensures ParseColor("a,b,c", css) == Err(InvalidRgbFormat)
    ensures ParseColor("1,,3", css) == Err(InvalidRgbFormat)
  {
    LettersRejected(css);
    EmptyPartRejected(css);
  }

  /** A name is matched whatever its case: two comma-free tokens with the same
      lower-case form are both accepted, with the same colour, or both rejected. */
  lemma NameCaseInsensitive(a: string, b: string, css: CssTable)
    requires ',' !in a && Lower(a) == Lower(b)
    ensures ParseColor(a, css).Ok? <==> ParseColor(b, css).Ok?
    ensures ParseColor(a, css).Ok? ==> ParseColor(a, css).value == ParseColor(b, css).value
  {
    LowerKeeps(a, ',');
    LowerKeeps(b, ',');
  }

  /** The CSS4 table is consulted first: a name whose lower-case form is in it
      resolves to its hex string; the custom table is consulted only for names
      the CSS4 table lacks. */
  lemma CssBeforeCustom(token: string, css: CssTable)
    requires ',' !in token
    ensures Lower(token) in css ==> ParseColor(token, css) == Ok(Hex(css[Lower(token)]))
    ensures Lower(token) !in css && Lower(token) in CustomColours
            ==> ParseColor(token, css) == Ok(CustomColours[Lower(token)])
  {
  }

  /** With a CSS4 table that has `skyblue` (as the plotting library's has), the
      custom `skyblue` triple is never returned. */
  lemma CustomSkyBlueUnreachable(token: string, css: CssTable)
    requires ',' !in token && Lower(token) == "skyblue" && "skyblue" in css
    ensures ParseColor(token, css) == Ok(Hex(css["skyblue"]))
    ensures ParseColor(token, css) != Ok(CustomColours["skyblue"])
  {
  }

  /** A comma-free token is rejected exactly when its lower-case form is in
      neither table, and then with the unknown-colour error naming it. */
  lemma UnknownNameRejected(token: string, css: CssTable)
    requires ',' !in token
    ensures ParseColor(token, css).Err?
        <==> Lower(token) !in css && Lower(token) !in CustomColours
    ensures ParseColor(token, css).Err? ==> ParseColor(token, css) == Err(UnknownColour(token))
  {
  }

  /** The custom colours convert back to the integer triples written in the
      table. */
  lemma CustomColoursBytes()
    ensures NormalizeColorTo255(CustomColours["lemonyellow"]) == Channels(255, 250, 205)
    ensures NormalizeColorTo255(CustomColours["grassgreen"]) == Channels(124, 252, 0)
    ensures NormalizeColorTo255(CustomColours["skyblue"]) == Channels(135, 206, 235)
    ensures NormalizeColorTo255(CustomColours["coralred"]) == Channels(255, 127, 80)
  {
    NormalizeFromBytes(255, 250, 205);
    NormalizeFromBytes(124, 252, 0);
    NormalizeFromBytes(135, 206, 235);
    NormalizeFromBytes(255, 127, 80);
  }
}
