/** The three pieces of Python's string handling that `parse_color` relies on:
    `str.lower()`, `str.split(',')` and `int(str)`, each with the properties the
    colour parser needs, and a decimal formatter used as the inverse of `int`. */
module Text {
  import opened Results

  // ---------------------------------------------------------------------------
  // Lower-casing (ASCII letters only)
  // ---------------------------------------------------------------------------

  predicate IsUpper(c: char) { 'A' <= c <= 'Z' }

  function LowerChar(c: char): (d: char)
    ensures !IsUpper(d)
    ensures IsUpper(c) ==> d as int == c as int + 32
    ensures !IsUpper(c) ==> d == c
  {
    if IsUpper(c) then (c as int + 32) as char else c
  }

  /** `s.lower()`: every ASCII capital is replaced by its small letter. */
  function Lower(s: string): (t: string)
    ensures |t| == |s|
    ensures forall k :: 0 <= k < |s| ==> t[k] == LowerChar(s[k])
  {
    if s == [] then [] else [LowerChar(s[0])] + Lower(s[1..])
  }

  /** Lower-casing twice is lower-casing once. */
  lemma LowerIdempotent(s: string)
    ensures Lower(Lower(s)) == Lower(s)
  {
  }

  /** Lower-casing neither adds nor removes a character that is not a capital
      letter, in particular a comma. */
  lemma LowerKeeps(s: string, c: char)
    requires !IsUpper(c) && !('a' <= c <= 'z')
    ensures c in s <==> c in Lower(s)
  {
    var t := Lower(s);
    if c in s {
      var k :| 0 <= k < |s| && s[k] == c;
      assert t[k] == c;
    }
    if c in t {
      var k :| 0 <= k < |t| && t[k] == c;
      assert s[k] == c;
    }
  }

  // ---------------------------------------------------------------------------
  // Splitting on a separator
  // ---------------------------------------------------------------------------

  /** The number of times `c` occurs in `s`. */
  function Count(s: string, c: char): nat
  {
    if s == [] then 0 else (if s[0] == c then 1 else 0) + Count(s[1..], c)
  }

  lemma {:induction false} CountZero(s: string, c: char)
    ensures Count(s, c) == 0 <==> c !in s
  {
    if s != [] {
      CountZero(s[1..], c);
      assert s == [s[0]] + s[1..];
    }
  }

  /** `s.split(sep)`: the pieces of `s` between occurrences of `sep`, one more
      piece than there are separators, none of them holding the separator. */
  function Split(s: string, sep: char): (parts: seq<string>)
    ensures |parts| == Count(s, sep) + 1
    ensures forall k :: 0 <= k < |parts| ==> sep !in parts[k]
    decreases |s|
  {
    if s == [] then [""]
    else
      var rest := Split(s[1..], sep);
      if s[0] == sep then [""] + rest
      else [[s[0]] + rest[0]] + rest[1..]
  }

  /** `sep.join(parts)`. */
  function Join(parts: seq<string>, sep: char): string
    decreases |parts|
  {
    if parts == [] then ""
    else if |parts| == 1 then parts[0]
    else parts[0] + [sep] + Join(parts[1..], sep)
  }

  /** Joining the pieces of a split gives back the string. */
  lemma {:induction false} JoinSplit(s: string, sep: char)
    ensures Join(Split(s, sep), sep) == s
    decreases |s|
  {
    if s != [] {
      var rest := Split(s[1..], sep);
      JoinSplit(s[1..], sep);
      if s[0] == sep {
        assert Split(s, sep) == [""] + rest;
      } else {
        var parts := Split(s, sep);
        assert parts == [[s[0]] + rest[0]] + rest[1..];
        if |rest| == 1 {
          assert parts == [[s[0]] + rest[0]];
          assert rest == [rest[0]];
        } else {
          assert parts[1..] == rest[1..];
          assert Join(rest, sep) == rest[0] + [sep] + Join(rest[1..], sep);
        }
      }
    }
  }

  /** A piece free of separators glues onto the first piece of what follows. */
  lemma {:induction false} SplitPrefix(a: string, tail: string, sep: char)
    requires sep !in a
    ensures Split(a + tail, sep) == [a + Split(tail, sep)[0]] + Split(tail, sep)[1..]
    decreases |a|
  {
    if a != [] {
      assert (a + tail)[1..] == a[1..] + tail;
      SplitPrefix(a[1..], tail, sep);
      assert [a[0]] + (a[1..] + Split(tail, sep)[0]) == a + Split(tail, sep)[0];
    } else {
      assert a + tail == tail;
      var parts := Split(tail, sep);
      assert a + parts[0] == parts[0];
      assert parts == [parts[0]] + parts[1..];
    }
  }

  /** Splitting a join of separator-free pieces gives back the pieces. */
  lemma {:induction false} SplitJoin(parts: seq<string>, sep: char)
    requires |parts| >= 1
    requires forall k :: 0 <= k < |parts| ==> sep !in parts[k]
    ensures Split(Join(parts, sep), sep) == parts
    decreases |parts|
  {
    if |parts| == 1 {
      SplitPrefix(parts[0], "", sep);
      assert parts[0] + "" == parts[0];
    } else {
      var rest := Join(parts[1..], sep);
      SplitJoin(parts[1..], sep);
      SplitPrefix(parts[0], [sep] + rest, sep);
      assert parts[0] + [sep] + rest == parts[0] + ([sep] + rest);
      assert Split([sep] + rest, sep) == [""] + Split(rest, sep) by {
        assert ([sep] + rest)[1..] == rest;
      }
      assert parts[0] + "" == parts[0];
      assert parts == [parts[0]] + parts[1..];
    }
  }

  // ---------------------------------------------------------------------------
  // Integers: int(s) and its inverse
  // ---------------------------------------------------------------------------

  predicate IsDigit(c: char) { '0' <= c <= '9' }

  function DigitValue(c: char): (d: nat)
    requires IsDigit(c)
    ensures d < 10
  {
    c as int - '0' as int
  }

  function DigitChar(d: nat): (c: char)
    requires d < 10
    ensures IsDigit(c) && DigitValue(c) == d
  {
    ('0' as int + d) as char
  }

  /** The ASCII white-space characters: tab, line feed, vertical tab, form feed,
      carriage return and space. */
  predicate IsSpace(c: char) { c == ' ' || '\t' <= c <= '\r' }

  function TrimLeft(s: string): (t: string)
    ensures t == [] || !IsSpace(t[0])
    decreases |s|
  {
    if s != [] && IsSpace(s[0]) then TrimLeft(s[1..]) else s
  }

  function TrimRight(s: string): (t: string)
    ensures t == [] || !IsSpace(t[|t| - 1])
    decreases |s|
  {
    if s != [] && IsSpace(s[|s| - 1]) then TrimRight(s[..|s| - 1]) else s
  }

  /** `s.strip()` for ASCII white space. */
  function Strip(s: string): string
  {
    TrimRight(TrimLeft(s))
  }

  /** A string made of digits and underscores. */
  predicate DigitsOrUnderscores(d: string)
  {
    forall k :: 0 <= k < |d| ==> IsDigit(d[k]) || d[k] == '_'
  }

  /** The digit part `int` accepts: digits, possibly grouped by single
      underscores, starting and ending with a digit. */
  predicate IsNumeral(d: string)
  {
    && |d| > 0
    && DigitsOrUnderscores(d)
    && IsDigit(d[0]) && IsDigit(d[|d| - 1])
    && forall k :: 0 <= k < |d| - 1 && d[k] == '_' ==> d[k + 1] != '_'
  }

  /** The decimal value of the digits of `d`, underscores skipped. */
  function NumeralValue(d: string): nat
    requires DigitsOrUnderscores(d)
    decreases |d|
  {
    if d == [] then 0
    else
      var last := d[|d| - 1];
      if last == '_' then NumeralValue(d[..|d| - 1])
      else NumeralValue(d[..|d| - 1]) * 10 + DigitValue(last)
  }

  /** `int(s)` in base ten: surrounding white space, an optional sign, then a
      numeral; `None` where Python raises `ValueError`. */
  function ParseInt(s: string): (r: Option<int>)
    ensures r.Some? ==> exists k :: 0 <= k < |s| && IsDigit(s[k])
  {
    var t := Strip(s);
    StripInside(s);
    if |t| > 0 && (t[0] == '+' || t[0] == '-') && IsNumeral(t[1..]) then
      assert IsDigit(t[1..][0]) && t[1..][0] == t[1];
      var v: int := NumeralValue(t[1..]);
      Some(if t[0] == '-' then -v else v)
    else if IsNumeral(t) then
      Some(NumeralValue(t))
    else
      None
  }

  lemma SpacedSeven()
    ensures ParseInt(" 7\t") == Some(7)
  {
    assert Strip(" 7\t") == "7" by {
      assert TrimLeft(" 7\t") == TrimLeft("7\t") == "7\t";
      assert TrimRight("7\t") == TrimRight("7") == "7";
    }
    assert NumeralValue("7") == 7 by { assert "7"[..0] == ""; }
  }

  lemma PlusTwelve()
    ensures ParseInt("+12") == Some(12)
  {
    assert Strip("+12") == "+12";
    assert "+12"[1..] == "12";
    assert NumeralValue("12") == 12 by { assert "12"[..1] == "1" && "1"[..0] == ""; }
  }

  lemma MinusZero()
    ensures ParseInt("-0") == Some(0)
  {
    assert Strip("-0") == "-0";
    assert "-0"[1..] == "0";
    assert NumeralValue("0") == 0 by { assert "0"[..0] == ""; }
  }

  /** `int` allows white space around a part and a sign before it. */
  lemma ParseIntSpaceAndSign()
    ensures ParseInt(" 7\t") == Some(7)
    ensures ParseInt("+12") == Some(12)
    ensures ParseInt("-0") == Some(0)
  {
    SpacedSeven();
    PlusTwelve();
    MinusZero();
  }

  /** A string without capitals is its own lower-case form. */
  lemma LowerNoCapitals(s: string)
    requires forall k :: 0 <= k < |s| ==> !IsUpper(s[k])
    ensures Lower(s) == s
  {
  }

  /** `int` allows single underscores between digits and nothing else. */
  lemma ParseIntUnderscores()
    ensures ParseInt("1_0") == Some(10)
    ensures ParseInt("1__0") == None
    ensures ParseInt("_1") == None
    ensures ParseInt("1_") == None
  {
    assert Strip("1_0") == "1_0";
    assert NumeralValue("1_0") == 10 by {
      assert "1_0"[..2] == "1_" && "1_"[..1] == "1" && "1"[..0] == "";
    }
    assert Strip("1__0") == "1__0";
    assert !IsNumeral("1__0") by {
      assert "1__0"[1] == '_' && "1__0"[2] == '_';
    }
    assert Strip("_1") == "_1";
    assert Strip("1_") == "1_";
  }

  /** `int` refuses an empty or blank part and a decimal fraction. */
  lemma ParseIntRefusesNonIntegers()
    ensures ParseInt("") == None
    ensures ParseInt(" ") == None
    ensures ParseInt("1.5") == None
  {
    assert Strip(" ") == "" by { assert TrimLeft(" ") == TrimLeft("") == ""; }
    assert Strip("1.5") == "1.5";
    assert !IsNumeral("1.5") by { assert !IsDigit("1.5"[1]); }
  }

  /** Every character of the stripped string is a character of the string. */
  lemma StripInside(s: string)
    ensures forall k :: 0 <= k < |Strip(s)| ==> Strip(s)[k] in s
  {
    TrimLeftInside(s);
    TrimRightInside(TrimLeft(s));
  }

  lemma {:induction false} TrimLeftInside(s: string)
    ensures forall k :: 0 <= k < |TrimLeft(s)| ==> TrimLeft(s)[k] in s
    decreases |s|
  {
    if s != [] && IsSpace(s[0]) {
      TrimLeftInside(s[1..]);
      forall k | 0 <= k < |TrimLeft(s)| ensures TrimLeft(s)[k] in s {
        assert TrimLeft(s)[k] in s[1..];
      }
    }
  }

  lemma {:induction false} TrimRightInside(s: string)
    ensures forall k :: 0 <= k < |TrimRight(s)| ==> TrimRight(s)[k] in s
    decreases |s|
  {
    if s != [] && IsSpace(s[|s| - 1]) {
      TrimRightInside(s[..|s| - 1]);
      forall k | 0 <= k < |TrimRight(s)| ensures TrimRight(s)[k] in s {
        assert TrimRight(s)[k] in s[..|s| - 1];
      }
    }
  }

  /** The shortest decimal numeral of `n`, as `str(n)` writes it. */
  function DecimalString(n: nat): (s: string)
    ensures |s| > 0
    ensures forall k :: 0 <= k < |s| ==> IsDigit(s[k])
    decreases n
  {
    if n < 10 then [DigitChar(n)] else DecimalString(n / 10) + [DigitChar(n % 10)]
  }

  /** `str(n)` for any integer: a minus sign before the numeral of `-n`. */
  function IntText(n: int): (s: string)
    ensures ',' !in s
  {
    if n < 0 then "-" + DecimalString(-n) else DecimalString(n)
  }

  lemma {:induction false} DecimalValue(n: nat)
    ensures DigitsOrUnderscores(DecimalString(n))
    ensures NumeralValue(DecimalString(n)) == n
    decreases n
  {
    if n >= 10 {
      DecimalValue(n / 10);
      var s := DecimalString(n);
      assert s[..|s| - 1] == DecimalString(n / 10);
    }
  }

  /** `int(str(n)) == n`: the integer parser reads back what the formatter writes. */
  lemma ParseIntText(n: int)
    ensures ParseInt(IntText(n)) == Some(n)
  {
    var s := IntText(n);
    var d := DecimalString(if n < 0 then -n else n);
    DecimalValue(if n < 0 then -n else n);
    assert IsNumeral(d);
    assert Strip(s) == s by {
      assert !IsSpace(s[0]) && !IsSpace(s[|s| - 1]);
    }
    if n < 0 {
      assert s[1..] == d;
    } else {
      assert s == d;
    }
  }
}
