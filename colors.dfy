/**
 * The colour prefixes of `drawNavigationCanvas` (manual.js:111-122): a
 * colour given as `{r, g, b}` becomes the text "r,g,b," that the drawing
 * code later completes into `rgba(r,g,b,alpha)`; a missing colour uses a
 * fixed default. Channels are integral JavaScript numbers, printed in
 * decimal as `String(n)` prints them up to 2^53 in magnitude.
 */
module Colors {

  import opened Options

  datatype Color = Color(r: int, g: int, b: int)

  /** The prefixes used when no colour is passed: those of (0, 140, 255) and (254, 140, 0). */
  const DEFAULT_RECT_COLOR: string := "0,140,255,"
  const DEFAULT_NAME_COLOR: string := "254,140,0,"

  predicate IsDigit(c: char) {
    '0' <= c <= '9'
  }

  predicate AllDigits(s: string) {
    forall i | 0 <= i < |s| :: IsDigit(s[i])
  }

  function DigitChar(d: nat): (c: char)
    requires d < 10
    ensures IsDigit(c) && c as int - '0' as int == d
  {
    (d + '0' as int) as char
  }

  /** The decimal digits of `n`, most significant first, without leading zeros. */
  function NatString(n: nat): (s: string)
    ensures s != [] && AllDigits(s)
    ensures s[0] == '0' <==> n == 0
    ensures |s| == 1 || s[0] != '0'
  {
    if n < 10 then [DigitChar(n)] else NatString(n / 10) + [DigitChar(n % 10)]
  }

  /**
   * `String(n)` for an integral number `n`, as JavaScript prints it for
   * |n| <= 2^53; larger magnitudes are printed here in full digits.
   */
  function NumberString(n: int): (s: string)
    ensures s != [] && ',' !in s
    ensures s[0] == '-' <==> n < 0
    ensures s[0] == '-' ==> |s| > 1 && s[1] != '0'
    ensures s[0] != '-' ==> |s| == 1 || s[0] != '0'
  {
    if n < 0 then "-" + NatString(-n) else NatString(n)
  }

  /** The value of a string of decimal digits. */
  function DigitsValue(s: string): nat
    requires AllDigits(s)
  {
    if s == [] then 0 else 10 * DigitsValue(s[..|s| - 1]) + (s[|s| - 1] as int - '0' as int)
  }

  /** Reads back what NumberString prints. */
  function ParseNumber(s: string): Option<int> {
    if |s| > 1 && s[0] == '-' && AllDigits(s[1..]) then Some(0 - DigitsValue(s[1..]))
    else if s != [] && AllDigits(s) then Some(DigitsValue(s))
    else None
  }

  /** `s.split(",")`. */
  function Split(s: string): (fields: seq<string>)
    ensures |fields| >= 1
  {
    if s == [] then [""]
    else if s[0] == ',' then [""] + Split(s[1..])
    else var rest := Split(s[1..]); [[s[0]] + rest[0]] + rest[1..]
  }

  /** Reads a prefix "r,g,b," back into its colour; None when it is not of that form. */
  function ParseColorPrefix(s: string): Option<Color> {
    var fields := Split(s);
    if |fields| != 4 || fields[3] != "" then None
    else match (ParseNumber(fields[0]), ParseNumber(fields[1]), ParseNumber(fields[2]))
      case (Some(r), Some(g), Some(b)) => Some(Color(r, g, b))
      case _ => None
  }

  lemma {:induction false} NatStringValue(n: nat)
    ensures DigitsValue(NatString(n)) == n
  {
    if n >= 10 {
      var s := NatString(n);
      assert s[..|s| - 1] == NatString(n / 10);
      NatStringValue(n / 10);
    }
  }

  /** A digit string without leading zeros is the one NatString prints for its value. */
  lemma {:induction false} NatStringCanonical(s: string)
    requires s != [] && AllDigits(s)
    requires |s| == 1 || s[0] != '0'
    ensures s == NatString(DigitsValue(s))
  {
    if |s| > 1 {
      var init := s[..|s| - 1];
      assert init[0] == s[0];
      NatStringCanonical(init);
      var m := DigitsValue(init);
      var n := DigitsValue(s);
      assert n == 10 * m + (s[|s| - 1] as int - '0' as int);
      assert m != 0;
      assert n / 10 == m && n % 10 == s[|s| - 1] as int - '0' as int;
      assert s == init + [s[|s| - 1]];
    }
  }

  lemma NumberStringRoundTrip(n: int)
    ensures ParseNumber(NumberString(n)) == Some(n)
  {
    if n < 0 {
      var s := NumberString(n);
      assert s[1..] == NatString(-n);
      NatStringValue(-n);
    } else {
      NatStringValue(n);
    }
  }

  lemma {:induction false} SplitAtComma(a: string, b: string)
    requires ',' !in a
    ensures Split(a + "," + b) == [a] + Split(b)
  {
    if a != [] {
      assert (a + "," + b)[1..] == a[1..] + "," + b;
      SplitAtComma(a[1..], b);
      assert [a[0]] + a[1..] == a;
    }
  }

  /** Splitting the prefix at its commas gives the three channels and an empty last field. */
  lemma ColorStringFields(c: Color)
    ensures var r, g, b := NumberString(c.r), NumberString(c.g), NumberString(c.b);
      Split(r + "," + g + "," + b + ",") == [r, g, b, ""]
  {
    var r, g, b := NumberString(c.r), NumberString(c.g), NumberString(c.b);
    assert r + "," + g + "," + b + "," == r + "," + (g + "," + (b + "," + ""));
    SplitAtComma(b, "");
    SplitAtComma(g, b + "," + "");
    SplitAtComma(r, g + "," + (b + "," + ""));
  }

  /**
   * `String(c.r) + "," + String(c.g) + "," + String(c.b) + ","`: the prefix
   * ends in "," and reads back as the colour it was made from.
   */
  function ColorString(c: Color): (prefix: string)
    ensures prefix != [] && prefix[|prefix| - 1] == ','
    ensures ParseColorPrefix(prefix) == Some(c)
  {
    ColorStringFields(c);
    NumberStringRoundTrip(c.r);
    NumberStringRoundTrip(c.g);
    NumberStringRoundTrip(c.b);
    NumberString(c.r) + "," + NumberString(c.g) + "," + NumberString(c.b) + ","
  }

  /**
   * The colour prefix of `drawNavigationCanvas`: the given colour's channels
   * joined by "," with a trailing ",", or `fallback` when no colour is given.
   * The prefix of a given colour reads back as that colour.
   */
  function ColorPrefix(c: Option<Color>, fallback: string): (prefix: string)
    ensures c.None? ==> prefix == fallback
    ensures c.Some? ==> ParseColorPrefix(prefix) == c
  {
    match c
    case None => fallback
    case Some(color) => ColorString(color)
  }

  /** The rectangle default is the prefix of (0, 140, 255) and reads back as it. */
  lemma DefaultRectColor()
    ensures ColorString(Color(0, 140, 255)) == DEFAULT_RECT_COLOR
    ensures ParseColorPrefix(DEFAULT_RECT_COLOR) == Some(Color(0, 140, 255))
  {
  }

  /** The name default is the prefix of (254, 140, 0) and reads back as it. */
  lemma DefaultNameColor()
    ensures ColorString(Color(254, 140, 0)) == DEFAULT_NAME_COLOR
    ensures ParseColorPrefix(DEFAULT_NAME_COLOR) == Some(Color(254, 140, 0))
  {
  }

}
