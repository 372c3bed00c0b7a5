/**
 * `Color` and `ColorUtils`: an RGB colour, its CSS text, a random colour
 * and the pastel colour derived from it. `Math.random()` is not modelled:
 * each random draw is an input, a real number in [0, 1).
 */
module Colors {
  import opened Wrappers
  import Text
  import Decimal

  /** The constant every channel is averaged with to make a pastel colour. */
  const PastelConstant: int := 240

  datatype Color = Color(red: int, green: int, blue: int)

  predicate InByteRange(c: Color)
  {
    0 <= c.red <= 255 && 0 <= c.green <= 255 && 0 <= c.blue <= 255
  }

  predicate InPastelRange(c: Color)
  {
    120 <= c.red <= 247 && 120 <= c.green <= 247 && 120 <= c.blue <= 247
  }

  /** The CSS text `rgb(r, g, b)` of a colour. */
  function Rgb(c: Color): (s: string)
    ensures |s| >= 12 && s[..4] == "rgb(" && s[|s| - 1] == ')'
  {
    "rgb(" + Decimal.IntToString(c.red) + ", " + Decimal.IntToString(c.green)
      + ", " + Decimal.IntToString(c.blue) + ")"
  }

  /** Reads `rgb(r, g, b)` text back into a colour; None for any other text. */
  function ParseRgb(s: string): Option<Color>
  {
    if |s| < 5 || s[..4] != "rgb(" || s[|s| - 1] != ')' then None
    else
      var fields := Text.Split(s[4..|s| - 1], ',');
      if |fields| != 3 || |fields[1]| == 0 || fields[1][0] != ' '
         || |fields[2]| == 0 || fields[2][0] != ' ' then None
      else
        match (Decimal.ParseInt(fields[0]), Decimal.ParseInt(fields[1][1..]),
               Decimal.ParseInt(fields[2][1..]))
        case (Some(r), Some(g), Some(b)) => Some(Color(r, g, b))
        case _ => None
  }

  lemma NoComma(i: int)
    ensures ',' !in Decimal.IntToString(i)
  {
    var s := Decimal.IntToString(i);
    assert forall k :: 0 <= k < |s| ==> s[k] != ',';
  }

  /** The three comma-separated fields of `rgb(...)`, each after the first led by a space. */
  function RgbFields(c: Color): seq<string>
  {
    [Decimal.IntToString(c.red), " " + Decimal.IntToString(c.green),
     " " + Decimal.IntToString(c.blue)]
  }

  lemma JoinThreeFields(r: string, g: string, b: string)
    ensures Text.Join([r, " " + g, " " + b], ',') == r + ", " + g + ", " + b
  {
    Text.JoinCons(" " + g, [" " + b], ',');
    Text.JoinCons(r, [" " + g, " " + b], ',');
    assert [r] + [" " + g, " " + b] == [r, " " + g, " " + b];
  }

  /** Between `rgb(` and `)` stand the three fields joined by commas. */
  lemma RgbIsJoinedFields(c: Color)
    ensures var s := Rgb(c); s[4..|s| - 1] == Text.Join(RgbFields(c), ',')
  {
    var r, g, b := Decimal.IntToString(c.red), Decimal.IntToString(c.green),
                   Decimal.IntToString(c.blue);
    var body := r + ", " + g + ", " + b;
    var s := Rgb(c);
    assert s == "rgb(" + body + ")";
    assert s[4..|s| - 1] == body;
    JoinThreeFields(r, g, b);
  }

  lemma RgbSplitsIntoFields(c: Color)
    ensures var s := Rgb(c); Text.Split(s[4..|s| - 1], ',') == RgbFields(c)
  {
    RgbIsJoinedFields(c);
    NoComma(c.red);
    NoComma(c.green);
    NoComma(c.blue);
    assert Text.FreeOf(RgbFields(c), ',');
    Text.SplitJoin(RgbFields(c), ',');
  }

  /** The CSS text of a colour determines the colour: it reads back exactly. */
  lemma RgbRoundTrip(c: Color)
    ensures ParseRgb(Rgb(c)) == Some(c)
  {
    var s := Rgb(c);
    var fields := RgbFields(c);
    RgbSplitsIntoFields(c);
    assert fields[1][1..] == Decimal.IntToString(c.green);
    assert fields[2][1..] == Decimal.IntToString(c.blue);
    Decimal.IntToStringRoundTrip(c.red);
    Decimal.IntToStringRoundTrip(c.green);
    Decimal.IntToStringRoundTrip(c.blue);
  }

  /** Different colours never share a CSS text. */
  lemma RgbInjective(c: Color, d: Color)
    ensures Rgb(c) == Rgb(d) ==> c == d
  {
    RgbRoundTrip(c);
    RgbRoundTrip(d);
  }

  /** `Math.floor(draw * 256)` for one random draw. */
  function RandomChannel(draw: real): (c: int)
    requires 0.0 <= draw < 1.0
    ensures 0 <= c <= 255
    ensures c as real <= draw * 256.0 < c as real + 1.0
  {
    (draw * 256.0).Floor
  }

  /** Every byte value is the channel of some draw. */
  lemma RandomChannelOnto(c: int)
    requires 0 <= c <= 255
    ensures 0.0 <= c as real / 256.0 < 1.0 && RandomChannel(c as real / 256.0) == c
  {
  }

  /** `ColorUtils.generateRandomColor()`, with its three draws as inputs. */
  function GenerateRandomColor(redDraw: real, greenDraw: real, blueDraw: real): (c: Color)
    requires 0.0 <= redDraw < 1.0 && 0.0 <= greenDraw < 1.0 && 0.0 <= blueDraw < 1.0
    ensures InByteRange(c)
  {
    Color(RandomChannel(redDraw), RandomChannel(greenDraw), RandomChannel(blueDraw))
  }

  /** `Math.floor((c + 240) / 2)`: the average of `c` and 240, rounded down. */
  function Pastel(c: int): (p: int)
    ensures 2 * p <= c + PastelConstant <= 2 * p + 1
    ensures 0 <= c <= 255 ==> 120 <= p <= 247
  {
    (c + PastelConstant) / 2
  }

  /** Every value in [120, 247] is the pastel of some byte, so the range is exact. */
  lemma PastelOnto(p: int)
    requires 120 <= p <= 247
    ensures 0 <= 2 * p - PastelConstant <= 255 && Pastel(2 * p - PastelConstant) == p
  {
  }

  /**
   * `ColorUtils.generateRandomPastelColor()`: a random colour, then each
   * channel independently averaged with 240.
   */
  function GenerateRandomPastelColor(redDraw: real, greenDraw: real, blueDraw: real): (p: Color)
    requires 0.0 <= redDraw < 1.0 && 0.0 <= greenDraw < 1.0 && 0.0 <= blueDraw < 1.0
    ensures var base := GenerateRandomColor(redDraw, greenDraw, blueDraw);
      && 2 * p.red <= base.red + PastelConstant <= 2 * p.red + 1
      && 2 * p.green <= base.green + PastelConstant <= 2 * p.green + 1
      && 2 * p.blue <= base.blue + PastelConstant <= 2 * p.blue + 1
    ensures InPastelRange(p)
  {
    var base := GenerateRandomColor(redDraw, greenDraw, blueDraw);
    Color(Pastel(base.red), Pastel(base.green), Pastel(base.blue))
  }
}
