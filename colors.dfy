/**
 * The colour conversions of the picker: a colour as three channels, its
 * six-digit hexadecimal code (`#RRGGBB` of section 5.2 of CSS Color Module
 * Level 4, without the `#`), the validator for typed codes, and the legacy
 * `rgb(R, G, B)` notation of section 5.1 of the same module.
 */
module ColorCodes {
  import opened Wrappers
  import opened Text

  /** A colour as the program passes it around: three JavaScript numbers. */
  datatype Color = Color(red: int, green: int, blue: int)

  predicate InRange(v: int) { 0 <= v <= 255 }

  /** The invariant the program expects of every colour: all channels in 0..255. */
  predicate ValidColor(c: Color) { InRange(c.red) && InRange(c.green) && InRange(c.blue) }

  /** The colour shown when the page loads. */
  const DefaultColor := Color(221, 222, 238)

  // ------------------------------------------------------------- encoding

  /** The upper-case digit for `d`, as `toUpperCase` turns a `toString(16)` digit. */
  function UpperHexDigit(d: nat): (ch: char)
    requires d < 16
    ensures IsUpperHexDigit(ch)
  {
    if d < 10 then ('0' as int + d) as char else ('A' as int + d - 10) as char
  }

  lemma UpperOfHexDigitChar(d: nat)
    requires d < 16
    ensures UpperChar(HexDigitChar(d)) == UpperHexDigit(d)
  {
  }

  lemma UpperHexDigitZero(d: nat)
    requires d < 16
    ensures UpperHexDigit(d) == '0' <==> d == 0
  {
  }

  lemma ValueOfUpperHexDigit(d: nat)
    requires d < 16
    ensures IsHexDigit(UpperHexDigit(d)) && HexDigitValue(UpperHexDigit(d)) == d
  {
  }

  lemma UpperHexDigitOfValue(ch: char)
    requires IsHexDigit(ch)
    ensures UpperHexDigit(HexDigitValue(ch)) == UpperChar(ch)
  {
  }

  /** `getTwoCode`: `value.toString(16)`, with a `0` put in front of a single digit. */
  function GetTwoCode(value: int): string
  {
    var hex := ToString16(value);
    if |hex| == 1 then "0" + hex else hex
  }

  /** For a channel in 0..255, the two digits are its high and its low nibble. */
  lemma TwoCodeDigits(value: int)
    requires 0 <= value < 256
    ensures GetTwoCode(value) == [HexDigitChar(value / 16), HexDigitChar(value % 16)]
  {
    if value < 16 {
      assert ToHexDigits(value) == [HexDigitChar(value)];
    } else {
      assert ToHexDigits(value / 16) == [HexDigitChar(value / 16)];
      assert ToHexDigits(value) == [HexDigitChar(value / 16), HexDigitChar(value % 16)];
    }
  }

  lemma UpperTwoCode(value: int)
    requires 0 <= value < 256
    ensures Upper(GetTwoCode(value)) == [UpperHexDigit(value / 16), UpperHexDigit(value % 16)]
  {
    TwoCodeDigits(value);
    UpperOfHexDigitChar(value / 16);
    UpperOfHexDigitChar(value % 16);
  }

  /** `generateHexColor`: the three two-digit codes, red first, in upper case. */
  function GenerateHexColor(c: Color): string
  {
    Upper(GetTwoCode(c.red) + GetTwoCode(c.green) + GetTwoCode(c.blue))
  }

  /**
   * The `RRGGBB` digits of a colour as CSS writes them: two upper-case
   * digits per channel, high nibble first, red, green, blue.
   */
  function HexTriplet(c: Color): (h: string)
    requires ValidColor(c)
    ensures |h| == 6 && forall i :: 0 <= i < 6 ==> IsUpperHexDigit(h[i])
  {
    [UpperHexDigit(c.red / 16), UpperHexDigit(c.red % 16),
     UpperHexDigit(c.green / 16), UpperHexDigit(c.green % 16),
     UpperHexDigit(c.blue / 16), UpperHexDigit(c.blue % 16)]
  }

  /** On a valid colour `generateHexColor` writes exactly the CSS digits. */
  lemma GenerateHexColorDigits(c: Color)
    requires ValidColor(c)
    ensures GenerateHexColor(c) == HexTriplet(c)
  {
    var r, g, b := GetTwoCode(c.red), GetTwoCode(c.green), GetTwoCode(c.blue);
    UpperTwoCode(c.red);
    UpperTwoCode(c.green);
    UpperTwoCode(c.blue);
    UpperConcat(r + g, b);
    UpperConcat(r, g);
    calc {
      GenerateHexColor(c);
      Upper(r + g + b);
      Upper(r) + Upper(g) + Upper(b);
      HexTriplet(c);
    }
  }

  /**
   * A valid colour always gives six characters from `0-9A-F`, and a channel
   * below 16 is padded with a leading `0`.
   */
  lemma GenerateHexColorShape(c: Color)
    requires ValidColor(c)
    ensures var h := GenerateHexColor(c);
      |h| == 6 && (forall i :: 0 <= i < 6 ==> IsUpperHexDigit(h[i]))
      && (c.red < 16 <==> h[0] == '0')
      && (c.green < 16 <==> h[2] == '0')
      && (c.blue < 16 <==> h[4] == '0')
  {
    GenerateHexColorDigits(c);
    var h := HexTriplet(c);
    UpperHexDigitZero(c.red / 16);
    UpperHexDigitZero(c.green / 16);
    UpperHexDigitZero(c.blue / 16);
    assert h[0] == UpperHexDigit(c.red / 16) && h[2] == UpperHexDigit(c.green / 16);
    assert h[4] == UpperHexDigit(c.blue / 16);
  }

  /** The default colour's code. */
  lemma DefaultColorCode()
    ensures GenerateHexColor(DefaultColor) == "DDDEEE"
  {
  }

  /** A mixed colour: full red, no green, blue 15 padded to `0F`. */
  lemma MixedColorCode()
    ensures GenerateHexColor(Color(255, 0, 15)) == "FF000F"
  {
  }

  // ------------------------------------------------------------- decoding

  /** `s.slice(from, to)` for non-negative bounds: both are clamped to the length. */
  function Slice(s: string, from: nat, to: nat): (t: string)
    ensures from <= to <= |s| ==> t == s[from..to]
    ensures |s| <= from ==> t == ""
  {
    var i := if from < |s| then from else |s|;
    var j := if to < |s| then to else |s|;
    if i <= j then s[i..j] else ""
  }

  /**
   * `hexToDecimalColors`: `parseInt(…, 16)` of `hex.slice(0, 2)`,
   * `hex.slice(2, 4)` and `hex.slice(4)`. A channel that parses to `NaN`
   * makes the whole result `None`.
   */
  function HexToDecimalColors(hex: string): Option<Color>
  {
    var red := ParseInt16(Slice(hex, 0, 2));
    var green := ParseInt16(Slice(hex, 2, 4));
    var blue := ParseInt16(Slice(hex, 4, |hex|));
    if red.Some? && green.Some? && blue.Some? then Some(Color(red.value, green.value, blue.value))
    else None
  }

  lemma HexValuePair(a: char, b: char)
    requires IsHexDigit(a) && IsHexDigit(b)
    ensures AllHexDigits([a, b]) && HexValue([a, b]) == HexDigitValue(a) * 16 + HexDigitValue(b)
  {
    assert [a, b][..1] == [a];
    assert [a][..0] == [];
    assert HexValue([a]) == HexDigitValue(a);
    assert HexValue([a, b]) == HexValue([a]) * 16 + HexDigitValue(b);
  }

  lemma PairValue(a: char, b: char)
    requires IsHexDigit(a) && IsHexDigit(b)
    ensures ParseInt16([a, b]) == Some(HexDigitValue(a) * 16 + HexDigitValue(b))
  {
    var s := [a, b];
    HexValuePair(a, b);
    ParseInt16OfDigits(s);
  }

  lemma PairAt(s: string, k: nat, to: nat)
    requires k + 2 <= |s| && AllHexDigits(s) && to == k + 2
    ensures ParseInt16(Slice(s, k, to)) == Some(HexDigitValue(s[k]) * 16 + HexDigitValue(s[k + 1]))
  {
    var p := Slice(s, k, to);
    assert p == [s[k], s[k + 1]];
    PairValue(s[k], s[k + 1]);
  }

  /** Six hexadecimal digits decode pair by pair. */
  lemma DecodeDigits(s: string)
    requires |s| == 6 && AllHexDigits(s)
    ensures HexToDecimalColors(s).Some?
    ensures HexToDecimalColors(s).value.red == HexDigitValue(s[0]) * 16 + HexDigitValue(s[1])
    ensures HexToDecimalColors(s).value.green == HexDigitValue(s[2]) * 16 + HexDigitValue(s[3])
    ensures HexToDecimalColors(s).value.blue == HexDigitValue(s[4]) * 16 + HexDigitValue(s[5])
  {
    PairAt(s, 0, 2);
    PairAt(s, 2, 4);
    PairAt(s, 4, |s|);
  }

  lemma DecodeTriplet(c: Color)
    requires ValidColor(c)
    ensures HexToDecimalColors(HexTriplet(c)) == Some(c)
  {
    var h := HexTriplet(c);
    ValueOfUpperHexDigit(c.red / 16);
    ValueOfUpperHexDigit(c.red % 16);
    ValueOfUpperHexDigit(c.green / 16);
    ValueOfUpperHexDigit(c.green % 16);
    ValueOfUpperHexDigit(c.blue / 16);
    ValueOfUpperHexDigit(c.blue % 16);
    DecodeDigits(h);
    var d := HexToDecimalColors(h).value;
    assert d.red == c.red && d.green == c.green && d.blue == c.blue;
  }

  /** Decoding the code of a valid colour gives that colour back. */
  lemma RoundTrip(c: Color)
    requires ValidColor(c)
    ensures HexToDecimalColors(GenerateHexColor(c)) == Some(c)
  {
    GenerateHexColorDigits(c);
    DecodeTriplet(c);
  }

  /** A lower-case code decodes like its upper-case form: `1a2b3c` is 26, 43, 60. */
  lemma DecodeLowerCase()
    ensures HexToDecimalColors("1a2b3c") == Some(Color(26, 43, 60))
    ensures HexToDecimalColors("1A2B3C") == Some(Color(26, 43, 60))
  {
    DecodeDigits("1a2b3c");
    DecodeDigits("1A2B3C");
  }

  /**
   * Without the validator in front, the decoder reads past the sixth
   * character into the blue channel (`slice(4)` keeps the rest of the text)
   * and so can return a channel above 255.
   */
  lemma DecodeLongCode()
    ensures HexToDecimalColors("0000FFF") == Some(Color(0, 0, 4095))
  {
    var s := "0000FFF";
    PairAt(s, 0, 2);
    PairAt(s, 2, 4);
    var blue := Slice(s, 4, |s|);
    assert blue == "FFF";
    ParseInt16OfDigits(blue);
    assert blue[..2] == "FF" && blue[..2][..1] == "F";
    assert HexValue("F") == 15;
    assert HexValue(blue) == HexValue("FF") * 16 + 15;
  }

  /** Without the validator, a pair with no leading digit is `NaN`. */
  lemma DecodeNotANumber()
    ensures HexToDecimalColors("12ZZ56") == None
  {
  }

  // ----------------------------------------------------------- validation

  /** `/^[0-9A-Fa-f]{6}$/i`: exactly six hexadecimal digits of either case. */
  predicate MatchesHexPattern(s: string)
  {
    |s| == 6 && AllHexDigits(s)
  }

  /** `isValidHex`: the length check, then the pattern. */
  predicate IsValidHex(color: string)
  {
    if |color| != 6 then false else MatchesHexPattern(color)
  }

  /** Six digits whose values give the channels: their CSS digits are the input upper-cased. */
  lemma TripletOfDigits(s: string, c: Color)
    requires |s| == 6 && AllHexDigits(s)
    requires c.red == HexDigitValue(s[0]) * 16 + HexDigitValue(s[1])
    requires c.green == HexDigitValue(s[2]) * 16 + HexDigitValue(s[3])
    requires c.blue == HexDigitValue(s[4]) * 16 + HexDigitValue(s[5])
    ensures ValidColor(c) && HexTriplet(c) == Upper(s)
  {
    forall i | 0 <= i < 6 ensures UpperHexDigit(HexDigitValue(s[i])) == Upper(s)[i] {
      UpperHexDigitOfValue(s[i]);
    }
    assert c.red / 16 == HexDigitValue(s[0]) && c.red % 16 == HexDigitValue(s[1]);
    assert c.green / 16 == HexDigitValue(s[2]) && c.green % 16 == HexDigitValue(s[3]);
    assert c.blue / 16 == HexDigitValue(s[4]) && c.blue % 16 == HexDigitValue(s[5]);
  }

  /**
   * A code the validator accepts decodes to a valid colour whose code is
   * the input in upper case.
   */
  lemma DecodeValid(s: string)
    requires IsValidHex(s)
    ensures HexToDecimalColors(s).Some?
    ensures ValidColor(HexToDecimalColors(s).value)
    ensures GenerateHexColor(HexToDecimalColors(s).value) == Upper(s)
  {
    DecodeDigits(s);
    var c := HexToDecimalColors(s).value;
    TripletOfDigits(s, c);
    GenerateHexColorDigits(c);
  }

  /** The code of a valid colour passes the validator. */
  lemma EncodedIsValid(c: Color)
    requires ValidColor(c)
    ensures IsValidHex(GenerateHexColor(c))
  {
    GenerateHexColorDigits(c);
  }

  /**
   * A code passes the validator exactly when, upper-cased, it is the code
   * of some valid colour.
   */
  lemma IsValidHexIffEncodes(s: string)
    ensures IsValidHex(s) <==> exists c :: ValidColor(c) && GenerateHexColor(c) == Upper(s)
  {
    if IsValidHex(s) {
      DecodeValid(s);
      var c := HexToDecimalColors(s).value;
      assert ValidColor(c) && GenerateHexColor(c) == Upper(s);
    }
    if c :| ValidColor(c) && GenerateHexColor(c) == Upper(s) {
      GenerateHexColorDigits(c);
      forall i | 0 <= i < |s| ensures IsHexDigit(s[i]) {
        assert IsUpperHexDigit(Upper(s)[i]);
      }
    }
  }

  // ------------------------------------------------------------ rgb() text

  /** `generateRGBColor`: the legacy comma form of CSS. */
  function GenerateRGBColor(c: Color): string
  {
    "rgb(" + DecimalString(c.red) + ", " + DecimalString(c.green) + ", " + DecimalString(c.blue) + ")"
  }

  /**
   * A reader of exactly the text `GenerateRGBColor` writes: `rgb(`, three
   * integers separated by a comma and one space, `)`.
   */
  function ParseRgb(s: string): Option<Color>
  {
    if |s| < 5 || s[..4] != "rgb(" || s[|s| - 1] != ')' then None
    else
      var parts := Split(s[4..|s| - 1], ',');
      if |parts| != 3 || parts[1] == [] || parts[1][0] != ' ' || parts[2] == [] || parts[2][0] != ' ' then None
      else
        var red := ParseDecimal(parts[0]);
        var green := ParseDecimal(parts[1][1..]);
        var blue := ParseDecimal(parts[2][1..]);
        if red.Some? && green.Some? && blue.Some? then Some(Color(red.value, green.value, blue.value))
        else None
  }

  lemma NoCommaInDecimal(n: int)
    ensures ',' !in DecimalString(n)
  {
    var d := ToDecimalDigits(if n < 0 then -n else n);
    DecimalValueOfDigits(if n < 0 then -n else n);
    assert forall i :: 0 <= i < |d| ==> d[i] != ',';
    if n < 0 {
      assert DecimalString(n) == "-" + d;
    }
  }

  lemma SplitChannels(r: string, g: string, b: string)
    requires ',' !in r && ',' !in g && ',' !in b
    ensures Split(r + ", " + g + ", " + b, ',') == [r, " " + g, " " + b]
  {
    var g', b' := " " + g, " " + b;
    var tail := g' + [','] + b';
    calc {
      r + ", " + g + ", " + b;
      r + [','] + g' + ", " + b;
      r + [','] + g' + [','] + b';
      r + [','] + tail;
    }
    assert ',' !in g' && ',' !in b';
    SplitAtFirst(r, ',', tail);
    SplitAtFirst(g', ',', b');
    SplitNoSeparator(b', ',');
  }

  lemma ParseRgbOfParts(r: string, g: string, b: string)
    requires ',' !in r && ',' !in g && ',' !in b
    ensures var s := "rgb(" + r + ", " + g + ", " + b + ")";
      ParseRgb(s) == (
        var red, green, blue := ParseDecimal(r), ParseDecimal(g), ParseDecimal(b);
        if red.Some? && green.Some? && blue.Some? then Some(Color(red.value, green.value, blue.value)) else None)
  {
    var inner := r + ", " + g + ", " + b;
    var s := "rgb(" + r + ", " + g + ", " + b + ")";
    assert s == "rgb(" + inner + ")";
    assert s[..4] == "rgb(" && s[4..|s| - 1] == inner;
    SplitChannels(r, g, b);
    assert (" " + g)[1..] == g && (" " + b)[1..] == b;
  }

  /** Reading back `rgb(R, G, B)` gives the colour, for every integer colour. */
  lemma RgbRoundTrip(c: Color)
    ensures ParseRgb(GenerateRGBColor(c)) == Some(c)
  {
    NoCommaInDecimal(c.red);
    NoCommaInDecimal(c.green);
    NoCommaInDecimal(c.blue);
    ParseRgbOfParts(DecimalString(c.red), DecimalString(c.green), DecimalString(c.blue));
    DecimalRoundTrip(c.red);
    DecimalRoundTrip(c.green);
    DecimalRoundTrip(c.blue);
  }

  /** Different colours never share an `rgb(…)` text. */
  lemma RgbInjective(c: Color, d: Color)
    ensures GenerateRGBColor(c) == GenerateRGBColor(d) <==> c == d
  {
    RgbRoundTrip(c);
    RgbRoundTrip(d);
  }

  // -------------------------------------------------------- random colour

  /**
   * `generateColorDecimal`, with the three draws of `Math.random()` passed
   * in: each channel is the floor of a number in [0, 1) times 255.
   */
  function GenerateColorDecimal(u: real, v: real, w: real): (c: Color)
    requires 0.0 <= u < 1.0 && 0.0 <= v < 1.0 && 0.0 <= w < 1.0
    ensures ValidColor(c)
    ensures c.red <= 254 && c.green <= 254 && c.blue <= 254
  {
    Color((u * 255.0).Floor, (v * 255.0).Floor, (w * 255.0).Floor)
  }

  /** Every channel value from 0 to 254 can be drawn; so 255 is the only one that cannot. */
  lemma GenerateColorDecimalReaches(c: Color)
    requires 0 <= c.red <= 254 && 0 <= c.green <= 254 && 0 <= c.blue <= 254
    ensures GenerateColorDecimal(c.red as real / 255.0, c.green as real / 255.0, c.blue as real / 255.0) == c
  {
  }
}
