/**
 * What each display surface receives when a colour is shown: the swatch,
 * the hex and rgb text fields, the three sliders and their labels.
 */
module Display {
  import opened Wrappers
  import opened Text
  import opened ColorCodes

  /** The values written to the page by one update. */
  datatype Screen = Screen(
    swatch: string,        // background colour of the swatch
    hexInput: string,      // the hex text field
    rgbInput: string,      // the rgb text field
    redSlider: int, redLabel: string,
    greenSlider: int, greenLabel: string,
    blueSlider: int, blueLabel: string)

  /** Every label reads as the number its slider is set to. */
  predicate LabelsMatchSliders(d: Screen)
  {
    ParseDecimal(d.redLabel) == Some(d.redSlider)
    && ParseDecimal(d.greenLabel) == Some(d.greenSlider)
    && ParseDecimal(d.blueLabel) == Some(d.blueSlider)
  }

  /**
   * `updateColorCodeToDom` as written: the blue label is given the green
   * channel.
   */
  function Rendered(c: Color): Screen
  {
    var hex := GenerateHexColor(c);
    Screen("#" + hex, hex, GenerateRGBColor(c),
           c.red, DecimalString(c.red),
           c.green, DecimalString(c.green),
           c.blue, DecimalString(c.green))
  }

  /** The update as evidently intended: each label shows its own channel. */
  function RenderedIntended(c: Color): Screen
  {
    var hex := GenerateHexColor(c);
    Screen("#" + hex, hex, GenerateRGBColor(c),
           c.red, DecimalString(c.red),
           c.green, DecimalString(c.green),
           c.blue, DecimalString(c.blue))
  }

  /**
   * For a valid colour, every surface shows that colour: the swatch is `#`
   * and the hex field, the hex field and the rgb field both read back as
   * the colour, and the sliders hold the channels. The blue label reads as
   * the green channel.
   */
  lemma RenderedShowsColour(c: Color)
    requires ValidColor(c)
    ensures var d := Rendered(c);
      d.swatch == "#" + d.hexInput
      && HexToDecimalColors(d.hexInput) == Some(c) && IsValidHex(d.hexInput)
      && ParseRgb(d.rgbInput) == Some(c)
      && d.redSlider == c.red && d.greenSlider == c.green && d.blueSlider == c.blue
      && ParseDecimal(d.redLabel) == Some(c.red)
      && ParseDecimal(d.greenLabel) == Some(c.green)
      && ParseDecimal(d.blueLabel) == Some(c.green)
  {
    RoundTrip(c);
    EncodedIsValid(c);
    RgbRoundTrip(c);
    DecimalRoundTrip(c.red);
    DecimalRoundTrip(c.green);
  }

  /** The labels agree with the sliders exactly when the green and blue channels are equal. */
  lemma RenderedLabelsIffGreenIsBlue(c: Color)
    ensures LabelsMatchSliders(Rendered(c)) <==> c.green == c.blue
  {
    DecimalRoundTrip(c.red);
    DecimalRoundTrip(c.green);
  }

  /** A colour that shows the defect: blue 1 is labelled 0. */
  lemma BlueLabelDefect()
    ensures Rendered(Color(0, 0, 1)).blueLabel == "0"
    ensures !LabelsMatchSliders(Rendered(Color(0, 0, 1)))
  {
  }

  /**
   * The intended update shows the colour on every surface, labels included,
   * and differs from the one written only in the blue label.
   */
  lemma RenderedIntendedShowsColour(c: Color)
    requires ValidColor(c)
    ensures var d := RenderedIntended(c);
      LabelsMatchSliders(d)
      && d.swatch == "#" + d.hexInput
      && HexToDecimalColors(d.hexInput) == Some(c)
      && ParseRgb(d.rgbInput) == Some(c)
      && d.redSlider == c.red && d.greenSlider == c.green && d.blueSlider == c.blue
      && d == Rendered(c).(blueLabel := DecimalString(c.blue))
  {
    RoundTrip(c);
    RgbRoundTrip(c);
    DecimalRoundTrip(c.red);
    DecimalRoundTrip(c.green);
    DecimalRoundTrip(c.blue);
  }

  /** The colour shown on load. */
  lemma DefaultScreen()
    ensures Rendered(DefaultColor).hexInput == "DDDEEE"
    ensures Rendered(DefaultColor).rgbInput == "rgb(221, 222, 238)"
  {
    DefaultColorCode();
    assert ToDecimalDigits(22) == "22" && ToDecimalDigits(23) == "23";
    assert DecimalString(221) == "221" && DecimalString(222) == "222" && DecimalString(238) == "238";
  }

  /** The page's display surfaces, written field by field. */
  class Page {
    var swatch: string
    var hexInput: string
    var rgbInput: string
    var redSlider: int
    var redLabel: string
    var greenSlider: int
    var greenLabel: string
    var blueSlider: int
    var blueLabel: string

    function Snapshot(): Screen
      reads this
    {
      Screen(swatch, hexInput, rgbInput, redSlider, redLabel, greenSlider, greenLabel, blueSlider, blueLabel)
    }

    constructor ()
      ensures Snapshot() == Screen("", "", "", 0, "", 0, "", 0, "")
    {
      swatch, hexInput, rgbInput := "", "", "";
      redSlider, redLabel := 0, "";
      greenSlider, greenLabel := 0, "";
      blueSlider, blueLabel := 0, "";
    }

    /** `updateColorCodeToDom`: write every surface from one colour. */
    method UpdateColorCodeToDom(color: Color)
      modifies this
      ensures Snapshot() == Rendered(color)
    {
      var hexColor := GenerateHexColor(color);
      var rgbColor := GenerateRGBColor(color);
      swatch := "#" + hexColor;
      hexInput := hexColor;
      rgbInput := rgbColor;
      redSlider := color.red;
      redLabel := DecimalString(color.red);
      greenSlider := color.green;
      greenLabel := DecimalString(color.green);
      blueSlider := color.blue;
      blueLabel := DecimalString(color.green);
    }
  }

  /** Loading the page shows the default colour. */
  method OnLoad() returns (page: Page)
    ensures fresh(page) && page.Snapshot() == Rendered(DefaultColor)
  {
    page := new Page();
    page.UpdateColorCodeToDom(DefaultColor);
  }
}
