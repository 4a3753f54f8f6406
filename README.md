# EasyColorPicker colour core in Dafny

This project models the logic of the EasyColorPicker page (`app.js`): the
conversions between a colour's three channels and its texts, the validator
for typed hex codes, the lookup of the selected mode among the radio
buttons, the copy-to-clipboard decision, the single-slot notice ("toast")
and what each display surface receives when a colour is shown.

- `wrappers.dfy`: `Option`, standing for JavaScript's `null` and `NaN`.
- `text.dfy` (module `Text`): the built-ins the helpers use, on integers:
  `Number.prototype.toString(16)` (lower-case digits, minus sign for
  negatives), the decimal text of a number, `parseInt(s, 16)` (leading
  white space, sign, `0x` prefix, longest run of digits, `NaN` when there
  is none), and `toUpperCase` on ASCII letters.
- `colors.dfy` (module `ColorCodes`): `getTwoCode`, `generateHexColor`,
  `hexToDecimalColors`, `isValidHex`, `generateRGBColor` and
  `generateColorDecimal`. `HexTriplet` is an independent definition of the
  `RRGGBB` digits of section 5.2 of CSS Color Module Level 4, and
  `ParseRgb` a reader of exactly the comma-space integer text
  `rgb(R, G, B)` that `GenerateRGBColor` writes (not the whole notation of
  section 5.1); both
  are partners the source's functions are proved against.
- `radios.dfy` (module `Radios`): `getCheckedValueFromRadios` as a loop
  over `(checked, value)` pairs, specified by `FirstChecked`.
- `toast.dfy` (module `Toast`): the global `toastContainer` slot as a class
  with states absent, visible and exiting, plus a count of notices left on
  the page and a number for each notice.
- `copy.dfy` (module `Copy`): `handleCopyToClipboard` as a decision
  function and as a method that also drives the toast slot.
- `display.dfy` (module `Display`): `updateColorCodeToDom` as a record of
  the values written and as a class whose fields are the page surfaces.

A colour is three unbounded integers, as JavaScript numbers are; the
functions that need channels in 0..255 say so in their preconditions.
`Math.random()` is a parameter of `GenerateColorDecimal`. The page keeps
the blue-label defect (see Findings) because the model follows the code.

## Model

| member | source | states |
|---|---|---|
| Text.ToHexDigits | app.js:225 | `toString(16)` of a non-negative integer is at least one digit, one digit exactly when the value is below 16, with no leading zero |
| Text.ToHexDigitsLower | app.js:225 | every digit `toString(16)` writes is `0-9` or lower-case `a-f`, which is why `generateHexColor` upper-cases |
| Text.HexValueOfDigits | app.js:225 | the digits `toString(16)` writes read back as the number |
| Text.ParseInt16OfDigits | app.js:253 | `parseInt(s, 16)` of a non-empty string of hex digits of either case is their value |
| Text.HexPrefixIsLongest | app.js:253-255 | `parseInt` reads a prefix of the text and stops at the first non-digit |
| Text.DecimalRoundTrip | app.js:243 | the decimal text of any integer reads back as that integer |
| ColorCodes.TwoCodeDigits | app.js:224-228 | `getTwoCode` of a channel in 0..255 is its high and low hex digit, so a channel below 16 gets a leading `0` |
| ColorCodes.GenerateHexColorDigits | app.js:221-233 | `generateHexColor` of a valid colour equals the CSS `RRGGBB` digits: red, green, blue, two upper-case digits each |
| ColorCodes.GenerateHexColorShape | app.js:224-232 | the code is 6 characters from `0-9A-F`, and the first digit of a channel is `0` exactly when the channel is below 16 |
| ColorCodes.DefaultColorCode | app.js:12 | the default colour 221, 222, 238 is coded `DDDEEE` |
| ColorCodes.MixedColorCode | app.js:221-233 | colour 255, 0, 15 is coded `FF000F` |
| ColorCodes.DecodeDigits | app.js:252-262 | six hex digits decode as three base-16 pairs, red first |
| ColorCodes.RoundTrip | app.js:252-262 | decoding `generateHexColor(c)` gives back `c` for every valid colour |
| ColorCodes.DecodeLowerCase | app.js:252-262 | `1a2b3c` and `1A2B3C` both decode to 26, 43, 60 |
| ColorCodes.DecodeLongCode | app.js:255 | without the validator, `slice(4)` lets a seventh digit into blue: `0000FFF` gives blue 4095 |
| ColorCodes.DecodeNotANumber | app.js:253-255 | without the validator, a pair with no leading digit is `NaN`: `12ZZ56` gives a colour with a `NaN` channel, written `None` |
| ColorCodes.DecodeValid | app.js:269-272 | every code the validator accepts decodes to a colour with channels in 0..255 whose code is the input upper-cased |
| ColorCodes.EncodedIsValid | app.js:269-272 | the code of every valid colour passes the validator |
| ColorCodes.IsValidHexIffEncodes | app.js:269-272 | a text passes the validator exactly when, upper-cased, it is the code of some valid colour; so wrong lengths and non-hex characters fail |
| ColorCodes.RgbRoundTrip | app.js:240-244 | `rgb(R, G, B)` with decimal channels, comma-space separated, red first, reads back as the colour, for every integer colour |
| ColorCodes.RgbInjective | app.js:243 | two colours get the same `rgb(…)` text only when they are equal |
| ColorCodes.GenerateColorDecimal | app.js:204-214 | each random channel is in 0..254 |
| ColorCodes.GenerateColorDecimalReaches | app.js:205-207 | every channel value 0..254 can be drawn, so 255 is the one value never produced |
| Radios.GetCheckedValueFromRadios | app.js:160-171 | the loop returns the value of the lowest-index checked radio, and null exactly when none is checked |
| Radios.FirstCheckedIsLowest | app.js:163-167 | the specification gives the value of the lowest checked radio |
| Radios.FirstCheckedNone | app.js:161-170 | the result is null exactly when no radio is checked |
| Radios.FirstCheckedIgnoresLater | app.js:166 | radios after a checked one do not change the result |
| Copy.ErrorOnlyWithoutMode | app.js:90-92 | the copy action throws exactly when no mode is selected |
| Copy.HexModeCopy | app.js:98-106 | in hex mode it copies `#` and the field exactly when the field passes the validator, the copied code decodes to a valid colour whose code is the field upper-cased, and otherwise it alerts `Invalid hex code` |
| Copy.OtherModeCopy | app.js:107-115 | in any other mode it copies the rgb field unchanged when it is not empty, and otherwise alerts `Invalid RGB color` |
| Copy.DisplayedHexIsCopied | app.js:101-103 | the hex field the display writes for a valid colour is always copied in hex mode |
| Copy.HandleCopyToClipboard | app.js:85-116 | the handler's outcome is the decision for the first checked mode; an error leaves the notice alone, an alert removes it, a copy replaces it with the success notice; no notice is left behind, so a page with at most one notice keeps at most one |
| Copy.CopyTwiceKeepsOneNotice | app.js:93-96 | two copies in a row leave exactly one notice on the page, the second one |
| Toast.ToastSlot.constructor | app.js:10 | the page starts with no notice |
| Toast.ToastSlot.Remove | app.js:93-96 | removing empties the slot |
| Toast.ToastSlot.Show | app.js:124-139 | a new notice becomes the visible one; a notice still held would stay on the page detached |
| Toast.ToastSlot.Click | app.js:129-137 | a click starts the slide-out of the notice |
| Toast.ToastSlot.TimeoutElapsed | app.js:142-152 | the timer does nothing when the slot is empty and otherwise slides out whichever notice the slot holds |
| Toast.ToastSlot.AnimationEnd | app.js:133-136 | the end of the slide-out empties the slot |
| Toast.ToastSlot.TimeoutElapsedIntended | app.js:141-152 | a timer that only slides out the notice that set it |
| Toast.StaleTimerEndsNewerToast | app.js:142-151 | the first notice's timer ends a second notice that replaced it |
| Toast.StaleTimerSparesNewerToast | app.js:141-152 | with the intended timer the second notice stays visible |
| Toast.OwnTimerEndsToast | app.js:141-152 | with the intended timer a notice's own timer still ends it |
| Toast.ShowWithoutRemoveLeavesTwo | app.js:124-139 | showing a notice without removing the held one leaves two on the page, which is why the copy handler removes first |
| Display.RenderedShowsColour | app.js:177-195 | for a valid colour the swatch is `#` and the hex field, the hex field and the rgb field read back as the colour, the sliders hold the channels and the red and green labels read as theirs |
| Display.RenderedLabelsIffGreenIsBlue | app.js:187-194 | the labels agree with the sliders exactly when green equals blue |
| Display.BlueLabelDefect | app.js:194 | for colour 0, 0, 1 the blue label shows `0` |
| Display.RenderedIntendedShowsColour | app.js:193-194 | with the blue label given the blue channel every label agrees with its slider, and nothing else changes |
| Display.DefaultScreen | app.js:12-18 | on load the hex field shows `DDDEEE` and the rgb field `rgb(221, 222, 238)` |
| Display.Page.UpdateColorCodeToDom | app.js:177-195 | the page's fields are set to what `Rendered` gives for the colour |
| Display.OnLoad | app.js:15-18 | loading the page shows the default colour |

## Findings

| source | as written | input that shows it | evidently intended | confidence | as-written member | corrected member |
|---|---|---|---|---|---|---|
| app.js:194 | the blue slider label is set to `color.green` | colour 0, 0, 1: the blue slider is at 1 and its label reads `0` | `color.blue` | not executed | Display.BlueLabelDefect | Display.RenderedIntendedShowsColour |
| app.js:142-151 | the four-second timer acts on the global `toastContainer`, not on the notice that set it | copy, then copy again within four seconds: the first timer slides out the second notice early | the timer ends only its own notice | not executed | Toast.StaleTimerEndsNewerToast | Toast.StaleTimerSparesNewerToast |

The page model (`Display.Page`, `Toast.ToastSlot.TimeoutElapsed`) keeps
the behaviour as written; the corrected definitions sit beside it.

## Left out

- DOM lookups, event listener wiring, `window.onload` plumbing, `alert` and `navigator.clipboard.writeText` (app.js:15-54, 102, 105, 110): browser I/O; the alert and the clipboard text are the fields of `CopyOutcome`.
- `handleGenerateRandomColorBtn`, `handleColorModeHexInp` and `handleColorSliders` (app.js:57-83): event glue around the modelled functions; the in-place upper-casing of the hex field and `parseInt` of slider values are DOM reads and writes.
- `setTimeout` timing, the CSS animation classes and the `animationend` listeners (app.js:127-152): only the slot transitions are kept. A second `animationend` listener (after both a click and the timer) would throw on a null slot; the model does not track listeners.
- Toast.ToastSlot.Click: modelled only for the notice the slot holds; a click on a detached notice is not modelled.
- Display.Page.UpdateColorCodeToDom: slider values are kept as the numbers assigned; the range input's clamping to its `min`/`max` is not modelled, because those attributes live in the HTML, which is not part of this model.
- Text.Upper: ASCII letters only; the full Unicode case mapping of `toUpperCase` is not modelled, because only digits and `a-f` reach it on valid input.
- Text.ToHexDigits, Text.DecimalString, Text.ParseInt16: integers only, without floating-point rounding, exponent notation or `NaN` inputs; channels that are not integers are not modelled.
- ColorCodes.HexToDecimalColors: a colour with any `NaN` channel is collapsed to `None`; the source returns an object whose other channels still hold their numbers (`12ZZ56` gives red 18, green `NaN`, blue 86), and the model does not keep those.
- ColorCodes.HexToDecimalColors: `slice` and `length` count UTF-16 code units in JavaScript but Unicode scalar values here, so on unvalidated text with characters outside the Basic Multilingual Plane the pairs differ (`"1😀234"` gives red 1, green `NaN`, blue 0x34 in the source but `Color(1, 35, 4)` here); `IsValidHex` agrees either way, because such text is never six hex digits.
- ColorCodes.GenerateColorDecimal: real arithmetic stands for double-precision multiplication; `Math.random()` is a parameter.
