/** The copy-to-clipboard action: which text is copied, or which alert is shown. */
module Copy {
  import opened Wrappers
  import opened Text
  import opened ColorCodes
  import opened Radios
  import opened Toast

  /** What the copy action does. */
  datatype CopyOutcome =
    | Error(message: string)                  // the thrown `Error`: no mode selected
    | Copied(clipboard: string, toast: string) // text written to the clipboard, and the notice shown
    | Alert(message: string)                  // a blocking alert, nothing copied

  /**
   * The decision of `handleCopyToClipboard` for the selected mode and the
   * current texts of the hex and rgb fields.
   */
  function CopyDecision(mode: Option<string>, hexField: string, rgbField: string): CopyOutcome
  {
    if mode == None then Error("Invalid color Input")
    else if mode.value == "hex" then
      if hexField != "" && IsValidHex(hexField) then
        Copied("#" + hexField, "#" + hexField + " copied successfully")
      else Alert("Invalid hex code")
    else if rgbField != "" then Copied(rgbField, rgbField + " copied successfully")
    else Alert("Invalid RGB color")
  }

  /**
   * In hex mode a copy happens exactly when the field passes the validator
   * (the emptiness test before it never decides anything), and what is
   * copied is `#` and a code that decodes to a valid colour.
   */
  lemma HexModeCopy(hexField: string, rgbField: string)
    ensures var d := CopyDecision(Some("hex"), hexField, rgbField);
      (d.Copied? <==> IsValidHex(hexField))
      && (!d.Copied? ==> d == Alert("Invalid hex code"))
      && (d.Copied? ==>
            d.clipboard == "#" + hexField && |d.clipboard| == 7
            && d.toast == d.clipboard + " copied successfully"
            && HexToDecimalColors(d.clipboard[1..]).Some?
            && ValidColor(HexToDecimalColors(d.clipboard[1..]).value)
            && GenerateHexColor(HexToDecimalColors(d.clipboard[1..]).value) == Upper(hexField))
  {
    if IsValidHex(hexField) {
      DecodeValid(hexField);
      assert ("#" + hexField)[1..] == hexField;
    }
  }

  /** In any other mode the rgb field is copied unchanged unless it is empty. */
  lemma OtherModeCopy(mode: string, hexField: string, rgbField: string)
    requires mode != "hex"
    ensures var d := CopyDecision(Some(mode), hexField, rgbField);
      (d.Copied? <==> rgbField != "")
      && (d.Copied? ==> d.clipboard == rgbField && d.toast == rgbField + " copied successfully")
      && (!d.Copied? ==> d == Alert("Invalid RGB color"))
  {
  }

  /** Only a missing mode is an error; every selected mode copies or alerts. */
  lemma ErrorOnlyWithoutMode(mode: Option<string>, hexField: string, rgbField: string)
    ensures CopyDecision(mode, hexField, rgbField).Error? <==> mode == None
  {
  }

  /**
   * In hex mode, the field the display writes for a valid colour is always
   * copied, as `#` and that colour's code.
   */
  lemma DisplayedHexIsCopied(c: Color, rgbField: string)
    requires ValidColor(c)
    ensures CopyDecision(Some("hex"), GenerateHexColor(c), rgbField)
      == Copied("#" + GenerateHexColor(c), "#" + GenerateHexColor(c) + " copied successfully")
  {
    EncodedIsValid(c);
  }

  /**
   * `handleCopyToClipboard`: look up the selected mode, throw when there is
   * none, take any current notice off the page, then copy and show a new
   * notice or alert.
   */
  method HandleCopyToClipboard(radios: seq<Radio>, hexField: string, rgbField: string, slot: ToastSlot)
    returns (outcome: CopyOutcome)
    modifies slot
    ensures outcome == CopyDecision(FirstChecked(radios), hexField, rgbField)
    ensures slot.state == (match outcome
                           case Error(_) => old(slot.state)
                           case Copied(_, msg) => Visible(msg)
                           case Alert(_) => Absent)
    ensures slot.detached == old(slot.detached)
    ensures slot.shown == old(slot.shown) + (if outcome.Copied? then 1 else 0)
    ensures old(slot.SingleNotice()) ==> slot.SingleNotice()
  {
    var mode := GetCheckedValueFromRadios(radios);
    if mode == None {
      outcome := Error("Invalid color Input");
      return;
    }
    slot.Remove();
    if mode.value == "hex" {
      if hexField != "" && IsValidHex(hexField) {
        outcome := Copied("#" + hexField, "#" + hexField + " copied successfully");
        var id := slot.Show(outcome.toast);
      } else {
        outcome := Alert("Invalid hex code");
      }
    } else {
      if rgbField != "" {
        outcome := Copied(rgbField, rgbField + " copied successfully");
        var id := slot.Show(outcome.toast);
      } else {
        outcome := Alert("Invalid RGB color");
      }
    }
  }

  /** Two copies in a row, the second before the first notice is gone: one notice on the page. */
  method CopyTwiceKeepsOneNotice(radios: seq<Radio>, first: string, second: string, rgbField: string)
    returns (state: ToastState, onPage: nat)
    requires FirstChecked(radios) == Some("hex") && IsValidHex(first) && IsValidHex(second)
    ensures state == Visible("#" + second + " copied successfully") && onPage == 1
  {
    var slot := new ToastSlot();
    var o1 := HandleCopyToClipboard(radios, first, rgbField, slot);
    var o2 := HandleCopyToClipboard(radios, second, rgbField, slot);
    state, onPage := slot.state, slot.detached + 1;
  }
}
