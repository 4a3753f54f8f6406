/**
 * The JavaScript string and number built-ins the colour helpers rely on,
 * restricted to integers: `Number.prototype.toString(16)`, the decimal
 * conversion of a template literal, `parseInt(s, 16)` and
 * `String.prototype.toUpperCase` on ASCII letters.
 */
module Text {
  import opened Wrappers

  // ---------------------------------------------------------------- digits

  predicate IsDecimalDigit(ch: char) { '0' <= ch <= '9' }

  /** A character of the class `[0-9A-Fa-f]`. */
  predicate IsHexDigit(ch: char) { '0' <= ch <= '9' || 'a' <= ch <= 'f' || 'A' <= ch <= 'F' }

  /** A digit as `toUpperCase` leaves it: `[0-9A-F]`. */
  predicate IsUpperHexDigit(ch: char) { '0' <= ch <= '9' || 'A' <= ch <= 'F' }

  predicate AllHexDigits(s: string) { forall i :: 0 <= i < |s| ==> IsHexDigit(s[i]) }

  predicate AllDecimalDigits(s: string) { forall i :: 0 <= i < |s| ==> IsDecimalDigit(s[i]) }

  /** The digit `toString(16)` writes for `d`; JavaScript writes lower case. */
  function HexDigitChar(d: nat): (ch: char)
    requires d < 16
    ensures '0' <= ch <= '9' || 'a' <= ch <= 'f'
  {
    if d < 10 then ('0' as int + d) as char else ('a' as int + d - 10) as char
  }

  /** The value `parseInt` gives one hexadecimal digit, of either case. */
  function HexDigitValue(ch: char): (d: nat)
    requires IsHexDigit(ch)
    ensures d < 16
  {
    if '0' <= ch <= '9' then ch as int - '0' as int
    else if 'a' <= ch <= 'f' then ch as int - 'a' as int + 10
    else ch as int - 'A' as int + 10
  }

  lemma HexDigitValueOfChar(d: nat)
    requires d < 16
    ensures IsHexDigit(HexDigitChar(d)) && HexDigitValue(HexDigitChar(d)) == d
  {
  }

  function DecimalDigitChar(d: nat): (ch: char)
    requires d < 10
    ensures IsDecimalDigit(ch)
  {
    ('0' as int + d) as char
  }

  function DecimalDigitValue(ch: char): (d: nat)
    requires IsDecimalDigit(ch)
    ensures d < 10
  {
    ch as int - '0' as int
  }

  // ------------------------------------------------------ number to string

  /** The digits of `n` in base 16, most significant first, without leading zeros. */
  function ToHexDigits(n: nat): (s: string)
    ensures |s| >= 1
    ensures |s| == 1 <==> n < 16
    ensures s[0] == '0' <==> n == 0
  {
    if n < 16 then [HexDigitChar(n)] else ToHexDigits(n / 16) + [HexDigitChar(n % 16)]
  }

  /** Every digit `toString(16)` writes is `0-9` or a lower-case `a-f`. */
  lemma {:induction false} ToHexDigitsLower(n: nat)
    ensures forall i :: 0 <= i < |ToHexDigits(n)| ==> '0' <= ToHexDigits(n)[i] <= '9' || 'a' <= ToHexDigits(n)[i] <= 'f'
  {
    if n >= 16 {
      ToHexDigitsLower(n / 16);
    }
  }

  /** `n.toString(16)` for an integer `n`: a minus sign, then the digits of its magnitude. */
  function ToString16(n: int): string
  {
    if n < 0 then "-" + ToHexDigits(-n) else ToHexDigits(n)
  }

  /** The digits of `n` in base 10, most significant first, without leading zeros. */
  function ToDecimalDigits(n: nat): (s: string)
    ensures |s| >= 1 && IsDecimalDigit(s[0])
    ensures s[0] == '0' <==> n == 0
  {
    if n < 10 then [DecimalDigitChar(n)] else ToDecimalDigits(n / 10) + [DecimalDigitChar(n % 10)]
  }

  /** The text an integer becomes inside a template literal or as `innerText`. */
  function DecimalString(n: int): string
  {
    if n < 0 then "-" + ToDecimalDigits(-n) else ToDecimalDigits(n)
  }

  // ------------------------------------------------------ string to number

  /** The value of a string of hexadecimal digits, most significant first. */
  function HexValue(s: string): (n: nat)
    requires AllHexDigits(s)
  {
    if s == [] then 0 else HexValue(s[..|s| - 1]) * 16 + HexDigitValue(s[|s| - 1])
  }

  /** The value of a string of decimal digits, most significant first. */
  function DecimalValue(s: string): (n: nat)
    requires AllDecimalDigits(s)
  {
    if s == [] then 0 else DecimalValue(s[..|s| - 1]) * 10 + DecimalDigitValue(s[|s| - 1])
  }

  lemma {:induction false} HexValueOfDigits(n: nat)
    ensures AllHexDigits(ToHexDigits(n)) && HexValue(ToHexDigits(n)) == n
  {
    var s := ToHexDigits(n);
    if n < 16 {
      HexDigitValueOfChar(n);
    } else {
      HexValueOfDigits(n / 16);
      HexDigitValueOfChar(n % 16);
      assert s[..|s| - 1] == ToHexDigits(n / 16);
    }
  }

  lemma {:induction false} DecimalValueOfDigits(n: nat)
    ensures AllDecimalDigits(ToDecimalDigits(n)) && DecimalValue(ToDecimalDigits(n)) == n
  {
    var s := ToDecimalDigits(n);
    if n >= 10 {
      DecimalValueOfDigits(n / 10);
      assert s[..|s| - 1] == ToDecimalDigits(n / 10);
    }
  }

  /**
   * StrWhiteSpaceChar of ECMA-262: tab, vertical tab, form feed, the space
   * separators of Unicode category Zs, the byte order mark and the four line
   * terminators. `parseInt` skips these before the number.
   */
  predicate IsJsWhiteSpace(ch: char)
  {
    if ch <= ' ' then
      ch == ' ' || '\t' <= ch <= '\r'  // tab, line feed, vertical tab, form feed, carriage return
    else if ch < '\U{A0}' then
      false
    else
      ch == '\U{A0}' || ch == '\U{1680}' || '\U{2000}' <= ch <= '\U{200A}' || ch == '\U{2028}'
      || ch == '\U{2029}' || ch == '\U{202F}' || ch == '\U{205F}' || ch == '\U{3000}' || ch == '\U{FEFF}'
  }

  /** `s` without its leading white space. */
  function TrimStart(s: string): string
  {
    if s != [] && IsJsWhiteSpace(s[0]) then TrimStart(s[1..]) else s
  }

  /** The longest prefix of `s` made of hexadecimal digits. */
  function HexPrefix(s: string): (d: string)
    ensures AllHexDigits(d)
  {
    if s == [] || !IsHexDigit(s[0]) then [] else [s[0]] + HexPrefix(s[1..])
  }

  /** `HexPrefix` is a prefix, and the character after it, if any, is not a digit. */
  lemma {:induction false} HexPrefixIsLongest(s: string)
    ensures var d := HexPrefix(s); |d| <= |s| && d == s[..|d|] && (|d| < |s| ==> !IsHexDigit(s[|d|]))
  {
    if s != [] && IsHexDigit(s[0]) {
      HexPrefixIsLongest(s[1..]);
    }
  }

  /**
   * `parseInt(s, 16)`: skip white space, take an optional sign and an optional
   * `0x`/`0X`, then read the longest run of hexadecimal digits; with no digit
   * the result is `NaN`, written here as `None`.
   */
  function ParseInt16(s: string): Option<int>
  {
    ParseSignedHex(TrimStart(s))
  }

  /** The sign step of `parseInt`. */
  function ParseSignedHex(t: string): Option<int>
  {
    if t != [] && t[0] == '-' then
      match ParseUnsignedHex(t[1..])
      case None => None
      case Some(n) => Some(-n)
    else if t != [] && t[0] == '+' then ParseUnsignedHex(t[1..])
    else ParseUnsignedHex(t)
  }

  /** The digits step of `parseInt` with radix 16: an optional `0x` or `0X`, then digits. */
  function ParseUnsignedHex(u: string): Option<int>
  {
    var v := if |u| >= 2 && u[0] == '0' && (u[1] == 'x' || u[1] == 'X') then u[2..] else u;
    var digits := HexPrefix(v);
    if digits == [] then None else Some(HexValue(digits))
  }

  /** On a string of hexadecimal digits alone, `parseInt(s, 16)` is the digits' value. */
  lemma ParseInt16OfDigits(s: string)
    requires s != [] && AllHexDigits(s)
    ensures ParseInt16(s) == Some(HexValue(s))
  {
    assert !IsJsWhiteSpace(s[0]) && s[0] != '-' && s[0] != '+';
    assert TrimStart(s) == s;
    assert |s| >= 2 ==> s[1] != 'x' && s[1] != 'X';
    HexPrefixOfDigits(s);
    assert ParseUnsignedHex(s) == Some(HexValue(s));
  }

  lemma {:induction false} HexPrefixOfDigits(s: string)
    requires AllHexDigits(s)
    ensures HexPrefix(s) == s
  {
    if s != [] {
      HexPrefixOfDigits(s[1..]);
    }
  }

  /**
   * A strict reader of decimal integers: an optional minus sign and at least
   * one digit, nothing else. It is the inverse of `DecimalString`.
   */
  function ParseDecimal(s: string): Option<int>
  {
    if s != [] && s[0] == '-' then
      if |s| > 1 && AllDecimalDigits(s[1..]) then Some(-(DecimalValue(s[1..]) as int)) else None
    else if s != [] && AllDecimalDigits(s) then Some(DecimalValue(s))
    else None
  }

  lemma DecimalRoundTrip(n: int)
    ensures ParseDecimal(DecimalString(n)) == Some(n)
  {
    if n < 0 {
      var d := ToDecimalDigits(-n);
      DecimalValueOfDigits(-n);
      var t := "-" + d;
      assert DecimalString(n) == t;
      assert t[1..] == d;
      assert t != [] && t[0] == '-' && |t| > 1;
    } else {
      var d := ToDecimalDigits(n);
      DecimalValueOfDigits(n);
      assert d[0] != '-';
      assert DecimalString(n) == d;
    }
  }

  // ------------------------------------------------------------ splitting

  /** The pieces of `s` between occurrences of `sep`, as `String.prototype.split` gives them. */
  function Split(s: string, sep: char): (parts: seq<string>)
    ensures |parts| >= 1
  {
    if s == [] then [""]
    else
      var rest := Split(s[1..], sep);
      if s[0] == sep then [""] + rest else [[s[0]] + rest[0]] + rest[1..]
  }

  lemma {:induction false} SplitNoSeparator(s: string, sep: char)
    requires sep !in s
    ensures Split(s, sep) == [s]
  {
    if s != [] {
      SplitNoSeparator(s[1..], sep);
      assert [s[0]] + s[1..] == s;
    }
  }

  lemma {:induction false} SplitAtFirst(x: string, sep: char, y: string)
    requires sep !in x
    ensures Split(x + [sep] + y, sep) == [x] + Split(y, sep)
  {
    if x == [] {
      assert ([sep] + y)[1..] == y;
    } else {
      assert (x + [sep] + y)[1..] == x[1..] + [sep] + y;
      SplitAtFirst(x[1..], sep, y);
      assert [x[0]] + x[1..] == x;
    }
  }

  // -------------------------------------------------------------- letters

  /** `toUpperCase` on one character, ASCII letters only. */
  function UpperChar(ch: char): char
  {
    if 'a' <= ch <= 'z' then (ch as int - 32) as char else ch
  }

  function Upper(s: string): (u: string)
    ensures |u| == |s| && forall i :: 0 <= i < |s| ==> u[i] == UpperChar(s[i])
  {
    seq(|s|, i requires 0 <= i < |s| => UpperChar(s[i]))
  }

  lemma UpperConcat(x: string, y: string)
    ensures Upper(x + y) == Upper(x) + Upper(y)
  {
  }
}
