/**
 * The two pieces of JavaScript string behaviour the validator relies on:
 * `String.prototype.trim` and the decimal rendering of a whole number in a
 * template literal.
 */
module Text {

  /**
   * The characters `trim` removes: ECMAScript's WhiteSpace production (tab,
   * vertical tab, form feed, the byte-order mark and every space separator)
   * together with its LineTerminator production.
   */
  predicate IsJsSpace(c: char)
  {
    || c == '\t' || c == '\n' || c == '\U{000B}' || c == '\U{000C}' || c == '\r'
    || c == ' ' || c == '\U{00A0}' || c == '\U{1680}'
    || ('\U{2000}' <= c <= '\U{200A}')
    || c == '\U{2028}' || c == '\U{2029}' || c == '\U{202F}' || c == '\U{205F}'
    || c == '\U{3000}' || c == '\U{FEFF}'
  }

  /** Some character of `s` is not white space. */
  predicate HasVisibleChar(s: string)
  {
    s != [] && (!IsJsSpace(s[0]) || HasVisibleChar(s[1..]))
  }

  /**
   * JavaScript's `s.trim()`: leading white space is dropped, then trailing
   * white space. The result is empty exactly when every character is white
   * space; otherwise it starts and ends with a visible character.
   */
  function Trim(s: string): (r: string)
    ensures |r| <= |s|
    ensures r == [] <==> !HasVisibleChar(s)
    ensures r != [] ==> !IsJsSpace(r[0]) && !IsJsSpace(r[|r| - 1])
    decreases |s|
  {
    if s != [] && IsJsSpace(s[0]) then Trim(s[1..])
    else if s != [] && IsJsSpace(s[|s| - 1]) then
      VisibleCharBeforeSpace(s);
      Trim(s[..|s| - 1])
    else s
  }

  /** A trailing white-space character does not decide whether a string has a visible character. */
  lemma {:induction false} VisibleCharBeforeSpace(s: string)
    requires s != [] && IsJsSpace(s[|s| - 1])
    ensures HasVisibleChar(s) <==> HasVisibleChar(s[..|s| - 1])
    decreases |s|
  {
    if |s| > 1 {
      VisibleCharBeforeSpace(s[1..]);
      assert s[1..][..|s| - 2] == s[..|s| - 1][1..];
    }
  }

  function DigitChar(d: nat): (c: char)
    requires d < 10
    ensures '0' <= c <= '9'
  {
    ('0' as int + d) as char
  }

  predicate IsDigits(s: string)
  {
    forall i :: 0 <= i < |s| ==> '0' <= s[i] <= '9'
  }

  /** The number a string of decimal digits denotes. */
  function DecimalValue(s: string): nat
    requires IsDigits(s)
  {
    if s == [] then 0
    else DecimalValue(s[..|s| - 1]) * 10 + (s[|s| - 1] as int - '0' as int)
  }

  /**
   * How a template literal renders a whole number: its decimal digits,
   * without leading zeros.
   */
  function NatToString(n: nat): (s: string)
    ensures |s| >= 1 && IsDigits(s)
    ensures s[0] == '0' ==> n == 0
  {
    if n < 10 then [DigitChar(n)] else NatToString(n / 10) + [DigitChar(n % 10)]
  }

  /** Reading the rendered digits back gives the number again, so distinct positions render differently. */
  lemma {:induction false} DecimalRoundTrip(n: nat)
    ensures DecimalValue(NatToString(n)) == n
  {
    var s := NatToString(n);
    if n >= 10 {
      DecimalRoundTrip(n / 10);
      assert s[..|s| - 1] == NatToString(n / 10);
    }
  }
}
