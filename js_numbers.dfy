/**
 * The two integer readers the request layer relies on: JavaScript's
 * `parseInt(text)` as the handlers use it, and the `isInt` rule of the
 * request validator (validator.js, leading zeroes allowed, optional
 * `min`/`max` bounds).
 */
module JsNumbers {
  import opened Wrappers

  predicate IsDigit(c: char) { '0' <= c <= '9' }

  predicate AllDigits(s: string) { forall i :: 0 <= i < |s| ==> IsDigit(s[i]) }

  /** The decimal value of a string of digits. */
  function DigitsValue(s: string): nat
    requires AllDigits(s)
    decreases |s|
  {
    if |s| == 0 then 0
    else DigitsValue(s[..|s| - 1]) * 10 + (s[|s| - 1] as int - '0' as int)
  }

  /** The white-space characters `parseInt` skips before the number: the
      ECMAScript WhiteSpace set (tab, vertical tab, form feed, space, no-break
      space, byte order mark and the other space separators of category Zs)
      and the LineTerminator set (line feed, carriage return, line and
      paragraph separators). */
  predicate IsJsSpace(c: char) {
    c == '\t' || c == '\U{000B}' || c == '\U{000C}' || c == ' ' || c == '\U{00A0}' || c == '\U{FEFF}'
    || c == '\U{1680}' || '\U{2000}' <= c <= '\U{200A}' || c == '\U{202F}' || c == '\U{205F}' || c == '\U{3000}'
    || c == '\n' || c == '\r' || c == '\U{2028}' || c == '\U{2029}'
  }

  /** `s` without its leading white space. */
  function TrimStart(s: string): (t: string)
    ensures |t| <= |s| && t == s[|s| - |t|..]
    ensures |t| > 0 ==> !IsJsSpace(t[0])
    decreases |s|
  {
    if |s| > 0 && IsJsSpace(s[0]) then TrimStart(s[1..]) else s
  }

  /** The longest prefix of `s` made of digits. */
  function DigitPrefix(s: string): (d: string)
    ensures AllDigits(d) && d <= s
    ensures |d| < |s| ==> !IsDigit(s[|d|])
    decreases |s|
  {
    if |s| > 0 && IsDigit(s[0]) then [s[0]] + DigitPrefix(s[1..]) else ""
  }

  /** `t` without one leading sign character. */
  function Unsigned(t: string): string {
    if |t| > 0 && (t[0] == '-' || t[0] == '+') then t[1..] else t
  }

  /** `parseInt(s)`: skip white space, read an optional sign and then as
      many digits as follow; `None` stands for `NaN` (no digit at all).
      On every text `isInt` accepts it reads the number the validator compared. */
  function ParseInt(s: string): (r: Option<int>)
    ensures IntSyntax(s) ==> r == Some(IntValue(s))
  {
    IntSyntaxReadsWhole(s);
    ReadSigned(TrimStart(s))
  }

  /** The number at the very start of `t`: an optional sign, then as many digits as follow. */
  function ReadSigned(t: string): Option<int> {
    var d := DigitPrefix(Unsigned(t));
    if |d| == 0 then None
    else if t[0] == '-' then Some(-(DigitsValue(d) as int))
    else Some(DigitsValue(d))
  }

  /** `parseInt(value) || fallback`: absent, `NaN` and `0` all give the fallback. */
  function QueryInt(value: Option<string>, fallback: int): (n: int)
    ensures value.None? ==> n == fallback
    ensures value.Some? && ParseInt(value.value).None? ==> n == fallback
    ensures value.Some? && ParseInt(value.value) == Some(0) ==> n == fallback
    ensures value.Some? && ParseInt(value.value).Some? && ParseInt(value.value).value != 0 ==>
      n == ParseInt(value.value).value
  {
    match value
    case None => fallback
    case Some(s) =>
      match ParseInt(s)
      case None => fallback
      case Some(k) => if k == 0 then fallback else k
  }

  /** The text form validator.js's `isInt` accepts: an optional sign, then digits. */
  predicate IntSyntax(s: string) {
    |Unsigned(s)| > 0 && AllDigits(Unsigned(s))
  }

  /** The number `isInt` compares against its bounds. */
  function IntValue(s: string): int
    requires IntSyntax(s)
  {
    if s[0] == '-' then -(DigitsValue(s[1..]) as int)
    else if s[0] == '+' then DigitsValue(s[1..])
    else DigitsValue(s)
  }

  /** `isInt(s, {min, max})`, either bound optional. Text it accepts is
      read by `parseInt` as a number within the bounds. */
  predicate IsInt(s: string, min: Option<int>, max: Option<int>)
    ensures IsInt(s, min, max) ==>
      && ParseInt(s).Some?
      && (min.Some? ==> ParseInt(s).value >= min.value)
      && (max.Some? ==> ParseInt(s).value <= max.value)
  {
    IntSyntax(s)
    && (min.None? || IntValue(s) >= min.value)
    && (max.None? || IntValue(s) <= max.value)
  }

  lemma {:induction false} DigitPrefixOfDigits(s: string)
    requires AllDigits(s)
    ensures DigitPrefix(s) == s
    decreases |s|
  {
    if |s| > 0 {
      DigitPrefixOfDigits(s[1..]);
      assert s == [s[0]] + s[1..];
    }
  }

  /** Text in `isInt` form has no leading blank, and its unsigned part is all digit prefix. */
  lemma IntSyntaxReadsWhole(s: string)
    ensures IntSyntax(s) ==> TrimStart(s) == s && DigitPrefix(Unsigned(s)) == Unsigned(s)
  {
    if IntSyntax(s) {
      assert !IsJsSpace(s[0]);
      DigitPrefixOfDigits(Unsigned(s));
    }
  }

  /** A page number that passed `isInt({min: 1})` (or was absent) reaches
      the handler as that number (or as the default 1). */
  lemma ValidatedPage(value: Option<string>)
    requires value.Some? ==> IsInt(value.value, Some(1), None)
    ensures QueryInt(value, 1) >= 1
    ensures value.Some? ==> QueryInt(value, 1) == IntValue(value.value)
  {
  }

  /** A limit that passed `isInt({min: 1, max: 100})` (or was absent)
      reaches the handler as that number (or as the default 10). */
  lemma ValidatedLimit(value: Option<string>)
    requires value.Some? ==> IsInt(value.value, Some(1), Some(100))
    ensures 1 <= QueryInt(value, 10) <= 100
    ensures value.Some? ==> QueryInt(value, 10) == IntValue(value.value)
  {
  }

  /** `parseInt` ignores leading blanks and stops at the first non-digit. */
  lemma ParseIntReadsDigitPrefix()
    ensures QueryInt(Some(" 7px"), 1) == 7
  {
    var s := " 7px";
    var t := s[1..];
    assert IsJsSpace(s[0]) && !IsJsSpace(t[0]);
    assert TrimStart(s) == t;
    assert t[0] == '7' && t[1..] == "px";
    assert DigitPrefix(t[1..]) == "";
    assert DigitPrefix(t) == "7";
    assert DigitsValue("7") == 7 by { assert "7"[..0] == ""; }
    assert ParseInt(s) == Some(7);
  }

  /** `parseInt` reads past any leading white-space character, the
      ideographic space U+3000 and the line separator U+2028 included. */
  lemma ParseIntSkipsBlank(c: char, t: string)
    requires IsJsSpace(c)
    ensures ParseInt([c] + t) == ParseInt(t)
  {
    assert ([c] + t)[1..] == t;
  }

  /** `"0"` is falsy after `parseInt`, so the default wins. */
  lemma ZeroFallsBack()
    ensures QueryInt(Some("0"), 1) == 1
  {
    assert TrimStart("0") == "0";
    assert DigitPrefix("0") == "0" by { assert "0"[1..] == ""; }
    assert DigitsValue("0") == 0 by { assert "0"[..0] == ""; }
  }

  /** Non-numeric text is `NaN`, so the default wins. */
  lemma NonNumericFallsBack()
    ensures QueryInt(Some("abc"), 10) == 10
  {
    assert TrimStart("abc") == "abc";
    assert DigitPrefix("abc") == "";
  }

  /** Without validation a negative page would reach the handler. */
  lemma NegativePassesThrough()
    ensures QueryInt(Some("-3"), 1) == -3
  {
    var s := "-3";
    assert !IsJsSpace(s[0]);
    assert TrimStart(s) == s;
    assert s[0] == '-' && s[1..] == "3";
    assert DigitPrefix("3") == "3" by { assert "3"[1..] == ""; }
    assert DigitsValue("3") == 3 by { assert "3"[..0] == ""; }
    assert ParseInt(s) == Some(-3);
  }
}
