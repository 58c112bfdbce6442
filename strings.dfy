/**
 * Text helpers for the JavaScript built-ins the editor relies on:
 * `String.prototype.trim` (the blank-name check before a save), the decimal
 * rendering of an integer in a template literal (generated node ids), and
 * `parseInt` (the status-code input).
 */
module Strings {
  import opened Wrappers

  /** JavaScript truthiness of an optional string: `null` and `''` are both falsy. */
  predicate Truthy(s: Option<string>) {
    s.Some? && s.value != ""
  }

  /** ECMAScript WhiteSpace and LineTerminator code points: what `trim` and `parseInt` skip. */
  predicate IsWhitespace(c: char) {
    || c == '\t' || c == '\n' || c == '\U{B}' || c == '\U{C}' || c == '\r' || c == ' '
    || c == '\U{A0}' || c == '\U{1680}' || ('\U{2000}' <= c <= '\U{200A}')
    || c == '\U{2028}' || c == '\U{2029}' || c == '\U{202F}' || c == '\U{205F}'
    || c == '\U{3000}' || c == '\U{FEFF}'
  }

  /** Every character of `s` is whitespace (the empty string included). */
  predicate IsBlank(s: string) {
    forall i :: 0 <= i < |s| ==> IsWhitespace(s[i])
  }

  /** `s` with its leading whitespace removed. */
  function TrimStart(s: string): (r: string)
    ensures |r| <= |s| && r == s[|s| - |r|..]
    ensures r == [] || !IsWhitespace(r[0])
    ensures forall i :: 0 <= i < |s| - |r| ==> IsWhitespace(s[i])
  {
    if s == [] || !IsWhitespace(s[0]) then s else TrimStart(s[1..])
  }

  /** `s` with its trailing whitespace removed. */
  function TrimEnd(s: string): (r: string)
    ensures |r| <= |s| && r == s[..|r|]
    ensures r == [] || !IsWhitespace(r[|r| - 1])
    ensures forall i :: |r| <= i < |s| ==> IsWhitespace(s[i])
  {
    if s == [] || !IsWhitespace(s[|s| - 1]) then s else TrimEnd(s[..|s| - 1])
  }

  /** `s.trim()`: empty exactly when `s` is blank, so `!name.trim()` is the blank-name test. */
  function Trim(s: string): (r: string)
    ensures r == [] <==> IsBlank(s)
    ensures r == [] || (!IsWhitespace(r[0]) && !IsWhitespace(r[|r| - 1]))
  {
    var t := TrimStart(s);
    TrimStartEmptyIffBlank(s);
    var r := TrimEnd(t);
    TrimEndEmptyIffBlank(t);
    assert r != [] ==> r[0] == t[0];
    r
  }

  /** Trimming the start leaves nothing exactly when the whole string is blank. */
  lemma TrimStartEmptyIffBlank(s: string)
    ensures TrimStart(s) == [] <==> IsBlank(s)
  {
    var t := TrimStart(s);
    if t != [] {
      assert t[0] == s[|s| - |t|];
    }
  }

  /** Trimming the end leaves nothing exactly when the whole string is blank. */
  lemma TrimEndEmptyIffBlank(s: string)
    ensures TrimEnd(s) == [] <==> IsBlank(s)
  {
    var t := TrimEnd(s);
    if t != [] {
      assert t[|t| - 1] == s[|t| - 1];
    }
  }

  predicate IsDigit(c: char) {
    '0' <= c <= '9'
  }

  predicate AllDigits(s: string) {
    forall i :: 0 <= i < |s| ==> IsDigit(s[i])
  }

  function DigitChar(d: nat): (c: char)
    requires d < 10
    ensures IsDigit(c)
  {
    ('0' as int + d) as char
  }

  function DigitValue(c: char): (d: nat)
    requires IsDigit(c)
    ensures d < 10
  {
    c as int - '0' as int
  }

  /** The decimal digits of `n`, as JavaScript renders an integer-valued number below 10^21. */
  function DecimalString(n: nat): (r: string)
    ensures |r| >= 1 && AllDigits(r)
    ensures |r| > 1 ==> r[0] != '0'
    decreases n
  {
    if n < 10 then [DigitChar(n)] else DecimalString(n / 10) + [DigitChar(n % 10)]
  }

  /** The number a string of decimal digits denotes (0 for the empty string). */
  function DecimalValue(s: string): nat
    requires AllDigits(s)
  {
    if s == [] then 0 else DecimalValue(s[..|s| - 1]) * 10 + DigitValue(s[|s| - 1])
  }

  /** Reading back a rendered number gives the number. */
  lemma {:induction false} DecimalRoundTrip(n: nat)
    ensures DecimalValue(DecimalString(n)) == n
    decreases n
  {
    if n >= 10 {
      DecimalRoundTrip(n / 10);
      var s := DecimalString(n);
      assert s[..|s| - 1] == DecimalString(n / 10);
      assert DigitValue(DigitChar(n % 10)) == n % 10;
    }
  }

  /** Distinct numbers render as distinct strings. */
  lemma DecimalStringInjective(a: nat, b: nat)
    requires DecimalString(a) == DecimalString(b)
    ensures a == b
  {
    DecimalRoundTrip(a);
    DecimalRoundTrip(b);
  }

  /** The longest prefix of `s` made of decimal digits. */
  function DigitPrefix(s: string): (r: string)
    ensures |r| <= |s| && r == s[..|r|] && AllDigits(r)
    ensures |r| == |s| || !IsDigit(s[|r|])
  {
    if s == [] || !IsDigit(s[0]) then [] else [s[0]] + DigitPrefix(s[1..])
  }

  /** What follows an optional leading sign character. */
  function Unsigned(t: string): string {
    if |t| > 0 && (t[0] == '-' || t[0] == '+') then t[1..] else t
  }

  /**
   * `parseInt(s)` with no radix on decimal text: leading whitespace is skipped,
   * one sign is read, then the longest run of digits; `None` stands for NaN,
   * the result when that run is empty.
   */
  function ParseInt(s: string): (r: Option<int>)
    ensures r.None? <==> DigitPrefix(Unsigned(TrimStart(s))) == []
    ensures r.Some? && r.value < 0 ==> TrimStart(s)[0] == '-'
  {
    var t := TrimStart(s);
    var digits := DigitPrefix(Unsigned(t));
    if digits == [] then None
    else if |t| > 0 && t[0] == '-' then Some(-(DecimalValue(digits) as int))
    else Some(DecimalValue(digits))
  }

  lemma {:induction false} DigitPrefixOfDigits(s: string)
    requires AllDigits(s)
    ensures DigitPrefix(s) == s
  {
    if s != [] {
      DigitPrefixOfDigits(s[1..]);
    }
  }

  /** The digit run ends at the first character that is not a digit, whatever follows it. */
  lemma {:induction false} DigitPrefixThen(d: string, rest: string)
    requires AllDigits(d)
    requires rest == [] || !IsDigit(rest[0])
    ensures DigitPrefix(d + rest) == d
  {
    if d == [] {
      assert d + rest == rest;
    } else {
      assert (d + rest)[0] == d[0] && (d + rest)[1..] == d[1..] + rest;
      DigitPrefixThen(d[1..], rest);
    }
  }

  /** Digits followed by anything that is not a digit (`"1e3"`, `"2.5"`, `"007"`) parse to the value of the digits. */
  lemma ParseIntOfDigitsThen(d: string, rest: string)
    requires AllDigits(d) && d != []
    requires rest == [] || !IsDigit(rest[0])
    ensures ParseInt(d + rest) == Some(DecimalValue(d))
  {
    var s := d + rest;
    assert s[0] == d[0];
    assert TrimStart(s) == s;
    assert Unsigned(s) == s;
    DigitPrefixThen(d, rest);
  }

  /** After a leading minus sign, `parseInt` negates the value of the digit run. */
  lemma ParseIntNegativeBranch(s: string, digits: string)
    requires |TrimStart(s)| > 0 && TrimStart(s)[0] == '-'
    requires digits == DigitPrefix(Unsigned(TrimStart(s))) && digits != []
    ensures ParseInt(s) == Some(-(DecimalValue(digits) as int))
  {
  }

  /** The same after a leading minus sign: the value is negated. */
  lemma ParseIntOfNegativeDigitsThen(d: string, rest: string)
    requires AllDigits(d) && d != []
    requires rest == [] || !IsDigit(rest[0])
    ensures ParseInt("-" + (d + rest)) == Some(-(DecimalValue(d) as int))
  {
    var u := d + rest;
    var s := "-" + u;
    assert s[0] == '-' && s[1..] == u;
    assert TrimStart(s) == s;
    assert Unsigned(s) == u;
    DigitPrefixThen(d, rest);
    ParseIntNegativeBranch(s, d);
  }

  /** An exponent is not read: `parseInt("1e3")` is 1. */
  lemma ParseIntStopsAtExponent()
    ensures ParseInt("1e3") == Some(1)
  {
    assert "1e3" == "1" + "e3";
    ParseIntOfDigitsThen("1", "e3");
    assert "1"[..0] == [];
  }

  /** A fraction is cut off: `parseInt("2.5")` is 2. */
  lemma ParseIntStopsAtDecimalPoint()
    ensures ParseInt("2.5") == Some(2)
  {
    assert "2.5" == "2" + ".5";
    ParseIntOfDigitsThen("2", ".5");
    assert "2"[..0] == [];
  }

  /** A negative fraction is cut off towards zero: `parseInt("-4.9")` is -4. */
  lemma ParseIntNegativeStopsAtDecimalPoint()
    ensures ParseInt("-4.9") == Some(-4)
  {
    assert "-4.9" == "-" + ("4" + ".9");
    ParseIntOfNegativeDigitsThen("4", ".9");
    assert "4"[..0] == [];
  }

  /** Leading zeros are read as decimal digits: `parseInt("007")` is 7. */
  lemma ParseIntReadsLeadingZeros()
    ensures ParseInt("007") == Some(7)
  {
    assert DecimalValue("007") == 7 by {
      assert "007"[..2] == "00" && "00"[..1] == "0" && "0"[..0] == [];
    }
    assert "007" + "" == "007";
    ParseIntOfDigitsThen("007", "");
  }

  /** Parsing the rendering of a number gives the number back. */
  lemma ParseIntOfDecimal(n: nat)
    ensures ParseInt(DecimalString(n)) == Some(n)
  {
    var s := DecimalString(n);
    assert !IsWhitespace(s[0]);
    assert TrimStart(s) == s;
    assert Unsigned(s) == s;
    DigitPrefixOfDigits(s);
    DecimalRoundTrip(n);
  }

  /** A leading minus sign negates the parsed value. */
  lemma ParseIntOfNegativeDecimal(n: nat)
    ensures ParseInt("-" + DecimalString(n)) == Some(-(n as int))
  {
    var d := DecimalString(n);
    var s := "-" + d;
    assert s[0] == '-' && s[1..] == d;
    assert TrimStart(s) == s;
    assert Unsigned(s) == d;
    DigitPrefixOfDigits(d);
    DecimalRoundTrip(n);
  }
}
