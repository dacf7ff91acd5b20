/** The two JavaScript string-to-number conversions the parameter panel relies on, on integers
    and strings only: `parseFloat` is reduced to the numeric literal it reads (whether the result
    is NaN, and which prefix of the text it converts), `parseInt` without a radix to the integer
    it reads. */
module JsNumber {
  import opened Wrappers
  import opened TextFormat

  /** The characters `parseFloat` and `parseInt` skip at the start: the ECMAScript WhiteSpace
      and LineTerminator code points. */
  predicate IsJsWhitespace(c: char) {
    c == '\t' || c == '\U{0B}' || c == '\U{0C}' || c == ' ' || c == '\U{A0}' || c == '\U{FEFF}'
    || c == '\U{1680}' || ('\U{2000}' <= c <= '\U{200A}') || c == '\U{202F}' || c == '\U{205F}'
    || c == '\U{3000}' || c == '\n' || c == '\r' || c == '\U{2028}' || c == '\U{2029}'
  }

  predicate IsDecDigit(c: char) {
    '0' <= c <= '9'
  }

  /** The text with its leading whitespace removed. */
  function TrimStart(s: string): (r: string)
    ensures |r| <= |s| && r == s[|s| - |r|..]
    ensures r == [] || !IsJsWhitespace(r[0])
  {
    if s == [] || !IsJsWhitespace(s[0]) then s else TrimStart(s[1..])
  }

  /** The length of the run of decimal digits at the start of `s`. */
  function DigitRun(s: string): (n: nat)
    ensures n <= |s|
    ensures forall i :: 0 <= i < n ==> IsDecDigit(s[i])
    ensures n == |s| || !IsDecDigit(s[n])
  {
    if s == [] || !IsDecDigit(s[0]) then 0 else 1 + DigitRun(s[1..])
  }

  /** The length of the run of hexadecimal digits (either case) at the start of `s`. */
  function HexRun(s: string): (n: nat)
    ensures n <= |s|
    ensures IsHexString(s[..n])
    ensures n == |s| || DigitValue(s[n]).None?
  {
    if s == [] || DigitValue(s[0]).None? then 0
    else
      var n := 1 + HexRun(s[1..]);
      assert forall i :: 1 <= i < n ==> s[..n][i] == s[1..][..n - 1][i - 1];
      n
  }

  /** The length of an exponent part (`e` or `E`, an optional sign, at least one digit) at the
      start of `s`, or 0 when there is none. */
  function ExponentLength(s: string): (n: nat)
    ensures n <= |s|
  {
    if s != [] && (s[0] == 'e' || s[0] == 'E') then
      var k := if |s| >= 2 && (s[1] == '+' || s[1] == '-') then 1 else 0;
      var d := DigitRun(s[1 + k..]);
      if d > 0 then 1 + k + d else 0
    else 0
  }

  predicate StartsWithInfinity(s: string) {
    |s| >= 8 && s[..8] == "Infinity"
  }

  /** The length of the longest unsigned decimal literal at the start of `s`: "Infinity", or
      digits with an optional fraction and exponent, or a fraction of at least one digit with an
      optional exponent; 0 when there is none. */
  function UnsignedDecimalLength(s: string): (n: nat)
    ensures n <= |s|
  {
    if StartsWithInfinity(s) then 8
    else
      var a := DigitRun(s);
      if a < |s| && s[a] == '.' then
        var b := DigitRun(s[a + 1..]);
        if a == 0 && b == 0 then 0 else a + 1 + b + ExponentLength(s[a + 1 + b..])
      else if a == 0 then 0
      else a + ExponentLength(s[a..])
  }

  /** The number of sign characters (0 or 1) at the start of `t`. */
  function SignLength(t: string): (k: nat)
    ensures k <= |t|
  {
    if t != [] && (t[0] == '+' || t[0] == '-') then 1 else 0
  }

  /** The text `parseFloat` converts: after the leading whitespace, an optional sign and the
      longest decimal literal; empty when there is no literal, and the rest of the text is
      ignored. */
  function NumericPrefix(s: string): (r: string)
    ensures |r| <= |s|
  {
    var t := TrimStart(s);
    var k := SignLength(t);
    var n := UnsignedDecimalLength(t[k..]);
    if n == 0 then "" else t[..k + n]
  }

  /** `isNaN(parseFloat(s))`. */
  predicate ParseFloatIsNaN(s: string) {
    NumericPrefix(s) == ""
  }

  /** An unsigned decimal literal starts exactly at "Infinity", at a digit, or at a point
      followed by a digit. */
  lemma LiteralStartIff(u: string)
    ensures UnsignedDecimalLength(u) > 0 <==>
      StartsWithInfinity(u) || (u != [] && IsDecDigit(u[0])) || (|u| >= 2 && u[0] == '.' && IsDecDigit(u[1]))
  {
    if !StartsWithInfinity(u) && u != [] && u[0] == '.' {
      assert DigitRun(u) == 0;
      if |u| >= 2 && IsDecDigit(u[1]) {
        assert u[1..][0] == u[1];
        assert DigitRun(u[1..]) > 0;
      }
    }
  }

  /** `parseFloat` reads a number exactly when, after the whitespace and an optional sign, the
      text starts with "Infinity", with a digit, or with a point followed by a digit. */
  lemma ParseFloatNaNIff(s: string)
    ensures var u := TrimStart(s)[SignLength(TrimStart(s))..];
      !ParseFloatIsNaN(s) <==>
        StartsWithInfinity(u) || (u != [] && IsDecDigit(u[0])) || (|u| >= 2 && u[0] == '.' && IsDecDigit(u[1]))
  {
    var t := TrimStart(s);
    LiteralStartIff(t[SignLength(t)..]);
  }

  lemma {:induction false} DigitRunOfDigits(t: string, rest: string)
    requires forall i :: 0 <= i < |t| ==> IsDecDigit(t[i])
    requires rest == [] || !IsDecDigit(rest[0])
    ensures DigitRun(t + rest) == |t|
  {
    if t != [] {
      assert (t + rest)[1..] == t[1..] + rest;
      DigitRunOfDigits(t[1..], rest);
    }
  }

  /** The decimal text of an integer: an optional minus sign, then the digits of its magnitude
      (at least one). */
  lemma IntStringShape(i: int)
    ensures var t := IntString(i);
      var u := Decimal(if i < 0 then -i else i);
      && TrimStart(t) == t && t[SignLength(t)..] == u && |t| == SignLength(t) + |u|
      && SignLength(t) == (if i < 0 then 1 else 0) && (i < 0 ==> t[0] == '-')
      && |u| >= 1 && forall j :: 0 <= j < |u| ==> IsDecDigit(u[j])
  {
    var t := IntString(i);
    var u := Decimal(if i < 0 then -i else i);
    DecimalRoundTrip(if i < 0 then -i else i);
    if i < 0 {
      assert t == "-" + u;
      assert t[0] == '-' && t[1..] == u;
    } else {
      assert t == u;
      assert IsDecDigit(t[0]);
    }
    assert !IsJsWhitespace(t[0]);
  }

  /** A run of digits with nothing after it is an unsigned decimal literal as a whole. */
  lemma DigitsLiteralLength(u: string)
    requires |u| >= 1 && forall j :: 0 <= j < |u| ==> IsDecDigit(u[j])
    ensures UnsignedDecimalLength(u) == |u|
  {
    DigitRunOfDigits(u, "");
    assert u + "" == u;
    assert !StartsWithInfinity(u) by {
      if |u| >= 8 {
        assert u[..8][0] == u[0];
      }
    }
    assert u[|u|..] == [];
  }

  /** The text an integer is shown as (`String(i)`) is read back by `parseFloat` in full, so it
      is never NaN. */
  lemma IntStringIsNumeric(i: int)
    ensures NumericPrefix(IntString(i)) == IntString(i)
    ensures !ParseFloatIsNaN(IntString(i))
  {
    var t := IntString(i);
    IntStringShape(i);
    DigitsLiteralLength(t[SignLength(t)..]);
    assert t[..|t|] == t;
  }

  /** The integer `parseInt` reads after the sign: with a "0x"/"0X" prefix the longest run of
      hexadecimal digits, otherwise the longest run of decimal digits; None when the run is
      empty. */
  function ParseMagnitude(u: string): Option<nat> {
    if |u| >= 2 && u[0] == '0' && (u[1] == 'x' || u[1] == 'X') then
      var n := HexRun(u[2..]);
      if n == 0 then None else Some(HexValue(u[2..][..n]))
    else
      var n := DigitRun(u);
      if n == 0 then None else Some(DecValueFrom(0, u[..n]))
  }

  /** `parseInt(s)` with no radix: after the whitespace and an optional sign, the magnitude; the
      rest of the text is ignored; no digit gives NaN (None). */
  function ParseInt(s: string): Option<int> {
    var t := TrimStart(s);
    var k := SignLength(t);
    match ParseMagnitude(t[k..])
    case None => None
    case Some(v) => Some(if k == 1 && t[0] == '-' then -(v as int) else v as int)
  }

  /** A numeral without leading zeros, followed by text that cannot continue it, is read as
      its value. */
  lemma MagnitudeOfNumeral(u: string, rest: string)
    requires |u| >= 1 && forall j :: 0 <= j < |u| ==> '0' <= u[j] <= '9'
    requires |u| == 1 || u[0] != '0'
    requires rest == [] || (!IsDecDigit(rest[0]) && rest[0] != 'x' && rest[0] != 'X')
    ensures ParseMagnitude(u + rest) == Some(DecValueFrom(0, u))
  {
    DigitRunOfDigits(u, rest);
    assert (u + rest)[..|u|] == u;
    if |u + rest| >= 2 && (u + rest)[0] == '0' {
      assert (u + rest)[1] == rest[0];
    }
  }

  /** `parseInt` reads back the decimal text of any integer, whatever non-digit text follows it
      (other than an "x" right after a lone zero, which would start a hexadecimal numeral). */
  lemma ParseIntDecimal(i: int, rest: string)
    requires rest == [] || (!IsDecDigit(rest[0]) && rest[0] != 'x' && rest[0] != 'X')
    ensures ParseInt(IntString(i) + rest) == Some(i)
  {
    var m := if i < 0 then -i else i;
    var s := IntString(i) + rest;
    SignedNumeral(i, rest);
    DecimalRoundTrip(m);
    MagnitudeOfNumeral(Decimal(m), rest);
    assert ParseMagnitude(TrimStart(s)[SignLength(TrimStart(s))..]) == Some(m);
  }

  /** An integer's text with more text after it: nothing to trim, and after the sign come the
      digits of the magnitude and then the rest. */
  lemma SignedNumeral(i: int, rest: string)
    ensures var s := IntString(i) + rest;
      && TrimStart(s) == s && s[SignLength(s)..] == Decimal(if i < 0 then -i else i) + rest
      && (SignLength(s) == 1 && s[0] == '-' <==> i < 0)
  {
    var t := IntString(i);
    var s := t + rest;
    IntStringShape(i);
    assert s[0] == t[0];
    assert s[SignLength(s)..] == t[SignLength(t)..] + rest;
    if i >= 0 {
      DecimalRoundTrip(i);
      assert IsDecDigit(s[0]);
    }
  }

  /** A string with no digit after its whitespace and sign is NaN to `parseInt`. */
  lemma ParseIntNaN(s: string)
    requires var t := TrimStart(s); var u := t[SignLength(t)..];
      u == [] || !IsDecDigit(u[0])
    ensures ParseInt(s) == None
  {
  }
}
