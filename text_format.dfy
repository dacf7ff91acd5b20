/** Text helpers shared by the gateway (Rust formatting `{}` and `{:02X}`, `str::split_whitespace`,
    `u8::from_str_radix(_, 16)`) and the frontend (JS `String(n)`, `toString(16)`, `padStart`,
    `join`). Defining them once lets the model relate what one side prints to what the other
    side parses. */
module TextFormat {
  import opened Wrappers

  const HEX_DIGITS: string := "0123456789ABCDEF"

  /** The upper-case hexadecimal digit for `d`. */
  function HexDigit(d: nat): char
    requires d < 16
  {
    HEX_DIGITS[d]
  }

  /** `char::to_digit(16)`: the value of a hexadecimal digit of either case. */
  function DigitValue(c: char): Option<nat> {
    if '0' <= c <= '9' then Some(c as int - '0' as int)
    else if 'a' <= c <= 'f' then Some(c as int - 'a' as int + 10)
    else if 'A' <= c <= 'F' then Some(c as int - 'A' as int + 10)
    else None
  }

  lemma HexDigitValue(d: nat)
    requires d < 16
    ensures DigitValue(HexDigit(d)) == Some(d)
    ensures HexDigit(d) != ' '
  {
  }

  predicate IsHexString(s: string) {
    forall i :: 0 <= i < |s| ==> DigitValue(s[i]).Some?
  }

  /** The value of a string of hexadecimal digits, read most significant digit first, on top of
      an already accumulated `acc`. */
  function HexValueFrom(acc: nat, s: string): nat
    requires IsHexString(s)
    decreases |s|
  {
    if s == [] then acc else HexValueFrom(acc * 16 + DigitValue(s[0]).value, s[1..])
  }

  function HexValue(s: string): nat
    requires IsHexString(s)
  {
    HexValueFrom(0, s)
  }

  lemma {:induction false} HexValueSnoc(acc: nat, s: string, c: char)
    requires IsHexString(s) && DigitValue(c).Some?
    ensures IsHexString(s + [c])
    ensures HexValueFrom(acc, s + [c]) == HexValueFrom(acc, s) * 16 + DigitValue(c).value
    decreases |s|
  {
    if s == [] {
      assert ([c])[1..] == [];
    } else {
      assert (s + [c])[1..] == s[1..] + [c];
      HexValueSnoc(acc * 16 + DigitValue(s[0]).value, s[1..], c);
    }
  }

  /** Rust's `format!("{:02X}", b)`: exactly two upper-case digits. */
  function ByteHex(b: bv8): (s: string)
    ensures |s| == 2 && IsHexString(s) && HexValue(s) == b as int
    ensures s[0] != ' ' && s[1] != ' '
  {
    var s := [HexDigit((b as int) / 16), HexDigit((b as int) % 16)];
    HexDigitValue((b as int) / 16);
    HexDigitValue((b as int) % 16);
    assert s[1..] == [s[1]] && s[1..][1..] == [];
    assert HexValueFrom(0, s) == HexValueFrom((b as int) / 16, s[1..]);
    assert HexValueFrom((b as int) / 16, s[1..]) == (b as int) / 16 * 16 + (b as int) % 16;
    s
  }

  /** JS `n.toString(16).toUpperCase()` for a non-negative integer: the shortest upper-case
      hexadecimal numeral of `n` ("0" for zero). */
  function ToHex(n: nat): string
    decreases n
  {
    if n < 16 then [HexDigit(n)] else ToHex(n / 16) + [HexDigit(n % 16)]
  }

  predicate IsUpperHexDigit(c: char) {
    '0' <= c <= '9' || 'A' <= c <= 'F'
  }

  /** ToHex is a numeral: upper-case digits only, no leading zero, and it reads back as `n`. */
  lemma {:induction false} ToHexRoundTrip(n: nat)
    ensures |ToHex(n)| >= 1 && IsHexString(ToHex(n))
    ensures forall i :: 0 <= i < |ToHex(n)| ==> IsUpperHexDigit(ToHex(n)[i])
    ensures n > 0 ==> ToHex(n)[0] != '0'
    ensures HexValue(ToHex(n)) == n
    decreases n
  {
    HexDigitValue(n % 16);
    if n < 16 {
      assert ToHex(n)[1..] == [];
      assert HexValueFrom(0, ToHex(n)) == HexValueFrom(n, []);
    } else {
      ToHexRoundTrip(n / 16);
      HexValueSnoc(0, ToHex(n / 16), HexDigit(n % 16));
      assert n / 16 * 16 + n % 16 == n;
    }
  }

  /** 16 to the power `k`. */
  function Pow16(k: nat): (p: nat)
    ensures p >= 1
  {
    if k == 0 then 1 else 16 * Pow16(k - 1)
  }

  /** ToHex needs at most `k` digits exactly for the numbers below 16^k. */
  lemma {:induction false} ToHexLength(n: nat, k: nat)
    requires k >= 1
    ensures |ToHex(n)| <= k <==> n < Pow16(k)
    decreases n
  {
    if n < 16 {
      assert Pow16(k) >= 16 by {
        assert Pow16(k) == 16 * Pow16(k - 1);
      }
    } else if k == 1 {
      ToHexRoundTrip(n / 16);
      assert Pow16(1) == 16;
    } else {
      ToHexLength(n / 16, k - 1);
      var p := Pow16(k - 1);
      assert Pow16(k) == 16 * p;
      assert n / 16 < p <==> n < 16 * p;
    }
  }

  /** The frontend's `toString(16).toUpperCase().padStart(2, "0")` on a byte is the gateway's
      two-digit `{:02X}`. */
  lemma ByteHexPadded(b: bv8)
    ensures PadStart(ToHex(b as nat), 2, '0') == ByteHex(b)
  {
    var n := b as nat;
    ByteHexDigits(b);
    if n < 16 {
      ToHexSmall(n);
      PadOneDigit(HexDigit(n));
      assert HexDigit(0) == '0';
    } else {
      ToHexTwoDigits(n);
    }
  }

  lemma ByteHexDigits(b: bv8)
    ensures ByteHex(b) == [HexDigit((b as int) / 16), HexDigit((b as int) % 16)]
  {
  }

  lemma ToHexSmall(n: nat)
    requires n < 16
    ensures ToHex(n) == [HexDigit(n)]
  {
  }

  lemma ToHexTwoDigits(n: nat)
    requires 16 <= n < 256
    ensures ToHex(n) == [HexDigit(n / 16), HexDigit(n % 16)]
  {
    ToHexSmall(n / 16);
  }

  lemma PadOneDigit(c: char)
    ensures PadStart([c], 2, '0') == ['0', c]
  {
    assert seq(1, _ => '0') == ['0'];
  }

  /** JS `s.padStart(width, fill)`: left-pads with `fill` up to `width`, never truncates. */
  function PadStart(s: string, width: nat, fill: char): (r: string)
    ensures |r| == if |s| >= width then |s| else width
    ensures r[|r| - |s|..] == s
    ensures forall i :: 0 <= i < |r| - |s| ==> r[i] == fill
  {
    if |s| >= width then s else seq(width - |s|, _ => fill) + s
  }

  /** Leading zeros added by PadStart do not change the value a numeral denotes. */
  lemma {:induction false} ZeroPadValue(s: string, width: nat)
    requires IsHexString(s)
    ensures IsHexString(PadStart(s, width, '0'))
    ensures HexValue(PadStart(s, width, '0')) == HexValue(s)
    decreases width
  {
    if |s| < width {
      PadOneMore(s, width);
      ZeroPadValue(s, width - 1);
      LeadingZeroValue(PadStart(s, width - 1, '0'));
    }
  }

  lemma PadOneMore(s: string, width: nat)
    requires |s| < width
    ensures PadStart(s, width, '0') == ['0'] + PadStart(s, width - 1, '0')
  {
    assert seq(width - |s|, _ => '0') == ['0'] + seq(width - 1 - |s|, _ => '0');
  }

  /** A leading zero digit does not change a numeral's value. */
  lemma LeadingZeroValue(t: string)
    requires IsHexString(t)
    ensures IsHexString(['0'] + t) && HexValue(['0'] + t) == HexValue(t)
  {
    assert (['0'] + t)[1..] == t;
  }

  /** JS `Array.prototype.join(sep)` (and Rust's `join(sep)`) over strings. */
  function JoinWith(ts: seq<string>, sep: string): string {
    if |ts| == 0 then ""
    else if |ts| == 1 then ts[0]
    else ts[0] + sep + JoinWith(ts[1..], sep)
  }

  /** `join(" ")`. */
  function JoinSpaces(ts: seq<string>): string {
    JoinWith(ts, " ")
  }

  /** Rust's `char::is_whitespace`: the Unicode White_Space property. */
  predicate IsRustWhitespace(c: char) {
    var u := c as int;
    (0x09 <= u <= 0x0D) || u == 0x20 || u == 0x85 || u == 0xA0 || u == 0x1680
    || (0x2000 <= u <= 0x200A) || u == 0x2028 || u == 0x2029 || u == 0x202F
    || u == 0x205F || u == 0x3000
  }

  predicate IsToken(t: string) {
    |t| > 0 && forall i :: 0 <= i < |t| ==> !IsRustWhitespace(t[i])
  }

  /** Number of leading characters of `s` before the first whitespace. */
  function TokenLength(s: string): (n: nat)
    ensures n <= |s|
  {
    if s == [] || IsRustWhitespace(s[0]) then 0 else 1 + TokenLength(s[1..])
  }

  /** Rust's `str::split_whitespace`: the maximal runs of non-whitespace, in order. */
  function SplitWhitespace(s: string): seq<string>
    decreases |s|
  {
    if s == [] then []
    else if IsRustWhitespace(s[0]) then SplitWhitespace(s[1..])
    else
      var n := TokenLength(s);
      [s[..n]] + SplitWhitespace(s[n..])
  }

  lemma {:induction false} TokenLengthOfToken(t: string, rest: string)
    requires forall i :: 0 <= i < |t| ==> !IsRustWhitespace(t[i])
    requires rest == [] || IsRustWhitespace(rest[0])
    ensures TokenLength(t + rest) == |t|
  {
    if t != [] {
      assert (t + rest)[1..] == t[1..] + rest;
      TokenLengthOfToken(t[1..], rest);
    }
  }

  /** Splitting a space-joined list of tokens gives the tokens back. */
  lemma {:induction false} SplitJoin(ts: seq<string>)
    requires forall k :: 0 <= k < |ts| ==> IsToken(ts[k])
    ensures SplitWhitespace(JoinSpaces(ts)) == ts
  {
    if |ts| == 1 {
      var s := ts[0];
      TokenLengthOfToken(s, "");
      assert s + "" == s;
      assert s[|s|..] == [];
      assert s[..|s|] == s;
    } else if |ts| > 1 {
      var rest := " " + JoinSpaces(ts[1..]);
      var s := ts[0] + rest;
      assert JoinSpaces(ts) == s;
      TokenLengthOfToken(ts[0], rest);
      assert s[..|ts[0]|] == ts[0];
      assert s[|ts[0]|..] == rest;
      assert rest[1..] == JoinSpaces(ts[1..]);
      SplitJoin(ts[1..]);
    }
  }

  datatype IntErrorKind = Empty | InvalidDigit | PosOverflow

  /** The digit loop of `u8::from_str_radix(_, 16)`: each character must be a digit, checked
      before the multiply-and-add, and the running value must stay within a byte. */
  function AccumulateU8(acc: nat, digits: string): Result<bv8, IntErrorKind>
    requires acc < 256
    decreases |digits|
  {
    if digits == [] then Ok(acc as bv8)
    else match DigitValue(digits[0])
      case None => Err(InvalidDigit)
      case Some(d) =>
        if acc * 16 + d > 255 then Err(PosOverflow) else AccumulateU8(acc * 16 + d, digits[1..])
  }

  /** `u8::from_str_radix(src, 16)`: an optional leading '+', then one or more digits. */
  function FromStrRadix16(src: string): Result<bv8, IntErrorKind> {
    if src == [] then Err(Empty)
    else if (src[0] == '+' || src[0] == '-') && |src| == 1 then Err(InvalidDigit)
    else AccumulateU8(0, if src[0] == '+' then src[1..] else src)
  }

  /** `.map(from_str_radix).collect::<Result<Vec<u8>, _>>()`: the first error wins. */
  function ParseTokens(ts: seq<string>): Result<seq<bv8>, IntErrorKind> {
    if ts == [] then Ok([])
    else match FromStrRadix16(ts[0])
      case Err(e) => Err(e)
      case Ok(b) =>
        match ParseTokens(ts[1..])
        case Err(e) => Err(e)
        case Ok(bs) => Ok([b] + bs)
  }

  /** The hex parsing step of `udp_send_raw`. */
  function ParseHexBytes(s: string): Result<seq<bv8>, IntErrorKind> {
    ParseTokens(SplitWhitespace(s))
  }

  /** Two hex digits accumulate to their value without overflow. */
  lemma AccumulateTwoDigits(c0: char, c1: char, v0: nat, v1: nat)
    requires v0 < 16 && v1 < 16
    requires DigitValue(c0) == Some(v0) && DigitValue(c1) == Some(v1)
    ensures AccumulateU8(0, [c0, c1]) == Ok((v0 * 16 + v1) as bv8)
  {
    assert [c0, c1][1..] == [c1] && [c1][1..] == [];
    assert AccumulateU8(0, [c0, c1]) == AccumulateU8(v0, [c1]);
  }

  /** Every byte printed as `{:02X}` parses back to itself. */
  lemma ByteHexParses(b: bv8)
    ensures FromStrRadix16(ByteHex(b)) == Ok(b)
  {
    var n := b as int;
    var s := ByteHex(b);
    assert s == [HexDigit(n / 16), HexDigit(n % 16)];
    HexDigitValue(n / 16);
    HexDigitValue(n % 16);
    AccumulateTwoDigits(s[0], s[1], n / 16, n % 16);
    assert n / 16 * 16 + n % 16 == n;
  }

  function ByteTokens(bytes: seq<bv8>): seq<string> {
    seq(|bytes|, i requires 0 <= i < |bytes| => ByteHex(bytes[i]))
  }

  /** The bytes as two-digit upper-case hex joined by single spaces: Rust's
      `bytes.iter().map(|b| format!("{:02X}", b)).collect::<Vec<_>>().join(" ")`. */
  function HexListing(bytes: seq<bv8>): string {
    JoinSpaces(ByteTokens(bytes))
  }

  lemma {:induction false} ParseByteTokens(bytes: seq<bv8>)
    ensures ParseTokens(ByteTokens(bytes)) == Ok(bytes)
  {
    if bytes != [] {
      ByteHexParses(bytes[0]);
      assert ByteTokens(bytes)[1..] == ByteTokens(bytes[1..]);
      ParseByteTokens(bytes[1..]);
      assert bytes == [bytes[0]] + bytes[1..];
    }
  }

  /** A hex listing parses back to exactly the bytes it lists. */
  lemma ListingRoundTrip(bytes: seq<bv8>)
    ensures ParseHexBytes(HexListing(bytes)) == Ok(bytes)
  {
    var ts := ByteTokens(bytes);
    forall k | 0 <= k < |ts| ensures IsToken(ts[k]) {
      var t := ts[k];
      assert t == ByteHex(bytes[k]);
      assert forall i :: 0 <= i < |t| ==> t[i] == HEX_DIGITS[(if i == 0 then (bytes[k] as int) / 16 else (bytes[k] as int) % 16)];
    }
    SplitJoin(ts);
    ParseByteTokens(bytes);
  }

  /** Rust's `bytes.iter().map(|b| format!("{:02X}", b)).collect::<Vec<_>>().join("")`:
      each byte as exactly two digits at its own position, nothing in between. */
  function HexConcat(bytes: seq<bv8>): (s: string)
    ensures |s| == 2 * |bytes|
    ensures forall i :: 0 <= i < |bytes| ==> s[2 * i..2 * i + 2] == ByteHex(bytes[i])
  {
    if bytes == [] then ""
    else
      var rest := HexConcat(bytes[1..]);
      var s := ByteHex(bytes[0]) + rest;
      assert forall i :: 1 <= i < |bytes| ==> s[2 * i..2 * i + 2] == rest[2 * (i - 1)..2 * (i - 1) + 2];
      s
  }

  /** The decimal digit for `d`. */
  function DecDigit(d: nat): char
    requires d < 10
  {
    "0123456789"[d]
  }

  function DecValueFrom(acc: nat, s: string): nat
    requires forall i :: 0 <= i < |s| ==> '0' <= s[i] <= '9'
    decreases |s|
  {
    if s == [] then acc else DecValueFrom(acc * 10 + (s[0] as int - '0' as int), s[1..])
  }

  /** Rust's `{}` and JS `String(n)` for a non-negative integer: the shortest decimal numeral. */
  function Decimal(n: nat): string
    decreases n
  {
    if n < 10 then [DecDigit(n)] else Decimal(n / 10) + [DecDigit(n % 10)]
  }

  lemma DecDigitValue(d: nat)
    requires d < 10
    ensures '0' <= DecDigit(d) <= '9' && DecDigit(d) as int - '0' as int == d
  {
  }

  lemma {:induction false} DecValueSnoc(acc: nat, s: string, c: char)
    requires forall i :: 0 <= i < |s| ==> '0' <= s[i] <= '9'
    requires '0' <= c <= '9'
    ensures forall i :: 0 <= i < |s + [c]| ==> '0' <= (s + [c])[i] <= '9'
    ensures DecValueFrom(acc, s + [c]) == DecValueFrom(acc, s) * 10 + (c as int - '0' as int)
    decreases |s|
  {
    if s == [] {
      assert ([c])[1..] == [];
    } else {
      assert (s + [c])[1..] == s[1..] + [c];
      DecValueSnoc(acc * 10 + (s[0] as int - '0' as int), s[1..], c);
    }
  }

  /** Decimal is a numeral without leading zeros that reads back as `n`. */
  lemma {:induction false} DecimalRoundTrip(n: nat)
    ensures |Decimal(n)| >= 1
    ensures forall i :: 0 <= i < |Decimal(n)| ==> '0' <= Decimal(n)[i] <= '9'
    ensures n > 0 ==> Decimal(n)[0] != '0'
    ensures DecValueFrom(0, Decimal(n)) == n
    decreases n
  {
    DecDigitValue(n % 10);
    if n < 10 {
      assert Decimal(n)[1..] == [];
      assert DecValueFrom(0, Decimal(n)) == DecValueFrom(n, []);
    } else {
      DecimalRoundTrip(n / 10);
      DecValueSnoc(0, Decimal(n / 10), DecDigit(n % 10));
      assert n / 10 * 10 + n % 10 == n;
    }
  }

  /** JS `String(i)` for an integer: a minus sign before the magnitude when negative. */
  function IntString(i: int): string {
    if i < 0 then "-" + Decimal(-i) else Decimal(i)
  }
}
