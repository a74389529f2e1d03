/** The JavaScript number <-> string conversions the booking screens rely
    on: decimal rendering of integers (template literals and `toString()`),
    and the global `parseInt` with its default radix, as ECMAScript defines
    it (section 19.2.5 of ECMA-262). Numbers are integers or NaN here; the
    floating-point range of a JavaScript number is not modelled. */
module Numerals {

  /** A JavaScript number as it occurs in this program: an integer or NaN. */
  datatype JsNumber = Num(value: int) | NaN

  predicate IsDigit(c: char) {
    '0' <= c <= '9'
  }

  predicate AllDigits(s: string) {
    forall i :: 0 <= i < |s| ==> IsDigit(s[i])
  }

  function DigitChar(d: nat): (c: char)
    requires d < 10
    ensures IsDigit(c)
  {
    ['0', '1', '2', '3', '4', '5', '6', '7', '8', '9'][d]
  }

  function DigitValue(c: char): (d: nat)
    requires IsDigit(c)
    ensures d < 10
  {
    c as int - '0' as int
  }

  lemma DigitRoundTrip(d: nat)
    requires d < 10
    ensures DigitValue(DigitChar(d)) == d
  {
  }

  /** The value of a string of decimal digits, most significant first. */
  function DigitsValue(s: string): nat
    requires AllDigits(s)
  {
    if s == [] then 0 else DigitsValue(s[..|s| - 1]) * 10 + DigitValue(s[|s| - 1])
  }

  function Pow10(k: nat): (p: nat)
    ensures p >= 1
  {
    if k == 0 then 1 else 10 * Pow10(k - 1)
  }

  /** Decimal rendering of a natural number, without leading zeros. */
  function NatToString(n: nat): (s: string)
    ensures |s| >= 1 && AllDigits(s)
    ensures |s| > 1 ==> s[0] != '0'
    ensures (s[0] == '0') <==> (n == 0)
  {
    if n < 10 then [DigitChar(n)] else NatToString(n / 10) + [DigitChar(n % 10)]
  }

  /** Decimal rendering of an integer: a minus sign for negatives. */
  function IntToString(i: int): (s: string)
    ensures |s| >= 1
    ensures i >= 0 ==> AllDigits(s)
    ensures i < 0 ==> s[0] == '-' && AllDigits(s[1..])
  {
    if i < 0 then "-" + NatToString(-i) else NatToString(i)
  }

  /** `${n}` for a JavaScript number. */
  function NumberToString(n: JsNumber): (s: string)
    ensures n.NaN? <==> s == "NaN"
  {
    match n
    case NaN => "NaN"
    case Num(i) => IntToString(i)
  }

  /** Reading back a rendered natural number yields the number. */
  lemma {:induction false} NatToStringRoundTrip(n: nat)
    ensures DigitsValue(NatToString(n)) == n
  {
    if n < 10 {
      DigitRoundTrip(n);
    } else {
      var s := NatToString(n);
      var prefix := NatToString(n / 10);
      assert s[..|s| - 1] == prefix;
      NatToStringRoundTrip(n / 10);
      DigitRoundTrip(n % 10);
    }
  }

  /** A rendering fits in k >= 1 characters exactly when n < 10^k. */
  lemma {:induction false} NatToStringFits(n: nat, k: nat)
    requires k >= 1
    ensures |NatToString(n)| <= k <==> n < Pow10(k)
  {
    if n >= 10 {
      if k == 1 {
        assert |NatToString(n)| == |NatToString(n / 10)| + 1;
      } else {
        NatToStringFits(n / 10, k - 1);
        assert n / 10 < Pow10(k - 1) <==> n < 10 * Pow10(k - 1);
      }
    }
  }

  /** The renderings of exactly six characters are those of 100000..999999. */
  lemma SixDigitRendering(n: nat)
    ensures |NatToString(n)| == 6 <==> 100000 <= n <= 999999
  {
    NatToStringFits(n, 6);
    NatToStringFits(n, 5);
    assert Pow10(5) == 100000;
    assert Pow10(6) == 1000000;
  }

  /** Value of a digit string with more digits appended on the right. */
  lemma {:induction false} DigitsValueAppend(a: string, b: string)
    requires AllDigits(a) && AllDigits(b)
    ensures AllDigits(a + b)
    ensures DigitsValue(a + b) == DigitsValue(a) * Pow10(|b|) + DigitsValue(b)
  {
    var ab := a + b;
    if b != [] {
      var b' := b[..|b| - 1];
      assert ab[..|ab| - 1] == a + b';
      assert ab[|ab| - 1] == b[|b| - 1];
      DigitsValueAppend(a, b');
      var x, y, d, p := DigitsValue(a), DigitsValue(b'), DigitValue(b[|b| - 1]), Pow10(|b'|);
      assert DigitsValue(ab) == DigitsValue(a + b') * 10 + d;
      assert Pow10(|b|) == 10 * p;
      assert DigitsValue(b) == y * 10 + d;
      ShiftDigit(x, p, y, d);
    } else {
      assert ab == a;
    }
  }

  lemma ShiftDigit(x: int, p: int, y: int, d: int)
    ensures (x * p + y) * 10 + d == x * (10 * p) + (y * 10 + d)
  {
  }

  /** Leading zeros do not change the value of a digit string. */
  lemma LeadingZerosValue(k: nat, s: string)
    requires AllDigits(s)
    ensures AllDigits(Zeros(k) + s)
    ensures DigitsValue(Zeros(k) + s) == DigitsValue(s)
  {
    ZerosValue(k);
    DigitsValueAppend(Zeros(k), s);
  }

  function Zeros(k: nat): (z: string)
    ensures |z| == k && AllDigits(z)
  {
    seq(k, _ => '0')
  }

  lemma {:induction false} ZerosValue(k: nat)
    ensures DigitsValue(Zeros(k)) == 0
  {
    if k > 0 {
      assert Zeros(k)[..k - 1] == Zeros(k - 1);
      ZerosValue(k - 1);
    }
  }

  /** Left-pads a digit string with zeros to at least `width` characters
      (the `yyyy`, `MM` and `dd` fields of a date format). */
  function PadZeros(s: string, width: nat): (r: string)
    ensures |r| == if |s| >= width then |s| else width
    ensures r[|r| - |s|..] == s
    ensures forall i :: 0 <= i < |r| - |s| ==> r[i] == '0'
  {
    if |s| >= width then s else Zeros(width - |s|) + s
  }

  // ---------------------------------------------------------------------
  // parseInt(string) with the radix omitted

  /** StrWhiteSpaceChar of ECMA-262: WhiteSpace and LineTerminator. */
  predicate IsJsWhitespace(c: char) {
    var u := c as int;
    || (0x09 <= u <= 0x0D)
    || u == 0x20 || u == 0xA0 || u == 0x1680
    || (0x2000 <= u <= 0x200A)
    || u == 0x2028 || u == 0x2029 || u == 0x202F || u == 0x205F
    || u == 0x3000 || u == 0xFEFF
  }

  function TrimStart(s: string): (t: string)
    ensures |t| <= |s| && t == s[|s| - |t|..]
    ensures t != [] ==> !IsJsWhitespace(t[0])
    ensures forall i :: 0 <= i < |s| - |t| ==> IsJsWhitespace(s[i])
  {
    if s != [] && IsJsWhitespace(s[0]) then TrimStart(s[1..]) else s
  }

  predicate IsHexDigit(c: char) {
    IsDigit(c) || 'a' <= c <= 'f' || 'A' <= c <= 'F'
  }

  function HexDigitValue(c: char): (d: nat)
    requires IsHexDigit(c)
    ensures d < 16
  {
    if IsDigit(c) then DigitValue(c)
    else if 'a' <= c <= 'f' then c as int - 'a' as int + 10
    else c as int - 'A' as int + 10
  }

  function HexValue(s: string): nat
    requires forall i :: 0 <= i < |s| ==> IsHexDigit(s[i])
  {
    if s == [] then 0 else HexValue(s[..|s| - 1]) * 16 + HexDigitValue(s[|s| - 1])
  }

  /** The longest prefix of `s` made of decimal digits. */
  function DigitPrefix(s: string): (p: string)
    ensures AllDigits(p) && p <= s
    ensures |p| < |s| ==> !IsDigit(s[|p|])
  {
    if s != [] && IsDigit(s[0]) then [s[0]] + DigitPrefix(s[1..]) else []
  }

  /** The longest prefix of `s` made of hexadecimal digits. */
  function HexPrefix(s: string): (p: string)
    ensures p <= s
    ensures forall i :: 0 <= i < |p| ==> IsHexDigit(p[i])
    ensures |p| < |s| ==> !IsHexDigit(s[|p|])
  {
    if s != [] && IsHexDigit(s[0]) then [s[0]] + HexPrefix(s[1..]) else []
  }

  /** `parseInt(s)`: skip leading white space, read an optional sign, switch
      to radix 16 after a `0x`/`0X` prefix, then take the longest run of
      digits; no digit at all gives NaN. */
  function ParseInt(s: string): (n: JsNumber)
    ensures var t := TrimStart(s);
      t == [] || (!IsDigit(t[0]) && t[0] != '-' && t[0] != '+') ==> n == NaN
    ensures var t := TrimStart(s);
      t != [] && IsDigit(t[0]) && !HexPrefixed(t) ==> n.Num? && n.value >= 0
  {
    ParseTrimmed(TrimStart(s))
  }

  /** `u` starts with the `0x`/`0X` prefix of a hexadecimal numeral. */
  predicate HexPrefixed(u: string) {
    |u| >= 2 && u[0] == '0' && (u[1] == 'x' || u[1] == 'X')
  }

  /** The sign step of `parseInt`, after white space is skipped. */
  function ParseTrimmed(t: string): (n: JsNumber)
    ensures t == [] || (!IsDigit(t[0]) && t[0] != '-' && t[0] != '+') ==> n == NaN
    ensures t != [] && IsDigit(t[0]) && !HexPrefixed(t) ==> n.Num? && n.value >= 0
  {
    if t != [] && t[0] == '-' then Negate(ParseMagnitude(t[1..]))
    else if t != [] && t[0] == '+' then ParseMagnitude(t[1..])
    else ParseMagnitude(t)
  }

  function Negate(n: JsNumber): JsNumber {
    match n
    case Num(v) => Num(-v)
    case NaN => NaN
  }

  /** The digits after the sign: hexadecimal after `0x`/`0X`, else
      decimal; no digit at all gives NaN. */
  function ParseMagnitude(u: string): (n: JsNumber)
    ensures u == [] || !IsDigit(u[0]) ==> n == NaN
    ensures u != [] && IsDigit(u[0]) && !HexPrefixed(u) ==> n.Num? && n.value >= 0
  {
    if HexPrefixed(u) then
      var h := HexPrefix(u[2..]);
      if h == [] then NaN else Num(HexValue(h))
    else
      var d := DigitPrefix(u);
      if d == [] then NaN else Num(DigitsValue(d))
  }

  /** A digit string is its own longest digit prefix. */
  lemma DigitPrefixOfDigits(s: string)
    requires AllDigits(s)
    ensures DigitPrefix(s) == s
  {
  }

  /** A string with no leading digit parses to NaN. */
  lemma ParseIntNoDigits(s: string)
    requires s == [] || (!IsDigit(s[0]) && !IsJsWhitespace(s[0]) && s[0] != '-' && s[0] != '+')
    ensures ParseInt(s) == NaN
  {
  }

  /** A digit string without leading zeros is read as its value. */
  lemma MagnitudeOfDigits(digits: string)
    requires |digits| >= 1 && AllDigits(digits)
    ensures ParseMagnitude(digits) == Num(DigitsValue(digits))
  {
    DigitPrefixOfDigits(digits);
  }

  /** Text that does not start with white space is left as it is. */
  lemma TrimStartKeeps(s: string)
    requires s != [] && !IsJsWhitespace(s[0])
    ensures TrimStart(s) == s
  {
  }

  /** The digits of a rendered natural number are read as that number. */
  lemma MagnitudeOfNat(n: nat)
    ensures ParseMagnitude(NatToString(n)) == Num(n)
  {
    NatToStringRoundTrip(n);
    MagnitudeOfDigits(NatToString(n));
  }

  /** parseInt of a rendered natural number. */
  lemma ParseNat(n: nat)
    ensures ParseInt(NatToString(n)) == Num(n)
  {
    var t := NatToString(n);
    assert IsDigit(t[0]);
    TrimStartKeeps(t);
    assert ParseTrimmed(t) == ParseMagnitude(t);
    MagnitudeOfNat(n);
  }

  /** parseInt of a minus sign and a rendered natural number. */
  lemma ParseNegatedNat(n: nat)
    ensures ParseInt("-" + NatToString(n)) == Num(-(n as int))
  {
    MinusSign(NatToString(n));
    MagnitudeOfNat(n);
  }

  /** A leading minus sign negates whatever follows it. */
  lemma MinusSign(u: string)
    ensures ParseInt("-" + u) == Negate(ParseMagnitude(u))
  {
  }

  /** parseInt reads back every integer rendered in decimal. */
  lemma ParseIntRoundTrip(i: int)
    ensures ParseInt(IntToString(i)) == Num(i)
  {
    if i < 0 {
      var m: nat := -i;
      assert IntToString(i) == "-" + NatToString(m);
      ParseNegatedNat(m);
    } else {
      assert IntToString(i) == NatToString(i);
      ParseNat(i);
    }
  }
}
