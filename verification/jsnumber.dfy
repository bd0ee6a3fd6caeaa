/** `Number(text)`: the StringToNumber conversion of ECMAScript (section 7.1.4.1.1 of
    ECMA-262), which the legacy duration check uses. White space around the text is
    ignored, empty text is 0, "0x"/"0o"/"0b" select radix 16/8/2 (unsigned), "Infinity" may
    carry a sign, and otherwise the text must be a decimal literal with an optional sign,
    point and exponent; anything else is NaN. A finite result is kept exactly, as
    ±mantissa × 10^scale. */
module JsNumber {
  import opened Wrappers
  import opened Text

  datatype Num = NaN | Infinity(negative: bool) | Finite(negative: bool, mantissa: nat, scale: int)

  function Pow10(k: nat): (p: nat)
    ensures p >= 1
  {
    if k == 0 then 1 else 10 * Pow10(k - 1)
  }

  /** `Number.isInteger(n)`: a finite whole number. */
  predicate IsInteger(n: Num) {
    n.Finite? && (n.scale >= 0 || n.mantissa % Pow10(-n.scale) == 0)
  }

  /** `n > 0`. */
  predicate IsPositive(n: Num) {
    match n
    case NaN => false
    case Infinity(negative) => !negative
    case Finite(negative, mantissa, _) => !negative && mantissa > 0
  }

  /** The whole number a finite integral value stands for. */
  function IntegerValue(n: Num): (r: Option<int>)
    ensures r.Some? <==> IsInteger(n)
    ensures r.Some? && n.Finite? && n.scale == 0 ==> r.value == (if n.negative then -(n.mantissa as int) else n.mantissa)
    ensures r.Some? ==> (r.value > 0 <==> IsPositive(n))
  {
    if IsInteger(n) then
      var p := Pow10(if n.scale >= 0 then n.scale else -n.scale);
      var magnitude := if n.scale >= 0 then n.mantissa * p else n.mantissa / p;
      assert magnitude > 0 <==> n.mantissa > 0 by {
        if n.scale < 0 && n.mantissa > 0 {
          assert n.mantissa == p * magnitude;
        }
      }
      Some(if n.negative then -magnitude else magnitude)
    else None
  }

  /** Index of the first exponent marker 'e'/'E', or the length when there is none. */
  function ExpMarker(s: string): (i: nat)
    ensures i <= |s|
    ensures i < |s| ==> s[i] == 'e' || s[i] == 'E'
    ensures forall j :: 0 <= j < i ==> s[j] != 'e' && s[j] != 'E'
    decreases |s|
  {
    if s == [] || s[0] == 'e' || s[0] == 'E' then 0 else ExpMarker(s[1..]) + 1
  }

  /** The exponent written after the marker: an optional sign and at least one digit. */
  function Exponent(s: string): Option<int> {
    var negative := s != [] && s[0] == '-';
    var digits := if s != [] && (s[0] == '-' || s[0] == '+') then s[1..] else s;
    if digits != [] && AllDigits(digits) then
      DecimalDigits(digits);
      var v: int := RadixValue(digits, 10);
      Some(if negative then -v else v)
    else None
  }

  /** A decimal literal without its sign and other than "Infinity": whole digits, an optional
      point with fraction digits (at least one digit in all), then an optional exponent. */
  function UnsignedDecimal(negative: bool, u: string): Num {
    var e := ExpMarker(u);
    var mantissaText := u[..e];
    var exponent := if e < |u| then Exponent(u[e + 1..]) else Some(0);
    var point := if '.' in mantissaText then IndexOf(mantissaText, '.') else |mantissaText|;
    var whole := mantissaText[..point];
    var fraction := if point < |mantissaText| then mantissaText[point + 1..] else "";
    if exponent.Some? && AllDigits(whole) && AllDigits(fraction) && |whole| + |fraction| > 0 then
      assert AllDigits(whole + fraction) by {
        forall i | 0 <= i < |whole + fraction| ensures IsDigit((whole + fraction)[i]) {
          if i >= |whole| { assert (whole + fraction)[i] == fraction[i - |whole|]; }
        }
      }
      DecimalDigits(whole + fraction);
      Finite(negative, RadixValue(whole + fraction, 10), exponent.value - |fraction|)
    else NaN
  }

  /** The radix a "0x"/"0o"/"0b" prefix selects (the letter in either case), or 0. */
  function PrefixRadix(c: char): nat {
    if c == 'x' || c == 'X' then 16
    else if c == 'o' || c == 'O' then 8
    else if c == 'b' || c == 'B' then 2
    else 0
  }

  /** StringToNumber of non-empty text without surrounding white space. */
  function StrToNumber(t: string): Num
    requires t != []
  {
    if |t| >= 2 && t[0] == '0' && PrefixRadix(t[1]) != 0 then
      var body := t[2..];
      var radix := PrefixRadix(t[1]);
      if body != [] && AllRadixDigits(body, radix) then Finite(false, RadixValue(body, radix), 0)
      else NaN
    else
      var negative := t[0] == '-';
      var u := if t[0] == '-' || t[0] == '+' then t[1..] else t;
      if u == "Infinity" then Infinity(negative) else UnsignedDecimal(negative, u)
  }

  /** `Number(text)`. */
  function NumberOf(text: string): Num {
    var t := TrimEnd(TrimStart(text));
    if t == [] then Finite(false, 0, 0) else StrToNumber(t)
  }

  /** A run of decimal digits is a decimal literal worth its digits' value. */
  lemma DigitsAreDecimal(negative: bool, s: string)
    requires s != [] && AllDigits(s)
    ensures AllRadixDigits(s, 10)
    ensures UnsignedDecimal(negative, s) == Finite(negative, RadixValue(s, 10), 0)
  {
    DecimalDigits(s);
    assert forall j :: 0 <= j < |s| ==> s[j] != 'e' && s[j] != 'E';
    assert s[..ExpMarker(s)] == s;
    assert '.' !in s by {
      forall i | 0 <= i < |s| ensures s[i] != '.' { assert IsDigit(s[i]); }
    }
    assert s[..|s|] == s && s + "" == s;
  }

  /** Number() of a digit run without a leading zero is the run's value. */
  lemma NumberOfDigits(s: string)
    requires s != [] && AllDigits(s) && !(|s| >= 2 && s[0] == '0')
    ensures AllRadixDigits(s, 10)
    ensures NumberOf(s) == Finite(false, RadixValue(s, 10), 0)
  {
    assert IsDigit(s[0]) && IsDigit(s[|s| - 1]);
    DigitIsNotSpace(s[0]);
    DigitIsNotSpace(s[|s| - 1]);
    assert TrimStart(s) == s;
    assert TrimEnd(s) == s;
    StrToNumberOfDigits(s);
  }

  lemma StrToNumberOfDigits(s: string)
    requires s != [] && AllDigits(s) && !(|s| >= 2 && s[0] == '0')
    ensures AllRadixDigits(s, 10)
    ensures StrToNumber(s) == Finite(false, RadixValue(s, 10), 0)
  {
    assert IsDigit(s[0]);
    assert s != "Infinity" by { assert "Infinity"[0] == 'I'; }
    DigitsAreDecimal(false, s);
  }

  /** Number() reads the canonical decimal rendering of a natural number back exactly. */
  lemma NumberOfNatToString(n: nat)
    ensures NumberOf(NatToString(n)) == Finite(false, n, 0)
  {
    NatToStringValue(n);
    NumberOfDigits(NatToString(n));
  }
}
