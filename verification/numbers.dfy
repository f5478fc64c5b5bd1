/** `parseFloat` as the line parser uses it on the gross-value field: skip
    leading whitespace, read the longest prefix that is a decimal literal
    (sign, digits, optional fraction, optional exponent) and ignore the rest;
    no such prefix gives NaN, modelled as `None`. Values are exact reals. */
module Numbers {
  import opened Wrappers
  import Text

  predicate IsDigit(c: char) {
    '0' <= c <= '9'
  }

  predicate AllDigits(s: string) {
    forall i :: 0 <= i < |s| ==> IsDigit(s[i])
  }

  function DigitValue(c: char): nat
    requires IsDigit(c)
  {
    (c as int) - ('0' as int)
  }

  function Pow10(n: nat): (r: nat)
    ensures r >= 1
  {
    if n == 0 then 1 else 10 * Pow10(n - 1)
  }

  /** `m` scaled by 10 to the power `e`, for an exponent of either sign. */
  function ApplyExponent(m: real, e: int): (r: real)
    ensures m >= 0.0 ==> r >= 0.0
    ensures e == 0 ==> r == m
  {
    if e >= 0 then m * (Pow10(e) as real) else m / (Pow10(-e) as real)
  }

  /** The longest prefix of `s` made of decimal digits. */
  function DigitPrefix(s: string): (r: string)
    ensures |r| <= |s| && r == s[..|r|]
    ensures AllDigits(r)
    ensures |r| < |s| ==> !IsDigit(s[|r|])
  {
    if |s| > 0 && IsDigit(s[0]) then
      var r := [s[0]] + DigitPrefix(s[1..]);
      assert r[1..] == DigitPrefix(s[1..]);
      r
    else []
  }

  /** The number a digit string denotes, most significant digit first. */
  function DigitsValue(d: string): nat
    requires AllDigits(d)
  {
    if |d| == 0 then 0 else 10 * DigitsValue(d[..|d| - 1]) + DigitValue(d[|d| - 1])
  }

  /** The number `0.d` denotes for a digit string `d`. */
  function FractionValue(d: string): (r: real)
    requires AllDigits(d)
    ensures 0.0 <= r
  {
    (DigitsValue(d) as real) / (Pow10(|d|) as real)
  }

  /** Drops one leading `+` or `-`. */
  function DropSign(t: string): string {
    if |t| > 0 && (t[0] == '+' || t[0] == '-') then t[1..] else t
  }

  /** The exponent an `e`/`E` suffix denotes; 0 when `t` does not start with a
      well-formed exponent (which `parseFloat` then leaves unread). */
  function ExponentOf(t: string): int {
    if |t| > 0 && (t[0] == 'e' || t[0] == 'E') then
      var d := DigitPrefix(DropSign(t[1..]));
      if |d| == 0 then 0
      else if |t| > 1 && t[1] == '-' then -(DigitsValue(d) as int)
      else DigitsValue(d)
    else 0
  }

  /** True when, after whitespace and an optional sign, `s` starts with a digit
      or with a point followed by a digit: exactly the inputs `parseFloat`
      reads a finite number from. */
  predicate StartsNumeric(s: string) {
    var u := DropSign(Text.TrimStart(s));
    (|u| > 0 && IsDigit(u[0])) || (|u| > 1 && u[0] == '.' && IsDigit(u[1]))
  }

  /** True when the first non-whitespace character of `s` is a minus sign. */
  predicate StartsNegative(s: string) {
    var t := Text.TrimStart(s);
    |t| > 0 && t[0] == '-'
  }

  /** The value of the unsigned decimal literal at the start of `u`, if any:
      digits, an optional point and fraction digits (at least one digit in all),
      then an optional exponent. */
  function ReadUnsigned(u: string): (r: Option<real>)
    ensures r.Some? <==> (|u| > 0 && IsDigit(u[0])) || (|u| > 1 && u[0] == '.' && IsDigit(u[1]))
    ensures r.Some? ==> r.value >= 0.0
  {
    var whole := DigitPrefix(u);
    ReadAfterWhole(whole, u[|whole|..])
  }

  /** Continues `ReadUnsigned` after the whole-number digits `whole`. */
  function ReadAfterWhole(whole: string, rest: string): (r: Option<real>)
    requires AllDigits(whole)
    ensures r.Some? <==> |whole| > 0 || (|rest| > 1 && rest[0] == '.' && IsDigit(rest[1]))
    ensures r.Some? ==> r.value >= 0.0
  {
    if |rest| > 0 && rest[0] == '.' then
      var frac := DigitPrefix(rest[1..]);
      Compose(whole, frac, rest[1 + |frac|..])
    else Compose(whole, "", rest)
  }

  /** The number made of whole digits, fraction digits and an exponent suffix. */
  function Compose(whole: string, frac: string, tail: string): (r: Option<real>)
    requires AllDigits(whole) && AllDigits(frac)
    ensures r.Some? <==> |whole| > 0 || |frac| > 0
    ensures r.Some? ==> r.value >= 0.0
  {
    if |whole| == 0 && |frac| == 0 then None
    else Some(ApplyExponent(DigitsValue(whole) as real + FractionValue(frac), ExponentOf(tail)))
  }

  /** `parseFloat(s)`, with NaN as `None`. */
  function ParseNumber(s: string): (r: Option<real>)
    ensures r.Some? <==> StartsNumeric(s)
    ensures r.Some? && !StartsNegative(s) ==> r.value >= 0.0
    ensures r.Some? && StartsNegative(s) ==> r.value <= 0.0
  {
    var t := Text.TrimStart(s);
    match ReadUnsigned(DropSign(t))
    case None => None
    case Some(m) => Some(if |t| > 0 && t[0] == '-' then -m else m)
  }

  /** The decimal digits of `n`, without leading zeros (`"0"` for zero). */
  function FormatNat(n: nat): (r: string)
    ensures |r| >= 1 && AllDigits(r)
    ensures r[0] != '0' || n == 0
  {
    if n < 10 then [('0' as int + n) as char]
    else FormatNat(n / 10) + [('0' as int + n % 10) as char]
  }

  /** Reading back the digits of `n` gives `n`. */
  lemma {:induction false} FormatNatValue(n: nat)
    ensures DigitsValue(FormatNat(n)) == n
  {
    if n >= 10 {
      FormatNatValue(n / 10);
      var d := FormatNat(n);
      assert d[..|d| - 1] == FormatNat(n / 10);
    }
  }

  lemma {:induction false} DigitPrefixOfDigits(d: string, rest: string)
    requires AllDigits(d)
    requires |rest| == 0 || !IsDigit(rest[0])
    ensures DigitPrefix(d + rest) == d
    decreases |d|
  {
    if |d| > 0 {
      assert (d + rest)[1..] == d[1..] + rest;
      DigitPrefixOfDigits(d[1..], rest);
      assert d == [d[0]] + d[1..];
    } else {
      assert d + rest == rest;
    }
  }

  /** A string that starts with a digit is read without whitespace or sign handling. */
  lemma ParseDigitLed(s: string)
    requires |s| > 0 && IsDigit(s[0])
    ensures ParseNumber(s) == ReadUnsigned(s)
  {
    assert !Text.IsSpace(s[0]);
    assert Text.TrimStart(s) == s;
  }

  /** `parseFloat` reads the digits of a natural number back as that number. */
  lemma ParseFormatNat(n: nat)
    ensures ParseNumber(FormatNat(n)) == Some(n as real)
  {
    var s := FormatNat(n);
    ParseDigitLed(s);
    DigitPrefixOfDigits(s, "");
    assert s + "" == s;
    assert s[|s|..] == "";
    FormatNatValue(n);
    assert FractionValue("") == 0.0;
    assert ExponentOf("") == 0;
  }

  /** How the reader cuts `w.f` into whole digits, fraction digits and an empty tail. */
  lemma FixedPointPieces(w: string, f: string)
    requires |w| > 0 && AllDigits(w) && AllDigits(f)
    ensures DigitPrefix(w + "." + f) == w
    ensures (w + "." + f)[|w|..] == "." + f
    ensures DigitPrefix(("." + f)[1..]) == f
    ensures ("." + f)[1 + |f|..] == ""
  {
    var s := w + "." + f;
    var rest := "." + f;
    assert s == w + rest;
    DigitPrefixOfDigits(w, rest);
    assert rest[1..] == f;
    DigitPrefixOfDigits(f, "");
    assert f + "" == f;
  }

  lemma ReadFixedPoint(w: string, f: string)
    requires |w| > 0 && AllDigits(w) && AllDigits(f)
    ensures ReadUnsigned(w + "." + f) == ReadAfterWhole(w, "." + f)
    ensures ReadAfterWhole(w, "." + f) == Compose(w, f, "")
  {
    FixedPointPieces(w, f);
  }

  lemma ComposeWithoutExponent(w: string, f: string)
    requires |w| > 0 && AllDigits(w) && AllDigits(f)
    ensures Compose(w, f, "") == Some(DigitsValue(w) as real + FractionValue(f))
  {
    assert ExponentOf("") == 0;
  }

  /** A plain decimal `w.f` (digits, a point, digits) reads as `w + 0.f`. */
  lemma ParseFixedPoint(w: string, f: string)
    requires |w| > 0 && AllDigits(w) && AllDigits(f)
    ensures ParseNumber(w + "." + f) == Some(DigitsValue(w) as real + FractionValue(f))
  {
    var s := w + "." + f;
    assert IsDigit(s[0]);
    ParseDigitLed(s);
    ReadFixedPoint(w, f);
    ComposeWithoutExponent(w, f);
  }
}
