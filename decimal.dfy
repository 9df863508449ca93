/**
 * Numbers as text: Kotlin's `toDouble`/`toDoubleOrNull` and `toInt` on the plain
 * decimal numerals the program writes and reads, and `String.format("%.3f", x)`.
 * kWh values are exact reals; `%.3f` rounds half away from zero to thousandths
 * and prints a dot as the decimal separator.
 */
module Decimal {
  import opened Wrappers
  import opened Text

  // ---------------------------------------------------------------- parsing

  /** The sign and the rest of a numeral with an optional leading '+' or '-'. */
  function SplitSign(s: string): (r: (bool, string))
    ensures |r.1| <= |s|
  {
    if |s| > 0 && s[0] == '-' then (true, s[1..])
    else if |s| > 0 && s[0] == '+' then (false, s[1..])
    else (false, s)
  }

  /** The value of `whole.fraction`, both non-empty runs of digits. */
  function DecimalValue(whole: string, fraction: string): (r: Option<real>)
    ensures r.Some? ==> r.value >= 0.0
  {
    if 1 <= |whole| && 1 <= |fraction| && AllDigits(whole) && AllDigits(fraction)
    then Some(DigitsValue(whole) as real + DigitsValue(fraction) as real / Pow10(|fraction|) as real)
    else None
  }

  /** `digits` or `digits.digits`. */
  function ParseUnsignedDecimal(s: string): (r: Option<real>)
    ensures r.Some? ==> r.value >= 0.0
  {
    var i := LastIndexOf(s, '.');
    if i >= 0 then DecimalValue(s[..i], s[i + 1..])
    else if 1 <= |s| && AllDigits(s) then Some(DigitsValue(s) as real)
    else None
  }

  /**
   * `toDoubleOrNull()` for numerals of the form `[+-]? digits ('.' digits)?`;
   * the exponent forms, "NaN", "Infinity" and hexadecimal floats are not modelled.
   */
  function ParseDecimal(s: string): Option<real>
  {
    var (negative, body) := SplitSign(s);
    match ParseUnsignedDecimal(body)
    case None => None
    case Some(v) => Some(if negative then -v else v)
  }

  const IntMin: int := -0x8000_0000
  const IntMax: int := 0x7FFF_FFFF

  predicate InIntRange(n: int) { IntMin <= n <= IntMax }

  /** `toInt()`/`toIntOrNull()`: an optional sign and ASCII digits, within 32 bits. */
  function ParseInt(s: string): (r: Option<int>)
    ensures r.Some? ==> InIntRange(r.value)
  {
    var (negative, body) := SplitSign(s);
    if 1 <= |body| && AllDigits(body) then
      var v := if negative then -(DigitsValue(body) as int) else DigitsValue(body) as int;
      if InIntRange(v) then Some(v) else None
    else None
  }

  /** Every 32-bit integer printed by `toString()` reads back as itself. */
  lemma ParseIntRoundTrip(n: int)
    requires InIntRange(n)
    ensures ParseInt(IntToString(n)) == Some(n)
  {
    if n < 0 {
      var s := IntToString(n);
      assert s[1..] == NatToString(-n);
      NatToStringValue(-n);
    } else {
      NatToStringValue(n);
    }
  }

  // ---------------------------------------------------------------- %.3f

  /** `|x|` rounded half up to a whole number of thousandths. */
  function Milli(x: real): (m: nat)
    ensures (m as real) - 0.5 <= (if x < 0.0 then -x else x) * 1000.0 < (m as real) + 0.5
  {
    var a := if x < 0.0 then -x else x;
    (a * 1000.0 + 0.5).Floor
  }

  /** The value `%.3f` prints: `x` rounded half away from zero to three decimals. */
  function Round3(x: real): (r: real)
    ensures -0.0005 <= r - x <= 0.0005
    ensures (r < 0.0 ==> x < 0.0) && (x > 0.0 ==> r >= 0.0)
  {
    var m := Milli(x) as real / 1000.0;
    if x < 0.0 then -m else m
  }

  /** A count of thousandths as `<whole>.<three digits>`. */
  function MilliText(m: nat): (s: string)
  {
    NatToString(m / 1000) + "." + PadNat(m % 1000, 3)
  }

  /**
   * `String.format("%.3f", x)`: the sign of a negative value (also when it rounds to
   * zero), then `|x|` rounded to thousandths with exactly three fraction digits.
   */
  function Format3(x: real): (s: string)
  {
    (if x < 0.0 then "-" else "") + MilliText(Milli(x))
  }

  /** The text starts with a digit and holds only digits and the one '.'. */
  lemma MilliTextShape(m: nat)
    ensures MilliText(m) != [] && IsDigit(MilliText(m)[0])
    ensures forall c :: c in MilliText(m) ==> IsDigit(c) || c == '.'
  {
    var whole, fraction := NatToString(m / 1000), PadNat(m % 1000, 3);
    assert MilliText(m)[0] == whole[0];
    forall c | c in MilliText(m) ensures IsDigit(c) || c == '.' {
      if !IsDigit(c) { DigitsHaveNo(whole, c); PadNatHasNo(m % 1000, 3, c); }
    }
  }

  /** A printed number holds nothing but a sign, digits and the decimal point. */
  lemma Format3HasNo(x: real, c: char)
    requires !IsDigit(c) && c != '.' && c != '-'
    ensures c !in Format3(x)
  {
    MilliTextShape(Milli(x));
  }

  lemma Pow3()
    ensures Pow10(3) == 1000
  {
    assert Pow10(1) == 10 && Pow10(2) == 100;
  }

  lemma ThousandthsSplit(m: nat)
    ensures (m / 1000) as real + (m % 1000) as real / 1000.0 == m as real / 1000.0
  {
    var q, r := m / 1000, m % 1000;
    assert m == 1000 * q + r;
    assert m as real == 1000.0 * q as real + r as real;
  }

  /** The digits `Format3` prints parse back to the magnitude in thousandths. */
  lemma MilliTextValue(m: nat)
    ensures ParseUnsignedDecimal(MilliText(m)) == Some(m as real / 1000.0)
  {
    var whole, fraction := NatToString(m / 1000), PadNat(m % 1000, 3);
    Pow3();
    PadNatValue(m % 1000, 3);
    NatToStringValue(m / 1000);
    DigitsHaveNo(fraction, '.');
    SplitAtLast(whole, '.', fraction);
    ThousandthsSplit(m);
    assert MilliText(m) == whole + ['.'] + fraction;
    assert |fraction| == 3 && DigitsValue(fraction) == m % 1000;
    assert DecimalValue(whole, fraction) == Some(m as real / 1000.0);
  }

  /** A sign prefix before a digit-led numeral negates its value. */
  lemma {:induction false} ParseSigned(negative: bool, text: string, v: real)
    requires text != [] && IsDigit(text[0]) && ParseUnsignedDecimal(text) == Some(v)
    ensures ParseDecimal((if negative then "-" else "") + text) == Some(if negative then -v else v)
  {
    var s := (if negative then "-" else "") + text;
    if negative {
      assert s[1..] == text;
      assert SplitSign(s) == (true, text);
    } else {
      assert s == text;
      assert SplitSign(s) == (false, text);
    }
  }

  /** What `%.3f` prints reads back, through `toDouble`, as the rounded value. */
  lemma Format3RoundTrip(x: real)
    ensures ParseDecimal(Format3(x)) == Some(Round3(x))
  {
    var m := Milli(x);
    var v := m as real / 1000.0;
    assert Round3(x) == (if x < 0.0 then -v else v);
    assert Format3(x) == (if x < 0.0 then "-" else "") + MilliText(m);
    MilliTextValue(m);
    MilliTextShape(m);
    ParseSigned(x < 0.0, MilliText(m), v);
  }

  /** Rounding to thousandths twice is rounding once. */
  lemma Round3Idempotent(x: real)
    ensures Round3(Round3(x)) == Round3(x)
  {
    var m := Milli(x);
    var r := Round3(x);
    var a := if r < 0.0 then -r else r;
    assert a * 1000.0 == m as real;
    assert (a * 1000.0 + 0.5).Floor == m;
  }

  /** A value already at three decimals is printed exactly. */
  lemma Round3Exact(k: int)
    ensures Round3(k as real / 1000.0) == k as real / 1000.0
  {
    var x := k as real / 1000.0;
    var a := if x < 0.0 then -x else x;
    assert a * 1000.0 == (if k < 0 then -k else k) as real;
    assert (a * 1000.0 + 0.5).Floor == (if k < 0 then -k else k);
  }
}
