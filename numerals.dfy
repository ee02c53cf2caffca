/**
 * Decimal numerals: the text of natural numbers, Python's `int()` and
 * `float()` on plain numerals, and the text `str()` gives an integer or a
 * float. Floats are exact decimals, so binary rounding is not modelled.
 */
module Numerals {
  import opened Options
  import opened Text

  function Pow10(n: nat): (p: nat)
    ensures p >= 1
  {
    if n == 0 then 1 else 10 * Pow10(n - 1)
  }

  predicate AllDigits(s: string) { forall k :: 0 <= k < |s| ==> IsDigit(s[k]) }

  function DigitValue(c: char): nat
    requires IsDigit(c)
  {
    c as int - '0' as int
  }

  function DigitChar(d: nat): char
    requires d < 10
  {
    ('0' as int + d) as char
  }

  /** The number a string of digits denotes. */
  function DigitsValue(s: string): nat
    requires AllDigits(s)
    decreases |s|
  {
    if s == [] then 0 else 10 * DigitsValue(s[..|s| - 1]) + DigitValue(s[|s| - 1])
  }

  /** `str(n)` for a natural number: its decimal digits, without leading zeros. */
  function NatText(n: nat): (t: string)
    ensures t != [] && AllDigits(t)
    ensures |t| > 1 ==> t[0] != '0'
    decreases n
  {
    if n < 10 then [DigitChar(n)] else NatText(n / 10) + [DigitChar(n % 10)]
  }

  /** Reading back the digits `NatText` writes gives the number again. */
  lemma {:induction false} NatTextRoundTrip(n: nat)
    ensures DigitsValue(NatText(n)) == n
  {
    if n >= 10 {
      NatTextRoundTrip(n / 10);
      var t := NatText(n);
      assert t[..|t| - 1] == NatText(n / 10);
    }
  }

  /** `str(i)` for an integer. */
  function IntText(i: int): string
  {
    if i < 0 then "-" + NatText(-i) else NatText(i)
  }

  function Signed(negative: bool, n: nat): int { if negative then -(n as int) else n }

  /** A leading `+` or `-` split off: whether it was `-`, and the rest. */
  function SplitSign(t: string): (bool, string)
  {
    if t != [] && (t[0] == '+' || t[0] == '-') then (t[0] == '-', t[1..]) else (false, t)
  }

  /**
   * `int(s)` on plain numerals: surrounding whitespace, an optional sign and
   * one or more digits; anything else is the `ValueError` the source catches.
   */
  function ParseInt(s: string): (r: Option<int>)
    ensures s != [] && AllDigits(s) ==> r == Some(DigitsValue(s))
    ensures Strip(s, IsSpace) == [] ==> r.None?
  {
    assert s != [] && AllDigits(s) ==> Strip(s, IsSpace) == s && SplitSign(s) == (false, s) by {
      if s != [] && AllDigits(s) {
        StripUnchanged(s, IsSpace);
      }
    }
    var (negative, u) := SplitSign(Strip(s, IsSpace));
    if u != [] && AllDigits(u) then Some(Signed(negative, DigitsValue(u))) else None
  }

  /** A float as an exact decimal: `mantissa / 10^scale`. */
  datatype Decimal = Decimal(mantissa: int, scale: nat)

  function DecimalReal(d: Decimal): real
  {
    d.mantissa as real / Pow10(d.scale) as real
  }

  /**
   * `float(s)` on plain numerals: surrounding whitespace, an optional sign, and
   * digits with at most one decimal point and at least one digit.
   */
  function ParseFloat(s: string): (r: Option<Decimal>)
    ensures s != [] && AllDigits(s) ==> r == Some(Decimal(DigitsValue(s), 0))
    ensures Strip(s, IsSpace) == [] ==> r.None?
  {
    assert s != [] && AllDigits(s) ==> Strip(s, IsSpace) == s && SplitSign(s) == (false, s) by {
      if s != [] && AllDigits(s) {
        StripUnchanged(s, IsSpace);
      }
    }
    var (negative, u) := SplitSign(Strip(s, IsSpace));
    var j := RunEnd(u, 0, IsDigit);
    if j == |u| then
      if j > 0 then Some(Decimal(Signed(negative, DigitsValue(u)), 0)) else None
    else if u[j] == '.' && AllDigits(u[j + 1..]) && (j > 0 || j + 1 < |u|) then
      assert AllDigits(u[..j] + u[j + 1..]);
      Some(Decimal(Signed(negative, DigitsValue(u[..j] + u[j + 1..])), |u| - j - 1))
    else None
  }

  /** Digits with at most one point after them, without sign or padding, read as a float that is not negative. */
  lemma UnsignedFloat(u: string)
    requires Strip(u, IsSpace) == u && u != [] && IsDigit(u[0])
    requires var j := RunEnd(u, 0, IsDigit); j == |u| || (u[j] == '.' && AllDigits(u[j + 1..]))
    ensures ParseFloat(u).Some? && DecimalReal(ParseFloat(u).value) >= 0.0
  {
    var j := RunEnd(u, 0, IsDigit);
    if j == |u| {
      WholeFloat(u);
    } else {
      PointFloat(u, j);
    }
    var d := ParseFloat(u).value;
    NonNegativeQuotient(d.mantissa, Pow10(d.scale));
  }

  lemma WholeFloat(u: string)
    requires Strip(u, IsSpace) == u && u != [] && IsDigit(u[0]) && RunEnd(u, 0, IsDigit) == |u|
    ensures ParseFloat(u).Some? && ParseFloat(u).value.mantissa >= 0
  {
    assert SplitSign(u) == (false, u);
  }

  lemma PointFloat(u: string, j: nat)
    requires Strip(u, IsSpace) == u && u != [] && IsDigit(u[0])
    requires j == RunEnd(u, 0, IsDigit) && j < |u| && u[j] == '.' && AllDigits(u[j + 1..])
    ensures ParseFloat(u).Some? && ParseFloat(u).value.mantissa >= 0
  {
    assert SplitSign(u) == (false, u);
  }

  lemma NonNegativeQuotient(n: int, p: nat)
    requires n >= 0 && p >= 1
    ensures n as real / p as real >= 0.0
  {
  }

  /** Every string `int()` accepts, `float()` accepts too, with the same value. */
  lemma IntIsFloat(s: string)
    requires ParseInt(s).Some?
    ensures ParseFloat(s).Some? && DecimalReal(ParseFloat(s).value) == ParseInt(s).value as real
  {
    var (negative, u) := SplitSign(Strip(s, IsSpace));
    assert RunEnd(u, 0, IsDigit) == |u|;
  }

  /** `int(str(i)) == i` */
  lemma IntTextRoundTrip(i: int)
    ensures ParseInt(IntText(i)) == Some(i)
  {
    var t := IntText(i);
    var n: nat := if i < 0 then -i else i;
    NatTextRoundTrip(n);
    StripUnchanged(t, IsSpace);
    if i < 0 {
      assert SplitSign(t) == (true, NatText(n));
    } else {
      assert SplitSign(t) == (false, NatText(n));
    }
  }

  predicate IsZeroChar(c: char) { c == '0' }

  /** `t` with zeros prepended up to length `n`. */
  function PadZeros(t: string, n: nat): string
  {
    if |t| >= n then t else seq(n - |t|, _ => '0') + t
  }

  function DivMod(a: nat, p: nat): (nat, nat)
    requires p >= 1
  {
    (a / p, a % p)
  }

  /**
   * `str(x)` for a float in positional notation: the integer part, a point,
   * and the fraction without trailing zeros (at least one digit).
   */
  function FloatRepr(d: Decimal): (t: string)
    ensures t != [] && (t[0] == '-' <==> d.mantissa < 0)
    ensures '.' in t
  {
    var a: nat := if d.mantissa < 0 then -d.mantissa else d.mantissa;
    var (whole, rest) := DivMod(a, Pow10(d.scale));
    var fraction := PadZeros(NatText(rest), d.scale);
    var kept := fraction[..RunStart(fraction, 0, |fraction|, IsZeroChar)];
    (if d.mantissa < 0 then "-" else "") + NatText(whole) + "." + (if kept == [] then "0" else kept)
  }

  /** A whole-valued float prints as the integer followed by `.0`: `str(3.0) == "3.0"`, unlike `str(3)`. */
  lemma FloatReprWhole(n: int)
    ensures FloatRepr(Decimal(n, 0)) == IntText(n) + ".0"
  {
    var a: nat := if n < 0 then -n else n;
    assert DivMod(a, Pow10(0)) == (a, 0);
    var fraction := PadZeros(NatText(0), 0);
    assert fraction == "0";
    assert RunStart(fraction, 0, 1, IsZeroChar) == 0;
  }
}
