/**
 * The scalar Python values the judges compare: parsed call arguments,
 * ground-truth argument values and expected answers, with Python's `==`,
 * `in` on a list, `str()`, truthiness and `float()`.
 */
module Values {
  import opened Options
  import opened Text
  import opened Numerals

  datatype Value = NoneV | BoolV(b: bool) | IntV(i: int) | FloatV(d: Decimal) | StrV(s: string)

  /** The number a numeric value stands for (`bool` is a subclass of `int`). */
  function NumberOf(v: Value): Option<real>
  {
    match v
    case BoolV(b) => Some(if b then 1.0 else 0.0)
    case IntV(i) => Some(i as real)
    case FloatV(d) => Some(DecimalReal(d))
    case _ => None
  }

  /** Python's `==`: numbers compare by value across `bool`, `int` and `float`. */
  function PyEq(a: Value, b: Value): (eq: bool)
    ensures a == b ==> eq
    ensures eq && (a.StrV? || b.StrV? || a.NoneV? || b.NoneV?) ==> a == b
  {
    match (a, b)
    case (NoneV, NoneV) => true
    case (StrV(x), StrV(y)) => x == y
    case _ =>
      match (NumberOf(a), NumberOf(b))
      case (Some(x), Some(y)) => x == y
      case _ => false
  }

  /** `x in xs` for a list `xs`. */
  function PyIn(x: Value, xs: seq<Value>): (found: bool)
    ensures x in xs ==> found
    ensures xs == [] ==> !found
    ensures x.StrV? || x.NoneV? ==> (found <==> x in xs)
  {
    exists v :: v in xs && PyEq(x, v)
  }

  /** `str(v)` */
  function Str(v: Value): (t: string)
    ensures t == [] <==> v == StrV([])
    ensures v.IntV? ==> ParseInt(t) == Some(v.i)
    ensures v.FloatV? ==> '.' in t
  {
    assert v.IntV? ==> ParseInt(IntText(v.i)) == Some(v.i) by {
      if v.IntV? {
        IntTextRoundTrip(v.i);
      }
    }
    match v
    case NoneV => "None"
    case BoolV(b) => if b then "True" else "False"
    case IntV(i) => IntText(i)
    case FloatV(d) => FloatRepr(d)
    case StrV(s) => s
  }

  /** `[str(v) for v in xs]` */
  function Strs(xs: seq<Value>): seq<string>
  {
    seq(|xs|, k requires 0 <= k < |xs| => Str(xs[k]))
  }

  /** `bool(v)` */
  function Truthy(v: Value): (b: bool)
    ensures NumberOf(v).Some? ==> (b <==> NumberOf(v).value != 0.0)
    ensures v.StrV? ==> (b <==> Str(v) != [])
    ensures v.NoneV? ==> !b
  {
    match v
    case NoneV => false
    case BoolV(b) => b
    case IntV(i) => i != 0
    case FloatV(d) => d.mantissa != 0
    case StrV(s) => s != ""
  }

  /** `float(v)`, with None for the `TypeError` or `ValueError` it raises. */
  function ToFloat(v: Value): Option<real>
  {
    match v
    case StrV(s) => (match ParseFloat(s) case Some(d) => Some(DecimalReal(d)) case None => None)
    case _ => NumberOf(v)
  }

  /** The integer 3 and the float 3.0 are `==`, yet `str()` tells them apart. */
  lemma WholeFloatEqualsInt(n: int)
    ensures PyEq(IntV(n), FloatV(Decimal(n, 0)))
    ensures Str(IntV(n)) != Str(FloatV(Decimal(n, 0)))
  {
    assert DecimalReal(Decimal(n, 0)) == n as real;
    assert Str(FloatV(Decimal(n, 0))) == Str(IntV(n)) + ".0" by {
      FloatReprWhole(n);
    }
  }

  predicate IsQuote(c: char) { c == '"' || c == '\'' }

  /** `raw.strip().strip('"\'')` */
  function Unquote(raw: string): (t: string)
    ensures |t| <= |raw|
    ensures t != [] ==> !IsQuote(t[0]) && !IsQuote(t[|t| - 1])
  {
    Strip(Strip(raw, IsSpace), IsQuote)
  }

  /**
   * The coercion of a keyword-argument value: unquote it, then `int()`, else
   * `float()`, else keep the string.
   */
  function Coerce(raw: string): (v: Value)
    ensures v.IntV? || v.FloatV? || v.StrV?
    ensures v.IntV? ==> ParseInt(Unquote(raw)) == Some(v.i)
    ensures v.FloatV? ==> ParseInt(Unquote(raw)).None? && ParseFloat(Unquote(raw)) == Some(v.d)
    ensures v.StrV? ==> v.s == Unquote(raw) && ParseInt(v.s).None? && ParseFloat(v.s).None?
  {
    var text := Unquote(raw);
    match ParseInt(text)
    case Some(i) => IntV(i)
    case None =>
      match ParseFloat(text)
      case Some(d) => FloatV(d)
      case None => StrV(text)
  }

  /** One pair of quotes around a string without quotes at its ends is stripped off. */
  lemma StripOneQuote(t: string, quote: string)
    requires t != [] && !IsQuote(t[0]) && !IsQuote(t[|t| - 1])
    requires quote == "\"" || quote == "'"
    ensures Strip(quote + t + quote, IsQuote) == t
  {
    var w := quote + t + quote;
    assert RunEnd(w, 1, IsQuote) == 1;
    assert RunStart(w, 1, |w| - 1, IsQuote) == |w| - 1;
    assert w[1..|w| - 1] == t;
  }

  /** The text of an integer begins with a sign or a digit and ends with a digit. */
  lemma IntTextEnds(n: int)
    ensures IntText(n) != [] && !IsSpace(IntText(n)[0]) && !IsQuote(IntText(n)[0])
    ensures IsDigit(IntText(n)[|IntText(n)| - 1])
  {
  }

  /** Unquoting an integer's text, quoted or not, gives that text back. */
  lemma UnquoteInteger(n: int, quote: string)
    requires quote == "" || quote == "\"" || quote == "'"
    ensures Unquote(quote + IntText(n) + quote) == IntText(n)
  {
    var t := IntText(n);
    var w := quote + t + quote;
    IntTextEnds(n);
    assert w[0] == if quote == "" then t[0] else quote[0];
    assert w[|w| - 1] == if quote == "" then t[|t| - 1] else quote[0];
    StripUnchanged(w, IsSpace);
    if quote == "" {
      assert w == t;
      StripUnchanged(t, IsQuote);
    } else {
      StripOneQuote(t, quote);
    }
  }

  /** An integer written out, quoted or not, coerces back to that integer, not to a float or a string. */
  lemma CoerceInteger(n: int, quote: string)
    requires quote == "" || quote == "\"" || quote == "'"
    ensures Coerce(quote + IntText(n) + quote) == IntV(n)
  {
    UnquoteInteger(n, quote);
    IntTextRoundTrip(n);
  }

  /** A value that is no numeral and has no surrounding blanks or quotes stays the string it is. */
  lemma CoerceText(s: string)
    requires s != [] ==> !IsSpace(s[0]) && !IsSpace(s[|s| - 1]) && !IsQuote(s[0]) && !IsQuote(s[|s| - 1])
    requires ParseFloat(s).None?
    ensures Coerce(s) == StrV(s)
  {
    StripUnchanged(s, IsSpace);
    StripUnchanged(s, IsQuote);
    if ParseInt(s).Some? {
      IntIsFloat(s);
    }
  }
}
