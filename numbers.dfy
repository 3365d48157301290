/** JavaScript's text-to-number conversions as the routes use them. `None` stands for `NaN`. */
module JsNumbers {
  import opened Wrappers
  import opened Text

  /**
   * `Number(s)` for the texts the routes feed it: white space at both ends is ignored, a text
   * with nothing else reads as 0, and a run of decimal digits as its value.
   */
  function Number(s: string): (r: Option<int>)
    ensures r.Some? ==> r.value >= 0
  {
    var t := TrimStart(TrimEnd(s));
    if t == [] then Some(0) else if AllDigits(t) then Some(DecimalValue(t)) else None
  }

  /** A run of digits between white space reads as its decimal value. */
  lemma NumberPadded(before: string, d: string, after: string)
    requires |d| > 0 && AllDigits(d)
    requires forall i :: 0 <= i < |before| ==> IsJsWhitespace(before[i])
    requires forall i :: 0 <= i < |after| ==> IsJsWhitespace(after[i])
    ensures Number(before + d + after) == Some(DecimalValue(d))
  {
    assert IsDigit(d[|d| - 1]);
    assert before + d + after == (before + d) + after;
    TrimEndPadded(before + d, after);
    TrimStartPadded(before, d);
  }

  /** A bare run of digits reads as its decimal value. */
  lemma NumberDigits(d: string)
    requires |d| > 0 && AllDigits(d)
    ensures Number(d) == Some(DecimalValue(d))
  {
    NumberPadded([], d, []);
    assert [] + d + [] == d;
  }

  /** An empty or blank field reads as 0, not as `NaN`: `Number("")` is 0. */
  lemma NumberBlank(w: string)
    requires forall i :: 0 <= i < |w| ==> IsJsWhitespace(w[i])
    ensures Number(w) == Some(0)
  {
    TrimEndPadded([], w);
    assert [] + w == w;
  }

  /** A field holding anything but digits and white space is `NaN`: the model reads "8.5" or "-1" as `NaN`. */
  lemma NumberNaN(s: string, c: char)
    requires c in s && !IsDigit(c) && !IsJsWhitespace(c)
    ensures Number(s) == None
  {
    TrimKeeps(s, c);
    TrimKeeps(TrimEnd(s), c);
  }

  /** The sign `parseInt` and `parseFloat` accept after leading white space: (negative, rest). */
  function SplitSign(t: string): (string, bool)
  {
    if |t| > 0 && (t[0] == '-' || t[0] == '+') then (t[1..], t[0] == '-') else (t, false)
  }

  /**
   * `parseInt(s)` with no radix: skips leading white space, takes an optional sign, reads
   * hexadecimal after `0x`/`0X` and decimal otherwise, and stops at the first non-digit.
   */
  function ParseInt(s: string): (r: Option<int>)
  {
    var (u, negative) := SplitSign(TrimStart(s));
    match UnsignedInt(u)
    case None => None
    case Some(m) => Some(if negative then -m else m)
  }

  /** The digits `parseInt` reads once white space and sign are gone. */
  function UnsignedInt(u: string): (r: Option<int>)
    ensures r.Some? ==> r.value >= 0
  {
    var hex := |u| >= 2 && u[0] == '0' && (u[1] == 'x' || u[1] == 'X');
    var radix := if hex then 16 else 10;
    var v := if hex then u[2..] else u;
    var n := RadixPrefixLen(v, radix);
    RadixPrefixLenSpec(v, radix);
    if n == 0 then None else Some(RadixValue(v[..n], radix))
  }

  function Pow10(n: nat): (r: real)
    ensures r >= 1.0
  {
    if n == 0 then 1.0 else 10.0 * Pow10(n - 1)
  }

  /** The exponent part of a decimal literal after `e`/`E`; 0 when no digit follows. */
  function Exponent(after: string): int
  {
    if |after| > 0 && (after[0] == 'e' || after[0] == 'E') then
      var (digits, negative) := SplitSign(after[1..]);
      var k := RadixPrefixLen(digits, 10);
      RadixPrefixLenSpec(digits, 10);
      var e: int := RadixValue(digits[..k], 10);
      if negative then -e else e
    else 0
  }

  /** The value of the digits after a decimal point. */
  function DecimalFraction(digits: string): (r: real)
    requires AllDigits(digits)
    ensures 0.0 <= r
  {
    RadixValue(digits, 10) as real / Pow10(|digits|)
  }

  function Scale(x: real, e: int): real
  {
    if e >= 0 then x * Pow10(e) else x / Pow10(-e)
  }

  /**
   * `parseFloat(s)`: skips leading white space, takes an optional sign, then the longest
   * decimal literal `digits[.digits][e[sign]digits]` with at least one digit before the exponent.
   */
  function ParseFloat(s: string): (r: Option<real>)
  {
    var (u, negative) := SplitSign(TrimStart(s));
    match UnsignedFloat(u)
    case None => None
    case Some(m) => Some(if negative then -m else m)
  }

  /** The decimal literal `parseFloat` reads once white space and sign are gone. */
  function UnsignedFloat(u: string): (r: Option<real>)
  {
    var k1 := RadixPrefixLen(u, 10);
    var rest := u[k1..];
    var hasPoint := |rest| > 0 && rest[0] == '.';
    var f := if hasPoint then rest[1..] else "";
    var k2 := RadixPrefixLen(f, 10);
    RadixPrefixLenSpec(u, 10);
    RadixPrefixLenSpec(f, 10);
    if k1 == 0 && k2 == 0 then None
    else
      var mantissa := RadixValue(u[..k1], 10) as real + DecimalFraction(f[..k2]);
      var after := if hasPoint then f[k2..] else rest;
      Some(Scale(mantissa, Exponent(after)))
  }

  /** A prefix that `parseInt` reads as decimal: it does not continue with a digit, nor turn `0` into `0x`. */
  predicate DecimalEnd(digits: string, rest: string)
  {
    (rest == [] || !IsDigit(rest[0])) && !(digits == "0" && rest != [] && (rest[0] == 'x' || rest[0] == 'X'))
  }

  /** Leading white space is all `TrimStart` removes. */
  lemma TrimStartNone(s: string)
    requires s == [] || !IsJsWhitespace(s[0])
    ensures TrimStart(s) == s
  {
  }

  lemma UnsignedIntDecimal(n: nat, rest: string)
    requires DecimalEnd(DecimalText(n), rest)
    ensures UnsignedInt(DecimalText(n) + rest) == Some(n)
  {
    var d := DecimalText(n);
    var u := d + rest;
    assert u[0] == d[0];
    assert !(|u| >= 2 && u[0] == '0' && (u[1] == 'x' || u[1] == 'X')) by {
      if |d| >= 2 {
        assert u[1] == d[1];
      } else if |u| >= 2 && d[0] == '0' {
        assert d == "0" && u[1] == rest[0];
      }
    }
    RadixPrefixLenOf(d, rest, 10);
    assert u[..|d|] == d;
    DecimalTextValue(n);
  }

  /** With nothing to skip and no sign, `parseInt` is the unsigned reading; a `-` before it negates it. */
  lemma ParseIntUnsigned(u: string, n: nat)
    requires |u| > 0 && !IsJsWhitespace(u[0]) && u[0] != '-' && u[0] != '+'
    requires UnsignedInt(u) == Some(n)
    ensures ParseInt(u) == Some(n) && ParseInt("-" + u) == Some(-(n as int))
  {
    TrimStartNone(u);
    assert SplitSign(u) == (u, false);
    var m := "-" + u;
    assert m[0] == '-' && m[1..] == u;
    TrimStartNone(m);
    assert SplitSign(m) == (u, true);
  }

  /** `parseInt` reads the decimal text of a number back, and ignores what follows it (`"15.7"` gives 15). */
  lemma ParseIntDecimal(n: nat, rest: string)
    requires DecimalEnd(DecimalText(n), rest)
    ensures ParseInt(DecimalText(n) + rest) == Some(n)
    ensures ParseInt("-" + DecimalText(n) + rest) == Some(-(n as int))
  {
    var d := DecimalText(n);
    UnsignedIntDecimal(n, rest);
    assert (d + rest)[0] == d[0] && IsDigit(d[0]);
    ParseIntUnsigned(d + rest, n);
    assert "-" + d + rest == "-" + (d + rest);
  }

  /** `parseInt` of a text with no digit after the optional sign is `NaN`. */
  lemma ParseIntNaN(s: string)
    requires var u := SplitSign(TrimStart(s)).0; u == [] || !IsDigit(u[0])
    ensures ParseInt(s) == None
  {
  }

  /** A character no number can start with: not a digit, white space, sign or decimal point. */
  predicate NotNumberStart(c: char)
  {
    !IsDigit(c) && !IsJsWhitespace(c) && c != '-' && c != '+' && c != '.'
  }

  /** A text that is empty or starts with such a character is `NaN` to both `parseInt` and `parseFloat`. */
  lemma ParseNaN(s: string)
    requires s == [] || NotNumberStart(s[0])
    ensures ParseInt(s) == None && ParseFloat(s) == None
  {
    TrimStartNone(s);
    assert SplitSign(s).0 == s;
    ParseIntNaN(s);
    RadixPrefixLenSpec(s, 10);
  }

  lemma ParseFloatUnsigned(u: string, x: real)
    requires |u| > 0 && !IsJsWhitespace(u[0]) && u[0] != '-' && u[0] != '+'
    requires UnsignedFloat(u) == Some(x)
    ensures ParseFloat(u) == Some(x)
  {
    TrimStartNone(u);
    assert SplitSign(u) == (u, false);
  }

  lemma UnsignedFloatPoint(a: string, b: string)
    requires |a| > 0 && AllDigits(a) && AllDigits(b)
    ensures UnsignedFloat(a + "." + b) == Some(DecimalValue(a) as real + DecimalFraction(b))
  {
    var s := a + ("." + b);
    assert s == a + "." + b;
    RadixPrefixLenOf(a, "." + b, 10);
    assert s[..|a|] == a;
    var rest := s[|a|..];
    assert rest == "." + b;
    assert rest[1..] == b;
    RadixPrefixLenOf(b, [], 10);
    assert b + [] == b;
    assert b[..|b|] == b && b[|b|..] == [];
    assert Exponent([]) == 0;
  }

  /** `parseFloat` reads a plain decimal `a.b` as its exact value, `a + b / 10^|b|`. */
  lemma ParseFloatPoint(a: string, b: string)
    requires |a| > 0 && AllDigits(a) && AllDigits(b)
    ensures ParseFloat(a + "." + b) == Some(DecimalValue(a) as real + DecimalFraction(b))
  {
    UnsignedFloatPoint(a, b);
    var s := a + "." + b;
    assert s[0] == a[0] && IsDigit(a[0]);
    ParseFloatUnsigned(s, DecimalValue(a) as real + DecimalFraction(b));
  }

  /** A plain run of digits is read as its decimal value. */
  lemma UnsignedFloatDigits(d: string)
    requires |d| > 0 && AllDigits(d)
    ensures UnsignedFloat(d) == Some(DecimalValue(d) as real)
  {
    RadixPrefixLenOf(d, [], 10);
    assert d + [] == d && d[..|d|] == d && d[|d|..] == [];
    assert RadixPrefixLen("", 10) == 0 && RadixValue("", 10) == 0;
    assert DecimalFraction("") == 0.0;
    assert Exponent([]) == 0;
  }

  /** `parseFloat` reads the decimal text of a whole number as that number. */
  lemma ParseFloatWhole(n: nat)
    ensures ParseFloat(DecimalText(n)) == Some(n as real)
  {
    var d := DecimalText(n);
    UnsignedFloatDigits(d);
    DecimalTextValue(n);
    assert IsDigit(d[0]);
    ParseFloatUnsigned(d, n as real);
  }
}
