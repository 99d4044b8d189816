/**
 * Exact decimal numbers as the applications use them: Python `Decimal`
 * values built from text, checked by Django's `DecimalField(max_digits=12,
 * decimal_places=2)` validators, stored as integer cents, printed back with
 * two fractional digits, and quantised to cents with the default
 * round-half-even rule.
 */
module Decimals {
  import opened Wrappers
  import opened Text

  /** A finite `Decimal` written without an exponent: value `coef / 10^scale`,
      where `scale` counts the digits written after the point. `1.50` is
      `Dec(150, 2)`, a different `Decimal` from `1.5` = `Dec(15, 1)`. */
  datatype Dec = Dec(coef: int, scale: nat)

  function Pow10(n: nat): (r: nat)
    ensures r >= 1
  {
    if n == 0 then 1 else 10 * Pow10(n - 1)
  }

  lemma {:induction false} Pow10Add(a: nat, b: nat)
    ensures Pow10(a + b) == Pow10(a) * Pow10(b)
    decreases b
  {
    if b > 0 {
      Pow10Add(a, b - 1);
    }
  }

  lemma {:induction false} Pow10Monotone(a: nat, b: nat)
    requires a <= b
    ensures Pow10(a) <= Pow10(b)
    decreases b
  {
    if a < b {
      Pow10Monotone(a, b - 1);
    }
  }

  /** Two decimals denote the same number (Python's `==` on `Decimal`). */
  predicate SameValue(a: Dec, b: Dec) {
    a.coef * Pow10(b.scale) == b.coef * Pow10(a.scale)
  }

  /** `a <= b` on the numbers denoted. */
  predicate AtMost(a: Dec, b: Dec) {
    a.coef * Pow10(b.scale) <= b.coef * Pow10(a.scale)
  }

  // ---------------------------------------------------------------------
  // Digits
  // ---------------------------------------------------------------------

  predicate IsDigit(c: char) {
    '0' <= c <= '9'
  }

  predicate AllDigits(s: string) {
    forall i :: 0 <= i < |s| ==> IsDigit(s[i])
  }

  function DigitValue(c: char): nat
    requires IsDigit(c)
  {
    c as int - '0' as int
  }

  function DigitChar(d: nat): (c: char)
    requires d < 10
    ensures IsDigit(c) && DigitValue(c) == d
  {
    ('0' as int + d) as char
  }

  /** The number a string of decimal digits spells, most significant first. */
  function DigitsValue(s: string): nat
    requires AllDigits(s)
    decreases |s|
  {
    if s == [] then 0 else DigitsValue(s[..|s| - 1]) * 10 + DigitValue(s[|s| - 1])
  }

  lemma {:induction false} DigitsValueAppend(a: string, b: string)
    requires AllDigits(a) && AllDigits(b)
    ensures AllDigits(a + b)
    ensures DigitsValue(a + b) == DigitsValue(a) * Pow10(|b|) + DigitsValue(b)
    decreases |b|
  {
    if b != [] {
      var b' := b[..|b| - 1];
      var last := DigitValue(b[|b| - 1]);
      assert (a + b)[..|a + b| - 1] == a + b';
      assert (a + b)[|a + b| - 1] == b[|b| - 1];
      DigitsValueAppend(a, b');
      var va, vb' := DigitsValue(a), DigitsValue(b');
      var p := Pow10(|b'|);
      assert DigitsValue(a + b) == (va * p + vb') * 10 + last;
      assert DigitsValue(b) == vb' * 10 + last;
      ShiftDigit(va, p, vb', last);
    } else {
      assert a + b == a;
    }
  }

  lemma ShiftDigit(x: int, p: int, y: int, d: int)
    ensures (x * p + y) * 10 + d == x * (p * 10) + (y * 10 + d)
  {
    assert (x * p) * 10 == x * (p * 10);
  }

  /** `str(n)` for a natural number. */
  function NatToString(n: nat): (s: string)
    ensures AllDigits(s) && |s| >= 1
    decreases n
  {
    if n < 10 then [DigitChar(n)] else NatToString(n / 10) + [DigitChar(n % 10)]
  }

  lemma {:induction false} NatToStringValue(n: nat)
    ensures DigitsValue(NatToString(n)) == n
    decreases n
  {
    if n >= 10 {
      var s := NatToString(n);
      assert s[..|s| - 1] == NatToString(n / 10);
      NatToStringValue(n / 10);
    }
  }

  /** Number of digits of `n` in Python's `Decimal.as_tuple()` (zero has one digit). */
  function NumDigits(n: nat): (k: nat)
    ensures k >= 1
    decreases n
  {
    if n < 10 then 1 else 1 + NumDigits(n / 10)
  }

  /** The digit count is at most `m` exactly when the number is below `10^m`. */
  lemma {:induction false} NumDigitsBound(n: nat, m: nat)
    ensures NumDigits(n) <= m <==> (m >= 1 && n < Pow10(m))
    decreases n
  {
    if n >= 10 && m >= 1 {
      NumDigitsBound(n / 10, m - 1);
    } else if n >= 10 {
    } else if m >= 1 {
      Pow10Monotone(1, m);
    }
  }

  function Abs(x: int): nat {
    if x < 0 then -x else x
  }

  // ---------------------------------------------------------------------
  // Parsing `Decimal(text)`
  // ---------------------------------------------------------------------

  /** Index of the first `x` in `s`, or `|s|` when there is none. */
  function IndexOf(s: string, x: char): (i: nat)
    ensures i <= |s|
    ensures i < |s| ==> s[i] == x
    ensures Lacks(s[..i], x)
    decreases |s|
  {
    if s == [] then 0 else if s[0] == x then 0 else 1 + IndexOf(s[1..], x)
  }

  /** Digits with at most one point and at least one digit: `12`, `12.5`, `.5`, `12.`. */
  function ParseUnsigned(t: string): (r: Option<Dec>)
    ensures r.Some? ==> r.value.coef >= 0 && r.value.scale < |t|
  {
    var i := IndexOf(t, '.');
    var whole := t[..i];
    var frac := if i < |t| then t[i + 1..] else [];
    if AllDigits(whole) && AllDigits(frac) && |whole| + |frac| > 0 then
      DigitsValueAppend(whole, frac);
      Some(Dec(DigitsValue(whole + frac), |frac|))
    else None
  }

  /** `Decimal(s)` for the plain notation: surrounding whitespace is ignored,
      an optional sign, then digits with at most one point. `None` stands for
      Python's `InvalidOperation`. */
  function ParseDecimal(s: string): (r: Option<Dec>)
    ensures r.Some? ==> r.value.scale < |Strip(s)|
    ensures r.Some? && r.value.coef < 0 ==> Strip(s)[0] == '-'
  {
    var t := Strip(s);
    if |t| > 0 && (t[0] == '-' || t[0] == '+') then
      match ParseUnsigned(t[1..])
      case None => None
      case Some(d) => Some(if t[0] == '-' then Dec(-d.coef, d.scale) else d)
    else ParseUnsigned(t)
  }

  // ---------------------------------------------------------------------
  // Printing and cents
  // ---------------------------------------------------------------------

  /** `str(Decimal)` of a two-place amount read back from the database,
      e.g. `42.50`, `0.05`. */
  function FormatCents(c: nat): string {
    NatToString(c / 100) + "." + [DigitChar(c / 10 % 10), DigitChar(c % 10)]
  }

  lemma TwoDigitsValue(a: nat, b: nat)
    requires a < 10 && b < 10
    ensures DigitsValue([DigitChar(a), DigitChar(b)]) == a * 10 + b
  {
    var f := [DigitChar(a), DigitChar(b)];
    assert f[..1] == [DigitChar(a)];
    assert [DigitChar(a)][..0] == [];
    assert DigitsValue([DigitChar(a)]) == a;
    assert f[1] == DigitChar(b);
  }

  lemma CentsDigits(c: nat)
    ensures (c / 100) * 100 + ((c / 10 % 10) * 10 + c % 10) == c
  {
  }

  /** Digits, a point, digits: read as one coefficient scaled by the fraction length. */
  lemma ParsePointed(w: string, f: string)
    requires AllDigits(w) && AllDigits(f) && |w| > 0
    ensures AllDigits(w + f)
    ensures ParseUnsigned(w + "." + f) == Some(Dec(DigitsValue(w + f), |f|))
  {
    var t := w + "." + f;
    assert t == w + ("." + f);
    IndexOfFirst(w, '.', "." + f);
    assert t[..|w|] == w;
    assert t[|w| + 1..] == f;
    DigitsValueAppend(w, f);
  }

  /** Printing an amount and reading it back with `Decimal(...)` gives the
      same two-place decimal. */
  lemma FormatCentsRoundTrip(c: nat)
    ensures ParseDecimal(FormatCents(c)) == Some(Dec(c, 2))
  {
    FormatCentsUnsigned(c);
    FormatCentsShape(c);
    ParseDigitLed(FormatCents(c));
  }

  lemma FormatCentsUnsigned(c: nat)
    ensures ParseUnsigned(FormatCents(c)) == Some(Dec(c, 2))
  {
    var w := NatToString(c / 100);
    var f := [DigitChar(c / 10 % 10), DigitChar(c % 10)];
    assert FormatCents(c) == w + "." + f;
    ParsePointed(w, f);
    CentsDigitsValue(c, w, f);
  }

  /** A printed amount starts and ends with a digit and has no comma. */
  lemma FormatCentsShape(c: nat)
    ensures var s := FormatCents(c); |s| > 0 && IsDigit(s[0]) && IsDigit(s[|s| - 1]) && Lacks(s, ',')
  {
    var w := NatToString(c / 100);
    var f := [DigitChar(c / 10 % 10), DigitChar(c % 10)];
    var s := FormatCents(c);
    assert s == w + "." + f;
    forall i | 0 <= i < |s| ensures s[i] != ',' {
      if i < |w| {
        assert s[i] == w[i];
      } else if i > |w| {
        assert s[i] == f[i - |w| - 1];
      }
    }
    assert s[0] == w[0];
    assert s[|s| - 1] == f[1];
  }

  /** Text that starts and ends with a digit reads without sign handling. */
  lemma ParseDigitLed(s: string)
    requires |s| > 0 && IsDigit(s[0]) && IsDigit(s[|s| - 1])
    ensures ParseDecimal(s) == ParseUnsigned(s)
  {
    DigitEdges(s);
  }

  /** Everything the importer needs of a printed amount. */
  lemma FormatCentsReads(c: nat)
    ensures var s := FormatCents(c);
      && ParseDecimal(s) == ParseUnsigned(s) == Some(Dec(c, 2))
      && IsDigit(s[0]) && IsDigit(s[|s| - 1]) && Lacks(s, ',')
      && IsStripped(s) && Strip(s) == s
  {
    FormatCentsRoundTrip(c);
    FormatCentsShape(c);
    DigitEdges(FormatCents(c));
    ParseDigitLed(FormatCents(c));
  }

  /** A digit is not whitespace. */
  lemma DigitNotSpace(c: char)
    requires IsDigit(c)
    ensures !IsSpace(c)
  {
  }

  /** Text that starts and ends with a digit is left alone by `strip()`. */
  lemma DigitEdges(s: string)
    requires |s| > 0 && IsDigit(s[0]) && IsDigit(s[|s| - 1])
    ensures IsStripped(s) && Strip(s) == s
  {
    DigitNotSpace(s[0]);
    DigitNotSpace(s[|s| - 1]);
    StripOfStripped(s);
  }

  /** Digits contain no character that is not a digit. */
  lemma DigitsLack(w: string, c: char)
    requires AllDigits(w) && !IsDigit(c)
    ensures Lacks(w, c)
  {
  }

  /** `Decimal("w.f")` for digit strings. */
  lemma ParsePointedDecimal(w: string, f: string)
    requires AllDigits(w) && AllDigits(f) && |w| > 0
    ensures AllDigits(w + f)
    ensures ParseDecimal(w + "." + f) == Some(Dec(DigitsValue(w + f), |f|))
  {
    var t := w + "." + f;
    assert t[0] == w[0];
    assert t[|t| - 1] == if f == [] then '.' else f[|f| - 1];
    DigitNotSpace(t[0]);
    if f != [] {
      DigitNotSpace(t[|t| - 1]);
    }
    StripOfStripped(t);
    ParsePointed(w, f);
  }

  lemma CentsDigitsValue(c: nat, w: string, f: string)
    requires w == NatToString(c / 100) && f == [DigitChar(c / 10 % 10), DigitChar(c % 10)]
    ensures AllDigits(w + f) && DigitsValue(w + f) == c
  {
    DigitsValueAppend(w, f);
    NatToStringValue(c / 100);
    TwoDigitsValue(c / 10 % 10, c % 10);
    assert Pow10(2) == 100;
    CentsDigits(c);
  }

  lemma {:induction false} IndexOfFirst(a: string, x: char, b: string)
    requires Lacks(a, x) && |b| > 0 && b[0] == x
    ensures IndexOf(a + b, x) == |a|
    decreases |a|
  {
    if a != [] {
      assert (a + b)[1..] == a[1..] + b;
      IndexOfFirst(a[1..], x, b);
    } else {
      assert a + b == b;
    }
  }

  /** The exact number of cents of a decimal with at most two places. */
  function ToCents(d: Dec): (c: int)
    requires d.scale <= 2
    ensures SameValue(d, Dec(c, 2))
  {
    Pow10Add(d.scale, 2 - d.scale);
    d.coef * Pow10(2 - d.scale)
  }

  // ---------------------------------------------------------------------
  // Django's DecimalValidator and MinValueValidator
  // ---------------------------------------------------------------------

  datatype AmountError =
    | TooManyDigits        // more than max_digits digits in total
    | TooManyDecimalPlaces // more than decimal_places digits after the point
    | TooManyWholeDigits   // more than max_digits - decimal_places before it
    | BelowMinimum         // smaller than the configured minimum

  /** `DecimalValidator(maxDigits, places)`: the first complaint, if any. */
  function DecimalValidator(d: Dec, maxDigits: nat, places: nat): Option<AmountError>
  {
    var k := NumDigits(Abs(d.coef));
    var digits := if d.scale == 0 then k else if d.scale > k then d.scale else k;
    var decimals := d.scale;
    if digits > maxDigits then Some(TooManyDigits)
    else if decimals > places then Some(TooManyDecimalPlaces)
    else if digits - decimals > maxDigits - places then Some(TooManyWholeDigits)
    else None
  }

  /** Django's amount validation for a `DecimalField(max_digits=12,
      decimal_places=2)` with a minimum of 0.01: every complaint, the digit
      check first. */
  function MoneyErrors(d: Dec): (errs: seq<AmountError>)
    ensures errs == [] <==> FitsMoney(d) && 100 * d.coef >= Pow10(d.scale)
  {
    FitsMoneyIff(d);
    (match DecimalValidator(d, 12, 2) case Some(e) => [e] case None => [])
    + (if 100 * d.coef >= Pow10(d.scale) then [] else [BelowMinimum])
  }

  /** At most two places and at most ten digits before the point. */
  predicate FitsMoney(d: Dec) {
    d.scale <= 2 && Abs(d.coef) < Pow10(10 + d.scale)
  }

  lemma FitsMoneyIff(d: Dec)
    ensures DecimalValidator(d, 12, 2) == None <==> FitsMoney(d)
  {
    var n := Abs(d.coef);
    NumDigitsBound(n, 10 + d.scale);
    NumDigitsBound(n, 12);
    if d.scale <= 2 && d.scale > NumDigits(n) {
      assert n < 10;
      Pow10Monotone(1, 10 + d.scale);
    }
  }

  /** A decimal that passes the money validators is a whole, positive number
      of cents below 10^12. */
  lemma ValidMoneyCents(d: Dec)
    requires MoneyErrors(d) == []
    ensures 1 <= ToCents(d) < Pow10(12)
  {
    var c := ToCents(d);
    var p := Pow10(d.scale);
    assert c * p == d.coef * 100;
    CancelAtLeast(c, 1, p);
    Pow10Add(10 + d.scale, 2);
    Pow10Add(12, d.scale);
    assert c * p < Pow10(12) * p;
    CancelBelow(c, Pow10(12), p);
  }

  /** A whole number of cents that fits the field, written with two places,
      passes the validators and converts back to itself. */
  lemma CentsBack(a: int)
    requires 1 <= a < Pow10(12)
    ensures MoneyErrors(Dec(a, 2)) == [] && ToCents(Dec(a, 2)) == a
  {
    assert Pow10(2) == 100;
    Pow10Add(10, 2);
  }

  lemma CancelAtLeast(x: int, y: int, p: int)
    requires p > 0 && x * p >= y * p
    ensures x >= y
  {
  }

  lemma CancelBelow(x: int, y: int, p: int)
    requires p > 0 && x * p < y * p
    ensures x < y
  {
  }

  // ---------------------------------------------------------------------
  // Arithmetic
  // ---------------------------------------------------------------------

  /** `a * b` (exact: the context precision is not modelled). */
  function Mul(a: Dec, b: Dec): (r: Dec)
    ensures r.coef * Pow10(a.scale) * Pow10(b.scale) == a.coef * b.coef * Pow10(r.scale)
  {
    Pow10Add(a.scale, b.scale);
    Dec(a.coef * b.coef, a.scale + b.scale)
  }

  /** `n / m` rounded to the nearest integer, ties to the even neighbour
      (Python's default `ROUND_HALF_EVEN`). */
  function RoundHalfEven(n: int, m: nat): (q: int)
    requires m >= 1
    ensures 2 * Abs(n - q * m) < m || (2 * Abs(n - q * m) == m && q % 2 == 0)
  {
    var q := n / m;
    var r := n % m;
    if 2 * r > m then q + 1
    else if 2 * r < m then q
    else if q % 2 == 0 then q else q + 1
  }

  /** `d.quantize(Decimal('0.01'))`: the two-place decimal nearest to `d`,
      and at an exact half cent the one with an even cent count. */
  function QuantizeCents(d: Dec): (r: Dec)
    ensures r.scale == 2
    ensures d.scale <= 2 ==> SameValue(r, d)
    ensures d.scale > 2 ==>
      var p := Pow10(d.scale - 2);
      2 * Abs(d.coef - r.coef * p) < p || (2 * Abs(d.coef - r.coef * p) == p && r.coef % 2 == 0)
  {
    if d.scale <= 2 then Dec(ToCents(d), 2)
    else Dec(RoundHalfEven(d.coef, Pow10(d.scale - 2)), 2)
  }
}
