/** JavaScript's `parseInt(t, 10)` and `parseFloat(t)` on the texts the ipat importers hand
    them: digit strings, possibly with one decimal point, after `,` has been removed. Numbers
    are exact: binary floating point is not modelled. */
module JsNumbers {
  import opened Wrappers
  import opened Seqs
  import opened NumberKeys
  import opened JsText

  predicate AllDigits(t: string) {
    forall k :: 0 <= k < |t| ==> IsDigitChar(t[k])
  }

  function DigitValue(c: char): (d: nat)
    requires IsDigitChar(c)
    ensures d < 10 && DigitChar(d) == c
  {
    c as int - '0' as int
  }

  /** The value of a decimal digit string, most significant digit first; `""` is 0. */
  function DigitsValue(t: string): nat
    requires AllDigits(t)
  {
    if t == [] then 0 else DigitsValue(t[..|t| - 1]) * 10 + DigitValue(t[|t| - 1])
  }

  function Pow10(k: nat): (p: nat)
    ensures p >= 1
  {
    if k == 0 then 1 else 10 * Pow10(k - 1)
  }

  /** Reading back the decimal digits of `n` gives `n`. */
  lemma {:induction false} DecimalValue(n: nat)
    ensures DigitsValue(Decimal(n)) == n
  {
    if n >= 10 {
      DecimalValue(n / 10);
      var d := Decimal(n);
      assert d[..|d| - 1] == Decimal(n / 10);
    }
  }

  /** A `k`-digit string is below 10^k. */
  lemma {:induction false} DigitsValueBound(t: string)
    requires AllDigits(t)
    ensures DigitsValue(t) < Pow10(|t|)
  {
    if t != [] {
      DigitsValueBound(t[..|t| - 1]);
    }
  }

  function NotComma(c: char): bool {
    c != ','
  }

  /** `t.replace(/,/g, '')`. */
  function RemoveCommas(t: string): (r: string)
    ensures ',' !in r
    ensures multiset(r) <= multiset(t)
  {
    Filter(t, NotComma)
  }

  /** A text without commas is left as it is. */
  lemma NoCommas(t: string)
    requires ',' !in t
    ensures RemoveCommas(t) == t
  {
    FilterAll(t, NotComma);
  }

  /** The character class `[\d,]`: digits with thousands separators. */
  predicate IsDigitOrComma(c: char) {
    IsDigitChar(c) || c == ','
  }

  /** The characters of `[\d,]+\.?\d*`. */
  predicate IsOddsChar(c: char) {
    IsDigitOrComma(c) || c == '.'
  }

  /** With its commas removed, a text of digits, commas and points holds digits and points. */
  lemma RemoveCommasAlphabet(g: string)
    requires forall k :: 0 <= k < |g| ==> IsOddsChar(g[k])
    ensures forall k :: 0 <= k < |RemoveCommas(g)| ==> IsDigitOrPoint(RemoveCommas(g)[k])
  {
    var t := RemoveCommas(g);
    forall k | 0 <= k < |t| ensures IsDigitOrPoint(t[k]) {
      FilterMember(g, NotComma, t[k]);
    }
  }

  /** With its commas removed, a text of digits and commas is a digit string. */
  lemma RemoveCommasDigits(g: string)
    requires forall k :: 0 <= k < |g| ==> IsDigitOrComma(g[k])
    ensures AllDigits(RemoveCommas(g))
  {
    var t := RemoveCommas(g);
    forall k | 0 <= k < |t| ensures IsDigitChar(t[k]) {
      FilterMember(g, NotComma, t[k]);
    }
  }

  /** Removing the commas leaves nothing exactly when there was nothing but commas. */
  lemma RemoveCommasEmpty(g: string)
    ensures RemoveCommas(g) == [] <==> forall k :: 0 <= k < |g| ==> g[k] == ','
  {
    if RemoveCommas(g) == [] {
      forall k | 0 <= k < |g| ensures g[k] == ',' {
        FilterMember(g, NotComma, g[k]);
      }
    } else {
      var r := RemoveCommas(g);
      FilterMember(g, NotComma, r[0]);
      var k :| 0 <= k < |g| && g[k] == r[0];
      assert g[k] != ',';
    }
  }

  predicate IsDigitOrPoint(c: char) {
    IsDigitChar(c) || c == '.'
  }

  /** `parseInt(t, 10)` for a digit string: `None` is `NaN`, produced by the empty string. */
  function ParseIntDigits(t: string): (v: Option<int>)
    requires AllDigits(t)
    ensures v.None? <==> t == []
    ensures v.Some? ==> 0 <= v.value < Pow10(|t|)
  {
    DigitsValueBound(t);
    if t == [] then None else Some(DigitsValue(t))
  }

  /** `whole.frac` where `frac` has `k` digits. */
  function DecimalReal(whole: nat, frac: nat, k: nat): real {
    whole as real + frac as real / Pow10(k) as real
  }

  lemma DecimalRealBounds(whole: nat, frac: nat, k: nat)
    requires frac < Pow10(k)
    ensures whole as real <= DecimalReal(whole, frac, k) < whole as real + 1.0
  {
    BelowOne(frac as real, Pow10(k) as real);
  }

  lemma BelowOne(x: real, p: real)
    requires 0.0 <= x < p
    ensures x / p < 1.0
  {
  }

  /** `parseFloat(t)` for a text of digits and points: the longest prefix of the form
      digits, optionally `.` and digits, read exactly; `None` is `NaN`, produced when that
      prefix holds no digit. */
  function ParseFloatDigits(t: string): (v: Option<real>)
    requires forall k :: 0 <= k < |t| ==> IsDigitOrPoint(t[k])
    ensures v.None? <==> t == [] || (t[0] == '.' && (|t| == 1 || t[1] == '.'))
  {
    var a := Run(t, IsDigitChar);
    var whole := t[..a];
    RunAll(t, IsDigitChar);
    assert AllDigits(whole);
    assert a == 0 && t != [] ==> !IsDigitChar(t[0]) && IsDigitOrPoint(t[0]);
    if a < |t| && t[a] == '.' then
      var rest := t[a + 1..];
      var frac := rest[..Run(rest, IsDigitChar)];
      RunAll(rest, IsDigitChar);
      assert AllDigits(frac);
      assert frac == [] && rest != [] ==> !IsDigitChar(rest[0]) && IsDigitOrPoint(t[a + 1]);
      if a == 0 && frac == [] then None
      else Some(DecimalReal(DigitsValue(whole), DigitsValue(frac), |frac|))
    else if a == 0 then None
    else Some(DigitsValue(whole) as real)
  }

  /** The reading of `parseFloat` is never negative and lies between the whole part and the
      next integer. */
  lemma ParseFloatBounds(t: string)
    requires forall k :: 0 <= k < |t| ==> IsDigitOrPoint(t[k])
    requires ParseFloatDigits(t).Some?
    ensures var a := Run(t, IsDigitChar);
      AllDigits(t[..a])
      && DigitsValue(t[..a]) as real <= ParseFloatDigits(t).value < DigitsValue(t[..a]) as real + 1.0
  {
    var a := Run(t, IsDigitChar);
    RunAll(t, IsDigitChar);
    if a < |t| && t[a] == '.' {
      var rest := t[a + 1..];
      var frac := rest[..Run(rest, IsDigitChar)];
      RunAll(rest, IsDigitChar);
      DigitsValueBound(frac);
      DecimalRealBounds(DigitsValue(t[..a]), DigitsValue(frac), |frac|);
    }
  }

  /** A digit string, a point and a digit string hold only digits and points. */
  lemma PointChars(w: string, f: string)
    requires AllDigits(w) && AllDigits(f)
    ensures forall k :: 0 <= k < |w + "." + f| ==> IsDigitOrPoint((w + "." + f)[k])
  {
    var t := w + "." + f;
    forall k | 0 <= k < |t| ensures IsDigitOrPoint(t[k]) {
      if k < |w| {
        assert t[k] == w[k];
      } else if k > |w| {
        assert t[k] == f[k - |w| - 1];
      }
    }
  }

  /** A digit string, a point and a digit string read as `whole.frac`. */
  lemma PointReading(w: string, f: string)
    requires AllDigits(w) && AllDigits(f) && w != []
    ensures forall k :: 0 <= k < |w + "." + f| ==> IsDigitOrPoint((w + "." + f)[k])
    ensures ParseFloatDigits(w + "." + f) == Some(DecimalReal(DigitsValue(w), DigitsValue(f), |f|))
  {
    PointChars(w, f);
    var t := w + "." + f;
    RunOver(w, "." + f, IsDigitChar);
    assert t == w + ("." + f);
    assert t[..|w|] == w;
    assert t[|w| + 1..] == f + [];
    RunOver(f, [], IsDigitChar);
    assert f[..|f|] == f;
  }

  /** Printing `n` with a decimal fraction `f` and reading it back gives `n.f`. */
  lemma DecimalFraction(n: nat, f: string)
    requires AllDigits(f)
    ensures ParseFloatDigits(Decimal(n) + "." + f) == Some(DecimalReal(n, DigitsValue(f), |f|))
  {
    PointReading(Decimal(n), f);
    DecimalValue(n);
  }

  /** Printing `n` and reading it back gives `n`, for both readers. */
  lemma DecimalParses(n: nat)
    ensures ParseFloatDigits(Decimal(n)) == Some(n as real)
    ensures ParseIntDigits(Decimal(n)) == Some(n)
  {
    var d := Decimal(n);
    assert d == d + [];
    RunOver(d, [], IsDigitChar);
    assert d[..|d|] == d;
    DecimalValue(n);
  }
}
