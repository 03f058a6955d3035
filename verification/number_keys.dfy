/** The string keys the formation generator deduplicates by: JavaScript's `String(n)` for an
    integer horse number, and `Array.prototype.join('-')` over a tuple. */
module NumberKeys {

  function DigitChar(d: int): char
    requires 0 <= d < 10
  {
    ('0' as int + d) as char
  }

  predicate IsDigitChar(c: char) {
    '0' <= c <= '9'
  }

  /** The decimal digits of `n`, most significant first, without leading zeros. */
  function Decimal(n: nat): (s: string)
    ensures |s| >= 1
    ensures forall i :: 0 <= i < |s| ==> IsDigitChar(s[i])
  {
    if n < 10 then [DigitChar(n)] else Decimal(n / 10) + [DigitChar(n % 10)]
  }

  /** `String(n)` for an integer: an optional minus sign, then the decimal digits. */
  function NumberToString(n: int): (s: string)
    ensures |s| >= 1
    ensures forall i :: 1 <= i < |s| ==> s[i] != '-'
  {
    if n < 0 then "-" + Decimal(-n) else Decimal(n)
  }

  /** `t.join('-')`: the numbers' strings with a `-` between neighbours. */
  function JoinKey(t: seq<int>): string {
    if |t| == 0 then ""
    else if |t| == 1 then NumberToString(t[0])
    else NumberToString(t[0]) + "-" + JoinKey(t[1..])
  }

  /** The template key `${a}-${b}` (and `${a}-${b}-${c}`) of the ordered bet types. */
  function TemplateKey(t: seq<int>): string
    requires 2 <= |t| <= 3
  {
    if |t| == 2 then NumberToString(t[0]) + "-" + NumberToString(t[1])
    else NumberToString(t[0]) + "-" + NumberToString(t[1]) + "-" + NumberToString(t[2])
  }

  // ---------------------------------------------------------------- injectivity

  lemma DigitCharInjective(a: int, b: int)
    requires 0 <= a < 10 && 0 <= b < 10 && DigitChar(a) == DigitChar(b)
    ensures a == b
  {
  }

  /** Different numbers print differently. */
  lemma {:induction false} DecimalInjective(m: nat, n: nat)
    requires Decimal(m) == Decimal(n)
    ensures m == n
  {
    if m < 10 && n < 10 {
      DigitCharInjective(m, n);
    } else if m >= 10 && n >= 10 {
      var dm, dn := Decimal(m), Decimal(n);
      assert dm[|dm| - 1] == DigitChar(m % 10) && dn[|dn| - 1] == DigitChar(n % 10);
      DigitCharInjective(m % 10, n % 10);
      assert Decimal(m / 10) == dm[..|dm| - 1] == dn[..|dn| - 1] == Decimal(n / 10);
      DecimalInjective(m / 10, n / 10);
    } else if m >= 10 {
      DecimalLength(m);
    } else {
      DecimalLength(n);
    }
  }

  lemma NumberToStringInjective(m: int, n: int)
    requires NumberToString(m) == NumberToString(n)
    ensures m == n
  {
    if m < 0 && n < 0 {
      assert Decimal(-m) == NumberToString(m)[1..] == NumberToString(n)[1..] == Decimal(-n);
      DecimalInjective(-m, -n);
    } else if m >= 0 && n >= 0 {
      DecimalInjective(m, n);
    } else {
      SignChar(m);
      SignChar(n);
    }
  }

  lemma DecimalLength(n: nat)
    requires n >= 10
    ensures |Decimal(n)| >= 2
  {
    assert |Decimal(n)| == |Decimal(n / 10)| + 1;
  }

  /** A printed integer starts with `-` exactly when it is negative. */
  lemma SignChar(n: int)
    ensures NumberToString(n)[0] == '-' <==> n < 0
  {
    if n >= 0 {
      assert IsDigitChar(Decimal(n)[0]);
    }
  }

  lemma SeparatorAt(a: string, r: string)
    ensures (a + "-" + r)[|a|] == '-'
  {
  }

  /** A key that is one number's string followed by a separator splits back uniquely: the
      separator is the first `-` after the first character. */
  lemma SplitAtSeparator(a: string, b: string, r1: string, r2: string)
    requires |a| >= 1 && |b| >= 1
    requires forall i :: 1 <= i < |a| ==> a[i] != '-'
    requires forall i :: 1 <= i < |b| ==> b[i] != '-'
    requires a + "-" + r1 == b + "-" + r2
    ensures a == b && r1 == r2
  {
    var u, v := a + "-" + r1, b + "-" + r2;
    if |a| < |b| {
      SeparatorAt(a, r1);
    } else if |b| < |a| {
      SeparatorAt(b, r2);
    } else {
      assert a == u[..|a|] == v[..|b|] == b;
      assert r1 == u[|a| + 1..] == v[|b| + 1..] == r2;
    }
  }

  /** A joined key without a separator past its first character is a single number. */
  lemma JoinKeyShape(t: seq<int>)
    requires |t| >= 2
    ensures JoinKey(t)[|NumberToString(t[0])|] == '-'
  {
  }

  /** `join('-')` over integers never maps two different tuples to one key, whatever their
      lengths, because a printed integer has no `-` after its first character. */
  lemma {:induction false} JoinKeyInjective(s: seq<int>, t: seq<int>)
    requires JoinKey(s) == JoinKey(t)
    ensures s == t
  {
    if |s| == 0 || |t| == 0 {
    } else if |s| == 1 && |t| == 1 {
      NumberToStringInjective(s[0], t[0]);
    } else if |s| == 1 {
      JoinKeyShape(t);
    } else if |t| == 1 {
      JoinKeyShape(s);
    } else {
      SplitAtSeparator(NumberToString(s[0]), NumberToString(t[0]), JoinKey(s[1..]), JoinKey(t[1..]));
      NumberToStringInjective(s[0], t[0]);
      JoinKeyInjective(s[1..], t[1..]);
      assert s == [s[0]] + s[1..] && t == [t[0]] + t[1..];
    }
  }

  /** The template keys of the ordered bet types are the joined keys. */
  lemma TemplateIsJoin(t: seq<int>)
    requires 2 <= |t| <= 3
    ensures TemplateKey(t) == JoinKey(t)
  {
    if |t| == 3 {
      assert t[1..][1..] == [t[2]];
      assert JoinKey(t[1..]) == NumberToString(t[1]) + "-" + NumberToString(t[2]);
    } else {
      assert JoinKey(t[1..]) == NumberToString(t[1]);
    }
  }

  /** Worked cases of the keys the formation generator builds. */
  lemma KeyScenarios()
    ensures JoinKey([1, 12]) == "1-12"
    ensures JoinKey([3, 10, 7]) == "3-10-7"
    ensures NumberToString(-4) == "-4"
  {
    assert Decimal(12) == Decimal(1) + [DigitChar(2)];
    assert Decimal(10) == Decimal(1) + [DigitChar(0)];
  }
}
