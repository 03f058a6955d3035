/** The JavaScript string operations the ipat importers rely on: `\s` and `trim`, `split`,
    `join`, `includes`, and the line preparation they all share. Characters are Unicode scalar
    values; JavaScript's UTF-16 code units are not modelled. */
module JsText {
  import opened Seqs

  /** ECMAScript WhiteSpace and LineTerminator code points: what `\s` matches and `trim` removes. */
  predicate IsSpace(c: char) {
    c == '\t' || c == '\n' || c == '\U{B}' || c == '\U{C}' || c == '\r' || c == ' '
    || c == '\U{A0}' || c == '\U{1680}' || ('\U{2000}' <= c <= '\U{200A}') || c == '\U{2028}'
    || c == '\U{2029}' || c == '\U{202F}' || c == '\U{205F}' || c == '\U{3000}' || c == '\U{FEFF}'
  }

  /** The characters `.` does not match: the line terminators. */
  predicate IsLineTerminator(c: char) {
    c == '\n' || c == '\r' || c == '\U{2028}' || c == '\U{2029}'
  }

  /** The length of the longest prefix of `t` whose characters satisfy `p`: how far a greedy
      `p*` runs from the start of `t`. */
  function Run(t: string, p: char -> bool): (n: nat)
    ensures n <= |t|
    ensures n == |t| || !p(t[n])
  {
    if t != [] && p(t[0]) then 1 + Run(t[1..], p) else 0
  }

  /** Every character of the run satisfies `p`. */
  lemma {:induction false} RunAll(t: string, p: char -> bool)
    ensures forall k :: 0 <= k < Run(t, p) ==> p(t[k])
  {
    if t != [] && p(t[0]) {
      RunAll(t[1..], p);
      assert forall k :: 1 <= k < Run(t, p) ==> t[k] == t[1..][k - 1];
    }
  }

  /** A greedy run stops exactly where `p` first fails. */
  lemma {:induction false} RunOver(a: string, b: string, p: char -> bool)
    requires forall k :: 0 <= k < |a| ==> p(a[k])
    requires b == [] || !p(b[0])
    ensures Run(a + b, p) == |a|
  {
    if a != [] {
      assert (a + b)[1..] == a[1..] + b;
      RunOver(a[1..], b, p);
    } else {
      assert a + b == b;
    }
  }

  // ---------------------------------------------------------------- trim

  /** `trimStart`: the suffix that starts at the first non-space character. */
  function TrimStart(s: string): (r: string)
    ensures |r| <= |s| && r == s[|s| - |r|..]
    ensures forall k :: 0 <= k < |s| - |r| ==> IsSpace(s[k])
    ensures r == [] || !IsSpace(r[0])
  {
    if s != [] && IsSpace(s[0]) then TrimStart(s[1..]) else s
  }

  /** `trimEnd`: the prefix that ends at the last non-space character. */
  function TrimEnd(s: string): (r: string)
    ensures |r| <= |s| && r == s[..|r|]
    ensures forall k :: |r| <= k < |s| ==> IsSpace(s[k])
    ensures r == [] || !IsSpace(r[|r| - 1])
  {
    if s != [] && IsSpace(s[|s| - 1]) then TrimEnd(s[..|s| - 1]) else s
  }

  /** `trim`: the text between the leading and the trailing whitespace. */
  function Trim(s: string): (r: string)
    ensures |r| <= |s|
    ensures r == [] || (!IsSpace(r[0]) && !IsSpace(r[|r| - 1]))
    ensures forall c :: c in r ==> c in s
  {
    var t := TrimStart(s);
    var r := TrimEnd(t);
    assert forall c :: c in r ==> c in t;
    r
  }

  /** Trimming a string with no surrounding whitespace leaves it as it is. */
  lemma TrimIdempotent(s: string)
    ensures Trim(Trim(s)) == Trim(s)
  {
    var r := Trim(s);
    if r != [] {
      assert TrimStart(r) == r;
      assert TrimEnd(r) == r;
    }
  }

  // ---------------------------------------------------------------- split and join

  /** The index of the first `c` in `s`, or `|s|` when there is none. */
  function IndexOf(s: string, c: char): (i: nat)
    ensures i <= |s|
    ensures c !in s[..i]
    ensures i < |s| ==> s[i] == c
  {
    if s == [] then 0
    else if s[0] == c then 0
    else
      var i := 1 + IndexOf(s[1..], c);
      assert s[..i] == [s[0]] + s[1..][..i - 1];
      i
  }

  /** `s.split(c)`: the pieces between the occurrences of `c`; `""` splits to `[""]`. */
  function Split(s: string, c: char): (parts: seq<string>)
    ensures |parts| >= 1
    ensures forall k :: 0 <= k < |parts| ==> c !in parts[k]
    decreases |s|
  {
    var i := IndexOf(s, c);
    if i == |s| then
      assert s[..i] == s;
      [s]
    else [s[..i]] + Split(s[i + 1..], c)
  }

  /** `parts.join(sep)`. */
  function Join(parts: seq<string>, sep: string): string {
    if parts == [] then ""
    else if |parts| == 1 then parts[0]
    else parts[0] + sep + Join(parts[1..], sep)
  }

  /** Splitting and joining with the same character give the text back. */
  lemma {:induction false} SplitJoin(s: string, c: char)
    ensures Join(Split(s, c), [c]) == s
    decreases |s|
  {
    var i := IndexOf(s, c);
    if i < |s| {
      var rest := Split(s[i + 1..], c);
      SplitJoin(s[i + 1..], c);
      assert Split(s, c) == [s[..i]] + rest;
      assert ([s[..i]] + rest)[1..] == rest;
      assert s == s[..i] + [c] + s[i + 1..];
    }
  }

  /** The first `c` in `p + [c] + rest` is the one after `p`, when `p` has none. */
  lemma {:induction false} IndexOfAfter(p: string, c: char, rest: string)
    requires c !in p
    ensures IndexOf(p + [c] + rest, c) == |p|
    decreases |p|
  {
    var s := p + [c] + rest;
    if p == [] {
      assert s[0] == c;
    } else {
      assert s[0] == p[0];
      assert s[1..] == p[1..] + [c] + rest;
      IndexOfAfter(p[1..], c, rest);
    }
  }

  /** Splitting at a first piece without `c` peels that piece off. */
  lemma SplitCons(p: string, c: char, rest: string)
    requires c !in p
    ensures Split(p + [c] + rest, c) == [p] + Split(rest, c)
  {
    var s := p + [c] + rest;
    IndexOfAfter(p, c, rest);
    assert s[..|p|] == p;
    assert s[|p| + 1..] == rest;
  }

  /** Regrouping a concatenation, as a step the solver is handed rather than left to find. */
  lemma Assoc(x: string, y: string, z: string)
    ensures x + y + z == x + (y + z)
  {
  }

  /** A text without `c` splits into itself alone. */
  lemma SplitWhole(p: string, c: char)
    requires c !in p
    ensures Split(p, c) == [p]
  {
    IndexOfAbsent(p, c);
    assert p[..|p|] == p;
  }

  /** A text without `c` has no first `c`. */
  lemma {:induction false} IndexOfAbsent(p: string, c: char)
    requires c !in p
    ensures IndexOf(p, c) == |p|
  {
    if p != [] {
      assert p[0] in p;
      assert forall x :: x in p[1..] ==> x in p;
      IndexOfAbsent(p[1..], c);
    }
  }

  /** Joining pieces after a first one puts the separator after it. */
  lemma JoinCons(p: string, parts: seq<string>, sep: string)
    requires parts != []
    ensures Join([p] + parts, sep) == p + sep + Join(parts, sep)
  {
    assert ([p] + parts)[1..] == parts;
  }

  // ---------------------------------------------------------------- includes

  /** `s.includes(k)`. */
  predicate Includes(s: string, k: string) {
    exists i :: 0 <= i <= |s| - |k| && OccursAt(s, k, i)
  }

  /** `k` occurs in `s` starting at index `i`. */
  predicate OccursAt(s: string, k: string, i: int) {
    0 <= i <= |s| - |k| && s[i..i + |k|] == k
  }

  // ---------------------------------------------------------------- the importers' lines

  function TrimAll(parts: seq<string>): (r: seq<string>)
    ensures |r| == |parts|
    ensures forall k :: 0 <= k < |r| ==> r[k] == Trim(parts[k])
  {
    seq(|parts|, k requires 0 <= k < |parts| => Trim(parts[k]))
  }

  predicate NonEmpty(l: string) {
    |l| > 0
  }

  /** A line of the importers' input: non-empty, trimmed, and free of line feeds. */
  predicate IsLine(l: string) {
    |l| > 0 && !IsSpace(l[0]) && !IsSpace(l[|l| - 1]) && '\n' !in l
  }

  /** `text.trim().split('\n').map(l => l.trim()).filter(l => l.length > 0)`. */
  function Lines(text: string): (lines: seq<string>)
    ensures forall k :: 0 <= k < |lines| ==> IsLine(lines[k])
  {
    var pieces := Split(Trim(text), '\n');
    var trimmed := TrimAll(pieces);
    var lines := Filter(trimmed, NonEmpty);
    forall k | 0 <= k < |lines| ensures IsLine(lines[k]) {
      FilterMember(trimmed, NonEmpty, lines[k]);
      var j :| 0 <= j < |trimmed| && trimmed[j] == lines[k];
      assert '\n' !in pieces[j];
    }
    lines
  }

  /** Worked case: surrounding whitespace is trimmed away. */
  lemma TrimScenario()
    ensures Trim(" b ") == "b"
  {
    assert TrimStart(" b ") == "b " by {
      assert " b "[1..] == "b ";
    }
    assert TrimEnd("b ") == "b" by {
      assert "b "[..1] == "b";
    }
  }
}
