/** The ipat odds list importer (`oddsParser.ts`): a bet type named anywhere in the text, and
    one odds entry per line that starts with horse numbers followed by the odds. */
module OddsParser {
  import opened Wrappers
  import opened Seqs
  import opened KeibaTypes
  import opened NumberKeys
  import opened JsText
  import opened JsNumbers
  import opened NumberChain
  import opened BetKeywords

  /** One `{ key, value }` of the parsed odds: the combination key and its odds. */
  datatype OddsEntry = OddsEntry(key: string, value: real)

  datatype ParsedOdds = ParsedOdds(betType: Option<BetType>, odds: seq<OddsEntry>)

  /** Where a line pattern matched: the end of the horse-number group (which starts the line)
      and the start and end of the odds group. */
  datatype OddsMatch = OddsMatch(keyEnd: nat, valueStart: nat, valueEnd: nat)

  // ---------------------------------------------------------------- the odds group

  /** `[\d,]+\.?\d*` at the start of `t`, taken greedily, and its length; nothing follows it
      in either pattern, so no shorter match is ever tried. */
  function OddsNumberLength(t: string): (n: nat)
    requires t != [] && IsDigitOrComma(t[0])
    ensures 0 < n <= |t|
  {
    var a := Run(t, IsDigitOrComma);
    if a < |t| && t[a] == '.' then a + 1 + Run(t[a + 1..], IsDigitChar) else a
  }

  /** The odds group consists of digits, commas and points. */
  lemma OddsNumberChars(t: string)
    requires t != [] && IsDigitOrComma(t[0])
    ensures forall k :: 0 <= k < OddsNumberLength(t) ==> IsOddsChar(t[k])
  {
    var a := Run(t, IsDigitOrComma);
    RunAll(t, IsDigitOrComma);
    if a < |t| && t[a] == '.' {
      RunAll(t[a + 1..], IsDigitChar);
      assert forall k :: a + 1 <= k < OddsNumberLength(t) ==> t[k] == t[a + 1..][k - a - 1];
    }
  }

  /** `parseFloat(g.replace(/,/g, ''))`; `None` is `NaN`. */
  function OddsValue(g: string): Option<real>
    requires forall k :: 0 <= k < |g| ==> IsOddsChar(g[k])
  {
    RemoveCommasAlphabet(g);
    ParseFloatDigits(RemoveCommas(g))
  }

  /** The text of the odds group of a match. */
  function OddsGroup(line: string, m: OddsMatch): (g: string)
    requires m.valueStart < m.valueEnd <= |line| && IsDigitOrComma(line[m.valueStart])
    requires m.valueEnd - m.valueStart == OddsNumberLength(line[m.valueStart..])
    ensures forall k :: 0 <= k < |g| ==> IsOddsChar(g[k])
  {
    var t := line[m.valueStart..];
    OddsNumberChars(t);
    t[..m.valueEnd - m.valueStart]
  }

  /** The odds group found at `v` in `line`: where it ends. */
  function ValueMatch(line: string, keyEnd: nat, v: nat): (m: OddsMatch)
    requires 0 < keyEnd < v < |line| && IsDigitOrComma(line[v])
    ensures WellFormedMatch(line, m) && m.keyEnd == keyEnd && m.valueStart == v
  {
    OddsMatch(keyEnd, v, v + OddsNumberLength(line[v..]))
  }

  predicate WellFormedMatch(line: string, m: OddsMatch) {
    0 < m.keyEnd < m.valueStart < m.valueEnd <= |line| && IsDigitOrComma(line[m.valueStart])
    && m.valueEnd - m.valueStart == OddsNumberLength(line[m.valueStart..])
  }

  // ---------------------------------------------------------------- pattern 1

  /** `^(\d+(?:\s*[-→＝]\s*\d+)*)\s+([\d,]+\.?\d*)`: the greedy chain, a maximal whitespace
      run of at least one character, and the odds group. A shorter whitespace run would leave
      whitespace where the odds group has to start. */
  function ChainPattern(line: string): (r: Option<OddsMatch>)
    ensures r.Some? ==> WellFormedMatch(line, r.value)
  {
    match ChainAt(line)
    case None => None
    case Some(e) =>
      var rest := line[e..];
      var w := Run(rest, IsSpace);
      if 0 < w < |rest| && IsDigitOrComma(rest[w]) then Some(ValueMatch(line, e, e + w))
      else None
  }

  /** The key of pattern 1: group 1 with each separator and its whitespace replaced by `-`. */
  function ChainKey(line: string, m: OddsMatch): string
    requires m.keyEnd <= |line|
  {
    ReplaceSeparators(line[..m.keyEnd])
  }

  // ---------------------------------------------------------------- the tab pattern

  /** One `\t\d+` repetition at the start of `t`, and its length. */
  function TabLinkAt(t: string): (r: Option<nat>)
    ensures r.Some? ==> 1 < r.value <= |t|
  {
    if |t| >= 2 && t[0] == '\t' && IsDigitChar(t[1]) then Some(1 + Run(t[1..], IsDigitChar))
    else None
  }

  /** A tab followed by a digit or a comma at `i`: where `\t([\d,]+…)` can continue. */
  predicate TabStart(t: string, i: nat) {
    i + 1 < |t| && t[i] == '\t' && IsDigitOrComma(t[i + 1])
  }

  /** The end of group 1 of `^(\d+(?:\t\d+)*)\t([\d,]+\.?\d*)`, relative to `t`, the text right
      after the digits taken so far: the repetitions `(?:\t\d+)*` are taken greedily and, when
      no tab and odds follow the last of them, given back one at a time. Giving back one is
      always enough, because the repetition given back starts with a tab and a digit. `None`
      means that nothing at or after the start of `t` works. */
  function TabGroupEnd(t: string): (r: Option<nat>)
    ensures r.Some? ==> TabStart(t, r.value)
    decreases |t|
  {
    match TabLinkAt(t)
    case Some(n) =>
      var deeper := TabGroupEnd(t[n..]);
      if deeper.Some? then Some(n + deeper.value) else Some(0)
    case None => if TabStart(t, 0) then Some(0) else None
  }

  /** The tab pattern, anchored at the start of the line. */
  function TabPattern(line: string): (r: Option<OddsMatch>)
    ensures r.Some? ==> WellFormedMatch(line, r.value)
  {
    if line != [] && IsDigitChar(line[0]) then
      var e := Run(line, IsDigitChar);
      var g := TabGroupEnd(line[e..]);
      if g.Some? then Some(ValueMatch(line, e + g.value, e + g.value + 1)) else None
    else None
  }

  /** `tabMatch[1].split('\t').join('-')`. */
  function TabKey(line: string, m: OddsMatch): string
    requires m.keyEnd <= |line|
  {
    Join(Split(line[..m.keyEnd], '\t'), "-")
  }

  // ---------------------------------------------------------------- one line

  /** The entry a match yields: none when the odds read as `NaN`. */
  function EntryOf(key: string, line: string, m: OddsMatch): Option<OddsEntry>
    requires WellFormedMatch(line, m)
  {
    match OddsValue(OddsGroup(line, m))
    case Some(v) => Some(OddsEntry(key, v))
    case None => None
  }

  /** One line as `parseOddsText` reads it: pattern 1 first, and the tab pattern only when
      pattern 1 does not match. */
  function OddsLineAsWritten(line: string): Option<OddsEntry> {
    match ChainPattern(line)
    case Some(m) => EntryOf(ChainKey(line, m), line, m)
    case None =>
      match TabPattern(line)
      case Some(m) => EntryOf(TabKey(line, m), line, m)
      case None => None
  }

  /** One line with the tab pattern tried first, so that a tab-separated combination keeps all
      its horse numbers. */
  function OddsLine(line: string): Option<OddsEntry> {
    match TabPattern(line)
    case Some(m) => EntryOf(TabKey(line, m), line, m)
    case None =>
      match ChainPattern(line)
      case Some(m) => EntryOf(ChainKey(line, m), line, m)
      case None => None
  }

  // ---------------------------------------------------------------- the whole text

  /** The values `f` gives, in order: the lines that produce an entry. */
  function Collect<A, B>(s: seq<A>, f: A -> Option<B>): (r: seq<B>)
    ensures |r| <= |s|
    ensures forall k :: 0 <= k < |r| ==> exists i :: 0 <= i < |s| && f(s[i]) == Some(r[k])
  {
    if s == [] then []
    else
      var rest := Collect(s[1..], f);
      assert forall k :: 0 <= k < |rest| ==> exists i :: 0 <= i < |s| && f(s[i]) == Some(rest[k]) by {
        forall k | 0 <= k < |rest| ensures exists i :: 0 <= i < |s| && f(s[i]) == Some(rest[k]) {
          var i :| 0 <= i < |s[1..]| && f(s[1..][i]) == Some(rest[k]);
          assert f(s[i + 1]) == Some(rest[k]);
        }
      }
      match f(s[0])
      case Some(b) => [b] + rest
      case None => rest
  }

  /** Collecting over two pieces collects each piece in turn. */
  lemma {:induction false} CollectAppend<A, B>(a: seq<A>, b: seq<A>, f: A -> Option<B>)
    ensures Collect(a + b, f) == Collect(a, f) + Collect(b, f)
  {
    if a == [] {
      assert a + b == b;
    } else {
      assert (a + b)[0] == a[0] && (a + b)[1..] == a[1..] + b;
      CollectAppend(a[1..], b, f);
    }
  }

  /** Every element that produces a value is collected, after exactly the values of the
      elements before it. */
  lemma CollectAt<A, B>(s: seq<A>, f: A -> Option<B>, i: int)
    requires 0 <= i < |s| && f(s[i]).Some?
    ensures |Collect(s[..i], f)| < |Collect(s, f)|
    ensures Collect(s, f)[|Collect(s[..i], f)|] == f(s[i]).value
  {
    assert s == s[..i] + s[i..];
    CollectAppend(s[..i], s[i..], f);
  }

  /** `parseOddsText`: the bet type of the last line naming one, and the entries of the lines,
      in order, each line read as `OddsLineAsWritten` reads it. */
  function ParseOddsText(text: string): (r: ParsedOdds)
    ensures r.betType.None? <==> forall i :: 0 <= i < |Lines(text)| ==> LineBetType(Lines(text)[i]).None?
    ensures forall k :: 0 <= k < |r.odds| ==> exists i :: 0 <= i < |Lines(text)| && OddsLineAsWritten(Lines(text)[i]) == Some(r.odds[k])
  {
    var lines := Lines(text);
    ParsedOdds(DetectBetType(lines), Collect(lines, OddsLineAsWritten))
  }

  /** Every line that gives an entry has it in the result, after the entries of the lines
      before it: nothing is dropped and the order of the text is kept. */
  lemma ParseOddsTextComplete(text: string, i: int)
    requires 0 <= i < |Lines(text)| && OddsLineAsWritten(Lines(text)[i]).Some?
    ensures var n := |Collect(Lines(text)[..i], OddsLineAsWritten)|;
      n < |ParseOddsText(text).odds| && ParseOddsText(text).odds[n] == OddsLineAsWritten(Lines(text)[i]).value
  {
    CollectAt(Lines(text), OddsLineAsWritten, i);
  }

  /** The same reading with the tab pattern tried first (`OddsLine`), so that tab-separated
      combinations keep all their horse numbers. */
  function ParseOddsTextCorrected(text: string): (r: ParsedOdds)
    ensures r.betType == ParseOddsText(text).betType
    ensures forall k :: 0 <= k < |r.odds| ==> exists i :: 0 <= i < |Lines(text)| && OddsLine(Lines(text)[i]) == Some(r.odds[k])
  {
    var lines := Lines(text);
    ParsedOdds(DetectBetType(lines), Collect(lines, OddsLine))
  }

  /** The corrected reading keeps every entry, in the order of the text. */
  lemma ParseOddsTextCorrectedComplete(text: string, i: int)
    requires 0 <= i < |Lines(text)| && OddsLine(Lines(text)[i]).Some?
    ensures var n := |Collect(Lines(text)[..i], OddsLine)|;
      n < |ParseOddsTextCorrected(text).odds| && ParseOddsTextCorrected(text).odds[n] == OddsLine(Lines(text)[i]).value
  {
    CollectAt(Lines(text), OddsLine, i);
  }

  /** `oddsToMap`: each key mapped to its odds, a later entry overwriting an earlier one. */
  function OddsToMap(odds: seq<OddsEntry>): map<string, real> {
    if odds == [] then map[]
    else
      var n := |odds| - 1;
      OddsToMap(odds[..n])[odds[n].key := odds[n].value]
  }
}
