/** The ipat purchase history importer (`historyParser.ts`): a race line sets the current race,
    a line naming a bet type sets the current bet type, and each bet line read once a bet type
    is known becomes one record with its combination and its amount. */
module HistoryParser {
  import opened Wrappers
  import opened KeibaTypes
  import opened NumberKeys
  import opened JsText
  import opened JsNumbers
  import opened NumberChain
  import opened BetKeywords
  import opened RaceLines

  /** One `IpatHistoryData`: the race label, the bet type, the line's one combination key, and
      the amount (`None` is `NaN`). */
  datatype HistoryRecord = HistoryRecord(raceName: string, betType: BetType, selections: seq<string>, amount: Option<int>)

  /** Where the bet pattern matched, counted from the start of the match: group 1 (the horse
      numbers) ends at `chainEnd`, and group 2 (the amount) runs from `amountStart` to
      `amountEnd`. */
  datatype BetMatch = BetMatch(chainEnd: nat, amountStart: nat, amountEnd: nat)

  /** `t` is the text from the start of the match on. */
  predicate WellFormedBet(t: string, m: BetMatch) {
    0 < m.chainEnd < m.amountStart < m.amountEnd <= |t|
    && forall k :: m.amountStart <= k < m.amountEnd ==> IsDigitOrComma(t[k])
  }

  // ---------------------------------------------------------------- the bet pattern

  /** The amount group `[\d,]+` and the `\s*円` after it, at the start of `u`: the length of the
      group when `円` follows. */
  function AmountAt(u: string): (r: Option<nat>)
    ensures r.Some? ==> 0 < r.value < |u| && forall k :: 0 <= k < r.value ==> IsDigitOrComma(u[k])
  {
    if u == [] || !IsDigitOrComma(u[0]) then None
    else
      var c := Run(u, IsDigitOrComma);
      var s := Run(u[c..], IsSpace);
      RunAll(u, IsDigitOrComma);
      if c + s < |u| && u[c + s] == '円' then Some(c) else None
  }

  /** `(\d+(?:\s*[-→＝]\s*\d+)*)\s+([\d,]+)\s*円` at the start of `t`. Every quantifier is
      taken greedily and none is ever given back: giving any of them back leaves a digit, a
      comma, a separator or whitespace where the next part of the pattern cannot begin. */
  function BetFrom(t: string): (r: Option<BetMatch>)
    ensures r.Some? ==> WellFormedBet(t, r.value)
  {
    match ChainAt(t)
    case None => None
    case Some(e) => AfterChain(t, e)
  }

  /** The rest of the bet pattern, after the chain that ends at `e`: a whitespace run of at
      least one character, then the amount. */
  function AfterChain(t: string, e: nat): (r: Option<BetMatch>)
    requires 0 < e <= |t|
    ensures r.Some? ==> WellFormedBet(t, r.value) && r.value.chainEnd == e
  {
    AfterGap(t, e, Run(t[e..], IsSpace))
  }

  /** The amount after the chain that ends at `e` and `w` characters of whitespace. */
  function AfterGap(t: string, e: nat, w: nat): (r: Option<BetMatch>)
    requires 0 < e && e + w <= |t|
    ensures r.Some? ==> WellFormedBet(t, r.value) && r.value.chainEnd == e
  {
    if w == 0 || AmountAt(t[e + w..]).None? then None
    else
      AmountShift(t, e + w, AmountAt(t[e + w..]).value);
      Some(BetMatch(e, e + w, e + w + AmountAt(t[e + w..]).value))
  }

  /** The amount group found in the text from `a` on stands at `a` in the whole text. */
  lemma AmountShift(t: string, a: nat, c: nat)
    requires a <= |t| && AmountAt(t[a..]).Some? && AmountAt(t[a..]).value == c
    ensures a + c <= |t| && forall k :: a <= k < a + c ==> IsDigitOrComma(t[k])
  {
    assert forall k :: a <= k < a + c ==> t[k] == t[a..][k - a];
  }

  /** `line.match(...)` from `i` on: the first start where the pattern matches, and the match. */
  function BetSearch(line: string, i: nat): (r: Option<(nat, BetMatch)>)
    ensures r.Some? ==> i <= r.value.0 <= |line| && WellFormedBet(line[r.value.0..], r.value.1)
    ensures r.Some? ==> forall j :: i <= j < r.value.0 ==> BetFrom(line[j..]).None?
    decreases |line| - i
  {
    if i >= |line| then None
    else
      match BetFrom(line[i..])
      case Some(m) => Some((i, m))
      case None => BetSearch(line, i + 1)
  }

  function BetLine(line: string): Option<(nat, BetMatch)> {
    BetSearch(line, 0)
  }

  /** `parseInt(g.replace(/,/g, ''), 10)`: `NaN` exactly when the group holds only commas. */
  function Amount(g: string): (r: Option<int>)
    requires forall k :: 0 <= k < |g| ==> IsDigitOrComma(g[k])
    ensures r.None? <==> forall k :: 0 <= k < |g| ==> g[k] == ','
  {
    RemoveCommasDigits(g);
    RemoveCommasEmpty(g);
    ParseIntDigits(RemoveCommas(g))
  }

  /** The record of a bet matched at the start of `t`: group 1 with its separators replaced by
      `-`, and the amount. */
  function RecordOf(race: string, b: BetType, t: string, m: BetMatch): HistoryRecord
    requires WellFormedBet(t, m)
  {
    var g := t[m.amountStart..m.amountEnd];
    assert forall k :: 0 <= k < |g| ==> g[k] == t[m.amountStart + k];
    HistoryRecord(race, b, [ReplaceSeparators(t[..m.chainEnd])], Amount(g))
  }

  // ---------------------------------------------------------------- the loop

  /** `currentRace`, `currentBetType` and `results`. */
  datatype HistoryState = HistoryState(race: string, betType: Option<BetType>, records: seq<HistoryRecord>)

  /** The race label a line sets, when it is a race line. */
  function RaceName(line: string): Option<string> {
    match RaceLine(line, AsWritten)
    case Some(m) => Some(RaceLabel(m))
    case None => None
  }

  /** The bet type a line sets: a race line ends its iteration before the keyword loop. */
  function NamedBetType(line: string): Option<BetType> {
    if RaceLine(line, AsWritten).Some? then None else LineBetType(line)
  }

  /** One iteration of the loop. */
  function Step(s: HistoryState, line: string): HistoryState {
    match RaceLine(line, AsWritten)
    case Some(m) => s.(race := RaceLabel(m))
    case None =>
      var b := if LineBetType(line).Some? then LineBetType(line) else s.betType;
      match BetLine(line)
      case Some((i, bm)) =>
        if b.Some? then HistoryState(s.race, b, s.records + [RecordOf(s.race, b.value, line[i..], bm)])
        else s.(betType := b)
      case None => s.(betType := b)
  }

  /** One iteration sets the race a race line names and the bet type a line names, and adds
      at most one record. */
  lemma StepState(s: HistoryState, line: string)
    ensures Step(s, line).race == if RaceName(line).Some? then RaceName(line).value else s.race
    ensures Step(s, line).betType == if NamedBetType(line).Some? then NamedBetType(line) else s.betType
    ensures |s.records| <= |Step(s, line).records| <= |s.records| + 1
  {
  }

  /** The loop over `lines`: the current race is the label of the last race line, or `''`, and
      the current bet type is the one the last line naming one named. */
  function History(lines: seq<string>): (s: HistoryState)
    ensures s.race == LastGiven(lines, RaceName).GetOr("")
    ensures s.betType == LastGiven(lines, NamedBetType)
    ensures |s.records| <= |lines|
  {
    if lines == [] then HistoryState("", None, [])
    else
      var n := |lines| - 1;
      var s := History(lines[..n]);
      LastGivenSnoc(lines, RaceName);
      LastGivenSnoc(lines, NamedBetType);
      StepState(s, lines[n]);
      Step(s, lines[n])
  }

  // ---------------------------------------------------------------- records line by line

  /** The record a line yields, judged from the lines before it alone: a bet line that is no race
      line yields one once some line up to it has named a bet type, under the race the last
      race line before it named. */
  function RecordAt(before: seq<string>, line: string): Option<HistoryRecord> {
    var b := LastGiven(before + [line], NamedBetType);
    match BetLine(line)
    case Some((i, m)) =>
      if RaceLine(line, AsWritten).None? && b.Some? then
        Some(RecordOf(LastGiven(before, RaceName).GetOr(""), b.value, line[i..], m))
      else None
    case None => None
  }

  /** The records of the lines, each line on its own. */
  function Recorded(lines: seq<string>): seq<HistoryRecord> {
    if lines == [] then []
    else
      var n := |lines| - 1;
      Recorded(lines[..n]) + match RecordAt(lines[..n], lines[n]) case Some(r) => [r] case None => []
  }

  /** Given the race and bet type the lines before it left, one iteration adds the line's
      record. */
  lemma StepRecords(s: HistoryState, before: seq<string>, line: string)
    requires s.race == LastGiven(before, RaceName).GetOr("")
    requires s.betType == LastGiven(before, NamedBetType)
    ensures Step(s, line).records == s.records + match RecordAt(before, line) case Some(r) => [r] case None => []
  {
    LastGivenAppend(before, line, NamedBetType);
    if RaceLine(line, AsWritten).Some? {
      assert NamedBetType(line).None?;
    }
  }

  /** The loop's records are the records of the lines, in order: each bet line yields one with
      the race and bet type in force at that line, and no other line yields any. */
  lemma {:induction false} HistoryRecords(lines: seq<string>)
    ensures History(lines).records == Recorded(lines)
  {
    if lines != [] {
      var n := |lines| - 1;
      HistoryRecords(lines[..n]);
      StepRecords(History(lines[..n]), lines[..n], lines[n]);
    }
  }

  /** `parseHistoryText`: one record per bet line met once a bet type has been named, in the
      order of the text, each under the race and bet type in force at its line. */
  function ParseHistoryText(text: string): (r: seq<HistoryRecord>)
    ensures r == Recorded(Lines(text))
    ensures |r| <= |Lines(text)|
  {
    HistoryRecords(Lines(text));
    History(Lines(text)).records
  }

  /** No record is made before a bet type has been named. */
  lemma {:induction false} NoBetTypeNoRecords(lines: seq<string>)
    requires forall i :: 0 <= i < |lines| ==> NamedBetType(lines[i]).None?
    ensures History(lines).records == []
  {
    if lines != [] {
      var n := |lines| - 1;
      NoBetTypeNoRecords(lines[..n]);
    }
  }

  // ---------------------------------------------------------------- written-out bet lines

  /** A bet line written out: the horse numbers with their separators, whitespace, the amount,
      optional whitespace and `円`. */
  function BetText(h0: nat, ls: seq<Link>, gap: string, amount: nat, sp: string): string {
    ChainText(h0, ls) + (gap + (Decimal(amount) + (sp + "円")))
  }

  /** The amount group takes the whole amount, and `円` follows. */
  lemma AmountText(d: string, sp: string)
    requires d != [] && AllDigits(d) && AllSpace(sp)
    ensures AmountAt(d + (sp + "円")).Some? && AmountAt(d + (sp + "円")).value == |d|
  {
    var u := d + (sp + "円");
    assert u[0] == d[0];
    assert sp + "円" == [] || !IsDigitOrComma((sp + "円")[0]);
    RunOver(d, sp + "円", IsDigitOrComma);
    assert u[|d|..] == sp + "円";
    RunOver(sp, "円", IsSpace);
  }

  /** The whitespace before the amount: the chain cannot go on into it, and it runs to the
      amount. */
  lemma GapThenAmount(gap: string, a: string)
    requires Gap(gap) && a != [] && IsDigitChar(a[0])
    ensures var r := gap + a;
      NoDigitFirst(r) && LinkAt(r).None? && Run(r, IsSpace) == |gap| && r[|gap|..] == a
  {
    var r := gap + a;
    SpaceNotSeparator(a[0]);
    SpaceNotSeparator(gap[0]);
    RunOver(gap, a, IsSpace);
    assert r[|gap|..] == a;
    assert r[|gap|] == a[0];
  }

  /** The bet pattern at the start of a line whose chain ends at `e` and is followed by `r`,
      whose whitespace run has `w` characters and is followed by `u`, and whose amount group
      at the start of `u` has `n` characters. */
  lemma BetFromText(line: string, e: nat, w: nat, n: nat, r: string, u: string)
    requires ChainAt(line).Some? && ChainAt(line).value == e
    requires e <= |line| && line[e..] == r && 0 < w <= |r| && Run(r, IsSpace) == w && r[w..] == u
    requires AmountAt(u).Some? && AmountAt(u).value == n
    ensures BetFrom(line).Some? && BetFrom(line).value == BetMatch(e, e + w, e + w + n)
  {
    assert line[e + w..] == u;
    AfterGapAmount(line, e, w, n, u);
  }

  /** The amount group of `n` characters that starts `u`, right after the whitespace. */
  lemma AfterGapAmount(line: string, e: nat, w: nat, n: nat, u: string)
    requires 0 < e && 0 < w && e + w <= |line| && line[e + w..] == u
    requires AmountAt(u).Some? && AmountAt(u).value == n
    ensures AfterGap(line, e, w).Some? && AfterGap(line, e, w).value == BetMatch(e, e + w, e + w + n)
  {
  }

  /** A match at the start of the line is where the search stops. */
  lemma BetAtStart(line: string)
    requires BetFrom(line).Some?
    ensures BetLine(line).Some? && BetLine(line).value == (0, BetFrom(line).value)
  {
    assert line[0..] == line;
  }

  /** A written-out bet line is read back as its horse numbers joined by `-` and its amount. */
  lemma BetRoundTrip(h0: nat, ls: seq<Link>, gap: string, amount: nat, sp: string, race: string, b: BetType)
    requires AllWellSpelled(ls) && Gap(gap) && AllSpace(sp)
    ensures BetLine(BetText(h0, ls, gap, amount, sp)).Some?
    ensures BetLine(BetText(h0, ls, gap, amount, sp)).value.0 == 0
    ensures WellFormedBet(BetText(h0, ls, gap, amount, sp), BetLine(BetText(h0, ls, gap, amount, sp)).value.1)
    ensures RecordOf(race, b, BetText(h0, ls, gap, amount, sp), BetLine(BetText(h0, ls, gap, amount, sp)).value.1).raceName == race
    ensures RecordOf(race, b, BetText(h0, ls, gap, amount, sp), BetLine(BetText(h0, ls, gap, amount, sp)).value.1).betType == b
    ensures RecordOf(race, b, BetText(h0, ls, gap, amount, sp), BetLine(BetText(h0, ls, gap, amount, sp)).value.1).selections
      == [JoinKey([h0] + Horses(ls))]
    ensures RecordOf(race, b, BetText(h0, ls, gap, amount, sp), BetLine(BetText(h0, ls, gap, amount, sp)).value.1).amount
      == Some(amount)
  {
    var c, d := ChainText(h0, ls), Decimal(amount);
    BetMatchText(h0, ls, c, gap, d, sp);
    BetRecordChain(c, gap, d, sp + "円", race, b);
    BetRecordAmount(c, gap, d, sp + "円", race, b);
    ReplaceChain(h0, ls);
    DecimalParses(amount);
  }

  /** The bet pattern matches a written-out bet line `c + (gap + (d + yen))` at its start, around
      its parts. */
  lemma BetMatchText(h0: nat, ls: seq<Link>, c: string, gap: string, d: string, sp: string)
    requires AllWellSpelled(ls) && c == ChainText(h0, ls) && Gap(gap) && AllSpace(sp) && d != [] && AllDigits(d)
    ensures BetLine(c + (gap + (d + (sp + "円")))).Some?
    ensures BetLine(c + (gap + (d + (sp + "円")))).value.0 == 0
    ensures BetLine(c + (gap + (d + (sp + "円")))).value.1 == BetMatch(|c|, |c| + |gap|, |c| + |gap| + |d|)
  {
    BetFromLine(h0, ls, c, gap, d, sp);
    BetAtStart(c + (gap + (d + (sp + "円"))));
  }

  /** The bet pattern read from the start of a written-out bet line. */
  lemma BetFromLine(h0: nat, ls: seq<Link>, c: string, gap: string, d: string, sp: string)
    requires AllWellSpelled(ls) && c == ChainText(h0, ls) && Gap(gap) && AllSpace(sp) && d != [] && AllDigits(d)
    ensures BetFrom(c + (gap + (d + (sp + "円")))).Some?
    ensures BetFrom(c + (gap + (d + (sp + "円")))).value == BetMatch(|c|, |c| + |gap|, |c| + |gap| + |d|)
  {
    var u := d + (sp + "円");
    GapThenAmount(gap, u);
    ChainAtText(h0, ls, gap + u);
    Suffix(c, gap + u);
    AmountText(d, sp);
    BetFromText(c + (gap + u), |c|, |gap|, |d|, gap + u, u);
  }

  /** What follows a prefix. */
  lemma Suffix(c: string, r: string)
    ensures (c + r)[|c|..] == r
  {
  }

  /** The record of a match around a chain `c`: the race, the bet type and the chain with its
      separators replaced. */
  lemma BetRecordChain(c: string, gap: string, d: string, yen: string, race: string, b: BetType)
    requires AllDigits(d) && d != [] && c != [] && gap != []
    ensures WellFormedBet(c + (gap + (d + yen)), BetMatch(|c|, |c| + |gap|, |c| + |gap| + |d|))
    ensures RecordOf(race, b, c + (gap + (d + yen)), BetMatch(|c|, |c| + |gap|, |c| + |gap| + |d|)).raceName == race
    ensures RecordOf(race, b, c + (gap + (d + yen)), BetMatch(|c|, |c| + |gap|, |c| + |gap| + |d|)).betType == b
    ensures RecordOf(race, b, c + (gap + (d + yen)), BetMatch(|c|, |c| + |gap|, |c| + |gap| + |d|)).selections
      == [ReplaceSeparators(c)]
  {
    BetShape(c, gap, d, yen);
    RecordChain(race, b, c + (gap + (d + yen)), BetMatch(|c|, |c| + |gap|, |c| + |gap| + |d|), c);
  }

  /** The amount of a match around an amount `d` without commas: `d` read as a number. */
  lemma BetRecordAmount(c: string, gap: string, d: string, yen: string, race: string, b: BetType)
    requires AllDigits(d) && d != [] && c != [] && gap != []
    ensures WellFormedBet(c + (gap + (d + yen)), BetMatch(|c|, |c| + |gap|, |c| + |gap| + |d|))
    ensures RecordOf(race, b, c + (gap + (d + yen)), BetMatch(|c|, |c| + |gap|, |c| + |gap| + |d|)).amount
      == ParseIntDigits(d)
  {
    BetShape(c, gap, d, yen);
    RecordAmount(race, b, c + (gap + (d + yen)), BetMatch(|c|, |c| + |gap|, |c| + |gap| + |d|), d);
  }

  /** A written-out bet line is well formed around its chain `c` and its amount `d`. */
  lemma BetShape(c: string, gap: string, d: string, yen: string)
    requires AllDigits(d) && d != [] && c != [] && gap != []
    ensures WellFormedBet(c + (gap + (d + yen)), BetMatch(|c|, |c| + |gap|, |c| + |gap| + |d|))
    ensures (c + (gap + (d + yen)))[..|c|] == c
    ensures (c + (gap + (d + yen)))[|c| + |gap|..|c| + |gap| + |d|] == d
  {
    BetLineParts(c, gap, d, yen);
    DigitsWithin(c + (gap + (d + yen)), |c| + |gap|, |c| + |gap| + |d|, d);
  }

  /** A stretch of `t` that spells digits consists of digits. */
  lemma DigitsWithin(t: string, i: nat, j: nat, d: string)
    requires i <= j <= |t| && t[i..j] == d && AllDigits(d)
    ensures forall k :: i <= k < j ==> IsDigitOrComma(t[k])
  {
    assert forall k :: i <= k < j ==> t[k] == d[k - i];
  }

  /** A record carries the race and the bet type it is made with, and group 1 `c` with its
      separators replaced. */
  lemma RecordChain(race: string, b: BetType, t: string, m: BetMatch, c: string)
    requires WellFormedBet(t, m) && t[..m.chainEnd] == c
    ensures RecordOf(race, b, t, m).raceName == race && RecordOf(race, b, t, m).betType == b
    ensures RecordOf(race, b, t, m).selections == [ReplaceSeparators(c)]
  {
  }

  /** An amount group of digits alone is read as those digits. */
  lemma RecordAmount(race: string, b: BetType, t: string, m: BetMatch, d: string)
    requires WellFormedBet(t, m) && t[m.amountStart..m.amountEnd] == d && AllDigits(d)
    ensures RecordOf(race, b, t, m).amount == ParseIntDigits(d)
  {
    assert ',' !in d by {
      assert forall n :: 0 <= n < |d| ==> d[n] != ',';
    }
    NoCommas(d);
  }

  /** Where the parts of a written-out bet line stand. */
  lemma BetLineParts(c: string, gap: string, d: string, yen: string)
    ensures var line := c + (gap + (d + yen));
      line[..|c|] == c && line[|c|..] == gap + (d + yen) && line[|c| + |gap|..] == d + yen
      && line[|c| + |gap|..|c| + |gap| + |d|] == d
  {
  }
}
