/** What the odds importer makes of the lines it is meant for, and the one kind of line it
    misreads. */
module OddsProperties {
  import opened Wrappers
  import opened Seqs
  import opened NumberKeys
  import opened JsText
  import opened JsNumbers
  import opened NumberChain
  import opened OddsParser

  // ---------------------------------------------------------------- odds text

  /** Odds written as a whole number, a point and decimal digits. */
  function OddsText(a: nat, f: string): string {
    Decimal(a) + "." + f
  }

  lemma DecimalChars(a: nat)
    ensures forall k :: 0 <= k < |Decimal(a)| ==> IsDigitOrComma(Decimal(a)[k])
  {
  }

  /** Written-out odds are taken whole by the odds group. */
  lemma OddsTextLength(a: nat, f: string)
    requires AllDigits(f)
    ensures OddsNumberLength(OddsText(a, f)) == |OddsText(a, f)|
  {
    var d, t := Decimal(a), OddsText(a, f);
    var pf := "." + f;
    assert t == d + pf;
    DecimalChars(a);
    assert pf[0] == '.';
    RunOver(d, pf, IsDigitOrComma);
    assert t[|d|] == '.';
    assert t[|d| + 1..] == f + [];
    RunOver(f, [], IsDigitChar);
  }

  /** Written-out odds consist of digits and one point. */
  lemma OddsTextChars(a: nat, f: string)
    requires AllDigits(f)
    ensures forall k :: 0 <= k < |OddsText(a, f)| ==> IsDigitOrPoint(OddsText(a, f)[k]) && IsOddsChar(OddsText(a, f)[k])
    ensures ',' !in OddsText(a, f)
  {
    PointReading(Decimal(a), f);
  }

  /** Written-out odds are read back whole, as the number they spell. */
  lemma OddsTextReads(a: nat, f: string)
    requires AllDigits(f)
    ensures OddsNumberLength(OddsText(a, f)) == |OddsText(a, f)|
    ensures forall k :: 0 <= k < |OddsText(a, f)| ==> IsOddsChar(OddsText(a, f)[k])
    ensures OddsValue(OddsText(a, f)) == Some(DecimalReal(a, DigitsValue(f), |f|))
  {
    OddsTextLength(a, f);
    OddsTextChars(a, f);
    NoCommas(OddsText(a, f));
    DecimalFraction(a, f);
  }

  /** A match whose odds group starts at `v`, in a line that ends with odds written out there,
      reads those odds. */
  lemma EntryOfText(key: string, line: string, m: OddsMatch, a: nat, f: string)
    requires AllDigits(f) && WellFormedMatch(line, m) && line[m.valueStart..] == OddsText(a, f)
    ensures EntryOf(key, line, m).Some?
    ensures EntryOf(key, line, m).value == OddsEntry(key, DecimalReal(a, DigitsValue(f), |f|))
  {
    OddsTextReads(a, f);
    assert OddsGroup(line, m) == OddsText(a, f);
  }

  // ---------------------------------------------------------------- the tab pattern

  /** The tab pattern matches only where a tab and a digit or a comma follow the first number. */
  lemma TabGroupStart(t: string)
    requires TabGroupEnd(t).Some?
    ensures TabStart(t, 0)
  {
  }

  /** A tab and a digit or a comma right after the first number end the chain there. */
  lemma TabEndsChain(t: string)
    requires TabStart(t, 0)
    ensures Run(t, IsSpace) == 1 && LinkAt(t).None? && LinksFrom(t) == 0
  {
    assert !IsSpace(t[1]) && !IsSeparator(t[1]);
    assert Run(t[1..], IsSpace) == 0;
  }

  /** A line whose first number is followed by a tab and a digit or a comma has that number
      alone as its chain. */
  lemma ChainIsFirstNumber(line: string)
    requires line != [] && IsDigitChar(line[0])
    requires TabStart(line[Run(line, IsDigitChar)..], 0)
    ensures ChainAt(line).Some? && ChainAt(line).value == Run(line, IsDigitChar)
  {
    TabEndsChain(line[Run(line, IsDigitChar)..]);
  }

  /** Pattern 1 on a line whose chain ends at `e`, followed by one space character and a digit
      or a comma: the key ends at `e` and the odds start right after the space. */
  lemma ChainPatternAfter(line: string, e: nat)
    requires ChainAt(line).Some? && ChainAt(line).value == e && e < |line|
    requires Run(line[e..], IsSpace) == 1 && 1 < |line[e..]| && IsDigitOrComma(line[e..][1])
    ensures ChainPattern(line).Some?
    ensures ChainPattern(line).value.keyEnd == e && ChainPattern(line).value.valueStart == e + 1
  {
  }

  /** A line whose first number is followed by a tab and a digit or a comma matches pattern 1
      with that number alone as the key and the number after the tab as the odds. */
  lemma ChainAfterTab(line: string)
    requires line != [] && IsDigitChar(line[0])
    requires TabStart(line[Run(line, IsDigitChar)..], 0)
    ensures 0 < Run(line, IsDigitChar) < |line| - 1
    ensures IsDigitOrComma(line[Run(line, IsDigitChar) + 1])
    ensures ChainPattern(line).Some?
    ensures ChainPattern(line).value.keyEnd == Run(line, IsDigitChar)
    ensures ChainPattern(line).value.valueStart == Run(line, IsDigitChar) + 1
  {
    var e := Run(line, IsDigitChar);
    var t := line[e..];
    TabEndsChain(t);
    ChainIsFirstNumber(line);
    assert t[1] == line[e + 1];
    ChainPatternAfter(line, e);
  }

  /** Wherever the tab pattern matches, pattern 1 matches as well, taking only the first number
      as the key and the number after the first tab as the odds. */
  lemma TabImpliesChain(line: string)
    requires TabPattern(line).Some?
    ensures 0 < Run(line, IsDigitChar) < |line| - 1
    ensures IsDigitOrComma(line[Run(line, IsDigitChar) + 1])
    ensures ChainPattern(line).Some?
    ensures ChainPattern(line).value.keyEnd == Run(line, IsDigitChar)
    ensures ChainPattern(line).value.valueStart == Run(line, IsDigitChar) + 1
  {
    var e := Run(line, IsDigitChar);
    var g := TabGroupEnd(line[e..]);
    assert g.Some?;
    TabGroupStart(line[e..]);
    ChainAfterTab(line);
  }

  /** The key pattern 1 gives a line of digits is the digits themselves. */
  lemma DigitsKey(line: string, m: OddsMatch)
    requires m.keyEnd <= Run(line, IsDigitChar)
    ensures ChainKey(line, m) == line[..m.keyEnd]
  {
    var d := line[..m.keyEnd];
    RunAll(line, IsDigitChar);
    ReplaceDigits(d, []);
    assert d + [] == d;
  }

  /** The tab branch of the importer never runs: a line the tab pattern matches is read with
      its first number alone as the key and the number after the first tab as the odds. */
  lemma TabBranchUnreachable(line: string)
    requires TabPattern(line).Some?
    ensures var e := Run(line, IsDigitChar);
      0 < e < |line| && OddsLineAsWritten(line) == EntryOf(line[..e], line, ValueMatch(line, e, e + 1))
  {
    var e := Run(line, IsDigitChar);
    TabImpliesChain(line);
    var m := ChainPattern(line).value;
    assert m == ValueMatch(line, e, e + 1);
    DigitsKey(line, m);
  }

  /** Horse numbers separated by tabs. */
  function TabLinks(ts: seq<nat>): string {
    if ts == [] then "" else "\t" + Decimal(ts[0]) + TabLinks(ts[1..])
  }

  function TabText(h0: nat, ts: seq<nat>): string {
    Decimal(h0) + TabLinks(ts)
  }

  /** One `\t\d+` repetition is a tab and the whole number after it. */
  lemma TabLinkText(d: string, more: string)
    requires d != [] && AllDigits(d)
    requires more == [] || !IsDigitChar(more[0])
    ensures TabLinkAt("\t" + d + more).Some? && TabLinkAt("\t" + d + more).value == 1 + |d|
    ensures ("\t" + d + more)[1 + |d|..] == more
  {
    var t := "\t" + d + more;
    assert t[1..] == d + more;
    RunOver(d, more, IsDigitChar);
  }

  /** Neither a repetition nor the odds start where no tab does. */
  lemma TabGroupStop(rest: string)
    requires rest == [] || rest[0] != '\t'
    ensures TabGroupEnd(rest).None?
  {
  }

  /** The repetition at the start of `t` is taken, and the group goes on in `more` after it or
      the repetition is given back. */
  lemma TabGroupStep(t: string, n: nat, more: string)
    requires TabLinkAt(t).Some? && TabLinkAt(t).value == n && t[n..] == more
    ensures TabGroupEnd(t).Some?
    ensures TabGroupEnd(more).Some? ==> TabGroupEnd(t).value == n + TabGroupEnd(more).value
    ensures TabGroupEnd(more).None? ==> TabGroupEnd(t).value == 0
  {
  }

  /** The tab and the odds alone: the group ends before the tab. */
  lemma TabGroupEndOdds(a: nat, rest: string)
    requires rest == [] || (!IsDigitChar(rest[0]) && rest[0] != '\t')
    ensures TabGroupEnd("\t" + Decimal(a) + rest).Some?
    ensures TabGroupEnd("\t" + Decimal(a) + rest).value == 0
  {
    TabGroupStop(rest);
    TabLinkText(Decimal(a), rest);
    TabGroupStep("\t" + Decimal(a) + rest, 1 + |Decimal(a)|, rest);
  }

  /** Tab-separated numbers, and whatever follows them, start with a tab. */
  lemma TabLinksHead(ts: seq<nat>, odds: string)
    requires odds != [] && odds[0] == '\t'
    ensures (TabLinks(ts) + odds)[0] == '\t'
  {
    if ts != [] {
      var t := TabLinks(ts);
      assert t == "\t" + Decimal(ts[0]) + TabLinks(ts[1..]);
      assert (t + odds)[0] == t[0];
    } else {
      assert TabLinks(ts) + odds == odds;
    }
  }

  /** The links of a nonempty tab text: the first number, then the rest. */
  lemma TabLinksCons(ts: seq<nat>, odds: string)
    requires ts != []
    ensures TabLinks(ts) + odds == "\t" + Decimal(ts[0]) + (TabLinks(ts[1..]) + odds)
  {
  }

  /** After the first number, the tab pattern takes every tab-separated number but the odds. */
  lemma {:induction false} TabGroupEndText(ts: seq<nat>, a: nat, rest: string)
    requires rest == [] || (!IsDigitChar(rest[0]) && rest[0] != '\t')
    ensures TabGroupEnd(TabLinks(ts) + ("\t" + Decimal(a) + rest)).Some?
    ensures TabGroupEnd(TabLinks(ts) + ("\t" + Decimal(a) + rest)).value == |TabLinks(ts)|
    decreases |ts|
  {
    var odds := "\t" + Decimal(a) + rest;
    if ts == [] {
      assert TabLinks(ts) + odds == odds;
      TabGroupEndOdds(a, rest);
    } else {
      var more := TabLinks(ts[1..]) + odds;
      var d := Decimal(ts[0]);
      TabLinksCons(ts, odds);
      TabLinksHead(ts[1..], odds);
      TabGroupEndText(ts[1..], a, rest);
      TabLinkText(d, more);
      TabGroupStep(TabLinks(ts) + odds, 1 + |d|, more);
    }
  }

  /** A tab text with more than one number is its first number, a tab, and the rest. */
  lemma TabTextCons(h0: nat, ts: seq<nat>)
    requires ts != []
    ensures TabText(h0, ts) == Decimal(h0) + ['\t'] + TabText(ts[0], ts[1..])
  {
  }

  lemma NoTabInDecimal(h: nat)
    ensures '\t' !in Decimal(h)
  {
    var d := Decimal(h);
    assert forall k :: 0 <= k < |d| ==> d[k] != '\t';
  }

  /** Splitting tab-separated numbers at the tabs and joining them with `-` gives their key. */
  lemma {:induction false} TabKeyText(h0: nat, ts: seq<nat>)
    ensures Join(Split(TabText(h0, ts), '\t'), "-") == JoinKey([h0] + ts)
    decreases |ts|
  {
    var d := Decimal(h0);
    NoTabInDecimal(h0);
    if ts == [] {
      assert TabText(h0, ts) == d;
      SplitWhole(d, '\t');
      assert [h0] + ts == [h0];
    } else {
      TabKeyCons(h0, ts);
    }
  }

  /** The induction step of `TabKeyText`. */
  lemma {:induction false} TabKeyCons(h0: nat, ts: seq<nat>)
    requires ts != []
    ensures Join(Split(TabText(h0, ts), '\t'), "-") == JoinKey([h0] + ts)
    decreases |ts|, 0
  {
    var d := Decimal(h0);
    var rest := TabText(ts[0], ts[1..]);
    NoTabInDecimal(h0);
    TabTextCons(h0, ts);
    SplitCons(d, '\t', rest);
    TabKeyText(ts[0], ts[1..]);
    assert [ts[0]] + ts[1..] == ts;
    JoinCons(d, Split(rest, '\t'), "-");
    JoinKeyCons(h0, ts);
  }

  /** A tab odds line: the first number, then the tabbed numbers and the odds. */
  function TabLine(h0: nat, ts: seq<nat>, a: nat, f: string): string {
    TabText(h0, ts) + "\t" + OddsText(a, f)
  }

  /** The key part and the odds part of a tab odds line. */
  lemma TabLineParts(h0: nat, ts: seq<nat>, a: nat, f: string)
    ensures var line, g := TabLine(h0, ts, a, f), |TabText(h0, ts)|;
      line[..g] == TabText(h0, ts) && line[g] == '\t' && line[g + 1..] == OddsText(a, f)
  {
    var p, q := TabText(h0, ts), "\t" + OddsText(a, f);
    assert TabLine(h0, ts, a, f) == p + q;
    assert (p + q)[..|p|] == p;
    assert (p + q)[|p|..] == q;
    assert q[1..] == OddsText(a, f);
  }

  /** A tab odds line is its first number followed by the text the tab pattern goes on with. */
  lemma TabLineStart(h0: nat, ts: seq<nat>, a: nat, f: string)
    ensures TabLine(h0, ts, a, f) == Decimal(h0) + (TabLinks(ts) + ("\t" + Decimal(a) + ("." + f)))
    ensures |TabText(h0, ts)| == |Decimal(h0)| + |TabLinks(ts)|
  {
    Regroup(Decimal(h0), TabLinks(ts), Decimal(a), f);
  }

  lemma Regroup(d: string, l: string, x: string, f: string)
    ensures d + l + "\t" + (x + "." + f) == d + (l + ("\t" + x + ("." + f)))
  {
  }

  /** The first number of a line is the whole digit run at its start. */
  lemma FirstNumber(d: string, u: string)
    requires d != [] && AllDigits(d) && u != [] && !IsDigitChar(u[0])
    ensures (d + u)[0] == d[0] && Run(d + u, IsDigitChar) == |d| && (d + u)[|d|..] == u
  {
    RunOver(d, u, IsDigitChar);
  }

  /** The tab pattern on a first number followed by a text where the group ends at `g`. */
  lemma TabPatternAt(d: string, u: string, g: nat)
    requires d != [] && AllDigits(d) && u != [] && u[0] == '\t'
    requires TabGroupEnd(u).Some? && TabGroupEnd(u).value == g
    ensures 0 < |d| + g < |d + u| - 1 && IsDigitOrComma((d + u)[|d| + g + 1])
    ensures TabPattern(d + u).Some? && TabPattern(d + u).value == ValueMatch(d + u, |d| + g, |d| + g + 1)
  {
    var line := d + u;
    FirstNumber(d, u);
    assert line[|d| + g + 1] == u[g + 1];
    assert line[0] == d[0];
    assert TabGroupEnd(line[Run(line, IsDigitChar)..]) == TabGroupEnd(u);
  }

  /** The tab pattern takes all the tabbed numbers of a tab odds line as the key. */
  lemma TabPatternText(h0: nat, ts: seq<nat>, a: nat, f: string)
    ensures var line, g := TabLine(h0, ts, a, f), |TabText(h0, ts)|;
      0 < g < |line| - 1 && IsDigitOrComma(line[g + 1])
      && TabPattern(line).Some? && TabPattern(line).value == ValueMatch(line, g, g + 1)
  {
    var odds := "\t" + Decimal(a) + ("." + f);
    var u := TabLinks(ts) + odds;
    TabLineStart(h0, ts, a, f);
    assert odds[0] == '\t';
    TabLinksHead(ts, odds);
    TabGroupEndText(ts, a, "." + f);
    TabPatternAt(Decimal(h0), u, |TabLinks(ts)|);
  }

  /** A line the tab pattern splits at `g` is read as the key before and the odds after. */
  lemma TabEntryAt(line: string, g: nat, key: string, a: nat, f: string)
    requires AllDigits(f)
    requires 0 < g < |line| - 1 && IsDigitOrComma(line[g + 1])
    requires TabPattern(line).Some? && TabPattern(line).value == ValueMatch(line, g, g + 1)
    requires Join(Split(line[..g], '\t'), "-") == key && line[g + 1..] == OddsText(a, f)
    ensures OddsLine(line).Some?
    ensures OddsLine(line).value == OddsEntry(key, DecimalReal(a, DigitsValue(f), |f|))
  {
    var m := ValueMatch(line, g, g + 1);
    EntryOfText(key, line, m, a, f);
  }

  /** A line of tab-separated horse numbers, a tab and odds is read as the combination key of
      all the numbers and those odds, once the tab pattern is tried first. */
  lemma TabRoundTrip(h0: nat, ts: seq<nat>, a: nat, f: string)
    requires AllDigits(f)
    ensures OddsLine(TabLine(h0, ts, a, f)).Some?
    ensures OddsLine(TabLine(h0, ts, a, f)).value == OddsEntry(JoinKey([h0] + ts), DecimalReal(a, DigitsValue(f), |f|))
  {
    TabPatternText(h0, ts, a, f);
    TabLineParts(h0, ts, a, f);
    TabKeyText(h0, ts);
    TabEntryAt(TabLine(h0, ts, a, f), |TabText(h0, ts)|, JoinKey([h0] + ts), a, f);
  }

  // ---------------------------------------------------------------- pattern 1 lines

  /** A pattern 1 odds line: horse numbers with their separators, whitespace, and odds. */
  function ChainLine(h0: nat, ls: seq<Link>, gap: string, a: nat, f: string): string {
    ChainText(h0, ls) + gap + OddsText(a, f)
  }

  /** Whitespace and odds: the chain cannot go on into them, and the whitespace run ends at the
      odds. */
  lemma GapThenOdds(gap: string, a: nat, f: string)
    requires Gap(gap)
    ensures var r := gap + OddsText(a, f);
      NoDigitFirst(r) && LinkAt(r).None? && Run(r, IsSpace) == |gap| && r[|gap|..] == OddsText(a, f)
      && IsDigitChar(r[|gap|]) && |gap| < |r|
  {
    var o := OddsText(a, f);
    var r := gap + o;
    assert o[0] == Decimal(a)[0];
    SpaceNotSeparator(o[0]);
    SpaceNotSeparator(gap[0]);
    RunOver(gap, o, IsSpace);
    assert r[|gap|..] == o;
    assert r[|gap|] == o[0];
  }

  /** Pattern 1 on a chain `c` followed by `r`, whose whitespace run `w` ends at the odds. */
  lemma ChainPatternAt(c: string, r: string, w: nat)
    requires ChainAt(c + r).Some? && ChainAt(c + r).value == |c|
    requires Run(r, IsSpace) == w && 0 < w < |r| && IsDigitOrComma(r[w])
    ensures 0 < |c| && |c| + w < |c + r| && IsDigitOrComma((c + r)[|c| + w])
    ensures ChainPattern(c + r).Some? && ChainPattern(c + r).value == ValueMatch(c + r, |c|, |c| + w)
  {
    assert (c + r)[|c|..] == r;
    assert (c + r)[|c| + w] == r[w];
  }

  /** Pattern 1 reads a written-out chain and its odds to their ends. */
  lemma ChainPatternText(h0: nat, ls: seq<Link>, gap: string, a: nat, f: string)
    requires AllWellSpelled(ls) && Gap(gap)
    ensures var line, e := ChainLine(h0, ls, gap, a, f), |ChainText(h0, ls)|;
      0 < e < e + |gap| < |line| && IsDigitOrComma(line[e + |gap|])
      && ChainPattern(line).Some? && ChainPattern(line).value == ValueMatch(line, e, e + |gap|)
  {
    var c, r := ChainText(h0, ls), gap + OddsText(a, f);
    Assoc(c, gap, OddsText(a, f));
    GapThenOdds(gap, a, f);
    ChainAtText(h0, ls, r);
    ChainPatternAt(c, r, |gap|);
  }

  /** The chain part and the odds part of a pattern 1 odds line. */
  lemma ChainLineParts(h0: nat, ls: seq<Link>, gap: string, a: nat, f: string)
    ensures var line, e := ChainLine(h0, ls, gap, a, f), |ChainText(h0, ls)|;
      line[..e] == ChainText(h0, ls) && line[e + |gap|..] == OddsText(a, f)
  {
    var c, o := ChainText(h0, ls), OddsText(a, f);
    assert ChainLine(h0, ls, gap, a, f) == c + (gap + o);
    assert (c + (gap + o))[..|c|] == c;
    assert (c + (gap + o))[|c| + |gap|..] == o;
  }

  /** A line pattern 1 splits at `e` and `v` is read as the key before and the odds after. */
  lemma ChainEntryAt(line: string, e: nat, v: nat, key: string, a: nat, f: string)
    requires AllDigits(f)
    requires 0 < e < v < |line| && IsDigitOrComma(line[v])
    requires ChainPattern(line).Some? && ChainPattern(line).value == ValueMatch(line, e, v)
    requires ReplaceSeparators(line[..e]) == key && line[v..] == OddsText(a, f)
    ensures OddsLineAsWritten(line).Some?
    ensures OddsLineAsWritten(line).value == OddsEntry(key, DecimalReal(a, DigitsValue(f), |f|))
    ensures TabPattern(line).None? ==> OddsLine(line) == OddsLineAsWritten(line)
  {
    EntryOfText(key, line, ValueMatch(line, e, v), a, f);
  }

  /** The tab pattern does not match a first number followed by a text that does not go on
      with a tab and a digit or a comma. */
  lemma TabPatternNoneAt(d: string, t: string)
    requires d != [] && AllDigits(d) && t != [] && !IsDigitChar(t[0])
    requires t[0] != '\t' || |t| < 2 || !IsDigitOrComma(t[1])
    ensures TabPattern(d + t).None?
  {
    FirstNumber(d, t);
  }

  /** After a first number, a repetition starts without a digit, and not with a tab and a
      digit. */
  lemma LinkStartNoTab(before: string, sep: char, rest: string)
    requires AllSpace(before) && IsSeparator(sep)
    ensures var t := before + [sep] + rest;
      !IsDigitChar(t[0]) && (t[0] != '\t' || !IsDigitOrComma(t[1]))
  {
    var t := before + [sep] + rest;
    SpaceNotSeparator(sep);
    if before == [] {
      assert t[0] == sep;
    } else {
      assert t[0] == before[0];
      SpaceNotSeparator(before[0]);
      if |before| >= 2 {
        assert t[1] == before[1];
        SpaceNotSeparator(before[1]);
      } else {
        assert t[1] == sep;
      }
    }
  }

  /** After a lone first number, whitespace other than one tab starts without a tab and a
      digit. */
  lemma GapStartNoTab(gap: string, rest: string)
    requires Gap(gap) && gap != "\t"
    ensures var t := gap + rest;
      !IsDigitChar(t[0]) && (t[0] != '\t' || !IsDigitOrComma(t[1]))
  {
    var t := gap + rest;
    assert t[0] == gap[0];
    SpaceNotSeparator(gap[0]);
    if |gap| >= 2 {
      assert t[1] == gap[1];
      SpaceNotSeparator(gap[1]);
    } else {
      assert gap == [gap[0]];
    }
  }

  /** A written-out chain with its gap starts, after its first number, without a tab and a
      digit, except for a lone number followed by a single tab. */
  lemma ChainTail(ls: seq<Link>, gap: string, a: nat, f: string)
    requires AllWellSpelled(ls) && Gap(gap) && (ls != [] || gap != "\t")
    ensures var t := LinksText(ls) + gap + OddsText(a, f);
      t != [] && !IsDigitChar(t[0]) && (t[0] != '\t' || |t| < 2 || !IsDigitOrComma(t[1]))
  {
    var o := OddsText(a, f);
    if ls == [] {
      assert LinksText(ls) + gap + o == gap + o;
      GapStartNoTab(gap, o);
    } else {
      var l := ls[0];
      var rest := l.after + Decimal(l.horse) + LinksText(ls[1..]) + gap + o;
      assert LinksText(ls) + gap + o == l.before + [l.sep] + rest;
      LinkStartNoTab(l.before, l.sep, rest);
    }
  }

  /** The tab pattern does not match a pattern 1 line, except a lone number, a single tab and
      the odds. */
  lemma ChainLineNotTab(h0: nat, ls: seq<Link>, gap: string, a: nat, f: string)
    requires AllWellSpelled(ls) && Gap(gap) && (ls != [] || gap != "\t")
    ensures TabPattern(ChainLine(h0, ls, gap, a, f)).None?
  {
    var d, t := Decimal(h0), LinksText(ls) + gap + OddsText(a, f);
    assert ChainLine(h0, ls, gap, a, f) == d + t;
    ChainTail(ls, gap, a, f);
    TabPatternNoneAt(d, t);
  }

  /** Whatever whitespace and separators a line writes its horse numbers with, and whatever
      whitespace it puts before the odds, both readings give the combination key of the horse
      numbers and the odds. */
  lemma ChainRoundTrip(h0: nat, ls: seq<Link>, gap: string, a: nat, f: string)
    requires AllWellSpelled(ls) && Gap(gap) && AllDigits(f)
    ensures var line, entry := ChainLine(h0, ls, gap, a, f),
        OddsEntry(JoinKey([h0] + Horses(ls)), DecimalReal(a, DigitsValue(f), |f|));
      OddsLineAsWritten(line).Some? && OddsLineAsWritten(line).value == entry
      && OddsLine(line).Some? && OddsLine(line).value == entry
  {
    var line, e := ChainLine(h0, ls, gap, a, f), |ChainText(h0, ls)|;
    ChainPatternText(h0, ls, gap, a, f);
    ChainLineParts(h0, ls, gap, a, f);
    ReplaceChain(h0, ls);
    ChainEntryAt(line, e, e + |gap|, JoinKey([h0] + Horses(ls)), a, f);
    if ls == [] && gap == "\t" {
      LoneNumberTab(h0, a, f);
    } else {
      ChainLineNotTab(h0, ls, gap, a, f);
    }
  }

  /** A lone number, a single tab and the odds: the tab pattern reads it as pattern 1 does. */
  lemma LoneNumberTab(h0: nat, a: nat, f: string)
    requires AllDigits(f)
    ensures var entry := OddsEntry(JoinKey([h0] + Horses([])), DecimalReal(a, DigitsValue(f), |f|));
      OddsLine(ChainLine(h0, [], "\t", a, f)).Some? && OddsLine(ChainLine(h0, [], "\t", a, f)).value == entry
  {
    assert ChainLine(h0, [], "\t", a, f) == TabLine(h0, [], a, f);
    TabRoundTrip(h0, [], a, f);
    assert [h0] + Horses([]) == [h0] + [];
  }

  // ---------------------------------------------------------------- the tab lines misread

  /** A number followed by a tab is an odds group on its own. */
  lemma NumberBeforeTab(x: string, rest: string)
    requires x != [] && AllDigits(x) && rest != [] && rest[0] == '\t'
    ensures IsDigitOrComma((x + rest)[0]) && OddsNumberLength(x + rest) == |x|
    ensures (x + rest)[..|x|] == x
  {
    RunOver(x, rest, IsDigitOrComma);
  }

  /** Odds read from a printed whole number are that number. */
  lemma EntryOfNumber(key: string, line: string, e: nat, v: nat, n: nat)
    requires 0 < e < v < |line| && IsDigitOrComma(line[v])
    requires OddsNumberLength(line[v..]) == |Decimal(n)| && line[v..][..|Decimal(n)|] == Decimal(n)
    ensures var m := ValueMatch(line, e, v);
      EntryOf(key, line, m).Some? && EntryOf(key, line, m).value == OddsEntry(key, n as real)
  {
    var d := Decimal(n);
    var m := ValueMatch(line, e, v);
    assert OddsGroup(line, m) == d;
    assert forall k :: 0 <= k < |d| ==> d[k] != ',';
    NoCommas(d);
    DecimalParses(n);
  }

  /** On a line the tab pattern matches, whose first number ends at `e` and is followed by a
      tab, a number `n` and a further tab, pattern 1 reads the first number as the key and `n`
      as the odds. */
  lemma MisreadAt(line: string, e: nat, n: nat, rest: string)
    requires TabPattern(line).Some? && Run(line, IsDigitChar) == e
    requires e < |line| && line[e + 1..] == Decimal(n) + rest && rest != [] && rest[0] == '\t'
    ensures OddsLineAsWritten(line).Some? && OddsLineAsWritten(line).value == OddsEntry(line[..e], n as real)
  {
    var x := Decimal(n);
    TabBranchUnreachable(line);
    NumberBeforeTab(x, rest);
    EntryOfNumber(line[..e], line, e, e + 1, n);
    var r := EntryOf(line[..e], line, ValueMatch(line, e, e + 1));
    assert OddsLineAsWritten(line) == r;
  }

  lemma SkipTab(d: string, v: string)
    ensures (d + ("\t" + v))[|d| + 1..] == v && (d + ("\t" + v))[..|d|] == d
  {
    assert (d + ("\t" + v))[|d|..] == "\t" + v;
  }

  /** The same, for a line given as its first number `d`, a tab, `n` and the rest. */
  lemma MisreadFirst(d: string, n: nat, rest: string)
    requires d != [] && AllDigits(d) && rest != [] && rest[0] == '\t'
    requires TabPattern(d + ("\t" + Decimal(n) + rest)).Some?
    ensures var line := d + ("\t" + Decimal(n) + rest);
      OddsLineAsWritten(line).Some? && OddsLineAsWritten(line).value == OddsEntry(d, n as real)
  {
    var u := "\t" + Decimal(n) + rest;
    FirstNumber(d, u);
    Assoc("\t", Decimal(n), rest);
    SkipTab(d, Decimal(n) + rest);
    MisreadAt(d + u, |d|, n, rest);
  }

  /** As written, the importer reads a tab odds line of two or more horse numbers with the first
      number alone as the key and the second number as the odds. */
  lemma TabLineMisread(h0: nat, t1: nat, ts: seq<nat>, a: nat, f: string)
    ensures var line := TabLine(h0, [t1] + ts, a, f);
      OddsLineAsWritten(line).Some? && OddsLineAsWritten(line).value == OddsEntry(Decimal(h0), t1 as real)
  {
    var odds := "\t" + Decimal(a) + ("." + f);
    var hs := [t1] + ts;
    assert hs[0] == t1 && hs[1..] == ts;
    TabLineStart(h0, hs, a, f);
    TabLinksCons(hs, odds);
    TabLinksHead(ts, odds);
    TabPatternText(h0, hs, a, f);
    MisreadFirst(Decimal(h0), t1, TabLinks(ts) + odds);
  }

  lemma TabScenarioLine()
    ensures TabLine(1, [2], 15, "3") == "1\t2\t15.3"
  {
    assert Decimal(15) == Decimal(1) + [DigitChar(5)];
    assert TabLinks([2]) == "\t2" by {
      assert [2][1..] == [];
    }
  }

  /** Worked case: `1\t2\t15.3` is read as odds 2 for horse 1 as written. */
  lemma TabScenarioAsWritten()
    ensures OddsLineAsWritten("1\t2\t15.3").Some? && OddsLineAsWritten("1\t2\t15.3").value == OddsEntry("1", 2.0)
  {
    TabScenarioLine();
    TabLineMisread(1, 2, [], 15, "3");
    assert [2] + [] == [2];
  }

  /** Worked case: `1\t2\t15.3` is read as odds 15.3 for the pair 1-2 with the tab pattern
      tried first. */
  lemma TabScenarioCorrected()
    ensures OddsLine("1\t2\t15.3").Some? && OddsLine("1\t2\t15.3").value == OddsEntry("1-2", 15.3)
  {
    TabScenarioLine();
    TabRoundTrip(1, [2], 15, "3");
    ScenarioFields();
  }

  lemma ScenarioFields()
    ensures JoinKey([1] + [2]) == "1-2"
    ensures DecimalReal(15, DigitsValue("3"), |"3"|) == 15.3
  {
    assert [1] + [2] == [1, 2];
    assert [1, 2][1..] == [2];
    assert DigitsValue("3") == 3 by {
      assert "3"[..0] == [];
    }
    OneDecimal(15, 3);
  }

  /** Odds with one decimal digit. */
  lemma OneDecimal(a: nat, b: nat)
    requires b < 10
    ensures DecimalReal(a, b, 1) == a as real + b as real / 10.0
  {
    assert Pow10(1) == 10;
  }

  // ---------------------------------------------------------------- the odds map

  /** The map has exactly the keys of the entries. */
  lemma {:induction false} OddsToMapKeys(odds: seq<OddsEntry>, k: string)
    ensures k in OddsToMap(odds) <==> exists i :: 0 <= i < |odds| && odds[i].key == k
    decreases |odds|
  {
    if odds != [] {
      var n := |odds| - 1;
      var front := odds[..n];
      assert OddsToMap(odds) == OddsToMap(front)[odds[n].key := odds[n].value];
      OddsToMapKeys(front, k);
      if k in OddsToMap(front) {
        var i :| 0 <= i < |front| && front[i].key == k;
        assert odds[i].key == k;
      }
      if exists i :: 0 <= i < |odds| && odds[i].key == k {
        var i :| 0 <= i < |odds| && odds[i].key == k;
        if i < n {
          assert front[i].key == k;
        }
      }
    }
  }

  /** Each key maps to the odds of its last entry: a later entry overwrites an earlier one. */
  lemma {:induction false} OddsToMapLast(odds: seq<OddsEntry>, i: nat)
    requires i < |odds|
    requires forall j :: i < j < |odds| ==> odds[j].key != odds[i].key
    ensures odds[i].key in OddsToMap(odds) && OddsToMap(odds)[odds[i].key] == odds[i].value
    decreases |odds|
  {
    var n := |odds| - 1;
    var front := odds[..n];
    assert OddsToMap(odds) == OddsToMap(front)[odds[n].key := odds[n].value];
    if i < n {
      assert front[i] == odds[i];
      assert forall j :: i < j < |front| ==> front[j] == odds[j];
      OddsToMapLast(front, i);
      assert odds[n].key != odds[i].key;
    }
  }
}
