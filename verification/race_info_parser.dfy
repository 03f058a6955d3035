/** The ipat race card importer (`raceInfoParser.ts`): the first line names the race, every line
    that reads as a horse in the card layout or in the short layout adds that horse, and the
    horses come out ordered by their numbers. */
module RaceInfoParser {
  import opened Wrappers
  import opened KeibaTypes
  import opened NumberKeys
  import opened JsText
  import opened JsNumbers
  import opened RaceLines
  import opened Sorting

  /** `IpatRaceData`. */
  datatype RaceData = RaceData(horses: seq<Horse>, raceName: Option<string>, venue: Option<string>, raceNumber: Option<int>)

  predicate NotSpace(c: char) {
    !IsSpace(c)
  }

  /** What `(\S+)` captures: a non-empty run without whitespace. */
  predicate Word(s: string) {
    s != [] && forall k :: 0 <= k < |s| ==> !IsSpace(s[k])
  }

  /** Where a greedy run of `p` that begins at `i` ends. */
  function Skip(line: string, i: nat, p: char -> bool): (j: nat)
    requires i <= |line|
    ensures i <= j <= |line|
    ensures j == |line| || !p(line[j])
  {
    i + Run(line[i..], p)
  }

  /** Every character of the run satisfies `p`. */
  lemma SkipAll(line: string, i: nat, p: char -> bool)
    requires i <= |line|
    ensures forall k :: i <= k < Skip(line, i, p) ==> p(line[k])
  {
    RunAll(line[i..], p);
    assert forall k :: i <= k < Skip(line, i, p) ==> line[k] == line[i..][k - i];
  }

  /** A run is pinned down by where `p` first fails. */
  lemma SkipTo(line: string, i: nat, q: nat, p: char -> bool)
    requires i <= q <= |line|
    requires forall k :: i <= k < q ==> p(line[k])
    requires q == |line| || !p(line[q])
    ensures Skip(line, i, p) == q
  {
    SkipAll(line, i, p);
  }

  /** The characters of a stretch of `line`, read in the stretch. */
  lemma Within(line: string, i: nat, j: nat, p: char -> bool)
    requires i <= j <= |line|
    requires forall k :: i <= k < j ==> p(line[k])
    ensures forall k :: 0 <= k < j - i ==> p(line[i..j][k])
  {
    assert forall k :: 0 <= k < j - i ==> line[i..j][k] == line[i + k];
  }

  // ---------------------------------------------------------------- the card layout

  /** What `(\d{1})\s+(\d{1,2})\s+(\S+)\s+(\S+)` captured at `start`: the frame and the horse
      number, read by `parseInt`, the name and the jockey. */
  datatype CardMatch = CardMatch(start: nat, frame: nat, number: nat, name: string, jockey: string)

  predicate WellFormedCard(m: CardMatch) {
    m.frame < 10 && m.number < 100 && Word(m.name) && Word(m.jockey)
  }

  /** A digit run of one or two characters reads below 100. */
  lemma ShortDigits(t: string)
    requires AllDigits(t) && |t| <= 2
    ensures DigitsValue(t) < 100
  {
    DigitsValueBound(t);
    assert Pow10(2) == 100;
  }

  /** The card pattern at `i`. No quantifier ever gives anything back: a shorter `\s+` leaves
      whitespace where a digit or `\S` must begin, `\d{1,2}` must be followed by whitespace so
      a longer digit run cannot match with either length, and a shorter `\S+` leaves a
      non-space character where `\s+` must begin. */
  function CardAt(line: string, i: nat): (r: Option<CardMatch>)
    ensures r.Some? ==> r.value.start == i && WellFormedCard(r.value)
  {
    if i + 1 < |line| && IsDigitChar(line[i]) && IsSpace(line[i + 1]) then
      var a := Skip(line, i + 1, IsSpace);
      var e := Skip(line, a, IsDigitChar);
      if a < e <= a + 2 && e < |line| && IsSpace(line[e]) then
        SkipAll(line, a, IsDigitChar);
        Within(line, a, e, IsDigitChar);
        ShortDigits(line[a..e]);
        CardWords(line, i, DigitsValue(line[a..e]), Skip(line, e, IsSpace))
      else None
    else None
  }

  /** The rest of the card pattern once group 2 has read `number`: `(\S+)\s+(\S+)` from `b`,
      where the whitespace after group 2 ends. */
  function CardWords(line: string, i: nat, number: nat, b: nat): (r: Option<CardMatch>)
    requires i < |line| && IsDigitChar(line[i]) && number < 100 && b <= |line|
    ensures r.Some? ==> r.value.start == i && WellFormedCard(r.value)
  {
    var c := Skip(line, b, NotSpace);
    if b < c < |line| then
      var d := Skip(line, c, IsSpace);
      var f := Skip(line, d, NotSpace);
      if d < f then
        SkipAll(line, b, NotSpace);
        SkipAll(line, d, NotSpace);
        Within(line, b, c, NotSpace);
        Within(line, d, f, NotSpace);
        Some(CardMatch(i, DigitValue(line[i]), number, line[b..c], line[d..f]))
      else None
    else None
  }

  /** The first index from `i` below `n` where `at` gives something, and what it gives. */
  function FirstFound<M>(at: nat -> Option<M>, i: nat, n: nat): (r: Option<(nat, M)>)
    decreases n - i
  {
    if i >= n then None
    else if at(i).Some? then Some((i, at(i).value))
    else FirstFound(at, i + 1, n)
  }

  /** What the search finds is found where it stops, and nothing is found before. */
  lemma {:induction false} FirstFoundFirst<M>(at: nat -> Option<M>, i: nat, n: nat)
    ensures FirstFound(at, i, n).Some? ==> (i <= FirstFound(at, i, n).value.0 < n
      && at(FirstFound(at, i, n).value.0).Some? && at(FirstFound(at, i, n).value.0).value == FirstFound(at, i, n).value.1)
    ensures FirstFound(at, i, n).Some? ==> forall j :: i <= j < FirstFound(at, i, n).value.0 ==> at(j).None?
    ensures FirstFound(at, i, n).None? ==> forall j :: i <= j < n ==> at(j).None?
    decreases n - i
  {
    if i < n && at(i).None? {
      FirstFoundFirst(at, i + 1, n);
    }
  }

  /** The card pattern at each start of `line`. */
  function CardAtIn(line: string): nat -> Option<CardMatch> {
    (j: nat) => CardAt(line, j)
  }

  /** `line.match(...)` with the card pattern: the match at the first start where there is
      one. */
  function CardLine(line: string): (r: Option<CardMatch>)
    ensures r.Some? ==> r.value.start < |line| && WellFormedCard(r.value)
  {
    FirstFoundFirst(CardAtIn(line), 0, |line|);
    match FirstFound(CardAtIn(line), 0, |line|)
    case Some((_, m)) => Some(m)
    case None => None
  }

  /** The card pattern matches at no start before the one the search reports, and at none at
      all when the search reports nothing. */
  lemma CardLineFirst(line: string)
    ensures CardLine(line).Some? ==> forall j :: 0 <= j < CardLine(line).value.start ==> CardAt(line, j).None?
    ensures CardLine(line).None? ==> forall j :: 0 <= j < |line| ==> CardAt(line, j).None?
  {
    var at := CardAtIn(line);
    FirstFoundFirst(at, 0, |line|);
    var n := if CardLine(line).Some? then CardLine(line).value.start else |line|;
    forall j | 0 <= j < n ensures CardAt(line, j).None? {
      assert at(j).None?;
    }
  }

  // ---------------------------------------------------------------- the short layout

  /** What `^(\d{1,2})\s+(\S+)` captured: the horse number, read by `parseInt`, and the name. */
  datatype ShortMatch = ShortMatch(number: nat, name: string)

  /** The short pattern at the start of the line: as in the card pattern, no quantifier ever
      gives anything back. */
  function ShortLine(line: string): (r: Option<ShortMatch>)
    ensures r.Some? ==> r.value.number < 100 && Word(r.value.name)
  {
    var e := Skip(line, 0, IsDigitChar);
    if 0 < e <= 2 && e < |line| && IsSpace(line[e]) then
      var b := Skip(line, e, IsSpace);
      var c := Skip(line, b, NotSpace);
      if b < c then
        SkipAll(line, 0, IsDigitChar);
        SkipAll(line, b, NotSpace);
        Within(line, 0, e, IsDigitChar);
        Within(line, b, c, NotSpace);
        assert line[0..e] == line[..e];
        ShortDigits(line[..e]);
        Some(ShortMatch(DigitsValue(line[..e]), line[b..c]))
      else None
    else None
  }

  // ---------------------------------------------------------------- the loop

  /** `number >= 1 && number <= 18 && frameNumber >= 1 && frameNumber <= 8`. */
  predicate CardAccepted(m: CardMatch) {
    1 <= m.number <= 18 && 1 <= m.frame <= 8
  }

  function CardHorse(m: CardMatch): Horse {
    Horse(m.number, Some(m.name), Some(m.frame), Some(m.jockey))
  }

  /** `horses.find(h => h.number === number)` finds a horse. */
  predicate Numbered(horses: seq<Horse>, n: int) {
    exists k :: 0 <= k < |horses| && horses[k].number == n
  }

  /** `number >= 1 && number <= 18 && !name.match(/^\d/)`, and no horse has the number yet. */
  predicate ShortAccepted(horses: seq<Horse>, m: ShortMatch) {
    1 <= m.number <= 18 && (m.name == [] || !IsDigitChar(m.name[0])) && !Numbered(horses, m.number)
  }

  function ShortHorse(m: ShortMatch): Horse {
    Horse(m.number, Some(m.name), None, None)
  }

  /** A horse as the importer makes one: numbered 1 to 18 and named by a word; a card horse has
      a frame from 1 to 8 and a jockey, and a short horse has neither and a name that does not
      start with a digit. */
  predicate GoodHorse(h: Horse) {
    1 <= h.number <= 18 && h.name.Some? && Word(h.name.value)
    && if h.frameNumber.Some? then 1 <= h.frameNumber.value <= 8 && h.jockey.Some? && Word(h.jockey.value)
       else h.jockey.None? && !IsDigitChar(h.name.value[0])
  }

  /** The horse one iteration pushes, given the horses pushed before: the card layout is tried
      first, and a card match out of range falls through to the short layout. */
  function Added(horses: seq<Horse>, line: string): (r: Option<Horse>)
    ensures r.Some? ==> GoodHorse(r.value)
    ensures r.Some? && r.value.frameNumber.None? ==> !Numbered(horses, r.value.number)
  {
    var card := CardLine(line);
    if card.Some? && CardAccepted(card.value) then Some(CardHorse(card.value))
    else
      var short := ShortLine(line);
      if short.Some? && ShortAccepted(horses, short.value) then Some(ShortHorse(short.value))
      else None
  }

  function Pushed(h: Option<Horse>): seq<Horse> {
    if h.Some? then [h.value] else []
  }

  /** `horses` after the loop over `lines`. */
  function Collect(lines: seq<string>): (horses: seq<Horse>)
    ensures |horses| <= |lines|
    ensures forall k :: 0 <= k < |horses| ==> GoodHorse(horses[k])
  {
    if lines == [] then []
    else
      var n := |lines| - 1;
      var before := Collect(lines[..n]);
      before + Pushed(Added(before, lines[n]))
  }

  /** A horse read in the short layout never repeats the number of a horse pushed before it. */
  lemma {:induction false} ShortNumbersNew(lines: seq<string>)
    ensures forall i, j :: (0 <= i < j < |Collect(lines)| && Collect(lines)[j].frameNumber.None?
      ==> Collect(lines)[i].number != Collect(lines)[j].number)
  {
    if lines != [] {
      var n := |lines| - 1;
      var before := Collect(lines[..n]);
      ShortNumbersNew(lines[..n]);
      var a := Added(before, lines[n]);
      var all := before + Pushed(a);
      assert Collect(lines) == all;
      forall i, j | 0 <= i < j < |all| && all[j].frameNumber.None? ensures all[i].number != all[j].number {
        if j == |before| {
          assert a.Some? && all[j] == a.value;
          assert all[i] == before[i];
        } else {
          assert all[i] == before[i] && all[j] == before[j];
        }
      }
    }
  }

  // ---------------------------------------------------------------- the whole text

  /** `x || undefined` for a captured string. */
  function OrUndefined(s: Option<string>): Option<string> {
    if s.Some? && s.value != [] then s else None
  }

  /** `lines[0]?.match(...)`: the race pattern on the first line, when there is one. */
  function Header(lines: seq<string>, reading: Reading): Option<RaceMatch> {
    if lines == [] then None else RaceLine(lines[0], reading)
  }

  function Number(h: Horse): int {
    h.number
  }

  /** The race read from the first line and the horses of every line, the first included,
      sorted by number. */
  function ParseLines(lines: seq<string>, reading: Reading): (d: RaceData)
    ensures SortedBy(d.horses, Number)
    ensures multiset(d.horses) == multiset(Collect(lines))
  {
    var horses := SortBy(Collect(lines), Number);
    match Header(lines, reading)
    case None => RaceData(horses, None, None, None)
    case Some(m) =>
      RaceData(horses, OrUndefined(m.name), OrUndefined(m.venue), Some(DigitsValue(m.number)))
  }

  /** How the race line is read does not change the horses. */
  lemma ReadingKeepsHorses(lines: seq<string>, a: Reading, b: Reading)
    ensures ParseLines(lines, a).horses == ParseLines(lines, b).horses
  {
  }

  /** `parseRaceInfoText`: the horses of every line sorted by number, and the race read from
      the first line with the race pattern as written. */
  function ParseRaceInfoText(text: string): (d: RaceData)
    ensures SortedBy(d.horses, Number)
    ensures multiset(d.horses) == multiset(Collect(Lines(text)))
    ensures d.raceNumber.Some? <==> |Lines(text)| > 0 && RaceLine(Lines(text)[0], AsWritten).Some?
  {
    ParseLines(Lines(text), AsWritten)
  }

  /** The same text with the race line read so that a two-digit race number stays whole; the
      horses are those of `ParseRaceInfoText`. */
  function ParseRaceInfoTextCorrected(text: string): (d: RaceData)
    ensures d.horses == ParseRaceInfoText(text).horses
    ensures d.raceNumber.Some? <==> |Lines(text)| > 0 && RaceLine(Lines(text)[0], WholeNumber).Some?
  {
    ReadingKeepsHorses(Lines(text), WholeNumber, AsWritten);
    ParseLines(Lines(text), WholeNumber)
  }

  // ---------------------------------------------------------------- what the patterns need

  /** The search reports a start where the card pattern matches. */
  lemma CardLineFound(line: string)
    requires CardLine(line).Some?
    ensures CardAt(line, CardLine(line).value.start).Some?
  {
    FirstFoundFirst(CardAtIn(line), 0, |line|);
  }

  /** A match at the start of the line is the one the search reports. */
  lemma CardLineAtStart(line: string)
    requires CardAt(line, 0).Some?
    ensures CardLine(line) == CardAt(line, 0)
  {
    assert CardAtIn(line)(0) == CardAt(line, 0);
  }

  /** The card pattern needs a digit followed by whitespace, and whitespace again further on. */
  lemma CardAtSpaces(line: string, i: nat) returns (e: nat)
    requires CardAt(line, i).Some?
    ensures i + 1 < e < |line| && IsDigitChar(line[i]) && IsSpace(line[i + 1]) && IsSpace(line[e])
  {
    var a := Skip(line, i + 1, IsSpace);
    e := Skip(line, a, IsDigitChar);
  }

  /** A line in which no digit is followed by whitespace has no card match. */
  lemma NoCardWithoutDigitSpace(line: string)
    requires forall k :: 0 <= k < |line| - 1 && IsDigitChar(line[k]) ==> !IsSpace(line[k + 1])
    ensures CardLine(line).None?
  {
    if CardLine(line).Some? {
      CardLineFound(line);
      var e := CardAtSpaces(line, CardLine(line).value.start);
      assert false;
    }
  }

  /** A line with a single whitespace character has no card match. */
  lemma NoCardOneSpace(line: string, q: nat)
    requires forall k :: 0 <= k < |line| && IsSpace(line[k]) ==> k == q
    ensures CardLine(line).None?
  {
    if CardLine(line).Some? {
      CardLineFound(line);
      var e := CardAtSpaces(line, CardLine(line).value.start);
      assert false;
    }
  }

  /** A card match's horse number starts where the whitespace after its frame digit ends. */
  lemma CardNumberStart(line: string, i: nat)
    requires CardAt(line, i).Some?
    ensures i + 1 < |line| && IsDigitChar(line[i]) && IsSpace(line[i + 1])
    ensures Skip(line, i + 1, IsSpace) < |line| && IsDigitChar(line[Skip(line, i + 1, IsSpace)])
  {
    var a := Skip(line, i + 1, IsSpace);
    SkipAll(line, a, IsDigitChar);
  }

  /** The name the short pattern reads starts where the whitespace after the number ends. */
  lemma ShortNameStart(line: string)
    requires ShortLine(line).Some?
    ensures var b := Skip(line, Skip(line, 0, IsDigitChar), IsSpace);
      b < |line| && ShortLine(line).value.name[0] == line[b]
  {
  }

  /** When the card pattern matches at the start of a line, the short pattern reads the card's
      horse number as the name. */
  lemma ShortOfCard(line: string)
    requires CardAt(line, 0).Some?
    ensures ShortLine(line).Some? ==> IsDigitChar(ShortLine(line).value.name[0])
  {
    CardNumberStart(line, 0);
    SkipTo(line, 0, 1, IsDigitChar);
    if ShortLine(line).Some? {
      ShortNameStart(line);
    }
  }

  /** So a line the card pattern matches at its start, rejected for its range, adds no horse. */
  lemma CardLineNotShort(horses: seq<Horse>, line: string)
    requires CardAt(line, 0).Some? && !CardAccepted(CardAt(line, 0).value)
    ensures Added(horses, line).None?
  {
    CardLineAtStart(line);
    ShortOfCard(line);
  }

  // ---------------------------------------------------------------- written-out lines

  /** The characters of `s`, spelled out in `line` from `i`, satisfy what those of `s` do. */
  lemma Spelled(line: string, i: nat, s: string, p: char -> bool)
    requires i + |s| <= |line| && line[i..i + |s|] == s
    requires forall k :: 0 <= k < |s| ==> p(s[k])
    ensures forall k :: i <= k < i + |s| ==> p(line[k])
  {
    assert forall k :: i <= k < i + |s| ==> line[k] == s[k - i];
  }

  function CardLayout(f: char, d: string, name: string, jockey: string): string {
    [f] + (" " + (d + (" " + (name + (" " + jockey)))))
  }

  /** Where the parts of a card line stand. */
  lemma CardLayoutParts(f: char, d: string, name: string, jockey: string)
    ensures var line := CardLayout(f, d, name, jockey);
      var b := 3 + |d|;
      |line| == b + |name| + 1 + |jockey| && line[0] == f && line[1] == ' ' && line[2..2 + |d|] == d
      && line[2 + |d|] == ' ' && line[b..b + |name|] == name && line[b + |name|] == ' '
      && line[b + |name| + 1..] == jockey
  {
    var line := CardLayout(f, d, name, jockey);
    var t4 := name + (" " + jockey);
    var t2 := d + (" " + t4);
    assert line[2..] == t2;
    assert line[3 + |d|..] == t4;
  }

  /** The words of a card line from where its name begins. */
  lemma CardWordsText(line: string, number: nat, b: nat, name: string, jockey: string)
    requires b + |name| + 1 + |jockey| == |line| && 0 < b && IsDigitChar(line[0])
    requires number < 100 && Word(name) && Word(jockey)
    requires line[b..b + |name|] == name && line[b + |name|] == ' ' && line[b + |name| + 1..] == jockey
    ensures CardWords(line, 0, number, b).Some?
    ensures CardWords(line, 0, number, b).value.name == name
    ensures CardWords(line, 0, number, b).value.jockey == jockey
    ensures CardWords(line, 0, number, b).value.frame == DigitValue(line[0])
    ensures CardWords(line, 0, number, b).value.number == number
  {
    var c := b + |name|;
    Spelled(line, b, name, NotSpace);
    SkipTo(line, b, c, NotSpace);
    assert line[c + 1] == jockey[0];
    SkipTo(line, c, c + 1, IsSpace);
    assert line[c + 1..c + 1 + |jockey|] == jockey;
    Spelled(line, c + 1, jockey, NotSpace);
    SkipTo(line, c + 1, |line|, NotSpace);
  }

  /** The frame, the whitespace and group 2 of a card line, up to where its name begins. */
  lemma CardFrontText(line: string, d: string)
    requires 3 + |d| < |line| && IsDigitChar(line[0]) && line[1] == ' '
    requires 1 <= |d| <= 2 && AllDigits(d) && line[2..2 + |d|] == d && line[2 + |d|] == ' '
    requires !IsSpace(line[3 + |d|])
    ensures DigitsValue(d) < 100
    ensures CardAt(line, 0) == CardWords(line, 0, DigitsValue(d), 3 + |d|)
  {
    var e := 2 + |d|;
    assert line[2] == d[0];
    SkipTo(line, 1, 2, IsSpace);
    Spelled(line, 2, d, IsDigitChar);
    SkipTo(line, 2, e, IsDigitChar);
    SkipTo(line, e, e + 1, IsSpace);
    ShortDigits(d);
  }

  /** Whether `line` is laid out as a card line with number digits `d`, name `name` and jockey
      `jockey`. */
  predicate CardShaped(line: string, d: string, name: string, jockey: string) {
    |line| == 3 + |d| + |name| + 1 + |jockey| && line[1] == ' '
    && line[2..2 + |d|] == d && line[2 + |d|] == ' '
    && line[3 + |d|..3 + |d| + |name|] == name && line[3 + |d| + |name|] == ' '
    && line[3 + |d| + |name| + 1..] == jockey
  }

  /** The name and jockey of a line laid out as a card line, read where its number ends. */
  lemma CardShapeWords(line: string, d: string, name: string, jockey: string)
    requires CardShaped(line, d, name, jockey) && IsDigitChar(line[0])
    requires 1 <= |d| <= 2 && AllDigits(d) && Word(name) && Word(jockey)
    ensures DigitsValue(d) < 100
    ensures var r := CardWords(line, 0, DigitsValue(d), 3 + |d|);
      r.Some? && r.value.frame == DigitValue(line[0]) && r.value.number == DigitsValue(d)
      && r.value.name == name && r.value.jockey == jockey
  {
    ShortDigits(d);
    CardWordsText(line, DigitsValue(d), 3 + |d|, name, jockey);
  }

  /** The card layout is laid out as a card line. */
  lemma CardLayoutShaped(f: char, d: string, name: string, jockey: string)
    ensures var line := CardLayout(f, d, name, jockey);
      CardShaped(line, d, name, jockey) && line[0] == f
  {
    CardLayoutParts(f, d, name, jockey);
  }

  /** The card pattern reads a card line at its start as its frame digit, its number's digits,
      its name and its jockey. */
  lemma CardLayoutRead(f: char, d: string, name: string, jockey: string)
    requires IsDigitChar(f) && 1 <= |d| <= 2 && AllDigits(d) && Word(name) && Word(jockey)
    ensures var r := CardAt(CardLayout(f, d, name, jockey), 0);
      r.Some? && r.value.frame == DigitValue(f) && r.value.number == DigitsValue(d)
      && r.value.name == name && r.value.jockey == jockey
  {
    var line := CardLayout(f, d, name, jockey);
    CardLayoutShaped(f, d, name, jockey);
    assert line[3 + |d|] == name[0];
    CardFrontText(line, d);
    CardShapeWords(line, d, name, jockey);
  }

  /** A horse the card layout can write: frame 1 to 8, number 1 to 18, and a name and a jockey
      without whitespace. */
  predicate Writable(h: Horse) {
    h.frameNumber.Some? && 1 <= h.frameNumber.value <= 8 && 1 <= h.number <= 18
    && h.name.Some? && Word(h.name.value) && h.jockey.Some? && Word(h.jockey.value)
  }

  /** A card line written out: frame, horse number, name and jockey, one space apart. */
  function CardText(h: Horse): string
    requires Writable(h)
  {
    CardLayout(DigitChar(h.frameNumber.value), Decimal(h.number), h.name.value, h.jockey.value)
  }

  /** The card pattern reads a written-out card line as the horse's parts. */
  lemma CardTextRead(h: Horse)
    requires Writable(h)
    ensures CardLine(CardText(h)).Some?
    ensures CardLine(CardText(h)).value.frame == h.frameNumber.value
    ensures CardLine(CardText(h)).value.number == h.number
    ensures CardLine(CardText(h)).value.name == h.name.value
    ensures CardLine(CardText(h)).value.jockey == h.jockey.value
  {
    var d := Decimal(h.number);
    ShortNumber(h.number);
    DecimalValue(h.number);
    CardLayoutRead(DigitChar(h.frameNumber.value), d, h.name.value, h.jockey.value);
    CardLineAtStart(CardText(h));
  }

  /** A card match in range is pushed as it was read. */
  lemma AddedCard(horses: seq<Horse>, line: string)
    requires CardLine(line).Some? && CardAccepted(CardLine(line).value)
    ensures Added(horses, line).Some? && Added(horses, line).value == CardHorse(CardLine(line).value)
  {
  }

  /** A written-out card line adds its horse, whatever horses came before. */
  lemma CardRoundTrip(horses: seq<Horse>, h: Horse)
    requires Writable(h)
    ensures Added(horses, CardText(h)).Some? && Added(horses, CardText(h)).value == h
  {
    CardTextRead(h);
    AddedCard(horses, CardText(h));
  }

  /** Where the parts of a short line stand. */
  lemma ShortLayoutParts(d: string, name: string)
    ensures var line := d + (" " + name);
      |line| == |d| + 1 + |name| && line[..|d|] == d && line[|d|] == ' ' && line[|d| + 1..] == name
  {
  }

  /** The digits at the start of a short line end where `d` does. */
  lemma ShortFront(line: string, d: string)
    requires |d| < |line| && line[..|d|] == d && line[|d|] == ' ' && AllDigits(d)
    ensures Skip(line, 0, IsDigitChar) == |d|
  {
    assert line[0..|d|] == d;
    Spelled(line, 0, d, IsDigitChar);
    SkipTo(line, 0, |d|, IsDigitChar);
  }

  /** The name of a short line runs from just after its one space to its end. */
  lemma ShortName(line: string, e: nat, name: string)
    requires e + 1 + |name| == |line| && line[e] == ' ' && line[e + 1..] == name && Word(name)
    ensures Skip(line, e, IsSpace) == e + 1 && Skip(line, e + 1, NotSpace) == |line|
  {
    assert line[e + 1] == name[0];
    SkipTo(line, e, e + 1, IsSpace);
    assert line[e + 1..e + 1 + |name|] == name;
    Spelled(line, e + 1, name, NotSpace);
    SkipTo(line, e + 1, |line|, NotSpace);
  }

  /** The short pattern on a line of digits `d`, a space and a word `name`. */
  lemma ShortLineRead(line: string, d: string, name: string)
    requires |line| == |d| + 1 + |name| && line[..|d|] == d && line[|d|] == ' ' && line[|d| + 1..] == name
    requires 1 <= |d| <= 2 && AllDigits(d) && Word(name)
    ensures var r := ShortLine(line);
      r.Some? && r.value.number == DigitsValue(d) && r.value.name == name
  {
    ShortFront(line, d);
    ShortName(line, |d|, name);
  }

  /** A line of digits `d`, a space and a word has its one whitespace character after `d`, and
      so no card match. */
  lemma ShortTextNoCard(line: string, d: string, name: string)
    requires |line| == |d| + 1 + |name| && line[..|d|] == d && line[|d|] == ' ' && line[|d| + 1..] == name
    requires AllDigits(d) && Word(name)
    ensures CardLine(line).None?
  {
    var e := |d|;
    assert line[0..e] == d;
    Spelled(line, 0, d, NotSpace);
    assert line[e + 1..e + 1 + |name|] == name;
    Spelled(line, e + 1, name, NotSpace);
    NoCardOneSpace(line, e);
  }

  /** The short pattern reads a short line `d + (" " + name)` as its number's digits and its
      name, and the card pattern does not match it. */
  lemma ShortLayoutRead(d: string, name: string)
    requires 1 <= |d| <= 2 && AllDigits(d) && Word(name)
    ensures ShortLine(d + (" " + name)).Some?
    ensures ShortLine(d + (" " + name)).value.number == DigitsValue(d)
    ensures ShortLine(d + (" " + name)).value.name == name
    ensures CardLine(d + (" " + name)).None?
  {
    ShortLayoutParts(d, name);
    ShortLineRead(d + (" " + name), d, name);
    ShortTextNoCard(d + (" " + name), d, name);
  }

  /** A line without a card match is pushed as its short match when that is accepted. */
  lemma AddedShort(horses: seq<Horse>, line: string)
    requires CardLine(line).None? && ShortLine(line).Some?
    ensures Added(horses, line).Some? <==> ShortAccepted(horses, ShortLine(line).value)
    ensures Added(horses, line).Some? ==> Added(horses, line).value == ShortHorse(ShortLine(line).value)
  {
  }

  /** A short line written out: horse number and name, one space apart. */
  function ShortText(number: nat, name: string): string {
    Decimal(number) + (" " + name)
  }

  /** A written-out short line adds its horse exactly when no horse has its number yet. */
  lemma ShortRoundTrip(horses: seq<Horse>, number: nat, name: string)
    requires 1 <= number <= 18 && Word(name) && !IsDigitChar(name[0])
    ensures Added(horses, ShortText(number, name)).Some? <==> !Numbered(horses, number)
    ensures Added(horses, ShortText(number, name)).Some? ==>
      Added(horses, ShortText(number, name)).value == Horse(number, Some(name), None, None)
  {
    ShortNumber(number);
    DecimalValue(number);
    ShortLayoutRead(Decimal(number), name);
    AddedShort(horses, ShortText(number, name));
  }

  // ---------------------------------------------------------------- whole race cards

  /** The written-out card lines of `hs`, in order. */
  function CardTexts(hs: seq<Horse>): (ts: seq<string>)
    requires forall k :: 0 <= k < |hs| ==> Writable(hs[k])
    ensures |ts| == |hs|
  {
    if hs == [] then [] else CardTexts(hs[..|hs| - 1]) + [CardText(hs[|hs| - 1])]
  }

  /** A written-out card line pushes its horse. */
  lemma CollectCard(before: seq<string>, h: Horse)
    requires Writable(h)
    ensures Collect(before + [CardText(h)]) == Collect(before) + [h]
  {
    CollectSnoc(before, CardText(h));
    CardRoundTrip(Collect(before), h);
  }

  /** Any reading of lines that pushes the horse of each written-out card line pushes the
      horses of a run of them in order. */
  lemma {:induction false} PushesEach(collect: seq<string> -> seq<Horse>, first: seq<string>, hs: seq<Horse>)
    requires forall k :: 0 <= k < |hs| ==> Writable(hs[k])
    requires forall lines: seq<string>, h: Horse :: Writable(h) ==> collect(lines + [CardText(h)]) == collect(lines) + [h]
    ensures collect(first + CardTexts(hs)) == collect(first) + hs
  {
    if hs == [] {
      assert first + CardTexts(hs) == first;
    } else {
      var n := |hs| - 1;
      PushesEach(collect, first, hs[..n]);
      assert first + CardTexts(hs) == (first + CardTexts(hs[..n])) + [CardText(hs[n])];
      assert hs == hs[..n] + [hs[n]];
    }
  }

  /** The loop pushes the horse of every written-out card line. */
  lemma CollectPushesCards()
    ensures forall lines: seq<string>, h: Horse :: Writable(h) ==> Collect(lines + [CardText(h)]) == Collect(lines) + [h]
  {
    forall lines: seq<string>, h: Horse | Writable(h)
      ensures Collect(lines + [CardText(h)]) == Collect(lines) + [h]
    {
      CollectCard(lines, h);
    }
  }

  /** After a first line that adds no horse, a run of written-out card lines reads back as its
      horses, in order. */
  lemma CollectCards(first: string, hs: seq<Horse>)
    requires forall k :: 0 <= k < |hs| ==> Writable(hs[k])
    requires Added([], first).None?
    ensures Collect([first] + CardTexts(hs)) == hs
  {
    CollectSnoc([], first);
    assert [] + [first] == [first];
    CollectPushesCards();
    PushesEach(Collect, [first], hs);
  }

  /** A race name without digits. */
  predicate NoDigits(name: Option<string>) {
    name.Some? ==> forall k :: 0 <= k < |name.value| ==> !IsDigitChar(name.value[k])
  }

  /** The text after the race number's `R`, a space and a name without digits, has no digit. */
  lemma NameTextNoDigits(name: Option<string>)
    requires NoDigits(name)
    ensures forall k :: 0 <= k < |NameText(name)| ==> !IsDigitChar(NameText(name)[k])
  {
    if name.Some? {
      assert forall k :: 1 <= k < |NameText(name)| ==> NameText(name)[k] == name.value[k - 1];
    }
  }

  /** In a written-out race line whose venue and name have no digits, the only digits are the
      race number's, and each is followed by a digit or by `R`. */
  lemma RaceTextDigits(venue: string, n: nat, name: Option<string>)
    requires VenueName(venue) && NoDigits(name)
    ensures var line := RaceText(Some(venue), n, name);
      forall k :: 0 <= k < |line| - 1 && IsDigitChar(line[k]) ==> !IsSpace(line[k + 1])
  {
    var d, rest := Decimal(n), NameText(name);
    var line := RaceText(Some(venue), n, name);
    var v := |venue|;
    RaceTextParts(venue, d, rest);
    NameTextNoDigits(name);
    forall k | 0 <= k < |line| - 1 && IsDigitChar(line[k]) ensures !IsSpace(line[k + 1]) {
      if v <= k && k + 1 < v + |d| {
        assert line[k + 1] == line[v..v + |d|][k + 1 - v];
      }
    }
  }

  /** A written-out race line whose venue and name have no digits adds no horse. */
  lemma RaceTextNoHorse(venue: string, n: nat, name: Option<string>)
    requires VenueName(venue) && NoDigits(name)
    ensures Added([], RaceText(Some(venue), n, name)).None?
  {
    var line := RaceText(Some(venue), n, name);
    RaceTextDigits(venue, n, name);
    NoCardWithoutDigitSpace(line);
    RaceTextParts(venue, Decimal(n), NameText(name));
    assert line[0] == line[..|venue|][0];
    SkipTo(line, 0, 0, IsDigitChar);
  }

  /** A race card written out, a race line first and a card line per horse, is read back as
      its venue, race number and race name, and as its horses in order of their numbers. */
  lemma ParseRoundTrip(venue: string, n: nat, name: Option<string>, hs: seq<Horse>, reading: Reading)
    requires VenueName(venue) && n < 100 && WellNamed(name) && NoDigits(name)
    requires forall k :: 0 <= k < |hs| ==> Writable(hs[k])
    ensures ParseLines([RaceText(Some(venue), n, name)] + CardTexts(hs), reading).venue == Some(venue)
    ensures ParseLines([RaceText(Some(venue), n, name)] + CardTexts(hs), reading).raceNumber.Some?
    ensures ParseLines([RaceText(Some(venue), n, name)] + CardTexts(hs), reading).raceNumber.value == n
    ensures ParseLines([RaceText(Some(venue), n, name)] + CardTexts(hs), reading).raceName == name
    ensures multiset(ParseLines([RaceText(Some(venue), n, name)] + CardTexts(hs), reading).horses) == multiset(hs)
  {
    var first := RaceText(Some(venue), n, name);
    var lines := [first] + CardTexts(hs);
    assert lines[0] == first;
    RaceRoundTrip(venue, n, name, reading);
    DecimalValue(n);
    RaceTextNoHorse(venue, n, name);
    CollectCards(first, hs);
  }

  // ---------------------------------------------------------------- worked cases

  /** One more line pushes what it adds to the horses of the lines before it. */
  lemma CollectSnoc(lines: seq<string>, line: string)
    ensures Collect(lines + [line]) == Collect(lines) + Pushed(Added(Collect(lines), line))
  {
    assert (lines + [line])[..|lines|] == lines;
  }

  /** A first short line adds its horse. */
  lemma FirstShort(number: nat, a: string)
    requires 1 <= number <= 18 && Word(a) && !IsDigitChar(a[0])
    ensures Collect([ShortText(number, a)]) == [Horse(number, Some(a), None, None)]
  {
    var s := ShortText(number, a);
    ShortRoundTrip([], number, a);
    CollectSnoc([], s);
    assert [] + [s] == [s];
  }

  /** A short line whose number a pushed horse has adds nothing. */
  lemma SecondShort(h: Horse, number: nat, b: string)
    requires 1 <= number <= 18 && Word(b) && !IsDigitChar(b[0]) && h.number == number
    ensures Added([h], ShortText(number, b)).None?
  {
    ShortRoundTrip([h], number, b);
    assert [h][0].number == number;
  }

  /** Card lines are never checked for repeats: the same card line twice adds its horse twice. */
  lemma CardLinesRepeat(h: Horse)
    requires Writable(h)
    ensures Collect([CardText(h), CardText(h)]) == [h, h]
  {
    var t := CardText(h);
    CardRoundTrip([], h);
    CardRoundTrip([h], h);
    CollectSnoc([], t);
    CollectSnoc([t], t);
    assert [t] + [t] == [t, t];
  }

  /** A short line is left out when a horse with its number has been pushed. */
  lemma ShortLinesRepeat(number: nat, a: string, b: string)
    requires 1 <= number <= 18 && Word(a) && !IsDigitChar(a[0]) && Word(b) && !IsDigitChar(b[0])
    ensures Collect([ShortText(number, a), ShortText(number, b)]) == [Horse(number, Some(a), None, None)]
  {
    var h := Horse(number, Some(a), None, None);
    var s, t := ShortText(number, a), ShortText(number, b);
    FirstShort(number, a);
    SecondShort(h, number, b);
    CollectSnoc([s], t);
    assert [s] + [t] == [s, t];
  }

  /** As written, the race pattern reads the first line `11R` as venue `1` and race 1; the
      whole-number reading gives race 11 without a venue. */
  lemma RaceNumberReadings()
    ensures ParseLines(["11R"], AsWritten).venue == Some("1")
    ensures ParseLines(["11R"], AsWritten).raceNumber.Some?
    ensures ParseLines(["11R"], AsWritten).raceNumber.value == 1
    ensures ParseLines(["11R"], WholeNumber).venue.None?
    ensures ParseLines(["11R"], WholeNumber).raceNumber.Some?
    ensures ParseLines(["11R"], WholeNumber).raceNumber.value == 11
  {
    SplitNumberAsWritten();
    SplitNumberWhole();
    assert DigitsValue("1") == 1;
    assert DigitsValue("11") == 11 by {
      assert "11"[..1] == "1";
    }
  }
}
