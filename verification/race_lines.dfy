/** The race line pattern both ipat importers use, `(?:(\S+?))?(\d{1,2})R(?:\s+(.+))?`,
    searched for anywhere in a line, and the race label the history importer builds from what
    it captures. */
module RaceLines {
  import opened Wrappers
  import opened NumberKeys
  import opened JsText
  import opened JsNumbers

  /** What the pattern captured at `start`: the venue (group 1, `None` when the group took no
      part), the race number's digits (group 2) and the race name (group 3). */
  datatype RaceMatch = RaceMatch(start: nat, venue: Option<string>, number: string, name: Option<string>)

  /** How group 1 is read. `AsWritten` is the pattern itself. `WholeNumber` adds that the venue
      may not end with a digit, so that a two-digit race number is never split between the
      venue and group 2. */
  datatype Reading = AsWritten | WholeNumber

  // ---------------------------------------------------------------- the pattern

  /** `(\d{1,2})R` at `j`, two digits tried before one: how many digits it took. */
  function NumberR(line: string, j: nat): (r: Option<nat>)
    ensures r.Some? ==> (r.value == 1 || r.value == 2) && j + r.value < |line| && line[j + r.value] == 'R'
    ensures r.Some? ==> forall k :: j <= k < j + r.value ==> IsDigitChar(line[k])
    ensures r.Some? <==> (j + 1 < |line| && IsDigitChar(line[j])
      && (line[j + 1] == 'R' || (j + 2 < |line| && IsDigitChar(line[j + 1]) && line[j + 2] == 'R')))
  {
    if j + 2 < |line| && IsDigitChar(line[j]) && IsDigitChar(line[j + 1]) && line[j + 2] == 'R' then Some(2)
    else if j + 1 < |line| && IsDigitChar(line[j]) && line[j + 1] == 'R' then Some(1)
    else None
  }

  /** Whether, under `reading`, the venue may end with `c`. */
  predicate VenueMayEnd(c: char, reading: Reading) {
    reading == AsWritten || !IsDigitChar(c)
  }

  /** `(\S+?)(\d{1,2})R` from `i`, the venue so far being `line[i..i + k]`: the lazy `+?` tries
      the shortest venue first and grows it one non-space character at a time. The venue's
      length and the number's digit count, or `None` when the venue runs into whitespace or
      the end of the line first. */
  function VenueFrom(line: string, i: nat, k: nat, reading: Reading): (r: Option<(nat, nat)>)
    requires 1 <= k
    ensures r.Some? ==> (k <= r.value.0 && i + r.value.0 <= |line|
      && NumberR(line, i + r.value.0).Some? && NumberR(line, i + r.value.0).value == r.value.1
      && VenueMayEnd(line[i + r.value.0 - 1], reading))
    ensures r.Some? ==> forall q :: i + k - 1 <= q < i + r.value.0 ==> !IsSpace(line[q])
    decreases |line| - (i + k)
  {
    if i + k > |line| || IsSpace(line[i + k - 1]) then None
    else if VenueMayEnd(line[i + k - 1], reading) && NumberR(line, i + k).Some? then
      Some((k, NumberR(line, i + k).value))
    else VenueFrom(line, i, k + 1, reading)
  }

  predicate NotLineTerminator(c: char) {
    !IsLineTerminator(c)
  }

  /** `(?:\s+(.+))?` at the start of `t`, which the pattern always accepts: group 3, or `None`
      when the group takes no part. */
  function Tail(t: string): (r: Option<string>)
    ensures r.Some? ==> r.value != [] && forall k :: 0 <= k < |r.value| ==> NotLineTerminator(r.value[k])
  {
    NameAfter(t, Run(t, IsSpace))
  }

  /** `\s+(.+)` with the whitespace run cut to `w` characters: `.+` needs a character that is not
      a line terminator right after the run, so the run is given back one character at a time
      until there is one; `.+` then takes everything up to the next line terminator. */
  function NameAfter(t: string, w: nat): (r: Option<string>)
    ensures r.Some? ==> r.value != [] && forall k :: 0 <= k < |r.value| ==> NotLineTerminator(r.value[k])
  {
    if w == 0 then None
    else if w < |t| && NotLineTerminator(t[w]) then
      var u := t[w..];
      RunAll(u, NotLineTerminator);
      Some(u[..Run(u, NotLineTerminator)])
    else NameAfter(t, w - 1)
  }

  /** The text of the pattern's head: the venue, the number and the `R`. */
  function Head(m: RaceMatch): string {
    m.venue.GetOr("") + m.number + "R"
  }

  /** A match is the head's text found at its start, with a venue of non-space characters and
      a number of one or two digits. */
  predicate WellFormedRace(line: string, m: RaceMatch) {
    var v := m.venue.GetOr("");
    var e := m.start + |v| + |m.number|;
    e < |line| && line[m.start..m.start + |v|] == v && line[m.start + |v|..e] == m.number && line[e] == 'R'
    && (m.venue.Some? ==> v != [] && forall k :: 0 <= k < |v| ==> !IsSpace(v[k]))
    && 1 <= |m.number| <= 2 && AllDigits(m.number)
  }

  /** The pattern at `start`: group 1 is tried first, then left out. */
  function RaceAt(line: string, start: nat, reading: Reading): (r: Option<RaceMatch>)
    ensures r.Some? ==> r.value.start == start && WellFormedRace(line, r.value)
  {
    match VenueFrom(line, start, 1, reading)
    case Some((k, n)) =>
      var m := RaceMatch(start, Some(line[start..start + k]), line[start + k..start + k + n],
        Tail(line[start + k + n + 1..]));
      MatchShape(line, m, start + k);
      Some(m)
    case None =>
      match NumberR(line, start)
      case Some(n) =>
        var m := RaceMatch(start, None, line[start..start + n], Tail(line[start + n + 1..]));
        MatchShape(line, m, start);
        Some(m)
      case None => None
  }

  /** A venue of non-space characters from the line, then the digits `(\d{1,2})R` took at `j`,
      form a well-formed match. */
  lemma MatchShape(line: string, m: RaceMatch, j: nat)
    requires m.start <= j && NumberR(line, j).Some?
    requires m.venue.Some? ==> (m.start < j && m.venue.value == line[m.start..j]
      && forall q :: m.start <= q < j ==> !IsSpace(line[q]))
    requires m.venue.None? ==> m.start == j
    requires m.number == line[j..j + NumberR(line, j).value]
    ensures WellFormedRace(line, m)
  {
    var n := NumberR(line, j).value;
    assert forall q :: 0 <= q < n ==> m.number[q] == line[j + q];
    if m.venue.Some? {
      var v := m.venue.value;
      assert forall q :: 0 <= q < |v| ==> v[q] == line[m.start + q];
    }
  }

  /** `line.match(...)` from `i` on: the match at the first start where there is one. */
  function RaceSearch(line: string, i: nat, reading: Reading): (r: Option<RaceMatch>)
    ensures r.Some? ==> i <= r.value.start && WellFormedRace(line, r.value)
    ensures r.Some? ==> forall j :: i <= j < r.value.start ==> RaceAt(line, j, reading).None?
    decreases |line| - i
  {
    var m := RaceAt(line, i, reading);
    if m.Some? || i >= |line| then m else RaceSearch(line, i + 1, reading)
  }

  /** `line.match(/(?:(\S+?))?(\d{1,2})R(?:\s+(.+))?/)`. */
  function RaceLine(line: string, reading: Reading): Option<RaceMatch> {
    RaceSearch(line, 0, reading)
  }

  /** The name's part of a label: a space and the name when there is one. */
  function NameText(name: Option<string>): string {
    if name.Some? then " " + name.value else ""
  }

  /** The history importer's `${venue}${raceNum}R${raceName ? ' ' + raceName : ''}`. */
  function RaceLabel(m: RaceMatch): string {
    Head(m) + NameText(m.name)
  }

  // ---------------------------------------------------------------- which lines are race lines

  /** Somewhere in the line a digit is followed by `R`. */
  predicate HasNumberR(line: string) {
    exists j :: 0 <= j < |line| - 1 && IsDigitChar(line[j]) && line[j + 1] == 'R'
  }

  /** A digit followed by `R` matches where it stands, if not with a venue then without one. */
  lemma RaceAtNumberR(line: string, j: nat, reading: Reading)
    requires j < |line| - 1 && IsDigitChar(line[j]) && line[j + 1] == 'R'
    ensures RaceAt(line, j, reading).Some?
  {
    assert NumberR(line, j).Some?;
  }

  /** The search reaches every start that matches. */
  lemma {:induction false} SearchReaches(line: string, i: nat, j: nat, reading: Reading)
    requires i <= j && RaceAt(line, j, reading).Some?
    ensures RaceSearch(line, i, reading).Some?
    decreases j - i
  {
    if RaceAt(line, i, reading).None? {
      assert i < j;
      SearchReaches(line, i + 1, j, reading);
    }
  }

  /** Under either reading, a line is a race line exactly when a digit is followed by `R`
      somewhere in it: the venue and the name never prevent a match. */
  lemma RaceLineIff(line: string, reading: Reading)
    ensures RaceLine(line, reading).Some? <==> HasNumberR(line)
  {
    var r := RaceLine(line, reading);
    if r.Some? {
      var m := r.value;
      var v := |m.venue.GetOr("")|;
      var j := m.start + v + |m.number| - 1;
      assert line[m.start + v..j + 1][|m.number| - 1] == line[j];
    }
    if HasNumberR(line) {
      var j :| 0 <= j < |line| - 1 && IsDigitChar(line[j]) && line[j + 1] == 'R';
      RaceAtNumberR(line, j, reading);
      SearchReaches(line, 0, j, reading);
    }
  }

  // ---------------------------------------------------------------- written-out race lines

  /** A venue as the importers expect one: non-empty, without whitespace or digits. */
  predicate VenueName(v: string) {
    v != [] && forall k :: 0 <= k < |v| ==> !IsSpace(v[k]) && !IsDigitChar(v[k])
  }

  /** A race name as group 3 reads it: non-empty, starting with a non-space character, and
      without line terminators. */
  predicate WellNamed(name: Option<string>) {
    name.Some? ==> (name.value != [] && !IsSpace(name.value[0])
      && forall k :: 0 <= k < |name.value| ==> NotLineTerminator(name.value[k]))
  }

  /** A race line written out: the venue, the race number, `R`, and the name after a space. */
  function RaceText(venue: Option<string>, n: nat, name: Option<string>): string {
    venue.GetOr("") + Decimal(n) + "R" + NameText(name)
  }

  lemma ShortNumber(n: nat)
    requires n < 100
    ensures 1 <= |Decimal(n)| <= 2
  {
    if n >= 10 {
      assert Decimal(n) == Decimal(n / 10) + [DigitChar(n % 10)];
    }
  }

  /** One or two digits and an `R` at `j`. */
  lemma NumberRText(line: string, j: nat, d: string)
    requires 1 <= |d| <= 2 && AllDigits(d) && j + |d| < |line|
    requires line[j..j + |d|] == d && line[j + |d|] == 'R'
    ensures NumberR(line, j).Some? && NumberR(line, j).value == |d|
  {
    assert line[j] == d[0];
    if |d| == 2 {
      assert line[j + 1] == d[1];
    }
  }

  /** A venue without digits grows to its whole length, under either reading. */
  lemma {:induction false} VenueFromText(line: string, i: nat, v: nat, k: nat, reading: Reading)
    requires 1 <= k <= v && i + v <= |line|
    requires forall q :: i <= q < i + v ==> !IsSpace(line[q]) && !IsDigitChar(line[q])
    requires NumberR(line, i + v).Some?
    ensures VenueFrom(line, i, k, reading).Some?
    ensures VenueFrom(line, i, k, reading).value == (v, NumberR(line, i + v).value)
    decreases v - k
  {
    if k < v {
      assert !IsDigitChar(line[i + k]);
      VenueFromText(line, i, v, k + 1, reading);
    }
  }

  /** Group 3 reads back the name after its space. */
  lemma TailText(name: Option<string>)
    requires WellNamed(name)
    ensures Tail(NameText(name)) == name
  {
    if name.Some? {
      var s := name.value;
      var t := NameText(name);
      assert t == " " + s;
      RunOver(" ", s, IsSpace);
      assert t[1..] == s + [];
      RunOver(s, [], NotLineTerminator);
      assert s[..|s|] == s;
    }
  }

  /** The parts of a written-out race line, where they stand. */
  lemma RaceTextParts(venue: string, d: string, rest: string)
    ensures var line := venue + d + "R" + rest;
      line[..|venue|] == venue && line[|venue|..|venue| + |d|] == d && line[|venue| + |d|] == 'R'
      && line[|venue| + |d| + 1..] == rest
  {
    var line := venue + d + "R" + rest;
    assert line == venue + (d + ("R" + rest));
  }

  /** A line that starts with a venue without digits, then a number and `R`, matches at its
      start with that venue. */
  lemma RaceAtVenue(line: string, v: nat, e: nat, reading: Reading)
    requires 1 <= v < e < |line|
    requires forall q :: 0 <= q < v ==> !IsSpace(line[q]) && !IsDigitChar(line[q])
    requires NumberR(line, v).Some? && NumberR(line, v).value == e - v
    ensures RaceLine(line, reading).Some?
    ensures RaceLine(line, reading).value == RaceMatch(0, Some(line[..v]), line[v..e], Tail(line[e + 1..]))
  {
    VenueFromText(line, 0, v, 1, reading);
    var m := RaceAt(line, 0, reading);
    assert m.Some? && m.value == RaceMatch(0, Some(line[..v]), line[v..e], Tail(line[e + 1..]));
    SearchAtStart(line, reading);
  }

  /** A match at the start of the line is the one the search finds. */
  lemma SearchAtStart(line: string, reading: Reading)
    requires RaceAt(line, 0, reading).Some?
    ensures RaceLine(line, reading) == RaceAt(line, 0, reading)
  {
  }

  /** A race line written with a venue without digits is read back as its venue, number and
      name, under either reading. */
  lemma RaceRoundTrip(venue: string, n: nat, name: Option<string>, reading: Reading)
    requires VenueName(venue) && n < 100 && WellNamed(name)
    ensures RaceLine(RaceText(Some(venue), n, name), reading).Some?
    ensures RaceLine(RaceText(Some(venue), n, name), reading).value == RaceMatch(0, Some(venue), Decimal(n), name)
  {
    var d, rest := Decimal(n), NameText(name);
    var line := RaceText(Some(venue), n, name);
    var v := |venue|;
    ShortNumber(n);
    RaceTextParts(venue, d, rest);
    NumberRText(line, v, d);
    RaceAtVenue(line, v, v + |d|, reading);
    TailText(name);
  }

  /** Digits at the start of the venue are skipped past when the venue may not end with one. */
  lemma {:induction false} VenueFromDigits(line: string, k: nat, e: nat)
    requires 1 <= k <= e <= |line|
    requires forall q :: k - 1 <= q < e ==> IsDigitChar(line[q])
    ensures VenueFrom(line, 0, k, WholeNumber) == VenueFrom(line, 0, e + 1, WholeNumber)
    decreases e - k
  {
    if k < e {
      VenueFromDigits(line, k + 1, e);
    }
  }

  /** After the digits and the `R`, the venue meets whitespace or the end of the line. */
  lemma VenueFromAfterR(line: string, e: nat, reading: Reading)
    requires e < |line| && line[e] == 'R'
    requires e + 1 == |line| || IsSpace(line[e + 1])
    ensures VenueFrom(line, 0, e + 1, reading).None?
  {
    assert NumberR(line, e + 1).None?;
    if e + 2 <= |line| {
      assert VenueFrom(line, 0, e + 2, reading).None?;
    }
  }

  /** Under the whole-number reading a race line that starts with its number has no venue and
      keeps every digit of the number; the pattern as written does the same for one-digit
      numbers only. */
  lemma RaceRoundTripNoVenue(n: nat, name: Option<string>, reading: Reading)
    requires n < 100 && WellNamed(name)
    requires reading == WholeNumber || n < 10
    ensures RaceLine(RaceText(None, n, name), reading).Some?
    ensures RaceLine(RaceText(None, n, name), reading).value == RaceMatch(0, None, Decimal(n), name)
  {
    var d, rest := Decimal(n), NameText(name);
    var line := RaceText(None, n, name);
    ShortNumber(n);
    RaceTextParts([], d, rest);
    assert line == [] + d + "R" + rest;
    var e := |d|;
    assert forall q :: 0 <= q < e ==> line[q] == d[q];
    assert e + 1 == |line| || line[e + 1] == ' ';
    VenueFromAfterR(line, e, reading);
    if reading == WholeNumber {
      VenueFromDigits(line, 1, e);
    } else {
      assert e == 1 && NumberR(line, 1).None?;
    }
    NumberRText(line, 0, d);
    TailText(name);
    assert line[0..e] == d;
  }

  /** As written, a race line that starts with a two-digit number gives the first digit to the
      venue and the second to the race number. */
  lemma RaceRoundTripSplit(n: nat, name: Option<string>)
    requires 10 <= n < 100 && WellNamed(name)
    ensures var d := Decimal(n);
      |d| == 2 && RaceLine(RaceText(None, n, name), AsWritten).Some?
      && RaceLine(RaceText(None, n, name), AsWritten).value == RaceMatch(0, Some([d[0]]), [d[1]], name)
  {
    var d, rest := Decimal(n), NameText(name);
    var line := RaceText(None, n, name);
    ShortNumber(n);
    assert |d| == 2 by {
      assert Decimal(n) == Decimal(n / 10) + [DigitChar(n % 10)];
    }
    RaceTextParts([], d, rest);
    assert line == [] + d + "R" + rest;
    assert line[0] == d[0] && line[1] == d[1] && line[2] == 'R';
    assert NumberR(line, 1).Some? && NumberR(line, 1).value == 1;
    assert VenueFrom(line, 0, 1, AsWritten) == Some((1, 1));
    assert line[0..1] == [d[0]] && line[1..2] == [d[1]] && line[3..] == rest;
    TailText(name);
    SearchAtStart(line, AsWritten);
  }

  /** The label of a written-out race line is the line itself. */
  lemma LabelRoundTrip(venue: Option<string>, n: nat, name: Option<string>, reading: Reading)
    requires venue.Some? ==> VenueName(venue.value)
    requires n < 100 && WellNamed(name)
    ensures RaceLine(RaceText(venue, n, name), reading).Some?
    ensures RaceLabel(RaceLine(RaceText(venue, n, name), reading).value) == RaceText(venue, n, name)
  {
    if venue.Some? {
      RaceRoundTrip(venue.value, n, name, reading);
    } else if reading == WholeNumber || n < 10 {
      RaceRoundTripNoVenue(n, name, reading);
    } else {
      RaceRoundTripSplit(n, name);
      var d := Decimal(n);
      assert [d[0]] + [d[1]] == d;
    }
  }

  /** Worked case: as written, a line that starts with a two-digit race number gives its first
      digit to the venue. */
  lemma SplitNumberAsWritten()
    ensures RaceLine("11R", AsWritten).Some?
    ensures RaceLine("11R", AsWritten).value == RaceMatch(0, Some("1"), "1", None)
  {
    var line := "11R";
    assert NumberR(line, 1).Some? && NumberR(line, 1).value == 1;
    assert VenueFrom(line, 0, 1, AsWritten).Some?;
    assert line[0..1] == "1" && line[1..2] == "1" && line[3..] == [];
  }

  /** Worked case: the whole-number reading keeps both digits. */
  lemma SplitNumberWhole()
    ensures RaceLine("11R", WholeNumber).Some?
    ensures RaceLine("11R", WholeNumber).value == RaceMatch(0, None, "11", None)
  {
    RaceRoundTripNoVenue(11, None, WholeNumber);
    assert Decimal(11) == "11";
    assert RaceText(None, 11, None) == "11R";
  }
}
