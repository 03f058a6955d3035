/** The bet-type keywords both ipat importers look for in a line (`betTypeMap`), and the
    odds importer's choice of bet type over all lines. */
module BetKeywords {
  import opened Wrappers
  import opened KeibaTypes
  import opened JsText

  /** `betTypeMap` in the order `Object.entries` visits it: insertion order, the kanji
      numeral spelling of each trio type before the digit spelling. */
  const Keywords: seq<(string, BetType)> := [
    ("単勝", Tansho), ("複勝", Fukusho), ("枠連", Wakuren), ("馬連", Umaren),
    ("ワイド", Wide), ("馬単", Umatan), ("三連複", Sanrenpuku), ("3連複", Sanrenpuku),
    ("三連単", Sanrentan), ("3連単", Sanrentan)]

  /** The index of the first keyword at or after `k` that `line` includes, or `|Keywords|`. */
  function FirstIncluded(line: string, k: nat): (i: nat)
    requires k <= |Keywords|
    ensures k <= i <= |Keywords|
    ensures forall j :: k <= j < i ==> !Includes(line, Keywords[j].0)
    ensures i < |Keywords| ==> Includes(line, Keywords[i].0)
    decreases |Keywords| - k
  {
    if k == |Keywords| || Includes(line, Keywords[k].0) then k else FirstIncluded(line, k + 1)
  }

  /** The keyword loop with its `break`: the type of the first table entry the line includes. */
  function LineBetType(line: string): Option<BetType> {
    var i := FirstIncluded(line, 0);
    if i < |Keywords| then Some(Keywords[i].1) else None
  }

  /** A line names no bet type exactly when it includes no keyword, and otherwise the one it
      names belongs to the earliest keyword it includes. */
  lemma LineBetTypeFirst(line: string)
    ensures LineBetType(line).None? <==> forall j :: 0 <= j < |Keywords| ==> !Includes(line, Keywords[j].0)
    ensures LineBetType(line).Some? ==> exists i :: (0 <= i < |Keywords| && Includes(line, Keywords[i].0)
      && Keywords[i].1 == LineBetType(line).value && forall j :: 0 <= j < i ==> !Includes(line, Keywords[j].0))
  {
    var i := FirstIncluded(line, 0);
    if i < |Keywords| {
      assert Keywords[i].1 == LineBetType(line).value;
    }
  }

  /** The index of the last line `f` gives a value for, or -1. */
  function LastGivenIndex<T>(lines: seq<string>, f: string -> Option<T>): (i: int)
    ensures -1 <= i < |lines|
    ensures i >= 0 ==> f(lines[i]).Some?
    ensures forall j :: i < j < |lines| ==> f(lines[j]).None?
  {
    if lines == [] then -1
    else if f(lines[|lines| - 1]).Some? then |lines| - 1
    else
      var i := LastGivenIndex(lines[..|lines| - 1], f);
      assert forall j :: i < j < |lines| - 1 ==> lines[..|lines| - 1][j] == lines[j];
      i
  }

  /** The value `f` gives for the last line it gives one for: what a loop that overwrites a
      variable whenever `f` yields leaves behind. */
  function LastGiven<T>(lines: seq<string>, f: string -> Option<T>): (r: Option<T>)
    ensures r.None? <==> forall i :: 0 <= i < |lines| ==> f(lines[i]).None?
    ensures r.Some? ==> exists i :: (0 <= i < |lines| && f(lines[i]) == r
      && forall j :: i < j < |lines| ==> f(lines[j]).None?)
  {
    var i := LastGivenIndex(lines, f);
    if i < 0 then None else f(lines[i])
  }

  /** One more line: its value when it gives one, and otherwise what the lines before it left. */
  lemma LastGivenSnoc<T>(lines: seq<string>, f: string -> Option<T>)
    requires lines != []
    ensures var n := |lines| - 1;
      LastGiven(lines, f) == if f(lines[n]).Some? then f(lines[n]) else LastGiven(lines[..n], f)
  {
  }

  /** The line appended last decides, when it gives a value. */
  lemma LastGivenAppend<T>(before: seq<string>, line: string, f: string -> Option<T>)
    ensures LastGiven(before + [line], f) == if f(line).Some? then f(line) else LastGiven(before, f)
  {
    var lines := before + [line];
    assert lines[..|lines| - 1] == before;
    assert lines[|lines| - 1] == line;
    LastGivenSnoc(lines, f);
  }

  /** The odds importer's detection loop: the type of the last line that names one. */
  function DetectBetType(lines: seq<string>): Option<BetType> {
    LastGiven(lines, LineBetType)
  }

  /** A keyword holding a character the line lacks is not included in it. */
  lemma CharAbsent(line: string, k: string, j: nat)
    requires j < |k| && k[j] !in line
    ensures !Includes(line, k)
  {
    forall i | 0 <= i <= |line| - |k| ensures !OccursAt(line, k, i) {
      assert line[i..i + |k|][j] == line[i + j];
    }
  }

  /** A line that is a keyword includes it. */
  lemma IncludesSelf(k: string)
    ensures Includes(k, k)
  {
    assert OccursAt(k, k, 0);
  }

  /** Every bet type is named by a line that is exactly its own label. */
  lemma LabelsDetectedPairs()
    ensures LineBetType("単勝") == Some(Tansho)
    ensures LineBetType("複勝") == Some(Fukusho)
    ensures LineBetType("枠連") == Some(Wakuren)
    ensures LineBetType("馬連") == Some(Umaren)
  {
    IncludesSelf("単勝");
    IncludesSelf("複勝");
    CharAbsent("複勝", "単勝", 0);
    IncludesSelf("枠連");
    CharAbsent("枠連", "単勝", 0);
    CharAbsent("枠連", "複勝", 0);
    IncludesSelf("馬連");
    CharAbsent("馬連", "単勝", 0);
    CharAbsent("馬連", "複勝", 0);
    CharAbsent("馬連", "枠連", 0);
  }

  lemma LabelsDetectedWideUmatan()
    ensures LineBetType("ワイド") == Some(Wide)
    ensures LineBetType("馬単") == Some(Umatan)
  {
    IncludesSelf("ワイド");
    CharAbsent("ワイド", "単勝", 0);
    CharAbsent("ワイド", "複勝", 0);
    CharAbsent("ワイド", "枠連", 0);
    CharAbsent("ワイド", "馬連", 0);
    IncludesSelf("馬単");
    CharAbsent("馬単", "単勝", 1);
    CharAbsent("馬単", "複勝", 0);
    CharAbsent("馬単", "枠連", 0);
    CharAbsent("馬単", "馬連", 1);
    CharAbsent("馬単", "ワイド", 0);
  }

  /** No pair or single keyword occurs in a trio type's spelling. */
  lemma TrioSpelling(line: string)
    requires |line| == 3 && (line[0] == '3' || line[0] == '三') && line[1] == '連'
    requires line[2] == '複' || line[2] == '単'
    ensures forall k :: 0 <= k < 6 ==> !Includes(line, Keywords[k].0)
  {
    assert forall c :: c in line ==> c == line[0] || c == line[1] || c == line[2];
    CharAbsent(line, "単勝", 1);
    CharAbsent(line, "複勝", 1);
    CharAbsent(line, "枠連", 0);
    CharAbsent(line, "馬連", 0);
    CharAbsent(line, "ワイド", 0);
    CharAbsent(line, "馬単", 0);
  }

  /** The kanji and the digit spellings of 3連複 name the same type. */
  lemma LabelsDetectedSanrenpuku()
    ensures LineBetType("3連複") == LineBetType("三連複") == Some(Sanrenpuku)
  {
    TrioSpelling("三連複");
    TrioSpelling("3連複");
    IncludesSelf("三連複");
    IncludesSelf("3連複");
    CharAbsent("3連複", "三連複", 0);
  }

  /** The kanji and the digit spellings of 3連単 name the same type. */
  lemma LabelsDetectedSanrentan()
    ensures LineBetType("3連単") == LineBetType("三連単") == Some(Sanrentan)
  {
    TrioSpelling("三連単");
    TrioSpelling("3連単");
    IncludesSelf("三連単");
    IncludesSelf("3連単");
    CharAbsent("三連単", "三連複", 2);
    CharAbsent("三連単", "3連複", 0);
    CharAbsent("3連単", "三連複", 0);
    CharAbsent("3連単", "3連複", 2);
    CharAbsent("3連単", "三連単", 0);
  }
}
