/** The horse-number part that the odds line pattern and the bet line pattern share,
    `\d+(?:\s*[-→＝]\s*\d+)*`, and the global replacement of `\s*[-→＝]\s*` by `-`, which
    turns what it matched into a combination key. */
module NumberChain {
  import opened Wrappers
  import opened NumberKeys
  import opened JsText

  /** The characters `[-→＝]`. */
  predicate IsSeparator(c: char) {
    c == '-' || c == '→' || c == '＝'
  }

  /** One `\s*[-→＝]\s*\d+` repetition at the start of `t`, and its length. Each run in it is
      maximal: the character after a whitespace run has to be a separator or a digit, neither
      of which is whitespace, and a shorter digit run would leave a digit where the pattern
      needs whitespace, a separator or the odds. */
  function LinkAt(t: string): (r: Option<nat>)
    ensures r.Some? ==> 0 < r.value <= |t|
  {
    var a := Run(t, IsSpace);
    if a < |t| && IsSeparator(t[a]) then
      match SeparatedNumber(t[a + 1..])
      case Some(n) => Some(a + 1 + n)
      case None => None
    else None
  }

  /** The `\s*\d+` after a separator, and its length. */
  function SeparatedNumber(u: string): (r: Option<nat>)
    ensures r.Some? ==> 0 < r.value <= |u|
  {
    var b := Run(u, IsSpace);
    if b < |u| && IsDigitChar(u[b]) then Some(b + Run(u[b..], IsDigitChar)) else None
  }

  /** The repetitions `(?:…)*` taken greedily from the start of `t`, and their length. Fewer
      repetitions never let the rest of either pattern match: what follows the chain there
      begins with whitespace and then a digit or a comma, while the start of a dropped
      repetition has a separator after its whitespace. */
  function LinksFrom(t: string): (n: nat)
    ensures n <= |t|
    decreases |t|
  {
    match LinkAt(t)
    case Some(j) => j + LinksFrom(t[j..])
    case None => 0
  }

  /** The repetitions stop where no further one starts. */
  lemma {:induction false} LinksFromEnd(t: string)
    ensures LinkAt(t[LinksFrom(t)..]).None?
    decreases |t|
  {
    match LinkAt(t)
    case Some(j) =>
      LinksFromEnd(t[j..]);
      LinksStopLater(t, j);
    case None =>
      LinksStopHere(t);
  }

  /** Where one repetition of length `j` starts, the repetitions stop where those after it do. */
  lemma LinksStopLater(t: string, j: nat)
    requires LinkAt(t).Some? && LinkAt(t).value == j
    requires LinkAt(t[j..][LinksFrom(t[j..])..]).None?
    ensures LinkAt(t[LinksFrom(t)..]).None?
  {
    LinksFromStep(t, j);
    NoneAfterDrops(t, j, LinksFrom(t[j..]), LinksFrom(t), LinkAt);
  }

  /** One repetition of length `j`, then the ones after it. */
  lemma LinksFromStep(t: string, j: nat)
    requires LinkAt(t).Some? && LinkAt(t).value == j
    ensures LinksFrom(t) == j + LinksFrom(t[j..])
  {
  }

  /** Dropping `j` and then `m` characters is dropping `j + m` of them, whatever is asked of
      the rest. */
  lemma NoneAfterDrops(t: string, j: nat, m: nat, n: nat, f: string -> Option<nat>)
    requires j <= |t| && m <= |t| - j && n == j + m
    requires f(t[j..][m..]).None?
    ensures f(t[n..]).None?
  {
    DropDrop(t, j, m);
  }

  /** Where no repetition starts, the repetitions stop at once. */
  lemma LinksStopHere(t: string)
    requires LinkAt(t).None?
    ensures LinkAt(t[LinksFrom(t)..]).None?
  {
    DropNone(t);
    assert LinksFrom(t) == 0;
  }

  /** The chain at the start of `t`, and its length, when `t` starts with a digit. */
  function ChainAt(t: string): (r: Option<nat>)
    ensures r.Some? <==> t != [] && IsDigitChar(t[0])
    ensures r.Some? ==> 0 < r.value <= |t|
  {
    if t != [] && IsDigitChar(t[0]) then Some(Run(t, IsDigitChar) + LinksFrom(t[Run(t, IsDigitChar)..]))
    else None
  }

  /** The chain is taken greedily: no further repetition starts where it ends. */
  lemma ChainStops(t: string)
    requires ChainAt(t).Some?
    ensures LinkAt(t[ChainAt(t).value..]).None?
  {
    var a := Run(t, IsDigitChar);
    LinksFromEnd(t[a..]);
    DropDrop(t, a, LinksFrom(t[a..]));
  }

  /** Dropping twice is dropping once. */
  lemma DropDrop(t: string, j: nat, m: nat)
    requires j <= |t| && m <= |t| - j
    ensures t[j..][m..] == t[j + m..]
  {
  }

  /** Dropping nothing keeps the text. */
  lemma DropNone(t: string)
    ensures t[0..] == t
  {
  }

  /** The global replacement of `\s*[-→＝]\s*` by `-` in `t`: scanning left to right, a
      separator together with the whitespace around it becomes one `-`; every other character
      is kept. */
  function ReplaceSeparators(t: string): string
    decreases |t|
  {
    if t == [] then []
    else
      var a := Run(t, IsSpace);
      if a < |t| && IsSeparator(t[a]) then
        var u := t[a + 1..];
        "-" + ReplaceSeparators(u[Run(u, IsSpace)..])
      else [t[0]] + ReplaceSeparators(t[1..])
  }

  // ---------------------------------------------------------------- written-out chains

  /** One written-out repetition: whitespace, a separator, whitespace, a horse number. */
  datatype Link = Link(before: string, sep: char, after: string, horse: nat)

  predicate AllSpace(t: string) {
    forall k :: 0 <= k < |t| ==> IsSpace(t[k])
  }

  /** Non-empty whitespace, as `\s+` matches it between the horse numbers and what follows. */
  predicate Gap(gap: string) {
    gap != [] && AllSpace(gap)
  }

  predicate WellSpelled(l: Link) {
    AllSpace(l.before) && IsSeparator(l.sep) && AllSpace(l.after)
  }

  predicate AllWellSpelled(ls: seq<Link>) {
    forall k :: 0 <= k < |ls| ==> WellSpelled(ls[k])
  }

  function LinkText(l: Link): string {
    l.before + [l.sep] + l.after + Decimal(l.horse)
  }

  function LinksText(ls: seq<Link>): string {
    if ls == [] then "" else LinkText(ls[0]) + LinksText(ls[1..])
  }

  function Horses(ls: seq<Link>): (hs: seq<nat>)
    ensures |hs| == |ls|
    ensures forall k :: 0 <= k < |ls| ==> hs[k] == ls[k].horse
  {
    seq(|ls|, k requires 0 <= k < |ls| => ls[k].horse)
  }

  /** The horse numbers `h0`, then those of `ls`, written with the separators of `ls`. */
  function ChainText(h0: nat, ls: seq<Link>): string {
    Decimal(h0) + LinksText(ls)
  }

  /** The text does not start with a digit. */
  predicate NoDigitFirst(t: string) {
    t == [] || !IsDigitChar(t[0])
  }

  lemma SpaceNotSeparator(c: char)
    ensures IsSpace(c) ==> !IsSeparator(c) && !IsDigitChar(c)
    ensures IsSeparator(c) ==> !IsDigitChar(c)
  {
  }

  /** A written-out repetition is read back as one repetition. */
  lemma LinkAtText(l: Link, rest: string)
    requires WellSpelled(l) && NoDigitFirst(rest)
    ensures LinkAt(LinkText(l) + rest).Some? && LinkAt(LinkText(l) + rest).value == |LinkText(l)|
  {
    var t := LinkText(l) + rest;
    var u := l.after + Decimal(l.horse) + rest;
    var a := |l.before|;
    assert t == l.before + ([l.sep] + u);
    assert !IsSpace(l.sep);
    RunOver(l.before, [l.sep] + u, IsSpace);
    assert Run(t, IsSpace) == a;
    assert t[a] == l.sep;
    assert t[a + 1..] == u;
    SeparatedNumberText(l.after, l.horse, rest);
  }

  lemma SeparatedNumberText(w: string, h: nat, rest: string)
    requires AllSpace(w) && NoDigitFirst(rest)
    ensures SeparatedNumber(w + Decimal(h) + rest).Some?
    ensures SeparatedNumber(w + Decimal(h) + rest).value == |w| + |Decimal(h)|
  {
    var d := Decimal(h);
    var u := w + d + rest;
    assert !IsSpace(d[0]);
    assert u == w + (d + rest);
    RunOver(w, d + rest, IsSpace);
    var b := |w|;
    assert Run(u, IsSpace) == b;
    assert u[b..] == d + rest;
    assert u[b] == d[0];
    RunOver(d, rest, IsDigitChar);
  }

  /** The text of a link starts with whitespace or a separator, never with a digit. */
  lemma LinkTextStart(l: Link, rest: string)
    requires WellSpelled(l)
    ensures NoDigitFirst(LinkText(l) + rest)
  {
    if l.before != [] {
      assert (LinkText(l) + rest)[0] == l.before[0];
      SpaceNotSeparator(l.before[0]);
    } else {
      assert (LinkText(l) + rest)[0] == l.sep;
      SpaceNotSeparator(l.sep);
    }
  }

  /** Written-out repetitions are read back greedily to their end, when what follows them is
      neither a digit nor a further repetition. */
  lemma {:induction false} LinksFromText(ls: seq<Link>, rest: string)
    requires AllWellSpelled(ls) && NoDigitFirst(rest) && LinkAt(rest).None?
    ensures LinksFrom(LinksText(ls) + rest) == |LinksText(ls)|
    decreases |ls|
  {
    if ls == [] {
      assert LinksText(ls) + rest == rest;
    } else {
      var t, more := LinkText(ls[0]), LinksText(ls[1..]) + rest;
      assert LinksText(ls) + rest == t + more;
      MoreStart(ls[1..], rest);
      LinkAtText(ls[0], more);
      assert (t + more)[|t|..] == more;
      LinksFromText(ls[1..], rest);
      assert LinksFrom(t + more) == |t| + LinksFrom(more);
    }
  }

  /** Written-out repetitions followed by a text without a leading digit start without one. */
  lemma MoreStart(ls: seq<Link>, rest: string)
    requires AllWellSpelled(ls) && NoDigitFirst(rest)
    ensures NoDigitFirst(LinksText(ls) + rest)
  {
    if ls != [] {
      LinkTextStart(ls[0], LinksText(ls[1..]) + rest);
      assert LinksText(ls) + rest == LinkText(ls[0]) + (LinksText(ls[1..]) + rest);
    } else {
      assert LinksText(ls) + rest == rest;
    }
  }

  /** A written-out chain is read back to its end, when what follows it is neither a digit nor
      a further repetition. */
  lemma ChainAtText(h0: nat, ls: seq<Link>, rest: string)
    requires AllWellSpelled(ls) && NoDigitFirst(rest) && LinkAt(rest).None?
    ensures ChainAt(ChainText(h0, ls) + rest).Some?
    ensures ChainAt(ChainText(h0, ls) + rest).value == |ChainText(h0, ls)|
  {
    var d, more := Decimal(h0), LinksText(ls) + rest;
    var t := ChainText(h0, ls) + rest;
    assert t == d + more;
    MoreStart(ls, rest);
    RunOver(d, more, IsDigitChar);
    assert Run(t, IsDigitChar) == |d|;
    assert t[0] == d[0];
    assert t[|d|..] == more;
    LinksFromText(ls, rest);
    assert LinksFrom(t[|d|..]) == |LinksText(ls)|;
  }

  // ---------------------------------------------------------------- the key

  /** A digit is copied through. */
  lemma ReplaceDigit(c: char, rest: string)
    requires IsDigitChar(c)
    ensures ReplaceSeparators([c] + rest) == [c] + ReplaceSeparators(rest)
  {
    var t := [c] + rest;
    assert t[0] == c && !IsSpace(c);
    assert Run(t, IsSpace) == 0;
    assert t[1..] == rest;
  }

  /** A digit in front of a copied prefix is copied too. */
  lemma ReplaceDigitPrefix(c: char, e: string, rest: string)
    requires IsDigitChar(c)
    requires ReplaceSeparators(e + rest) == e + ReplaceSeparators(rest)
    ensures ReplaceSeparators([c] + e + rest) == [c] + e + ReplaceSeparators(rest)
  {
    assert [c] + e + rest == [c] + (e + rest);
    ReplaceDigit(c, e + rest);
  }

  /** Digits are copied through. */
  lemma {:induction false} ReplaceDigits(d: string, rest: string)
    requires forall k :: 0 <= k < |d| ==> IsDigitChar(d[k])
    ensures ReplaceSeparators(d + rest) == d + ReplaceSeparators(rest)
    decreases |d|
  {
    if d == [] {
      assert d + rest == rest;
    } else {
      ReplaceDigits(d[1..], rest);
      ReplaceDigitPrefix(d[0], d[1..], rest);
      assert d == [d[0]] + d[1..];
    }
  }

  /** A separator and its whitespace become one `-`. */
  lemma ReplaceLink(l: Link, rest: string)
    requires WellSpelled(l) && rest != [] && IsDigitChar(rest[0])
    ensures ReplaceSeparators(l.before + [l.sep] + l.after + rest) == "-" + ReplaceSeparators(rest)
  {
    var t := l.before + [l.sep] + l.after + rest;
    var u := l.after + rest;
    assert t == l.before + ([l.sep] + u);
    SpaceNotSeparator(l.sep);
    RunOver(l.before, [l.sep] + u, IsSpace);
    assert t[|l.before| + 1..] == u;
    SpaceNotSeparator(rest[0]);
    RunOver(l.after, rest, IsSpace);
    assert u[|l.after|..] == rest;
  }

  /** Whatever whitespace and separators the chain is written with, the key is the horse
      numbers joined by `-`: the formation generator's key for the same tuple. */
  lemma {:induction false} ReplaceChain(h0: nat, ls: seq<Link>)
    requires AllWellSpelled(ls)
    ensures ReplaceSeparators(ChainText(h0, ls)) == JoinKey([h0] + Horses(ls))
    decreases |ls|
  {
    if ls == [] {
      ReplaceDigits(Decimal(h0), []);
      assert ChainText(h0, ls) == Decimal(h0) + [];
      assert [h0] + Horses(ls) == [h0];
    } else {
      var tail := ChainText(ls[0].horse, ls[1..]);
      ChainTextCons(h0, ls);
      ReplaceChainStep(Decimal(h0), ls[0], tail);
      ReplaceChain(ls[0].horse, ls[1..]);
      HorsesCons(ls);
      JoinKeyCons(h0, [ls[0].horse] + Horses(ls[1..]));
      Assoc(Decimal(h0), "-", ReplaceSeparators(tail));
    }
  }

  /** Digits, then a written-out separator before a further number: the digits are copied and
      the separator with its whitespace becomes one `-`. */
  lemma ReplaceChainStep(d: string, l: Link, tail: string)
    requires forall k :: 0 <= k < |d| ==> IsDigitChar(d[k])
    requires WellSpelled(l) && tail != [] && IsDigitChar(tail[0])
    ensures ReplaceSeparators(d + (l.before + [l.sep] + l.after + tail)) == d + ("-" + ReplaceSeparators(tail))
  {
    ReplaceDigits(d, l.before + [l.sep] + l.after + tail);
    ReplaceLink(l, tail);
  }

  /** A chain's text starts with the first digit of its first number. */
  lemma ChainTextStart(h0: nat, ls: seq<Link>)
    ensures ChainText(h0, ls) != [] && IsDigitChar(ChainText(h0, ls)[0])
  {
    assert ChainText(h0, ls)[0] == Decimal(h0)[0];
  }

  /** The key of a tuple of at least two numbers is its first number, `-`, and the key of the
      rest. */
  lemma JoinKeyCons(h0: nat, hs: seq<nat>)
    requires hs != []
    ensures JoinKey([h0] + hs) == Decimal(h0) + "-" + JoinKey(hs)
  {
    assert ([h0] + hs)[1..] == hs;
  }

  lemma HorsesCons(ls: seq<Link>)
    requires ls != []
    ensures Horses(ls) == [ls[0].horse] + Horses(ls[1..])
  {
  }

  /** A chain with at least one repetition is its first number, the first separator with its
      whitespace, and the rest of the chain. */
  lemma ChainTextCons(h0: nat, ls: seq<Link>)
    requires ls != []
    ensures ChainText(h0, ls)
      == Decimal(h0) + (ls[0].before + [ls[0].sep] + ls[0].after + ChainText(ls[0].horse, ls[1..]))
    ensures ChainText(ls[0].horse, ls[1..]) != [] && IsDigitChar(ChainText(ls[0].horse, ls[1..])[0])
  {
    ChainTextStart(ls[0].horse, ls[1..]);
  }
}
