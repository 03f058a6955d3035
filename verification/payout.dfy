/** Settlement (`payout.ts`): the expected payout from per-ticket odds, hit detection against a
    posted result, and the actual payout, profit and return once the dividend is known. Odds and
    dividends are exact reals; the unit stake is an integer number of yen. */
module Payout {
  import opened Wrappers
  import opened KeibaTypes
  import opened Seqs
  import opened Sorting
  import NagashiTickets

  // ---------------------------------------------------------------- JavaScript helpers

  /** `x[i]`: the element, or `undefined` past the end. */
  function At(x: seq<int>, i: nat): Option<int> {
    if i < |x| then Some(x[i]) else None
  }

  /** A number is truthy unless it is missing or zero (`if (sel.odds)`, `result.dividend ? … : 0`). */
  predicate Truthy(v: Option<real>) {
    v.Some? && v.value != 0.0
  }

  /** `totalCost > 0 ? (payout / totalCost) * 100 : 0`. */
  function ReturnRate(payout: int, cost: int): (r: real)
    ensures cost <= 0 ==> r == 0.0
    ensures cost > 0 ==> r * (cost as real) == (payout as real) * 100.0
  {
    if cost > 0 then (payout as real / cost as real) * 100.0 else 0.0
  }

  // ---------------------------------------------------------------- calculateExpectedPayout

  /** One ticket's expected return: the odds times the stake, cut down to whole hundreds of yen;
      a ticket without (truthy) odds returns nothing. */
  function TicketPayout(odds: Option<real>, unit: int): (p: int)
    ensures p % 100 == 0
    ensures !Truthy(odds) ==> p == 0
  {
    if Truthy(odds) then ((odds.value * unit as real) / 100.0).Floor * 100 else 0
  }

  /** The cut loses less than 100 yen: the payout is the largest multiple of 100 not above
      odds times stake. */
  lemma TicketPayoutBounds(odds: real, unit: int)
    requires odds != 0.0
    ensures var p := TicketPayout(Some(odds), unit);
      (p as real) <= odds * (unit as real) < (p as real) + 100.0
  {
    var v := odds * (unit as real);
    var f := (v / 100.0).Floor;
    assert (f as real) <= v / 100.0 < (f as real) + 1.0;
  }

  /** The expected payouts of the tickets, added up. */
  function SumPayout(s: seq<Selection>, unit: int): (total: int)
    ensures total % 100 == 0
  {
    if s == [] then 0
    else
      HundredsAdd(TicketPayout(s[0].odds, unit), SumPayout(s[1..], unit));
      TicketPayout(s[0].odds, unit) + SumPayout(s[1..], unit)
  }

  lemma HundredsAdd(a: int, b: int)
    requires a % 100 == 0 && b % 100 == 0
    ensures (a + b) % 100 == 0
  {
    assert a + b == 100 * (a / 100 + b / 100);
  }

  lemma {:induction false} SumPayoutAppend(a: seq<Selection>, b: seq<Selection>, unit: int)
    ensures SumPayout(a + b, unit) == SumPayout(a, unit) + SumPayout(b, unit)
  {
    if a == [] {
      assert a + b == b;
    } else {
      assert (a + b)[1..] == a[1..] + b;
      SumPayoutAppend(a[1..], b, unit);
    }
  }

  predicate HasOdds(s: Selection) {
    Truthy(s.odds)
  }

  /** Tickets without odds add nothing: the total is the total over the tickets that have odds. */
  lemma {:induction false} SumPayoutOnlyOdds(s: seq<Selection>, unit: int)
    ensures SumPayout(Filter(s, HasOdds), unit) == SumPayout(s, unit)
  {
    if s != [] {
      var f := Filter(s[1..], HasOdds);
      SumPayoutOnlyOdds(s[1..], unit);
      if HasOdds(s[0]) {
        assert Filter(s, HasOdds) == [s[0]] + f;
        SumPayoutAppend([s[0]], f, unit);
        assert SumPayout([s[0]], unit) == TicketPayout(s[0].odds, unit);
      } else {
        assert Filter(s, HasOdds) == [] + f == f;
      }
    }
  }

  /** With a non-negative stake and non-negative odds the expected payout is never negative. */
  lemma {:induction false} SumPayoutNonNegative(s: seq<Selection>, unit: int)
    requires unit >= 0
    requires forall k :: 0 <= k < |s| ==> s[k].odds.Some? ==> s[k].odds.value >= 0.0
    ensures SumPayout(s, unit) >= 0
  {
    if s != [] {
      assert forall k :: 0 <= k < |s[1..]| ==> s[1..][k] == s[k + 1];
      SumPayoutNonNegative(s[1..], unit);
      TicketPayoutNonNegative(s[0].odds, unit);
    }
  }

  /** Non-negative odds at a non-negative stake expect a non-negative payout. */
  lemma TicketPayoutNonNegative(odds: Option<real>, unit: int)
    requires unit >= 0 && (odds.Some? ==> odds.value >= 0.0)
    ensures TicketPayout(odds, unit) >= 0
  {
    if Truthy(odds) {
      assert odds.value * (unit as real) >= 0.0;
    }
  }

  datatype ExpectedSummary = ExpectedSummary(totalPayout: int, returnRate: real, totalCost: int)

  /** `calculateExpectedPayout`: the cost is one stake per ticket, the payout the sum of the
      per-ticket payouts, and the return rate their ratio in percent. */
  method CalculateExpectedPayout(selections: seq<Selection>, unit: int) returns (r: ExpectedSummary)
    ensures r.totalCost == |selections| * unit
    ensures r.totalPayout == SumPayout(selections, unit)
    ensures r.totalPayout % 100 == 0
    ensures r.returnRate == ReturnRate(r.totalPayout, r.totalCost)
  {
    var totalCost := |selections| * unit;
    var totalPayout := 0;
    var i := 0;
    while i < |selections|
      invariant 0 <= i <= |selections|
      invariant totalPayout == SumPayout(selections[..i], unit)
    {
      var sel := selections[i];
      if Truthy(sel.odds) {
        totalPayout := totalPayout + ((sel.odds.value * unit as real) / 100.0).Floor * 100;
      }
      assert selections[..i + 1] == selections[..i] + [sel];
      SumPayoutAppend(selections[..i], [sel], unit);
      assert SumPayout([sel], unit) == TicketPayout(sel.odds, unit);
      i := i + 1;
    }
    assert selections[..i] == selections;
    r := ExpectedSummary(totalPayout, ReturnRate(totalPayout, totalCost), totalCost);
  }

  // ---------------------------------------------------------------- checkHit

  /** The finishers a ワイド ticket may name: first, second and, when posted, third. */
  function Top3(result: BetResult): seq<int> {
    [result.first, result.second] + (if result.third.Some? then [result.third.value] else [])
  }

  /** `top3.includes(x)` with `x` possibly `undefined`. */
  predicate Includes(top: seq<int>, x: Option<int>) {
    x.Some? && x.value in top
  }

  /** 馬連/枠連: the sorted ticket's first two horses are the sorted first two finishers. */
  predicate QuinellaCheck(h: seq<int>, result: BetResult) {
    PairMatches(SortAscending(h), SortAscending([result.first, result.second]))
  }

  /** `selPair[0] === resultPair[0] && selPair[1] === resultPair[1]`. */
  predicate PairMatches(selPair: seq<int>, resultPair: seq<int>)
    requires |resultPair| == 2
  {
    At(selPair, 0) == Some(resultPair[0]) && At(selPair, 1) == Some(resultPair[1])
  }

  /** ワイド: the sorted ticket's first two horses are both among the top three. */
  predicate WideCheck(h: seq<int>, result: BetResult) {
    BothIn(Top3(result), SortAscending(h))
  }

  /** `top3.includes(selPair[0]) && top3.includes(selPair[1])`. */
  predicate BothIn(top: seq<int>, selPair: seq<int>) {
    Includes(top, At(selPair, 0)) && Includes(top, At(selPair, 1))
  }

  /** 3連複: the sorted ticket's first three horses are the sorted top three. */
  predicate TrioCheck(h: seq<int>, result: BetResult) {
    result.third.Some?
    && TripleMatches(SortAscending(h), SortAscending([result.first, result.second, result.third.value]))
  }

  /** The three positional comparisons of the sorted triples. */
  predicate TripleMatches(selTriple: seq<int>, resultTriple: seq<int>)
    requires |resultTriple| == 3
  {
    At(selTriple, 0) == Some(resultTriple[0]) && At(selTriple, 1) == Some(resultTriple[1])
    && At(selTriple, 2) == Some(resultTriple[2])
  }

  /** `checkHit`: whether a ticket wins against the posted result. Tuples are read positionally
      with JavaScript's out-of-range `undefined`, which never equals a finisher; the unordered
      pair and trio bets compare sorted copies. */
  predicate CheckHit(b: BetType, sel: Selection, result: BetResult) {
    match b
    case Tansho => At(sel.horses, 0) == Some(result.first)
    case Fukusho =>
      At(sel.horses, 0) == Some(result.first) || At(sel.horses, 0) == Some(result.second)
      || (result.third.Some? && At(sel.horses, 0) == result.third)
    case Wakuren | Umaren => QuinellaCheck(sel.horses, result)
    case Wide => WideCheck(sel.horses, result)
    case Umatan => At(sel.horses, 0) == Some(result.first) && At(sel.horses, 1) == Some(result.second)
    case Sanrenpuku => TrioCheck(sel.horses, result)
    case Sanrentan =>
      result.third.Some? && At(sel.horses, 0) == Some(result.first) && At(sel.horses, 1) == Some(result.second)
      && At(sel.horses, 2) == result.third
  }

  /** 単勝, 馬単 and 3連単 hit on positional equality; 3連単 (and 3連複) need a posted third. */
  lemma PositionalHits(sel: Selection, result: BetResult)
    ensures CheckHit(Tansho, sel, result) <==> |sel.horses| >= 1 && sel.horses[0] == result.first
    ensures CheckHit(Umatan, sel, result) <==>
      |sel.horses| >= 2 && sel.horses[0] == result.first && sel.horses[1] == result.second
    ensures CheckHit(Sanrentan, sel, result) <==>
      result.third.Some? && |sel.horses| >= 3 && sel.horses[..3] == [result.first, result.second, result.third.value]
    ensures result.third.None? ==> !CheckHit(Sanrenpuku, sel, result) && !CheckHit(Sanrentan, sel, result)
  {
    var h := sel.horses;
    if result.third.Some? && |h| >= 3 {
      assert h[..3] == [h[0], h[1], h[2]];
    }
  }

  /** 複勝 hits when its horse finished first, second or (when posted) third. */
  lemma PlaceHit(sel: Selection, result: BetResult)
    ensures CheckHit(Fukusho, sel, result) <==> |sel.horses| >= 1 && sel.horses[0] in Top3(result)
  {
  }

  /** Sorting two numbers puts the smaller first. */
  lemma SortPair(x: int, y: int)
    ensures SortAscending([x, y]) == [NagashiTickets.Min(x, y), NagashiTickets.Max(x, y)]
  {
    assert multiset([x, y]) == multiset{x, y};
    NagashiTickets.MinMaxCanonical(x, y, SortAscending([x, y]));
  }

  lemma SortedPairOf(h: seq<int>)
    requires |h| == 2
    ensures SortAscending(h) == [NagashiTickets.Min(h[0], h[1]), NagashiTickets.Max(h[0], h[1])]
  {
    assert h == [h[0], h[1]];
    SortPair(h[0], h[1]);
  }

  /** For a two-horse ticket the 馬連 comparison is equality of the sorted pairs. */
  lemma QuinellaCheckSorted(h: seq<int>, result: BetResult)
    requires |h| == 2
    ensures QuinellaCheck(h, result) <==> SortAscending(h) == SortAscending([result.first, result.second])
  {
    PairMatchesEq(SortAscending(h), SortAscending([result.first, result.second]));
  }

  /** Two pairs match position by position exactly when they are equal. */
  lemma PairMatchesEq(a: seq<int>, b: seq<int>)
    requires |a| == 2 && |b| == 2
    ensures PairMatches(a, b) <==> a == b
  {
    if PairMatches(a, b) {
      assert a == [a[0], a[1]] && b == [b[0], b[1]];
    }
  }

  /** Two numbers sort like another two exactly when they are the same two. */
  lemma SamePairSorted(h: seq<int>, x: int, y: int)
    requires |h| == 2
    ensures SortAscending(h) == SortAscending([x, y]) <==> Bag(h) == multiset{x, y}
  {
    SortPair(x, y);
    NagashiTickets.MinMaxCanonical(x, y, SortAscending(h));
  }

  /** A two-horse 馬連/枠連 ticket hits exactly when it names the first two finishers, in
      either order. */
  lemma QuinellaHit(b: BetType, sel: Selection, result: BetResult)
    requires b == Umaren || b == Wakuren
    requires |sel.horses| == 2
    ensures CheckHit(b, sel, result) <==> Bag(sel.horses) == multiset{result.first, result.second}
  {
    QuinellaByType(b, sel, result);
    QuinellaCheckSorted(sel.horses, result);
    SamePairSorted(sel.horses, result.first, result.second);
  }

  /** A two-horse ワイド ticket hits exactly when both of its horses are among the top three. */
  lemma WideHit(sel: Selection, result: BetResult)
    requires |sel.horses| == 2
    ensures CheckHit(Wide, sel, result) <==> sel.horses[0] in Top3(result) && sel.horses[1] in Top3(result)
  {
    var h := sel.horses;
    WideByType(sel, result);
    SortedPairOf(h);
    WideOfPair(Top3(result), NagashiTickets.Min(h[0], h[1]), NagashiTickets.Max(h[0], h[1]));
    assert NagashiTickets.Min(h[0], h[1]) in Top3(result) && NagashiTickets.Max(h[0], h[1]) in Top3(result)
      <==> h[0] in Top3(result) && h[1] in Top3(result);
  }

  /** Both horses of a sorted pair are among `top`. */
  lemma WideOfPair(top: seq<int>, x: int, y: int)
    ensures BothIn(top, [x, y]) <==> x in top && y in top
  {
  }

  /** For a three-horse ticket the 3連複 comparison is equality of the sorted triples. */
  lemma TrioCheckSorted(h: seq<int>, result: BetResult)
    requires |h| == 3 && result.third.Some?
    ensures TrioCheck(h, result) <==>
      SortAscending(h) == SortAscending([result.first, result.second, result.third.value])
  {
    TripleMatchesEq(SortAscending(h), SortAscending([result.first, result.second, result.third.value]));
  }

  /** Two triples match position by position exactly when they are equal. */
  lemma TripleMatchesEq(a: seq<int>, b: seq<int>)
    requires |a| == 3 && |b| == 3
    ensures TripleMatches(a, b) <==> a == b
  {
    if TripleMatches(a, b) {
      assert a == [a[0], a[1], a[2]] && b == [b[0], b[1], b[2]];
    }
  }

  /** A three-horse 3連複 ticket hits exactly when it names the top three, in any order. */
  lemma TrioHit(sel: Selection, result: BetResult)
    requires |sel.horses| == 3 && result.third.Some?
    ensures CheckHit(Sanrenpuku, sel, result) <==>
      Bag(sel.horses) == multiset{result.first, result.second, result.third.value}
  {
    TrioByType(sel, result);
    TrioCheckSorted(sel.horses, result);
    NagashiTickets.TrioCanonical(result.first, result.second, result.third.value, SortAscending(sel.horses));
    SortedBag(sel.horses);
  }

  /** Sorting keeps the horses and their number. */
  lemma SortedBag(h: seq<int>)
    ensures |SortAscending(h)| == |h| && Ascending(SortAscending(h)) && Bag(SortAscending(h)) == Bag(h)
  {
  }

  /** 馬連 and 枠連 make the sorted-pair comparison. */
  lemma QuinellaByType(b: BetType, sel: Selection, result: BetResult)
    requires b == Umaren || b == Wakuren
    ensures CheckHit(b, sel, result) == QuinellaCheck(sel.horses, result)
  {
  }

  /** ワイド makes the top-three comparison. */
  lemma WideByType(sel: Selection, result: BetResult)
    ensures CheckHit(Wide, sel, result) == WideCheck(sel.horses, result)
  {
  }

  /** 3連複 makes the sorted-triple comparison. */
  lemma TrioByType(sel: Selection, result: BetResult)
    ensures CheckHit(Sanrenpuku, sel, result) == TrioCheck(sel.horses, result)
  {
  }

  /** The unordered bets look only at which horses a ticket names, not at their order. */
  lemma UnorderedHitIgnoresOrder(b: BetType, s1: Selection, s2: Selection, result: BetResult)
    requires b == Umaren || b == Wakuren || b == Wide || b == Sanrenpuku
    requires Bag(s1.horses) == Bag(s2.horses)
    ensures CheckHit(b, s1, result) == CheckHit(b, s2, result)
  {
    SortAscendingCanonical(s1.horses, s2.horses);
    if b == Wide {
      WideByType(s1, result);
      WideByType(s2, result);
    } else if b == Sanrenpuku {
      TrioByType(s1, result);
      TrioByType(s2, result);
    } else {
      QuinellaByType(b, s1, result);
      QuinellaByType(b, s2, result);
    }
  }

  // ---------------------------------------------------------------- calculateActualResult

  /** Settlement of one purchase against a result. */
  datatype CalculationResult = CalculationResult(
    ticketCount: int, totalCost: int, actualPayout: int, actualReturn: real, profit: int,
    hitTickets: seq<Selection>)

  function HitBy(b: BetType, result: BetResult): Selection -> bool {
    s => CheckHit(b, s, result)
  }

  /** The payout of one winning ticket: the dividend (per 100 yen) scaled to the stake, cut down
      to whole hundreds of yen. */
  function PayoutPerHit(dividend: real, unit: int): (p: int)
    ensures p % 100 == 0
  {
    ((dividend * unit as real) / 100.0 / 100.0).Floor * 100
  }

  /** Each winner is paid the dividend for its stake, cut down by less than 100 yen. */
  lemma PayoutPerHitBounds(dividend: real, unit: int)
    ensures var p := PayoutPerHit(dividend, unit);
      (p as real) <= dividend * (unit as real) / 100.0 < (p as real) + 100.0
  {
    var v := dividend * (unit as real) / 100.0;
    var f := (v / 100.0).Floor;
    assert (f as real) <= v / 100.0 < (f as real) + 1.0;
  }

  lemma HundredsTimes(n: nat, per: int)
    requires per % 100 == 0
    ensures (n * per) % 100 == 0
  {
    assert n * per == 100 * (n * (per / 100));
  }

  /** The loop of `calculateActualResult`: each ticket that hits is appended to the winners. */
  method HitTickets(b: BetType, selections: seq<Selection>, result: BetResult) returns (hits: seq<Selection>)
    ensures hits == Filter(selections, HitBy(b, result))
  {
    var isHit := HitBy(b, result);
    hits := [];
    var i := 0;
    while i < |selections|
      invariant 0 <= i <= |selections|
      invariant hits == Filter(selections[..i], isHit)
    {
      var sel := selections[i];
      if isHit(sel) {
        hits := hits + [sel];
      }
      FilterSnoc(selections, i, isHit);
      i := i + 1;
    }
    assert selections[..i] == selections;
  }

  /** `calculateActualResult`: the winners are the tickets that hit, in purchase order; without
      a dividend nothing is paid; otherwise each winner pays the same whole-hundreds amount. */
  method CalculateActualResult(b: BetType, selections: seq<Selection>, unit: int, result: BetResult)
    returns (r: CalculationResult)
    ensures r.ticketCount == |selections| && r.totalCost == |selections| * unit
    ensures r.hitTickets == Filter(selections, HitBy(b, result))
    ensures forall k :: 0 <= k < |r.hitTickets| ==> CheckHit(b, r.hitTickets[k], result)
    ensures forall s :: s in selections && CheckHit(b, s, result) ==> s in r.hitTickets
    ensures !Truthy(result.dividend) ==> r.actualPayout == 0
    ensures Truthy(result.dividend) ==>
      r.actualPayout == |r.hitTickets| * PayoutPerHit(result.dividend.value, unit)
    ensures r.actualPayout % 100 == 0
    ensures r.profit == r.actualPayout - r.totalCost
    ensures r.actualReturn == ReturnRate(r.actualPayout, r.totalCost)
  {
    var totalCost := |selections| * unit;
    var hitTickets := HitTickets(b, selections, result);
    var actualPayout := 0;
    if Truthy(result.dividend) {
      var per := ((result.dividend.value * unit as real) / 100.0 / 100.0).Floor * 100;
      assert per == PayoutPerHit(result.dividend.value, unit);
      actualPayout := |hitTickets| * per;
      HundredsTimes(|hitTickets|, per);
    }
    FilterKeeps(selections, HitBy(b, result));
    r := CalculationResult(|selections|, totalCost, actualPayout, ReturnRate(actualPayout, totalCost),
      actualPayout - totalCost, hitTickets);
  }

  /** Worked case: a 100-yen ticket at odds 3.5 expects 300 yen. */
  lemma ExpectedScenario()
    ensures TicketPayout(Some(3.5), 100) == 300
  {
    assert 3.5 * (100 as real) / 100.0 == 3.5;
    assert (3.5).Floor == 3;
  }

  /** Worked case: 3連単 without a posted third never hits. */
  lemma TrifectaScenario()
    ensures !CheckHit(Sanrentan, Selection([7, 3, 1], None), BetResult(7, 3, None, None))
  {
  }

  lemma QuinellaScenario()
    ensures CheckHit(Umaren, Selection([5, 2], None), BetResult(2, 5, None, None))
  {
    QuinellaHit(Umaren, Selection([5, 2], None), BetResult(2, 5, None, None));
    assert multiset([5, 2]) == multiset{2, 5};
  }

  lemma WideScenario()
    ensures CheckHit(Wide, Selection([1, 7], None), BetResult(7, 3, Some(1), None))
  {
    WideHit(Selection([1, 7], None), BetResult(7, 3, Some(1), None));
  }
}
