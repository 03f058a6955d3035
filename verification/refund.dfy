/** Scratched horses (`refund.ts`): tickets naming a scratched (返還) horse are refunded, the
    others stay valid, and the refund and the remaining cost follow from the two counts. */
module Refund {
  import opened Wrappers
  import opened KeibaTypes
  import opened Seqs

  /** `sel.horses.some(h => refundHorses.includes(h))`. */
  predicate HasRefundHorse(sel: Selection, refundHorses: seq<int>) {
    exists i :: 0 <= i < |sel.horses| && sel.horses[i] in refundHorses
  }

  function Scratched(refundHorses: seq<int>): Selection -> bool {
    sel => HasRefundHorse(sel, refundHorses)
  }

  function Runs(refundHorses: seq<int>): Selection -> bool {
    sel => !HasRefundHorse(sel, refundHorses)
  }

  datatype RefundSummary = RefundSummary(
    validSelections: seq<Selection>, refundedSelections: seq<Selection>,
    refundCount: int, refundAmount: int, newTotalCost: int)

  /** The loop of `processRefund`: each ticket is appended to the refunded or the valid list. */
  method SplitTickets(selections: seq<Selection>, refundHorses: seq<int>)
    returns (valid: seq<Selection>, refunded: seq<Selection>)
    ensures refunded == Filter(selections, Scratched(refundHorses))
    ensures valid == Filter(selections, Runs(refundHorses))
  {
    valid, refunded := [], [];
    var i := 0;
    while i < |selections|
      invariant 0 <= i <= |selections|
      invariant refunded == Filter(selections[..i], Scratched(refundHorses))
      invariant valid == Filter(selections[..i], Runs(refundHorses))
    {
      var sel := selections[i];
      var hasRefundHorse := HasRefundHorse(sel, refundHorses);
      if hasRefundHorse {
        refunded := refunded + [sel];
      } else {
        valid := valid + [sel];
      }
      FilterSnoc(selections, i, Scratched(refundHorses));
      FilterSnoc(selections, i, Runs(refundHorses));
      i := i + 1;
    }
    assert selections[..i] == selections;
  }

  /** `processRefund`: an order-preserving split of the tickets into those without and those
      with a scratched horse. The bet type is never read, so the split depends only on the
      tickets and the scratched horses. */
  method ProcessRefund(b: BetType, selections: seq<Selection>, refundHorses: seq<int>, unit: int)
    returns (r: RefundSummary)
    ensures r.refundedSelections == Filter(selections, Scratched(refundHorses))
    ensures r.validSelections == Filter(selections, Runs(refundHorses))
    ensures multiset(r.validSelections) + multiset(r.refundedSelections) == multiset(selections)
    ensures forall k :: 0 <= k < |r.refundedSelections| ==> HasRefundHorse(r.refundedSelections[k], refundHorses)
    ensures forall k :: 0 <= k < |r.validSelections| ==> !HasRefundHorse(r.validSelections[k], refundHorses)
    ensures r.refundCount == |r.refundedSelections|
    ensures r.refundAmount == r.refundCount * unit
    ensures r.newTotalCost == |r.validSelections| * unit
    ensures r.refundAmount + r.newTotalCost == |selections| * unit
    ensures refundHorses == [] ==> r.validSelections == selections && r.refundCount == 0 && r.refundAmount == 0
  {
    var valid, refunded := SplitTickets(selections, refundHorses);
    SplitFacts(selections, refundHorses);
    var n, m := |refunded|, |valid|;
    assert n + m == |selections|;
    Distribute(n, m, unit);
    assert n * unit + m * unit == |selections| * unit;
    assert refundHorses == [] ==> m == |selections| && n == 0;
    r := RefundSummary(valid, refunded, |refunded|, |refunded| * unit, |valid| * unit);
  }

  /** The two filters split the tickets between them; with nothing scratched, all stay valid. */
  lemma SplitFacts(s: seq<Selection>, refundHorses: seq<int>)
    ensures multiset(Filter(s, Runs(refundHorses))) + multiset(Filter(s, Scratched(refundHorses))) == multiset(s)
    ensures |Filter(s, Runs(refundHorses))| + |Filter(s, Scratched(refundHorses))| == |s|
    ensures refundHorses == [] ==> Filter(s, Runs(refundHorses)) == s
  {
    FilterComplement(s, Runs(refundHorses), Scratched(refundHorses));
    if refundHorses == [] {
      FilterAll(s, Runs(refundHorses));
    }
  }

  lemma Distribute(a: int, b: int, u: int)
    ensures a * u + b * u == (a + b) * u
  {
  }

  /** Worked case: with horse 3 scratched, 1-3 is refunded and 1-2 stays valid. */
  lemma RefundScenario()
    ensures Filter([Selection([1, 3], None), Selection([1, 2], None)], Scratched([3]))
      == [Selection([1, 3], None)]
  {
    var s := [Selection([1, 3], None), Selection([1, 2], None)];
    assert HasRefundHorse(s[0], [3]) by {
      assert s[0].horses[1] in [3];
    }
    assert s[1..] == [Selection([1, 2], None)];
    assert [Selection([1, 2], None)][1..] == [];
  }
}
