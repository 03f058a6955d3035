/** ながし purchase (`calculateNagashiTickets`): each axis horse crossed with the partners.
    The source does not check that axis and partner are disjoint or duplicate-free; the
    selection screen keeps them so, and the properties that need it say so explicitly. */
module NagashiTickets {
  import opened Wrappers
  import opened KeibaTypes
  import opened Seqs
  import opened Sorting
  import opened Combinatorics
  import opened BetTypes
  import BoxTickets

  function Min(x: int, y: int): int { if x <= y then x else y }

  function Max(x: int, y: int): int { if x <= y then y else x }

  /** `axisPosition === '1着'`: only then does a 馬単 axis horse go first. */
  predicate AxisLeads(sel: NagashiSelection) {
    sel.axisPosition == Some(AxisFirst)
  }

  /** The slot the axis horse occupies in an ordered ticket: 馬単 puts it first only for
      1着; 3連単 puts it first for 1着, second for 2着 and last otherwise (3着, 軸 or unset). */
  function AxisSlot(b: BetType, pos: Option<AxisPosition>): nat {
    if b == Umatan then (if pos == Some(AxisFirst) then 0 else 1)
    else if pos == Some(AxisFirst) then 0
    else if pos == Some(AxisSecond) then 1
    else 2
  }

  /** The axis horse and the selection screen's discipline: no repeats, axis and partner apart. */
  predicate Disjoint(a: seq<int>, b: seq<int>) {
    forall i, j :: 0 <= i < |a| && 0 <= j < |b| ==> a[i] != b[j]
  }

  predicate WellFormed(sel: NagashiSelection) {
    NoDup(sel.axis) && NoDup(sel.partner) && Disjoint(sel.axis, sel.partner)
  }

  // ---------------------------------------------------------------- rows per axis horse

  /** 馬連/ワイド/枠連: `[Math.min(axis, partner), Math.max(axis, partner)]` for each partner. */
  function PairRow(a: int, partner: seq<int>): (r: seq<seq<int>>)
    ensures |r| == |partner|
  {
    seq(|partner|, k requires 0 <= k < |partner| => [Min(a, partner[k]), Max(a, partner[k])])
  }

  /** 馬単: `[axis, partner]` when the axis leads, `[partner, axis]` otherwise. */
  function ExactaRow(a: int, partner: seq<int>, leads: bool): (r: seq<seq<int>>)
    ensures |r| == |partner|
  {
    seq(|partner|, k requires 0 <= k < |partner| => if leads then [a, partner[k]] else [partner[k], a])
  }

  /** 3連複: `[axis, p[i], p[j]].sort((a, b) => a - b)` for each partner pair `i < j`. */
  function TrioRow(a: int, pairs: seq<seq<int>>): (r: seq<seq<int>>)
    ensures |r| == |pairs|
  {
    seq(|pairs|, k requires 0 <= k < |pairs| => SortAscending([a] + pairs[k]))
  }

  /** The 3連単 ticket for axis `a` and the ordered partner pair `x`, `y`. */
  function Place(a: int, x: int, y: int, pos: Option<AxisPosition>): seq<int> {
    if pos == Some(AxisFirst) then [a, x, y]
    else if pos == Some(AxisSecond) then [x, a, y]
    else [x, y, a]
  }

  /** 3連単: one ticket per ordered partner pair `i != j`. */
  function TrifectaRow(a: int, pairs: seq<seq<int>>, pos: Option<AxisPosition>): (r: seq<seq<int>>)
    requires forall k :: 0 <= k < |pairs| ==> |pairs[k]| == 2
    ensures |r| == |pairs|
  {
    seq(|pairs|, k requires 0 <= k < |pairs| => Place(a, pairs[k][0], pairs[k][1], pos))
  }

  lemma OrderedPairsShape(p: seq<int>)
    ensures forall k :: 0 <= k < |BoxTickets.OrderedPairs(p, 0)| ==> |BoxTickets.OrderedPairs(p, 0)[k]| == 2
  {
    forall k | 0 <= k < |BoxTickets.OrderedPairs(p, 0)|
      ensures |BoxTickets.OrderedPairs(p, 0)[k]| == 2
    {
      BoxTickets.OrderedPairsMember(p, 0, BoxTickets.OrderedPairs(p, 0)[k]);
    }
  }

  /** The tickets one axis horse `a` contributes (the body of the source's outer loop). */
  function Row(b: BetType, sel: NagashiSelection, a: int): (r: seq<seq<int>>)
    ensures |r| == RowCount(b, |sel.partner|)
  {
    var P := sel.partner;
    match b
    case Tansho | Fukusho => []
    case Umaren | Wide | Wakuren => PairRow(a, P)
    case Umatan => ExactaRow(a, P, AxisLeads(sel))
    case Sanrenpuku =>
      BoxTickets.UnorderedPairsLength(P, 0);
      TrioRow(a, BoxTickets.UnorderedPairs(P, 0))
    case Sanrentan =>
      OrderedPairsShape(P);
      BoxTickets.OrderedPairsLength(P, 0);
      TrifectaRow(a, BoxTickets.OrderedPairs(P, 0), sel.axisPosition)
  }

  /** The tuples `calculateNagashiTickets` emits for bet type `b`: each axis horse's row, in
      axis order. */
  function NagashiTuples(b: BetType, sel: NagashiSelection): seq<seq<int>> {
    FlatMap(sel.axis, a => Row(b, sel, a))
  }

  /** Tickets per axis horse: |P| for pair bets, C(|P|, 2) for 3連複, |P|(|P|-1) for 3連単
      and none for single bets. */
  function RowCount(b: BetType, partners: nat): nat {
    match b
    case Tansho | Fukusho => 0
    case Umaren | Wide | Wakuren | Umatan => partners
    case Sanrenpuku => partners * (partners - 1) / 2
    case Sanrentan => partners * (partners - 1)
  }

  /** Number of ながし tickets: the axis count times the partner choices the bet type needs. */
  function NagashiCount(b: BetType, axes: nat, partners: nat): int {
    match b
    case Tansho | Fukusho => 0
    case Umaren | Wide | Wakuren | Umatan => axes * Permutation(partners, 1)
    case Sanrenpuku => axes * Combination(partners, 2)
    case Sanrentan => axes * Permutation(partners, 2)
  }

  lemma NagashiTuplesCount(b: BetType, sel: NagashiSelection)
    ensures |NagashiTuples(b, sel)| == NagashiCount(b, |sel.axis|, |sel.partner|)
  {
    var P := sel.partner;
    FlatMapUniformLength(sel.axis, a => Row(b, sel, a), RowCount(b, |P|));
    SmallFactorials(|P|);
    BoxTickets.UnorderedPairsLength(P, 0);
    ChooseTwo(|P|, |BoxTickets.UnorderedPairs(P, 0)|);
  }

  // ---------------------------------------------------------------- what the tuples are

  /** A tuple with the entry at `slot` removed. */
  function Others(t: seq<int>, slot: nat): seq<int>
    requires slot < |t|
  {
    t[..slot] + t[slot + 1..]
  }

  /** The ticket combines axis horse `a` with partner horses, independently of the loops:
      unordered types hold the horses in ascending order; ordered types hold `a` at `AxisSlot`
      and the partners, in loop order, in the other slots; single bets have no ながし. */
  predicate WithAxis(b: BetType, sel: NagashiSelection, a: int, t: seq<int>) {
    var P, s := sel.partner, AxisSlot(b, sel.axisPosition);
    match b
    case Tansho | Fukusho => false
    case Umaren | Wide | Wakuren =>
      |t| == 2 && Ascending(t) && exists k :: 0 <= k < |P| && Bag(t) == multiset{a, P[k]}
    case Umatan =>
      |t| == 2 && s <= 1 && t[s] == a && exists k :: 0 <= k < |P| && t[1 - s] == P[k]
    case Sanrenpuku =>
      |t| == 3 && Ascending(t) && exists c, d :: 0 <= c < d < |P| && Bag(t) == multiset{a, P[c], P[d]}
    case Sanrentan =>
      |t| == 3 && s <= 2 && t[s] == a &&
      exists c, d :: 0 <= c < |P| && 0 <= d < |P| && c != d && Others(t, s) == [P[c], P[d]]
  }

  /** A ながし tuple: some axis horse's combination. */
  predicate InNagashi(b: BetType, sel: NagashiSelection, t: seq<int>) {
    exists i :: 0 <= i < |sel.axis| && WithAxis(b, sel, sel.axis[i], t)
  }

  /** `[min, max]` is the ascending arrangement of two horses. */
  lemma MinMaxCanonical(x: int, y: int, t: seq<int>)
    ensures t == [Min(x, y), Max(x, y)] <==> |t| == 2 && Ascending(t) && Bag(t) == multiset{x, y}
  {
    var m := [Min(x, y), Max(x, y)];
    assert Id(m[0]) <= Id(m[1]);
    assert Ascending(m);
    assert Bag(m) == multiset{x, y};
    if |t| == 2 && Ascending(t) && Bag(t) == multiset{x, y} {
      AscendingUnique(t, m);
    }
  }

  /** Sorting yields the one ascending arrangement of the same horses. */
  lemma SortCanonical(u: seq<int>, t: seq<int>)
    ensures t == SortAscending(u) <==> |t| == |u| && Ascending(t) && Bag(t) == multiset(u)
  {
    if |t| == |u| && Ascending(t) && Bag(t) == multiset(u) {
      AscendingUnique(t, SortAscending(u));
    }
  }

  lemma PairRowMember(a: int, P: seq<int>, t: seq<int>)
    ensures t in PairRow(a, P) <==> |t| == 2 && Ascending(t) && exists k :: 0 <= k < |P| && Bag(t) == multiset{a, P[k]}
  {
    if t in PairRow(a, P) {
      var k :| 0 <= k < |P| && PairRow(a, P)[k] == t;
      MinMaxCanonical(a, P[k], t);
    }
    if |t| == 2 && Ascending(t) && exists k :: 0 <= k < |P| && Bag(t) == multiset{a, P[k]} {
      var k :| 0 <= k < |P| && Bag(t) == multiset{a, P[k]};
      MinMaxCanonical(a, P[k], t);
      assert PairRow(a, P)[k] == t;
    }
  }

  lemma ExactaRowMember(a: int, sel: NagashiSelection, t: seq<int>)
    ensures t in Row(Umatan, sel, a) <==> WithAxis(Umatan, sel, a, t)
  {
    var P := sel.partner;
    if WithAxis(Umatan, sel, a, t) {
      var s := AxisSlot(Umatan, sel.axisPosition);
      var k :| 0 <= k < |P| && t[1 - s] == P[k];
      assert ExactaRow(a, P, AxisLeads(sel))[k] == t;
    }
  }

  /** Sorting three horses yields their ascending arrangement. */
  lemma TrioCanonical(a: int, x: int, y: int, t: seq<int>)
    ensures t == SortAscending([a, x, y]) <==> |t| == 3 && Ascending(t) && Bag(t) == multiset{a, x, y}
  {
    assert multiset([a, x, y]) == multiset{a, x, y};
    SortCanonical([a, x, y], t);
  }

  /** The partner indices behind one unordered partner pair. */
  lemma PairIndices(P: seq<int>, p: seq<int>) returns (c: nat, d: nat)
    requires p in BoxTickets.UnorderedPairs(P, 0)
    ensures c < d < |P| && p == [P[c], P[d]]
  {
    BoxTickets.UnorderedPairsMember(P, 0, p);
    c, d :| 0 <= c < d < |P| && p == [P[c], P[d]];
  }

  lemma Prepend(a: int, p: seq<int>, x: int, y: int)
    requires p == [x, y]
    ensures [a] + p == [a, x, y]
  {
  }

  lemma TrioRowSound(a: int, P: seq<int>, t: seq<int>)
    requires t in TrioRow(a, BoxTickets.UnorderedPairs(P, 0))
    ensures |t| == 3 && Ascending(t) && exists c, d :: 0 <= c < d < |P| && Bag(t) == multiset{a, P[c], P[d]}
  {
    var pairs := BoxTickets.UnorderedPairs(P, 0);
    var k :| 0 <= k < |pairs| && TrioRow(a, pairs)[k] == t;
    var c, d := PairIndices(P, pairs[k]);
    Prepend(a, pairs[k], P[c], P[d]);
    TrioCanonical(a, P[c], P[d], t);
  }

  lemma TrioRowComplete(a: int, P: seq<int>, t: seq<int>, c: int, d: int)
    requires |t| == 3 && Ascending(t) && 0 <= c < d < |P| && Bag(t) == multiset{a, P[c], P[d]}
    ensures t in TrioRow(a, BoxTickets.UnorderedPairs(P, 0))
  {
    var pairs := BoxTickets.UnorderedPairs(P, 0);
    BoxTickets.UnorderedPairsMember(P, 0, [P[c], P[d]]);
    var k :| 0 <= k < |pairs| && pairs[k] == [P[c], P[d]];
    Prepend(a, pairs[k], P[c], P[d]);
    TrioCanonical(a, P[c], P[d], t);
    assert TrioRow(a, pairs)[k] == t;
  }

  lemma TrioRowMember(a: int, sel: NagashiSelection, t: seq<int>)
    ensures t in Row(Sanrenpuku, sel, a) <==> WithAxis(Sanrenpuku, sel, a, t)
  {
    var P := sel.partner;
    assert Row(Sanrenpuku, sel, a) == TrioRow(a, BoxTickets.UnorderedPairs(P, 0));
    if t in Row(Sanrenpuku, sel, a) {
      TrioRowSound(a, P, t);
    }
    if WithAxis(Sanrenpuku, sel, a, t) {
      var c, d :| 0 <= c < d < |P| && Bag(t) == multiset{a, P[c], P[d]};
      TrioRowComplete(a, P, t, c, d);
    }
  }

  /** The 3連単 placement puts the axis at `AxisSlot` and the partners, in order, around it. */
  lemma PlaceSlot(a: int, x: int, y: int, pos: Option<AxisPosition>, t: seq<int>)
    ensures t == Place(a, x, y, pos) <==>
      |t| == 3 && t[AxisSlot(Sanrentan, pos)] == a && Others(t, AxisSlot(Sanrentan, pos)) == [x, y]
  {
    var s := AxisSlot(Sanrentan, pos);
    if |t| == 3 && t[s] == a && Others(t, s) == [x, y] {
      assert Others(t, s)[0] == x && Others(t, s)[1] == y;
      if s == 0 {
        assert t == [a, x, y];
      } else if s == 1 {
        assert t == [x, a, y];
      } else {
        assert t == [x, y, a];
      }
    }
  }

  lemma TrifectaRowMember(a: int, sel: NagashiSelection, t: seq<int>)
    ensures t in Row(Sanrentan, sel, a) <==> WithAxis(Sanrentan, sel, a, t)
  {
    var P, pos := sel.partner, sel.axisPosition;
    var pairs := BoxTickets.OrderedPairs(P, 0);
    OrderedPairsShape(P);
    assert Row(Sanrentan, sel, a) == TrifectaRow(a, pairs, pos);
    if t in TrifectaRow(a, pairs, pos) {
      var k :| 0 <= k < |pairs| && TrifectaRow(a, pairs, pos)[k] == t;
      BoxTickets.OrderedPairsMember(P, 0, pairs[k]);
      var c, d :| 0 <= c < |P| && 0 <= d < |P| && c != d && pairs[k] == [P[c], P[d]];
      PlaceSlot(a, P[c], P[d], pos, t);
    }
    if WithAxis(Sanrentan, sel, a, t) {
      var s := AxisSlot(Sanrentan, pos);
      var c, d :| 0 <= c < |P| && 0 <= d < |P| && c != d && Others(t, s) == [P[c], P[d]];
      BoxTickets.OrderedPairsMember(P, 0, [P[c], P[d]]);
      var k :| 0 <= k < |pairs| && pairs[k] == [P[c], P[d]];
      PlaceSlot(a, P[c], P[d], pos, t);
      assert TrifectaRow(a, pairs, pos)[k] == t;
    }
  }

  lemma RowMember(b: BetType, sel: NagashiSelection, a: int, t: seq<int>)
    ensures t in Row(b, sel, a) <==> WithAxis(b, sel, a, t)
  {
    match b
    case Tansho | Fukusho =>
    case Umaren | Wide | Wakuren => PairRowMember(a, sel.partner, t);
    case Umatan => ExactaRowMember(a, sel, t);
    case Sanrenpuku => TrioRowMember(a, sel, t);
    case Sanrentan => TrifectaRowMember(a, sel, t);
  }

  lemma NagashiTuplesMember(b: BetType, sel: NagashiSelection, t: seq<int>)
    ensures t in NagashiTuples(b, sel) <==> InNagashi(b, sel, t)
  {
    FlatMapMember(sel.axis, a => Row(b, sel, a), t);
    forall i | 0 <= i < |sel.axis|
      ensures t in Row(b, sel, sel.axis[i]) <==> WithAxis(b, sel, sel.axis[i], t)
    {
      RowMember(b, sel, sel.axis[i], t);
    }
  }

  // ---------------------------------------------------------------- shape and no repeats

  lemma PairNoDup(a: int, x: int, t: seq<int>)
    requires |t| == 2 && Bag(t) == multiset{a, x} && a != x
    ensures NoDup(t)
  {
    NoDupSameBag(t, [a, x]);
  }

  lemma TrioNoDup(a: int, x: int, y: int, t: seq<int>)
    requires Bag(t) == multiset{a, x, y} && a != x && a != y && x != y
    ensures NoDup(t)
  {
    assert multiset([a, x, y]) == multiset{a, x, y};
    NoDupSameBag(t, [a, x, y]);
  }

  lemma TrifectaNoDup(a: int, x: int, y: int, s: nat, t: seq<int>)
    requires |t| == 3 && s <= 2 && t[s] == a && Others(t, s) == [x, y]
    requires a != x && a != y && x != y
    ensures NoDup(t)
  {
    assert Others(t, s)[0] == x && Others(t, s)[1] == y;
    if s == 0 {
      assert t == [a, x, y];
    } else if s == 1 {
      assert t == [x, a, y];
    } else {
      assert t == [x, y, a];
    }
  }

  /** Every ながし tuple has one horse per finishing position and an unordered one is
      ascending. */
  lemma WithAxisShape(b: BetType, sel: NagashiSelection, a: int, t: seq<int>)
    requires WithAxis(b, sel, a, t)
    ensures |t| == Positions(b)
    ensures !IsOrderedBet(b) ==> Ascending(t)
  {
  }

  /** With a well-formed selection no horse appears twice in a ながし tuple. */
  lemma WithAxisNoDup(b: BetType, sel: NagashiSelection, i: int, t: seq<int>)
    requires WellFormed(sel) && 0 <= i < |sel.axis| && WithAxis(b, sel, sel.axis[i], t)
    ensures NoDup(t)
  {
    var a, P := sel.axis[i], sel.partner;
    assert a !in P;
    match b
    case Umaren | Wide | Wakuren => PairWithNoDup(a, P, t);
    case Umatan => ExactaWithNoDup(a, P, AxisSlot(b, sel.axisPosition), t);
    case Sanrenpuku => TrioWithNoDup(a, P, t);
    case Sanrentan => TrifectaWithNoDup(a, P, AxisSlot(b, sel.axisPosition), t);
  }

  lemma PairWithNoDup(a: int, P: seq<int>, t: seq<int>)
    requires a !in P && |t| == 2 && exists k :: 0 <= k < |P| && Bag(t) == multiset{a, P[k]}
    ensures NoDup(t)
  {
    var k :| 0 <= k < |P| && Bag(t) == multiset{a, P[k]};
    PairNoDup(a, P[k], t);
  }

  lemma ExactaWithNoDup(a: int, P: seq<int>, s: nat, t: seq<int>)
    requires a !in P && |t| == 2 && s <= 1 && t[s] == a && exists k :: 0 <= k < |P| && t[1 - s] == P[k]
    ensures NoDup(t)
  {
    var k :| 0 <= k < |P| && t[1 - s] == P[k];
    assert t[0] != t[1];
  }

  lemma TrioWithNoDup(a: int, P: seq<int>, t: seq<int>)
    requires NoDup(P) && a !in P
    requires exists c, d :: 0 <= c < d < |P| && Bag(t) == multiset{a, P[c], P[d]}
    ensures NoDup(t)
  {
    var c, d :| 0 <= c < d < |P| && Bag(t) == multiset{a, P[c], P[d]};
    TrioNoDup(a, P[c], P[d], t);
  }

  lemma TrifectaWithNoDup(a: int, P: seq<int>, s: nat, t: seq<int>)
    requires NoDup(P) && a !in P && |t| == 3 && s <= 2 && t[s] == a
    requires exists c, d :: 0 <= c < |P| && 0 <= d < |P| && c != d && Others(t, s) == [P[c], P[d]]
    ensures NoDup(t)
  {
    var c, d :| 0 <= c < |P| && 0 <= d < |P| && c != d && Others(t, s) == [P[c], P[d]];
    TrifectaNoDup(a, P[c], P[d], s, t);
  }

  /** The bag of two different horses tells the second one given the first. */
  lemma PairBagsDiffer(a: int, x: int, y: int)
    requires x != a && x != y
    ensures multiset{a, x} != multiset{a, y}
  {
    assert multiset{a, y}[x] == 0;
  }

  lemma PairRowApart(a: int, P: seq<int>)
    requires NoDup(P) && a !in P
    ensures NoDupBy(PairRow(a, P), Bag)
  {
    var r := PairRow(a, P);
    forall k1, k2 | 0 <= k1 < k2 < |r| ensures Bag(r[k1]) != Bag(r[k2]) {
      MinMaxCanonical(a, P[k1], r[k1]);
      MinMaxCanonical(a, P[k2], r[k2]);
      PairBagsDiffer(a, P[k1], P[k2]);
    }
  }

  lemma ExactaRowApart(a: int, P: seq<int>, leads: bool)
    requires NoDup(P)
    ensures NoDupBy(ExactaRow(a, P, leads), Itself)
  {
    var r := ExactaRow(a, P, leads);
    forall k1, k2 | 0 <= k1 < k2 < |r| ensures Itself(r[k1]) != Itself(r[k2]) {
      if leads {
        assert r[k1][1] != r[k2][1];
      } else {
        assert r[k1][0] != r[k2][0];
      }
    }
  }

  lemma TrioRowApart(a: int, P: seq<int>)
    requires NoDup(P)
    ensures NoDupBy(TrioRow(a, BoxTickets.UnorderedPairs(P, 0)), Bag)
  {
    var pairs := BoxTickets.UnorderedPairs(P, 0);
    var r := TrioRow(a, pairs);
    BoxTickets.UnorderedPairsDistinct(P, 0);
    forall k1, k2 | 0 <= k1 < k2 < |r| ensures Bag(r[k1]) != Bag(r[k2]) {
      assert Bag(pairs[k1]) != Bag(pairs[k2]);
      RowBag(a, pairs, k1);
      RowBag(a, pairs, k2);
      AddOneApart(a, Bag(pairs[k1]), Bag(pairs[k2]));
    }
  }

  /** A ticket of the row holds the axis and the pair's horses. */
  lemma RowBag(a: int, pairs: seq<seq<int>>, k: nat)
    requires k < |pairs|
    ensures Bag(TrioRow(a, pairs)[k]) == multiset{a} + Bag(pairs[k])
  {
    assert TrioRow(a, pairs)[k] == SortAscending([a] + pairs[k]);
  }

  /** Adding the same horse to two different collections keeps them different. */
  lemma AddOneApart(a: int, x: multiset<int>, y: multiset<int>)
    requires x != y
    ensures multiset{a} + x != multiset{a} + y
  {
    assert (multiset{a} + x) - multiset{a} == x;
    assert (multiset{a} + y) - multiset{a} == y;
  }

  lemma PairEq(p: seq<int>, q: seq<int>)
    requires |p| == |q| == 2 && p[0] == q[0] && p[1] == q[1]
    ensures p == q
  {
  }

  lemma PlaceInjective(a: int, x: int, y: int, u: int, v: int, pos: Option<AxisPosition>)
    requires Place(a, x, y, pos) == Place(a, u, v, pos)
    ensures x == u && y == v
  {
    var s := AxisSlot(Sanrentan, pos);
    PlaceSlot(a, x, y, pos, Place(a, x, y, pos));
    PlaceSlot(a, u, v, pos, Place(a, u, v, pos));
    assert [x, y] == [u, v];
    assert [x, y][0] == [u, v][0] && [x, y][1] == [u, v][1];
  }

  lemma TrifectaRowApart(sel: NagashiSelection, a: int)
    requires NoDup(sel.partner)
    ensures NoDupBy(Row(Sanrentan, sel, a), Itself)
  {
    var P, pos := sel.partner, sel.axisPosition;
    var pairs := BoxTickets.OrderedPairs(P, 0);
    OrderedPairsShape(P);
    var r := TrifectaRow(a, pairs, pos);
    assert Row(Sanrentan, sel, a) == r;
    BoxTickets.OrderedPairsDistinct(P, 0);
    forall k1, k2 | 0 <= k1 < k2 < |r| ensures Itself(r[k1]) != Itself(r[k2]) {
      if r[k1] == r[k2] {
        PlaceInjective(a, pairs[k1][0], pairs[k1][1], pairs[k2][0], pairs[k2][1], pos);
        PairEq(pairs[k1], pairs[k2]);
        assert false;
      }
    }
  }

  /** The combination key the bet type is judged by: the tuple itself for ordered bets, its
      bag of horses otherwise. */
  predicate RowNoRepeats(b: BetType, r: seq<seq<int>>) {
    if IsOrderedBet(b) then NoDupBy(r, Itself) else NoDupBy(r, Bag)
  }

  /** One axis horse never repeats a combination when the partners are distinct and apart
      from it. */
  lemma RowApart(b: BetType, sel: NagashiSelection, a: int)
    requires NoDup(sel.partner) && a !in sel.partner
    ensures RowNoRepeats(b, Row(b, sel, a))
  {
    match b
    case Tansho | Fukusho =>
    case Umaren | Wide | Wakuren => PairRowApart(a, sel.partner);
    case Umatan => ExactaRowApart(a, sel.partner, AxisLeads(sel));
    case Sanrenpuku => TrioRowApart(a, sel.partner);
    case Sanrentan => TrifectaRowApart(sel, a);
  }

  /** An unordered ながし tuple holds its axis horse and otherwise only partners. */
  lemma BagOfWithAxis(b: BetType, sel: NagashiSelection, a: int, t: seq<int>)
    requires WithAxis(b, sel, a, t) && !IsOrderedBet(b)
    ensures a in Bag(t)
    ensures forall z :: z in Bag(t) ==> z == a || z in sel.partner
  {
    var P := sel.partner;
    if b == Sanrenpuku {
      var c, d :| 0 <= c < d < |P| && Bag(t) == multiset{a, P[c], P[d]};
    } else {
      var k :| 0 <= k < |P| && Bag(t) == multiset{a, P[k]};
    }
  }

  /** Tickets of two different axis horses never share a combination. */
  lemma RowsApart(b: BetType, sel: NagashiSelection, i1: int, i2: int, x: seq<int>, y: seq<int>)
    requires WellFormed(sel) && 0 <= i1 < i2 < |sel.axis|
    requires x in Row(b, sel, sel.axis[i1]) && y in Row(b, sel, sel.axis[i2])
    ensures if IsOrderedBet(b) then Itself(x) != Itself(y) else Bag(x) != Bag(y)
  {
    var A := sel.axis;
    RowMember(b, sel, A[i1], x);
    RowMember(b, sel, A[i2], y);
    assert A[i1] != A[i2];
    assert A[i1] !in sel.partner;
    if !IsOrderedBet(b) {
      BagOfWithAxis(b, sel, A[i1], x);
      BagOfWithAxis(b, sel, A[i2], y);
    }
  }

  lemma NagashiTuplesDistinct(b: BetType, sel: NagashiSelection)
    requires WellFormed(sel)
    ensures NoRepeatedCombination(b, NagashiTuples(b, sel))
  {
    var A := sel.axis;
    var f := a => Row(b, sel, a);
    forall k | 0 <= k < |A| ensures RowNoRepeats(b, f(A[k])) {
      assert A[k] !in sel.partner;
      RowApart(b, sel, A[k]);
    }
    if IsOrderedBet(b) {
      forall k1, k2 | 0 <= k1 < k2 < |A| ensures Apart(f(A[k1]), f(A[k2]), Itself) {
        forall x, y | x in f(A[k1]) && y in f(A[k2]) ensures Itself(x) != Itself(y) {
          RowsApart(b, sel, k1, k2, x, y);
        }
      }
      FlatMapNoDupBy(A, f, Itself);
      NoDupByItself(NagashiTuples(b, sel));
    } else {
      forall k1, k2 | 0 <= k1 < k2 < |A| ensures Apart(f(A[k1]), f(A[k2]), Bag) {
        forall x, y | x in f(A[k1]) && y in f(A[k2]) ensures Bag(x) != Bag(y) {
          RowsApart(b, sel, k1, k2, x, y);
        }
      }
      FlatMapNoDupBy(A, f, Bag);
    }
  }

  // ---------------------------------------------------------------- calculateNagashiTickets

  /** One ticket's shape: a horse per finishing position, ascending for unordered types, and
      no horse twice when the selection is well-formed. */
  predicate TupleShape(b: BetType, sel: NagashiSelection, t: seq<int>) {
    |t| == Positions(b) && (!IsOrderedBet(b) ==> Ascending(t)) && (WellFormed(sel) ==> NoDup(t))
  }

  lemma NagashiTuplesFacts(b: BetType, sel: NagashiSelection)
    ensures |NagashiTuples(b, sel)| == NagashiCount(b, |sel.axis|, |sel.partner|)
    ensures forall t :: t in NagashiTuples(b, sel) <==> InNagashi(b, sel, t)
    ensures forall k :: 0 <= k < |NagashiTuples(b, sel)| ==> TupleShape(b, sel, NagashiTuples(b, sel)[k])
    ensures WellFormed(sel) ==> NoRepeatedCombination(b, NagashiTuples(b, sel))
  {
    var ts := NagashiTuples(b, sel);
    NagashiTuplesCount(b, sel);
    forall t ensures t in ts <==> InNagashi(b, sel, t) {
      NagashiTuplesMember(b, sel, t);
    }
    forall k | 0 <= k < |ts| ensures TupleShape(b, sel, ts[k]) {
      var t := ts[k];
      NagashiTuplesMember(b, sel, t);
      var i :| 0 <= i < |sel.axis| && WithAxis(b, sel, sel.axis[i], t);
      WithAxisShape(b, sel, sel.axis[i], t);
      if WellFormed(sel) {
        WithAxisNoDup(b, sel, i, t);
      }
    }
    if WellFormed(sel) {
      NagashiTuplesDistinct(b, sel);
    }
  }

  /** `calculateNagashiTickets`: the tickets are exactly the axis/partner combinations the
      bet type allows, as many as the formula says; single-horse bets have none. */
  function CalculateNagashiTickets(b: BetType, sel: NagashiSelection): (r: TicketSet)
    ensures r.count == |r.selections| == NagashiCount(b, |sel.axis|, |sel.partner|)
    ensures forall t :: t in HorsesOf(r.selections) <==> InNagashi(b, sel, t)
    ensures forall k :: 0 <= k < |r.selections| ==>
      TupleShape(b, sel, r.selections[k].horses) && r.selections[k].odds == None
    ensures WellFormed(sel) ==> NoRepeatedCombination(b, HorsesOf(r.selections))
  {
    NagashiTuplesFacts(b, sel);
    var r := Tickets(NagashiTuples(b, sel));
    assert HorsesOf(r.selections) == NagashiTuples(b, sel);
    r
  }

  /** Worked cases: axis 3 with partners 1, 5 on 馬連 orders each pair; 馬単 with the axis
      second puts the partner first. */
  lemma NagashiScenarios()
    ensures NagashiTuples(Umaren, NagashiSelection([3], [1, 5], None)) == [[1, 3], [3, 5]]
    ensures NagashiTuples(Umatan, NagashiSelection([1], [2, 3], Some(AxisSecond))) == [[2, 1], [3, 1]]
  {
  }

  /** Worked case: 3連単 with axis 1 first and partners 2, 3, 4 gives the six orderings of two
      partners behind the axis. */
  lemma NagashiTrifectaScenario()
    ensures NagashiTuples(Sanrentan, NagashiSelection([1], [2, 3, 4], Some(AxisFirst)))
      == [[1, 2, 3], [1, 2, 4], [1, 3, 2], [1, 3, 4], [1, 4, 2], [1, 4, 3]]
  {
  }
}
