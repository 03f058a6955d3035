/** BOX purchase (`calculateBoxTickets`): every combination of the chosen horses.
    Each generator below is one of the source's nested index loops, written as a recursion
    over the loop variable; the tuples keep the input order of the horses and are NOT sorted. */
module BoxTickets {
  import opened Wrappers
  import opened KeibaTypes
  import opened Seqs
  import opened Combinatorics
  import opened BetTypes

  // ---------------------------------------------------------------- generators

  /** 単勝/複勝: one single-horse tuple per chosen horse (`horses.map(h => [h])`). */
  function Singles(h: seq<int>): (r: seq<seq<int>>)
    ensures |r| == |h|
  {
    seq(|h|, k requires 0 <= k < |h| => [h[k]])
  }

  /** The inner loop `for j in [j, n)` of the unordered-pair loop, for a fixed `i`. */
  function PairRow(h: seq<int>, i: nat, j: nat): seq<seq<int>>
    requires i < |h| && j <= |h|
    decreases |h| - j
  {
    if j == |h| then [] else [[h[i], h[j]]] + PairRow(h, i, j + 1)
  }

  /** 馬連/ワイド/枠連: `for i in [i, n) for j in (i, n)`, n(n-1)/2 pairs from `i = 0`
      (see UnorderedPairsLength). */
  function UnorderedPairs(h: seq<int>, i: nat): seq<seq<int>>
    requires i <= |h|
    decreases |h| - i
  {
    if i == |h| then [] else PairRow(h, i, i + 1) + UnorderedPairs(h, i + 1)
  }

  /** The inner loop `for j in [j, n) if i != j` of the ordered-pair loop. */
  function OrderedPairRow(h: seq<int>, i: nat, j: nat): seq<seq<int>>
    requires i < |h| && j <= |h|
    decreases |h| - j
  {
    if j == |h| then []
    else (if i != j then [[h[i], h[j]]] else []) + OrderedPairRow(h, i, j + 1)
  }

  /** 馬単: `for i for j if i != j`, n(n-1) pairs from `i = 0` (see OrderedPairsLength). */
  function OrderedPairs(h: seq<int>, i: nat): seq<seq<int>>
    requires i <= |h|
    decreases |h| - i
  {
    if i == |h| then [] else OrderedPairRow(h, i, 0) + OrderedPairs(h, i + 1)
  }

  /** Innermost loop `for k in [k, n)` of the 3連複 loop. */
  function TrioRow(h: seq<int>, i: nat, j: nat, k: nat): seq<seq<int>>
    requires i < |h| && j < |h| && k <= |h|
    decreases |h| - k
  {
    if k == |h| then [] else [[h[i], h[j], h[k]]] + TrioRow(h, i, j, k + 1)
  }

  /** Middle loop `for j in [j, n)` (each with `k` from `j + 1`) of the 3連複 loop. */
  function TrioMid(h: seq<int>, i: nat, j: nat): seq<seq<int>>
    requires i < |h| && j <= |h|
    decreases |h| - j
  {
    if j == |h| then [] else TrioRow(h, i, j, j + 1) + TrioMid(h, i, j + 1)
  }

  /** 3連複: `for i for j > i for k > j`, C(n, 3) triples from `i = 0` (see TriosLength). */
  function Trios(h: seq<int>, i: nat): seq<seq<int>>
    requires i <= |h|
    decreases |h| - i
  {
    if i == |h| then [] else TrioMid(h, i, i + 1) + Trios(h, i + 1)
  }

  // ---------------------------------------------------------------- how many

  // The counting lemmas below hand every multiplication to one of these helpers, which see
  // only integers: the sequence context stays out of the nonlinear arithmetic.

  /** One more row of `q` tickets on top of `m - 1` rows: `m` rows. */
  lemma RowsSum(m: int, q: int, r: int, p: int)
    requires r == q && p == (m - 1) * q
    ensures r + p == m * q
  {
  }

  /** One more horse adds `m - 1` pairs: 2(m-1) + (m-1)(m-2) = m(m-1). */
  lemma PairSum(m: int, r: int, p: int)
    requires r == m - 1 && 2 * p == (m - 1) * (m - 2)
    ensures 2 * (r + p) == m * (m - 1)
  {
    assert (m - 1) * (m - 2) + 2 * (m - 1) == (m - 1) * m;
  }

  /** One more horse adds C(m-1, 2) triples: 3(m-1)(m-2) + (m-1)(m-2)(m-3) = m(m-1)(m-2). */
  lemma TrioSum(m: int, r: int, p: int)
    requires 2 * r == (m - 1) * (m - 2) && 6 * p == (m - 1) * (m - 2) * (m - 3)
    ensures 6 * (r + p) == m * (m - 1) * (m - 2)
  {
    var q := (m - 1) * (m - 2);
    assert q * (m - 3) + 3 * q == q * m;
    assert (m - 1) * (m - 2) * (m - 3) == q * (m - 3);
    assert m * (m - 1) * (m - 2) == q * m;
  }

  /** One more first horse adds (n-1)(n-2) ordered triples. */
  lemma TrifectaSum(m: int, n: int, r: int, p: int)
    requires r == (n - 1) * (n - 2) && p == (m - 1) * (n - 1) * (n - 2)
    ensures r + p == m * (n - 1) * (n - 2)
  {
    var q := (n - 1) * (n - 2);
    assert (m - 1) * (n - 1) * (n - 2) == (m - 1) * q;
    assert m * (n - 1) * (n - 2) == m * q;
    RowsSum(m, q, r, p);
  }

  lemma {:induction false} PairRowLength(h: seq<int>, i: nat, j: nat)
    requires i < |h| && j <= |h|
    ensures |PairRow(h, i, j)| == |h| - j
    decreases |h| - j
  {
    if j < |h| {
      PairRowLength(h, i, j + 1);
    }
  }

  lemma {:induction false} OrderedPairRowLength(h: seq<int>, i: nat, j: nat)
    requires i < |h| && j <= |h|
    ensures |OrderedPairRow(h, i, j)| == |h| - j - (if i >= j then 1 else 0)
    decreases |h| - j
  {
    if j < |h| {
      OrderedPairRowLength(h, i, j + 1);
    }
  }

  lemma {:induction false} TrioRowLength(h: seq<int>, i: nat, j: nat, k: nat)
    requires i < |h| && j < |h| && k <= |h|
    ensures |TrioRow(h, i, j, k)| == |h| - k
    decreases |h| - k
  {
    if k < |h| {
      TrioRowLength(h, i, j, k + 1);
    }
  }

  lemma {:induction false} TrifectaRowLength(h: seq<int>, i: nat, j: nat, k: nat)
    requires i < |h| && j < |h| && i != j && k <= |h|
    ensures |TrifectaRow(h, i, j, k)| == |h| - k - (if i >= k then 1 else 0) - (if j >= k then 1 else 0)
    decreases |h| - k
  {
    if k < |h| {
      TrifectaRowLength(h, i, j, k + 1);
    }
  }

  lemma {:induction false} UnorderedPairsLength(h: seq<int>, i: nat)
    requires i <= |h|
    ensures 2 * |UnorderedPairs(h, i)| == (|h| - i) * (|h| - i - 1)
    decreases |h| - i
  {
    if i < |h| {
      UnorderedPairsLength(h, i + 1);
      PairRowLength(h, i, i + 1);
      assert UnorderedPairs(h, i) == PairRow(h, i, i + 1) + UnorderedPairs(h, i + 1);
      PairSum(|h| - i, |PairRow(h, i, i + 1)|, |UnorderedPairs(h, i + 1)|);
    }
  }

  lemma {:induction false} OrderedPairsLength(h: seq<int>, i: nat)
    requires i <= |h|
    ensures |OrderedPairs(h, i)| == (|h| - i) * (|h| - 1)
    decreases |h| - i
  {
    if i < |h| {
      OrderedPairsLength(h, i + 1);
      OrderedPairRowLength(h, i, 0);
      assert OrderedPairs(h, i) == OrderedPairRow(h, i, 0) + OrderedPairs(h, i + 1);
      RowsSum(|h| - i, |h| - 1, |OrderedPairRow(h, i, 0)|, |OrderedPairs(h, i + 1)|);
    }
  }

  lemma {:induction false} TrioMidLength(h: seq<int>, i: nat, j: nat)
    requires i < |h| && j <= |h|
    ensures 2 * |TrioMid(h, i, j)| == (|h| - j) * (|h| - j - 1)
    decreases |h| - j
  {
    if j < |h| {
      TrioMidLength(h, i, j + 1);
      TrioRowLength(h, i, j, j + 1);
      assert TrioMid(h, i, j) == TrioRow(h, i, j, j + 1) + TrioMid(h, i, j + 1);
      PairSum(|h| - j, |TrioRow(h, i, j, j + 1)|, |TrioMid(h, i, j + 1)|);
    }
  }

  lemma {:induction false} TriosLength(h: seq<int>, i: nat)
    requires i <= |h|
    ensures 6 * |Trios(h, i)| == (|h| - i) * (|h| - i - 1) * (|h| - i - 2)
    decreases |h| - i
  {
    if i < |h| {
      TriosLength(h, i + 1);
      TrioMidLength(h, i, i + 1);
      assert Trios(h, i) == TrioMid(h, i, i + 1) + Trios(h, i + 1);
      TrioSum(|h| - i, |TrioMid(h, i, i + 1)|, |Trios(h, i + 1)|);
    }
  }

  /** Innermost loop `for k in [k, n) if k != i && k != j` of the 3連単 loop. */
  function TrifectaRow(h: seq<int>, i: nat, j: nat, k: nat): seq<seq<int>>
    requires i < |h| && j < |h| && i != j && k <= |h|
    decreases |h| - k
  {
    if k == |h| then []
    else (if k != i && k != j then [[h[i], h[j], h[k]]] else []) + TrifectaRow(h, i, j, k + 1)
  }

  /** Middle loop `for j in [j, n) if j != i` of the 3連単 loop. */
  function TrifectaMid(h: seq<int>, i: nat, j: nat): seq<seq<int>>
    requires i < |h| && j <= |h|
    decreases |h| - j
  {
    if j == |h| then []
    else (if j != i then TrifectaRow(h, i, j, 0) else []) + TrifectaMid(h, i, j + 1)
  }

  /** 3連単: `for i for j != i for k != i, j`, n(n-1)(n-2) triples from `i = 0`
      (see TrifectasLength). */
  function Trifectas(h: seq<int>, i: nat): seq<seq<int>>
    requires i <= |h|
    decreases |h| - i
  {
    if i == |h| then [] else TrifectaMid(h, i, 0) + Trifectas(h, i + 1)
  }

  lemma {:induction false} TrifectaMidLength(h: seq<int>, i: nat, j: nat)
    requires i < |h| && j <= |h|
    ensures |TrifectaMid(h, i, j)| == (|h| - j - (if i >= j then 1 else 0)) * (|h| - 2)
    decreases |h| - j
  {
    if j < |h| {
      TrifectaMidLength(h, i, j + 1);
      var rest := TrifectaMid(h, i, j + 1);
      var m := |h| - j - 1 - (if i >= j + 1 then 1 else 0);
      assert |rest| == m * (|h| - 2);
      if j != i {
        TrifectaRowLength(h, i, j, 0);
        assert TrifectaMid(h, i, j) == TrifectaRow(h, i, j, 0) + rest;
        RowsSum(m + 1, |h| - 2, |TrifectaRow(h, i, j, 0)|, |rest|);
      } else {
        assert TrifectaMid(h, i, j) == [] + rest;
      }
    }
  }

  lemma {:induction false} TrifectasLength(h: seq<int>, i: nat)
    requires i <= |h|
    ensures |Trifectas(h, i)| == (|h| - i) * (|h| - 1) * (|h| - 2)
    decreases |h| - i
  {
    if i < |h| {
      TrifectasLength(h, i + 1);
      TrifectaMidLength(h, i, 0);
      assert Trifectas(h, i) == TrifectaMid(h, i, 0) + Trifectas(h, i + 1);
      TrifectaSum(|h| - i, |h|, |TrifectaMid(h, i, 0)|, |Trifectas(h, i + 1)|);
    }
  }

  // ---------------------------------------------------------------- membership by index

  /** The pairs of `UnorderedPairs(h, i)`: exactly the `[h[a], h[c]]` with `i <= a < c`. */
  predicate PairAt(h: seq<int>, i: nat, t: seq<int>) {
    exists a, c :: i <= a < c < |h| && t == [h[a], h[c]]
  }

  /** The pairs of `OrderedPairs(h, i)`: exactly the `[h[a], h[c]]` with `i <= a` and `a != c`. */
  predicate OrderedPairAt(h: seq<int>, i: nat, t: seq<int>) {
    exists a, c :: i <= a < |h| && 0 <= c < |h| && a != c && t == [h[a], h[c]]
  }

  lemma {:induction false} PairRowSound(h: seq<int>, i: nat, j: nat, t: seq<int>) returns (c: nat)
    requires i < |h| && j <= |h| && t in PairRow(h, i, j)
    ensures j <= c < |h| && t == [h[i], h[c]]
    decreases |h| - j
  {
    assert j < |h|;
    InAppend(t, [[h[i], h[j]]], PairRow(h, i, j + 1));
    if t == [h[i], h[j]] {
      c := j;
    } else {
      c := PairRowSound(h, i, j + 1, t);
    }
  }

  lemma {:induction false} PairRowComplete(h: seq<int>, i: nat, j: nat, c: nat)
    requires i < |h| && j <= c < |h|
    ensures [h[i], h[c]] in PairRow(h, i, j)
    decreases |h| - j
  {
    InAppend([h[i], h[c]], [[h[i], h[j]]], PairRow(h, i, j + 1));
    if c > j {
      PairRowComplete(h, i, j + 1, c);
    }
  }

  lemma {:induction false} UnorderedPairsSound(h: seq<int>, i: nat, t: seq<int>) returns (a: nat, c: nat)
    requires i <= |h| && t in UnorderedPairs(h, i)
    ensures i <= a < c < |h| && t == [h[a], h[c]]
    decreases |h| - i
  {
    assert i < |h|;
    InAppend(t, PairRow(h, i, i + 1), UnorderedPairs(h, i + 1));
    if t in PairRow(h, i, i + 1) {
      a := i;
      c := PairRowSound(h, i, i + 1, t);
    } else {
      a, c := UnorderedPairsSound(h, i + 1, t);
    }
  }

  lemma {:induction false} UnorderedPairsComplete(h: seq<int>, i: nat, a: nat, c: nat)
    requires i <= a < c < |h|
    ensures [h[a], h[c]] in UnorderedPairs(h, i)
    decreases |h| - i
  {
    InAppend([h[a], h[c]], PairRow(h, i, i + 1), UnorderedPairs(h, i + 1));
    if a == i {
      PairRowComplete(h, i, i + 1, c);
    } else {
      UnorderedPairsComplete(h, i + 1, a, c);
    }
  }

  lemma UnorderedPairsMember(h: seq<int>, i: nat, t: seq<int>)
    requires i <= |h|
    ensures t in UnorderedPairs(h, i) <==> PairAt(h, i, t)
  {
    if t in UnorderedPairs(h, i) {
      var a, c := UnorderedPairsSound(h, i, t);
    }
    if PairAt(h, i, t) {
      var a, c :| i <= a < c < |h| && t == [h[a], h[c]];
      UnorderedPairsComplete(h, i, a, c);
    }
  }

  lemma {:induction false} OrderedPairRowSound(h: seq<int>, i: nat, j: nat, t: seq<int>) returns (c: nat)
    requires i < |h| && j <= |h| && t in OrderedPairRow(h, i, j)
    ensures j <= c < |h| && c != i && t == [h[i], h[c]]
    decreases |h| - j
  {
    assert j < |h|;
    var head: seq<seq<int>> := if i != j then [[h[i], h[j]]] else [];
    InAppend(t, head, OrderedPairRow(h, i, j + 1));
    if t in head {
      c := j;
    } else {
      c := OrderedPairRowSound(h, i, j + 1, t);
    }
  }

  lemma {:induction false} OrderedPairRowComplete(h: seq<int>, i: nat, j: nat, c: nat)
    requires i < |h| && j <= c < |h| && c != i
    ensures [h[i], h[c]] in OrderedPairRow(h, i, j)
    decreases |h| - j
  {
    var head: seq<seq<int>> := if i != j then [[h[i], h[j]]] else [];
    InAppend([h[i], h[c]], head, OrderedPairRow(h, i, j + 1));
    if c > j {
      OrderedPairRowComplete(h, i, j + 1, c);
    }
  }

  lemma {:induction false} OrderedPairsSound(h: seq<int>, i: nat, t: seq<int>) returns (a: nat, c: nat)
    requires i <= |h| && t in OrderedPairs(h, i)
    ensures i <= a < |h| && c < |h| && a != c && t == [h[a], h[c]]
    decreases |h| - i
  {
    assert i < |h|;
    InAppend(t, OrderedPairRow(h, i, 0), OrderedPairs(h, i + 1));
    if t in OrderedPairRow(h, i, 0) {
      a := i;
      c := OrderedPairRowSound(h, i, 0, t);
    } else {
      a, c := OrderedPairsSound(h, i + 1, t);
    }
  }

  lemma {:induction false} OrderedPairsComplete(h: seq<int>, i: nat, a: nat, c: nat)
    requires i <= a < |h| && c < |h| && a != c
    ensures [h[a], h[c]] in OrderedPairs(h, i)
    decreases |h| - i
  {
    InAppend([h[a], h[c]], OrderedPairRow(h, i, 0), OrderedPairs(h, i + 1));
    if a == i {
      OrderedPairRowComplete(h, i, 0, c);
    } else {
      OrderedPairsComplete(h, i + 1, a, c);
    }
  }

  lemma OrderedPairsMember(h: seq<int>, i: nat, t: seq<int>)
    requires i <= |h|
    ensures t in OrderedPairs(h, i) <==> OrderedPairAt(h, i, t)
  {
    if t in OrderedPairs(h, i) {
      var a, c := OrderedPairsSound(h, i, t);
    }
    if OrderedPairAt(h, i, t) {
      var a, c :| i <= a < |h| && 0 <= c < |h| && a != c && t == [h[a], h[c]];
      OrderedPairsComplete(h, i, a, c);
    }
  }

  // The triple generators are characterised one direction at a time: a "Sound" lemma hands
  // back the indices behind a generated triple, a "Complete" lemma takes indices and shows
  // the triple is generated.

  lemma {:induction false} TrioRowSound(h: seq<int>, i: nat, j: nat, k: nat, t: seq<int>) returns (d: nat)
    requires i < |h| && j < |h| && k <= |h| && t in TrioRow(h, i, j, k)
    ensures k <= d < |h| && t == [h[i], h[j], h[d]]
    decreases |h| - k
  {
    assert k < |h|;
    InAppend(t, [[h[i], h[j], h[k]]], TrioRow(h, i, j, k + 1));
    if t == [h[i], h[j], h[k]] {
      d := k;
    } else {
      d := TrioRowSound(h, i, j, k + 1, t);
    }
  }

  lemma {:induction false} TrioRowComplete(h: seq<int>, i: nat, j: nat, k: nat, d: nat)
    requires i < |h| && j < |h| && k <= d < |h|
    ensures [h[i], h[j], h[d]] in TrioRow(h, i, j, k)
    decreases |h| - k
  {
    InAppend([h[i], h[j], h[d]], [[h[i], h[j], h[k]]], TrioRow(h, i, j, k + 1));
    if d > k {
      TrioRowComplete(h, i, j, k + 1, d);
    }
  }

  lemma {:induction false} TrioMidSound(h: seq<int>, i: nat, j: nat, t: seq<int>) returns (c: nat, d: nat)
    requires i < |h| && j <= |h| && t in TrioMid(h, i, j)
    ensures j <= c < d < |h| && t == [h[i], h[c], h[d]]
    decreases |h| - j
  {
    assert j < |h|;
    InAppend(t, TrioRow(h, i, j, j + 1), TrioMid(h, i, j + 1));
    if t in TrioRow(h, i, j, j + 1) {
      c := j;
      d := TrioRowSound(h, i, j, j + 1, t);
    } else {
      c, d := TrioMidSound(h, i, j + 1, t);
    }
  }

  lemma {:induction false} TrioMidComplete(h: seq<int>, i: nat, j: nat, c: nat, d: nat)
    requires i < |h| && j <= c < d < |h|
    ensures [h[i], h[c], h[d]] in TrioMid(h, i, j)
    decreases |h| - j
  {
    InAppend([h[i], h[c], h[d]], TrioRow(h, i, j, j + 1), TrioMid(h, i, j + 1));
    if c == j {
      TrioRowComplete(h, i, j, j + 1, d);
    } else {
      TrioMidComplete(h, i, j + 1, c, d);
    }
  }

  /** The triples of `Trios(h, i)`: exactly the `[h[a], h[c], h[d]]` with `i <= a < c < d`. */
  predicate TrioAt(h: seq<int>, i: nat, t: seq<int>) {
    exists a, c, d :: i <= a < c < d < |h| && t == [h[a], h[c], h[d]]
  }

  lemma {:induction false} TriosSound(h: seq<int>, i: nat, t: seq<int>) returns (a: nat, c: nat, d: nat)
    requires i <= |h| && t in Trios(h, i)
    ensures i <= a < c < d < |h| && t == [h[a], h[c], h[d]]
    decreases |h| - i
  {
    assert i < |h|;
    InAppend(t, TrioMid(h, i, i + 1), Trios(h, i + 1));
    if t in TrioMid(h, i, i + 1) {
      a := i;
      c, d := TrioMidSound(h, i, i + 1, t);
    } else {
      a, c, d := TriosSound(h, i + 1, t);
    }
  }

  lemma TriosComplete(h: seq<int>, i: nat, a: nat, c: nat, d: nat)
    requires i <= a < c < d < |h|
    ensures [h[a], h[c], h[d]] in Trios(h, i)
  {
    TrioMidComplete(h, a, a + 1, c, d);
    TriosFromMidAt(h, i, a, [h[a], h[c], h[d]]);
  }

  /** A triple led by `h[a]` is among the triples led by `h[i]` or later, for `i <= a`. */
  lemma {:induction false} TriosFromMidAt(h: seq<int>, i: nat, a: nat, t: seq<int>)
    requires i <= a < |h| && t in TrioMid(h, a, a + 1)
    ensures t in Trios(h, i)
    decreases a - i
  {
    if a == i {
      InAppend(t, TrioMid(h, i, i + 1), Trios(h, i + 1));
    } else {
      TriosFromMidAt(h, i + 1, a, t);
      InAppend(t, TrioMid(h, i, i + 1), Trios(h, i + 1));
    }
  }


  lemma TriosMember(h: seq<int>, i: nat, t: seq<int>)
    requires i <= |h|
    ensures t in Trios(h, i) <==> TrioAt(h, i, t)
  {
    if t in Trios(h, i) {
      var a, c, d := TriosSound(h, i, t);
    }
    if TrioAt(h, i, t) {
      var a, c, d :| i <= a < c < d < |h| && t == [h[a], h[c], h[d]];
      TriosComplete(h, i, a, c, d);
    }
  }

  lemma {:induction false} TrifectaRowSound(h: seq<int>, i: nat, j: nat, k: nat, t: seq<int>) returns (d: nat)
    requires i < |h| && j < |h| && i != j && k <= |h| && t in TrifectaRow(h, i, j, k)
    ensures k <= d < |h| && d != i && d != j && t == [h[i], h[j], h[d]]
    decreases |h| - k
  {
    assert k < |h|;
    var head: seq<seq<int>> := if k != i && k != j then [[h[i], h[j], h[k]]] else [];
    InAppend(t, head, TrifectaRow(h, i, j, k + 1));
    if t in head {
      d := k;
    } else {
      d := TrifectaRowSound(h, i, j, k + 1, t);
    }
  }

  lemma {:induction false} TrifectaRowComplete(h: seq<int>, i: nat, j: nat, k: nat, d: nat)
    requires i < |h| && j < |h| && i != j && k <= d < |h| && d != i && d != j
    ensures [h[i], h[j], h[d]] in TrifectaRow(h, i, j, k)
    decreases |h| - k
  {
    var head: seq<seq<int>> := if k != i && k != j then [[h[i], h[j], h[k]]] else [];
    InAppend([h[i], h[j], h[d]], head, TrifectaRow(h, i, j, k + 1));
    if d > k {
      TrifectaRowComplete(h, i, j, k + 1, d);
    }
  }

  /** A triple of the middle loop that does not come from row `j` comes from a later row. */
  lemma TrifectaMidLater(h: seq<int>, i: nat, j: nat, t: seq<int>)
    requires i < |h| && j < |h| && t in TrifectaMid(h, i, j)
    requires !(j != i && t in TrifectaRow(h, i, j, 0))
    ensures t in TrifectaMid(h, i, j + 1)
  {
    if j == i {
      assert TrifectaMid(h, i, j) == [] + TrifectaMid(h, i, j + 1);
    } else {
      InAppend(t, TrifectaRow(h, i, j, 0), TrifectaMid(h, i, j + 1));
    }
  }

  /** Row `j` of the middle loop is part of it. */
  lemma TrifectaMidFromRow(h: seq<int>, i: nat, j: nat, t: seq<int>)
    requires i < |h| && j < |h| && j != i && t in TrifectaRow(h, i, j, 0)
    ensures t in TrifectaMid(h, i, j)
  {
    InAppend(t, TrifectaRow(h, i, j, 0), TrifectaMid(h, i, j + 1));
  }

  /** The later rows of the middle loop are part of it. */
  lemma TrifectaMidFromLater(h: seq<int>, i: nat, j: nat, t: seq<int>)
    requires i < |h| && j < |h| && t in TrifectaMid(h, i, j + 1)
    ensures t in TrifectaMid(h, i, j)
  {
    if j == i {
      assert TrifectaMid(h, i, j) == [] + TrifectaMid(h, i, j + 1);
    } else {
      InAppend(t, TrifectaRow(h, i, j, 0), TrifectaMid(h, i, j + 1));
    }
  }

  lemma {:induction false} TrifectaMidSound(h: seq<int>, i: nat, j: nat, t: seq<int>) returns (c: nat, d: nat)
    requires i < |h| && j <= |h| && t in TrifectaMid(h, i, j)
    ensures j <= c < |h| && d < |h| && c != i && d != i && c != d && t == [h[i], h[c], h[d]]
    decreases |h| - j
  {
    assert j < |h|;
    if j != i && t in TrifectaRow(h, i, j, 0) {
      c := j;
      d := TrifectaRowSound(h, i, j, 0, t);
    } else {
      TrifectaMidLater(h, i, j, t);
      c, d := TrifectaMidSound(h, i, j + 1, t);
    }
  }

  lemma TrifectaMidComplete(h: seq<int>, i: nat, j: nat, c: nat, d: nat)
    requires i < |h| && j <= c < |h| && d < |h| && c != i && d != i && c != d
    ensures [h[i], h[c], h[d]] in TrifectaMid(h, i, j)
  {
    TrifectaRowComplete(h, i, c, 0, d);
    TrifectaMidFromRowAt(h, i, j, c, [h[i], h[c], h[d]]);
  }

  lemma {:induction false} TrifectaMidFromRowAt(h: seq<int>, i: nat, j: nat, c: nat, t: seq<int>)
    requires i < |h| && j <= c < |h| && c != i && t in TrifectaRow(h, i, c, 0)
    ensures t in TrifectaMid(h, i, j)
    decreases c - j
  {
    if c == j {
      TrifectaMidFromRow(h, i, j, t);
    } else {
      TrifectaMidFromRowAt(h, i, j + 1, c, t);
      TrifectaMidFromLater(h, i, j, t);
    }
  }

  lemma {:induction false} TrifectasSound(h: seq<int>, i: nat, t: seq<int>) returns (a: nat, c: nat, d: nat)
    requires i <= |h| && t in Trifectas(h, i)
    ensures i <= a < |h| && c < |h| && d < |h| && a != c && a != d && c != d && t == [h[a], h[c], h[d]]
    decreases |h| - i
  {
    assert i < |h|;
    InAppend(t, TrifectaMid(h, i, 0), Trifectas(h, i + 1));
    if t in TrifectaMid(h, i, 0) {
      a := i;
      c, d := TrifectaMidSound(h, i, 0, t);
    } else {
      a, c, d := TrifectasSound(h, i + 1, t);
    }
  }

  lemma {:induction false} TrifectasComplete(h: seq<int>, i: nat, a: nat, c: nat, d: nat)
    requires i <= a < |h| && c < |h| && d < |h| && a != c && a != d && c != d
    ensures [h[a], h[c], h[d]] in Trifectas(h, i)
    decreases |h| - i
  {
    InAppend([h[a], h[c], h[d]], TrifectaMid(h, i, 0), Trifectas(h, i + 1));
    if a == i {
      TrifectaMidComplete(h, i, 0, c, d);
    } else {
      TrifectasComplete(h, i + 1, a, c, d);
    }
  }

  /** The triples of `Trifectas(h, i)`: exactly the `[h[a], h[c], h[d]]` with `i <= a` and
      pairwise distinct indices. */
  predicate TrifectaAt(h: seq<int>, i: nat, t: seq<int>) {
    exists a, c, d :: i <= a < |h| && 0 <= c < |h| && 0 <= d < |h| && a != c && a != d && c != d
      && t == [h[a], h[c], h[d]]
  }

  lemma TrifectasMember(h: seq<int>, i: nat, t: seq<int>)
    requires i <= |h|
    ensures t in Trifectas(h, i) <==> TrifectaAt(h, i, t)
  {
    if t in Trifectas(h, i) {
      var a, c, d := TrifectasSound(h, i, t);
    }
    if TrifectaAt(h, i, t) {
      var a, c, d :| i <= a < |h| && 0 <= c < |h| && 0 <= d < |h| && a != c && a != d && c != d
        && t == [h[a], h[c], h[d]];
      TrifectasComplete(h, i, a, c, d);
    }
  }

  // ---------------------------------------------------------------- no repeated combination

  lemma SinglesDistinct(h: seq<int>)
    requires NoDup(h)
    ensures NoDupBy(Singles(h), Bag)
  {
    forall p, q | 0 <= p < q < |h|
      ensures Bag(Singles(h)[p]) != Bag(Singles(h)[q])
    {
      assert h[p] in Bag(Singles(h)[p]) && h[p] !in Bag(Singles(h)[q]);
    }
  }

  lemma {:induction false} PairRowDistinct(h: seq<int>, i: nat, j: nat)
    requires NoDup(h) && i < j <= |h|
    ensures NoDupBy(PairRow(h, i, j), Bag)
    decreases |h| - j
  {
    if j < |h| {
      PairRowDistinct(h, i, j + 1);
      forall x, y | x in [[h[i], h[j]]] && y in PairRow(h, i, j + 1)
        ensures Bag(x) != Bag(y)
      {
        var c := PairRowSound(h, i, j + 1, y);
        assert h[j] in Bag(x) && h[j] !in Bag(y);
      }
      NoDupByAppend([[h[i], h[j]]], PairRow(h, i, j + 1), Bag);
    }
  }

  lemma PairsApart(h: seq<int>, i: nat, x: seq<int>, y: seq<int>)
    requires NoDup(h) && i < |h|
    requires x in PairRow(h, i, i + 1) && y in UnorderedPairs(h, i + 1)
    ensures Bag(x) != Bag(y)
  {
    var c := PairRowSound(h, i, i + 1, x);
    var a, d := UnorderedPairsSound(h, i + 1, y);
    assert h[i] in Bag(x);
    assert h[i] != h[a] && h[i] != h[d];
    assert h[i] !in Bag(y);
  }

  lemma {:induction false} UnorderedPairsDistinct(h: seq<int>, i: nat)
    requires NoDup(h) && i <= |h|
    ensures NoDupBy(UnorderedPairs(h, i), Bag)
    decreases |h| - i
  {
    if i < |h| {
      PairRowDistinct(h, i, i + 1);
      UnorderedPairsDistinct(h, i + 1);
      forall x, y | x in PairRow(h, i, i + 1) && y in UnorderedPairs(h, i + 1)
        ensures Bag(x) != Bag(y)
      {
        PairsApart(h, i, x, y);
      }
      NoDupByAppend(PairRow(h, i, i + 1), UnorderedPairs(h, i + 1), Bag);
    }
  }

  /** The pair with second horse `h[j]` does not come round again later in the row. */
  lemma OrderedPairRowFresh(h: seq<int>, i: nat, j: nat)
    requires NoDup(h) && i < |h| && j < |h|
    ensures [h[i], h[j]] !in OrderedPairRow(h, i, j + 1)
  {
    if [h[i], h[j]] in OrderedPairRow(h, i, j + 1) {
      var c := OrderedPairRowSound(h, i, j + 1, [h[i], h[j]]);
      assert false;
    }
  }

  lemma {:induction false} OrderedPairRowDistinct(h: seq<int>, i: nat, j: nat)
    requires NoDup(h) && i < |h| && j <= |h|
    ensures NoDup(OrderedPairRow(h, i, j))
    decreases |h| - j
  {
    if j < |h| {
      OrderedPairRowDistinct(h, i, j + 1);
      if i != j {
        OrderedPairRowFresh(h, i, j);
        NoDupAppend([[h[i], h[j]]], OrderedPairRow(h, i, j + 1));
      }
    }
  }

  lemma {:induction false} OrderedPairsDistinct(h: seq<int>, i: nat)
    requires NoDup(h) && i <= |h|
    ensures NoDup(OrderedPairs(h, i))
    decreases |h| - i
  {
    if i < |h| {
      OrderedPairRowDistinct(h, i, 0);
      OrderedPairsDistinct(h, i + 1);
      forall x | x in OrderedPairRow(h, i, 0)
        ensures x !in OrderedPairs(h, i + 1)
      {
        var c := OrderedPairRowSound(h, i, 0, x);
        if x in OrderedPairs(h, i + 1) {
          var a, d := OrderedPairsSound(h, i + 1, x);
          assert false;
        }
      }
      NoDupAppend(OrderedPairRow(h, i, 0), OrderedPairs(h, i + 1));
    }
  }

  lemma {:induction false} TrioRowDistinct(h: seq<int>, i: nat, j: nat, k: nat)
    requires NoDup(h) && i < j < k <= |h|
    ensures NoDupBy(TrioRow(h, i, j, k), Bag)
    decreases |h| - k
  {
    if k < |h| {
      TrioRowDistinct(h, i, j, k + 1);
      forall x, y | x in [[h[i], h[j], h[k]]] && y in TrioRow(h, i, j, k + 1)
        ensures Bag(x) != Bag(y)
      {
        var d := TrioRowSound(h, i, j, k + 1, y);
        assert h[k] in Bag(x) && h[k] !in Bag(y);
      }
      NoDupByAppend([[h[i], h[j], h[k]]], TrioRow(h, i, j, k + 1), Bag);
    }
  }

  lemma {:induction false} TrioMidDistinct(h: seq<int>, i: nat, j: nat)
    requires NoDup(h) && i < j <= |h|
    ensures NoDupBy(TrioMid(h, i, j), Bag)
    decreases |h| - j
  {
    if j < |h| {
      TrioRowDistinct(h, i, j, j + 1);
      TrioMidDistinct(h, i, j + 1);
      forall x, y | x in TrioRow(h, i, j, j + 1) && y in TrioMid(h, i, j + 1)
        ensures Bag(x) != Bag(y)
      {
        var e := TrioRowSound(h, i, j, j + 1, x);
        var c, d := TrioMidSound(h, i, j + 1, y);
        assert h[j] in Bag(x) && h[j] !in Bag(y);
      }
      NoDupByAppend(TrioRow(h, i, j, j + 1), TrioMid(h, i, j + 1), Bag);
    }
  }

  /** Triples led by `h[i]` share no combination with the later ones, which lack `h[i]`. */
  lemma TriosApart(h: seq<int>, i: nat)
    requires NoDup(h) && i < |h|
    ensures forall x, y :: x in TrioMid(h, i, i + 1) && y in Trios(h, i + 1) ==> Bag(x) != Bag(y)
  {
    forall x, y | x in TrioMid(h, i, i + 1) && y in Trios(h, i + 1)
      ensures Bag(x) != Bag(y)
    {
      var c, e := TrioMidSound(h, i, i + 1, x);
      var a, b, d := TriosSound(h, i + 1, y);
      assert h[i] in Bag(x);
      assert h[i] != h[a] && h[i] != h[b] && h[i] != h[d];
      assert h[i] !in Bag(y);
    }
  }

  lemma {:induction false} TriosDistinct(h: seq<int>, i: nat)
    requires NoDup(h) && i <= |h|
    ensures NoDupBy(Trios(h, i), Bag)
    decreases |h| - i
  {
    if i < |h| {
      TrioMidDistinct(h, i, i + 1);
      TriosDistinct(h, i + 1);
      TriosApart(h, i);
      NoDupByAppend(TrioMid(h, i, i + 1), Trios(h, i + 1), Bag);
    }
  }

  /** The triple with third horse `h[k]` does not come round again later in the row. */
  lemma TrifectaRowFresh(h: seq<int>, i: nat, j: nat, k: nat)
    requires NoDup(h) && i < |h| && j < |h| && i != j && k < |h|
    ensures [h[i], h[j], h[k]] !in TrifectaRow(h, i, j, k + 1)
  {
    if [h[i], h[j], h[k]] in TrifectaRow(h, i, j, k + 1) {
      var d := TrifectaRowSound(h, i, j, k + 1, [h[i], h[j], h[k]]);
      assert false;
    }
  }

  lemma {:induction false} TrifectaRowDistinct(h: seq<int>, i: nat, j: nat, k: nat)
    requires NoDup(h) && i < |h| && j < |h| && i != j && k <= |h|
    ensures NoDup(TrifectaRow(h, i, j, k))
    decreases |h| - k
  {
    if k < |h| {
      TrifectaRowDistinct(h, i, j, k + 1);
      if k != i && k != j {
        var t := [h[i], h[j], h[k]];
        assert TrifectaRow(h, i, j, k) == [t] + TrifectaRow(h, i, j, k + 1);
        TrifectaRowFresh(h, i, j, k);
        NoDupAppend([t], TrifectaRow(h, i, j, k + 1));
      } else {
        assert TrifectaRow(h, i, j, k) == [] + TrifectaRow(h, i, j, k + 1);
      }
    }
  }

  /** A triple with second horse `h[j]` is not among those whose second horse comes later. */
  lemma TrifectaRowApart(h: seq<int>, i: nat, j: nat, x: seq<int>)
    requires NoDup(h) && i < |h| && j < |h| && i != j && x in TrifectaRow(h, i, j, 0)
    ensures x !in TrifectaMid(h, i, j + 1)
  {
    var e := TrifectaRowSound(h, i, j, 0, x);
    assert x[1] == h[j];
    if x in TrifectaMid(h, i, j + 1) {
      var c, d := TrifectaMidSound(h, i, j + 1, x);
      assert false;
    }
  }

  /** A triple led by `h[i]` is not among those led by a later horse. */
  lemma TrifectaMidApart(h: seq<int>, i: nat, x: seq<int>)
    requires NoDup(h) && i < |h| && x in TrifectaMid(h, i, 0)
    ensures x !in Trifectas(h, i + 1)
  {
    var c, d := TrifectaMidSound(h, i, 0, x);
    assert x[0] == h[i];
    if x in Trifectas(h, i + 1) {
      var a, e, f := TrifectasSound(h, i + 1, x);
      assert false;
    }
  }

  lemma {:induction false} TrifectaMidDistinct(h: seq<int>, i: nat, j: nat)
    requires NoDup(h) && i < |h| && j <= |h|
    ensures NoDup(TrifectaMid(h, i, j))
    decreases |h| - j
  {
    if j < |h| {
      TrifectaMidDistinct(h, i, j + 1);
      if j != i {
        TrifectaRowDistinct(h, i, j, 0);
        forall x | x in TrifectaRow(h, i, j, 0)
          ensures x !in TrifectaMid(h, i, j + 1)
        {
          TrifectaRowApart(h, i, j, x);
        }
        NoDupAppend(TrifectaRow(h, i, j, 0), TrifectaMid(h, i, j + 1));
      }
    }
  }

  lemma {:induction false} TrifectasDistinct(h: seq<int>, i: nat)
    requires NoDup(h) && i <= |h|
    ensures NoDup(Trifectas(h, i))
    decreases |h| - i
  {
    if i < |h| {
      TrifectaMidDistinct(h, i, 0);
      TrifectasDistinct(h, i + 1);
      forall x | x in TrifectaMid(h, i, 0)
        ensures x !in Trifectas(h, i + 1)
      {
        TrifectaMidApart(h, i, x);
      }
      NoDupAppend(TrifectaMid(h, i, 0), Trifectas(h, i + 1));
    }
  }

  // ---------------------------------------------------------------- calculateBoxTickets

  /** The horse tuples `calculateBoxTickets` emits for bet type `b`. */
  function BoxTuples(b: BetType, h: seq<int>): seq<seq<int>> {
    match b
    case Tansho | Fukusho => Singles(h)
    case Umaren | Wide | Wakuren => UnorderedPairs(h, 0)
    case Umatan => OrderedPairs(h, 0)
    case Sanrenpuku => Trios(h, 0)
    case Sanrentan => Trifectas(h, 0)
  }

  /** A BOX tuple described by the indices of the horses it uses: unordered types take
      strictly increasing indices (so the tuple keeps input order), ordered types take any
      pairwise distinct indices. */
  predicate InBox(b: BetType, h: seq<int>, t: seq<int>) {
    match b
    case Tansho | Fukusho => SingleAt(h, t)
    case Umaren | Wide | Wakuren => PairAt(h, 0, t)
    case Umatan => OrderedPairAt(h, 0, t)
    case Sanrenpuku => TrioAt(h, 0, t)
    case Sanrentan => TrifectaAt(h, 0, t)
  }

  /** The tuples of `Singles(h)`: one horse of `h`. */
  predicate SingleAt(h: seq<int>, t: seq<int>) {
    exists a :: 0 <= a < |h| && t == [h[a]]
  }

  /** Number of BOX tuples: n!/(n-k)! for ordered types, n choose k for unordered ones. */
  function BoxCount(b: BetType, n: nat): int {
    if IsOrderedBet(b) then Permutation(n, Positions(b)) else Combination(n, Positions(b))
  }

  lemma BoxTuplesCount(b: BetType, h: seq<int>)
    ensures |BoxTuples(b, h)| == BoxCount(b, |h|)
  {
    match b
    case Tansho | Fukusho => ChooseOne(|h|);
    case Umaren | Wide | Wakuren =>
      UnorderedPairsLength(h, 0);
      ChooseTwo(|h|, |UnorderedPairs(h, 0)|);
    case Umatan =>
      OrderedPairsLength(h, 0);
      SmallFactorials(|h|);
    case Sanrenpuku =>
      TriosLength(h, 0);
      ChooseThree(|h|, |Trios(h, 0)|);
    case Sanrentan =>
      TrifectasLength(h, 0);
      SmallFactorials(|h|);
  }

  lemma BoxTuplesMember(b: BetType, h: seq<int>, t: seq<int>)
    ensures t in BoxTuples(b, h) <==> InBox(b, h, t)
  {
    match b
    case Tansho | Fukusho =>
      if InBox(b, h, t) {
        var a :| 0 <= a < |h| && t == [h[a]];
        assert Singles(h)[a] == t;
      }
    case Umaren | Wide | Wakuren => UnorderedPairsMember(h, 0, t);
    case Umatan => OrderedPairsMember(h, 0, t);
    case Sanrenpuku => TriosMember(h, 0, t);
    case Sanrentan => TrifectasMember(h, 0, t);
  }

  /** Each tuple has one horse per finishing position, and distinct input horses give
      tuples of distinct horses. */
  lemma BoxTupleShape(b: BetType, h: seq<int>, t: seq<int>)
    requires InBox(b, h, t)
    ensures |t| == Positions(b)
    ensures NoDup(h) ==> NoDup(t)
  {
  }

  lemma BoxTuplesDistinct(b: BetType, h: seq<int>)
    requires NoDup(h)
    ensures NoRepeatedCombination(b, BoxTuples(b, h))
  {
    match b
    case Tansho | Fukusho => SinglesDistinct(h);
    case Umaren | Wide | Wakuren => UnorderedPairsDistinct(h, 0);
    case Umatan => OrderedPairsDistinct(h, 0);
    case Sanrenpuku => TriosDistinct(h, 0);
    case Sanrentan => TrifectasDistinct(h, 0);
  }

  lemma BoxTuplesFacts(b: BetType, h: seq<int>)
    ensures |BoxTuples(b, h)| == BoxCount(b, |h|)
    ensures forall t :: t in BoxTuples(b, h) <==> InBox(b, h, t)
    ensures forall k :: 0 <= k < |BoxTuples(b, h)| ==>
      |BoxTuples(b, h)[k]| == Positions(b) && (NoDup(h) ==> NoDup(BoxTuples(b, h)[k]))
    ensures NoDup(h) ==> NoRepeatedCombination(b, BoxTuples(b, h))
  {
    var ts := BoxTuples(b, h);
    BoxTuplesCount(b, h);
    forall t ensures t in ts <==> InBox(b, h, t) {
      BoxTuplesMember(b, h, t);
    }
    forall k | 0 <= k < |ts| ensures |ts[k]| == Positions(b) && (NoDup(h) ==> NoDup(ts[k])) {
      BoxTuplesMember(b, h, ts[k]);
      BoxTupleShape(b, h, ts[k]);
    }
    if NoDup(h) {
      BoxTuplesDistinct(b, h);
    }
  }

  /** `calculateBoxTickets` */
  function CalculateBoxTickets(b: BetType, horses: seq<int>): (r: TicketSet)
    ensures r.count == |r.selections| == BoxCount(b, |horses|)
    ensures forall k :: 0 <= k < |r.selections| ==>
      |r.selections[k].horses| == Positions(b) && r.selections[k].odds == None
    ensures forall t :: t in HorsesOf(r.selections) <==> InBox(b, horses, t)
    ensures NoDup(horses) ==> forall k :: 0 <= k < |r.selections| ==> NoDup(r.selections[k].horses)
    ensures NoDup(horses) ==> NoRepeatedCombination(b, HorsesOf(r.selections))
  {
    BoxTuplesFacts(b, horses);
    var r := Tickets(BoxTuples(b, horses));
    assert HorsesOf(r.selections) == BoxTuples(b, horses);
    r
  }

  /** Worked cases: BOX 馬連 over 1, 2, 3 gives [1,2], [1,3], [2,3], and over 3, 1 keeps the
      horses in the order given. */
  lemma BoxScenarios()
    ensures BoxTuples(Umaren, [1, 2, 3]) == [[1, 2], [1, 3], [2, 3]]
    ensures BoxTuples(Umaren, [3, 1]) == [[3, 1]]
  {
  }

  /** A 3連単 box of three horses is six tickets. */
  lemma BoxCountScenario()
    ensures CalculateBoxTickets(Sanrentan, [1, 2, 3]).count == 6
  {
    SmallFactorials(3);
  }
}
