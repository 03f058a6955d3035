/** フォーメーション purchase (`calculateFormationTickets`): one horse from each position's
    list, horses pairwise different, each combination once. The source drops repeats with a
    set of `'-'`-joined string keys; the model keeps that key and proves it behaves like
    comparing the tuples themselves. */
module FormationTickets {
  import opened Wrappers
  import opened KeibaTypes
  import opened Seqs
  import opened Sorting
  import opened BetTypes
  import opened NumberKeys
  import NagashiTickets

  // ---------------------------------------------------------------- candidates in loop order

  /** The ticket for `first`, `second`: `[first, second]` for 馬単, `[min, max]` otherwise. */
  function PairTicket(b: BetType, x: int, y: int): seq<int> {
    if b == Umatan then [x, y] else [NagashiTickets.Min(x, y), NagashiTickets.Max(x, y)]
  }

  /** The ticket for `first`, `second`, `third`: as chosen for 3連単, sorted for 3連複. */
  function TripleTicket(b: BetType, x: int, y: int, z: int): seq<int> {
    if b == Sanrentan then [x, y, z] else SortAscending([x, y, z])
  }

  /** The inner loop over `second` for one `first` horse, skipping `first === second`. */
  function PairRow(b: BetType, x: int, S: seq<int>): seq<seq<int>> {
    FlatMap(S, y => if x != y then [PairTicket(b, x, y)] else [])
  }

  /** Every pair ticket the two nested loops reach, repeats included. */
  function PairCandidates(b: BetType, F: seq<int>, S: seq<int>): seq<seq<int>> {
    FlatMap(F, x => PairRow(b, x, S))
  }

  /** The innermost loop over `third`, skipping any repeated horse. */
  function TripleRow(b: BetType, x: int, y: int, T: seq<int>): seq<seq<int>> {
    FlatMap(T, z => if x != y && x != z && y != z then [TripleTicket(b, x, y, z)] else [])
  }

  function TripleMid(b: BetType, x: int, S: seq<int>, T: seq<int>): seq<seq<int>> {
    FlatMap(S, y => TripleRow(b, x, y, T))
  }

  /** Every triple ticket the three nested loops reach, repeats included. */
  function TripleCandidates(b: BetType, F: seq<int>, S: seq<int>, T: seq<int>): seq<seq<int>> {
    FlatMap(F, x => TripleMid(b, x, S, T))
  }

  // ---------------------------------------------------------------- the seen-set

  /** The `seen` loop: keep a candidate only when its key has not been seen, then remember it. */
  function DedupBy<K>(c: seq<seq<int>>, key: seq<int> -> K, seen: set<K>): seq<seq<int>>
  {
    if c == [] then []
    else if key(c[0]) in seen then DedupBy(c[1..], key, seen)
    else [c[0]] + DedupBy(c[1..], key, seen + {key(c[0])})
  }

  /** The keys of the tuples already emitted. */
  function KeysOf<K>(s: set<seq<int>>, key: seq<int> -> K): set<K> {
    set x | x in s :: key(x)
  }

  /** With an injective key, deduplicating by key is deduplicating by the tuple itself. */
  lemma {:induction false} DedupByInjective<K>(c: seq<seq<int>>, key: seq<int> -> K, s: set<seq<int>>)
    requires forall x, y :: key(x) == key(y) ==> x == y
    ensures DedupBy(c, key, KeysOf(s, key)) == DedupBy(c, Itself, s)
  {
    if c != [] {
      var x := c[0];
      assert key(x) in KeysOf(s, key) <==> Itself(x) in s;
      assert KeysOf(s + {x}, key) == KeysOf(s, key) + {key(x)};
      DedupByInjective(c[1..], key, s);
      DedupByInjective(c[1..], key, s + {x});
    }
  }

  /** The source's string keys dedup exactly like the tuples, because `join('-')` is injective. */
  lemma StringKeysAgree(c: seq<seq<int>>)
    ensures DedupBy(c, JoinKey, {}) == DedupBy(c, Itself, {})
  {
    forall x, y | JoinKey(x) == JoinKey(y) ensures x == y {
      JoinKeyInjective(x, y);
    }
    assert KeysOf({}, JoinKey) == {};
    DedupByInjective(c, JoinKey, {});
  }

  /** Structural dedup keeps each candidate not already seen, once. */
  lemma {:induction false} DedupFacts(c: seq<seq<int>>, s: set<seq<int>>)
    ensures forall t :: t in DedupBy(c, Itself, s) <==> t in c && t !in s
    ensures NoDup(DedupBy(c, Itself, s))
  {
    if c != [] {
      var x := c[0];
      DedupFacts(c[1..], s);
      DedupFacts(c[1..], s + {x});
      assert c == [x] + c[1..];
      if x !in s {
        var rest := DedupBy(c[1..], Itself, s + {x});
        assert x !in rest;
        NoDupAppend([x], rest);
      }
    }
  }

  /** `r` lists its tuples in the order of their first occurrences in `c`: whatever precedes a
      tuple in `r` occurs in `c` before every occurrence of it. */
  predicate FirstSeenOrder(r: seq<seq<int>>, c: seq<seq<int>>) {
    forall i, j, q :: 0 <= i < j < |r| && 0 <= q < |c| && c[q] == r[j] ==> r[i] in c[..q]
  }

  /** The seen-set pass keeps the candidates in the order of their first occurrences. */
  lemma {:induction false} DedupOrder(c: seq<seq<int>>, s: set<seq<int>>)
    ensures FirstSeenOrder(DedupBy(c, Itself, s), c)
  {
    var r := DedupBy(c, Itself, s);
    if c != [] {
      var x := c[0];
      if x in s {
        assert r == DedupBy(c[1..], Itself, s);
        DedupOrder(c[1..], s);
        assert FirstSeenOrder(r, c[1..]);
        DedupFacts(c[1..], s);
        forall i, j, q | 0 <= i < j < |r| && 0 <= q < |c| && c[q] == r[j] ensures r[i] in c[..q] {
          assert r[j] in r;
          assert q != 0;
          var c' := c[1..];
          assert c'[q - 1] == r[j];
          assert r[i] in c'[..q - 1];
          assert c[..q] == [x] + c'[..q - 1];
        }
      } else {
        var rest := DedupBy(c[1..], Itself, s + {x});
        assert r == [x] + rest;
        DedupOrder(c[1..], s + {x});
        assert FirstSeenOrder(rest, c[1..]);
        DedupFacts(c[1..], s + {x});
        forall i, j, q | 0 <= i < j < |r| && 0 <= q < |c| && c[q] == r[j] ensures r[i] in c[..q] {
          assert r[j] == rest[j - 1] && rest[j - 1] in rest;
          assert q != 0;
          if i == 0 {
            assert c[..q][0] == x;
          } else {
            var c' := c[1..];
            assert r[i] == rest[i - 1] && c'[q - 1] == rest[j - 1];
            assert 0 <= i - 1 < j - 1 < |rest| && 0 <= q - 1 < |c'|;
            assert rest[i - 1] in c'[..q - 1];
            assert c[..q] == [x] + c'[..q - 1];
          }
        }
      }
    }
  }

  // ---------------------------------------------------------------- calculateFormationTickets

  /** Every ticket the nested loops reach for bet type `b`, before the seen-set; nothing for
      single bets (the final `return`) or for a triple bet without `third`. */
  function Candidates(b: BetType, form: FormationSelection): seq<seq<int>> {
    match b
    case Tansho | Fukusho => []
    case Umaren | Wide | Wakuren | Umatan => PairCandidates(b, form.first, form.second)
    case Sanrenpuku | Sanrentan =>
      if form.third.None? then [] else TripleCandidates(b, form.first, form.second, form.third.value)
  }

  /** The tuples `calculateFormationTickets` emits: the candidates in loop order, a candidate
      dropped when its string key was seen before. */
  function FormationTuples(b: BetType, form: FormationSelection): seq<seq<int>> {
    DedupBy(Candidates(b, form), JoinKey, {})
  }

  /** 馬連/ワイド/枠連: an ascending pair holding a `first` and a different `second` horse. */
  predicate PairFrom(F: seq<int>, S: seq<int>, t: seq<int>) {
    |t| == 2 && Ascending(t) && exists x, y :: x in F && y in S && x != y && Bag(t) == multiset{x, y}
  }

  /** 馬単: a `first` horse, then a different `second` horse. */
  predicate ExactaFrom(F: seq<int>, S: seq<int>, t: seq<int>) {
    |t| == 2 && t[0] in F && t[1] in S && t[0] != t[1]
  }

  /** 3連複: an ascending triple holding pairwise different horses, one from each list. */
  predicate TrioFrom(F: seq<int>, S: seq<int>, T: seq<int>, t: seq<int>) {
    |t| == 3 && Ascending(t) &&
    exists x, y, z :: x in F && y in S && z in T && x != y && x != z && y != z && Bag(t) == multiset{x, y, z}
  }

  /** 3連単: pairwise different horses from `first`, `second` and `third`, in that order. */
  predicate TrifectaFrom(F: seq<int>, S: seq<int>, T: seq<int>, t: seq<int>) {
    |t| == 3 && t[0] in F && t[1] in S && t[2] in T && NoDup(t)
  }

  /** A formation ticket described without the loops: one horse from each position's list,
      all different, ascending for unordered types and in position order for ordered ones. */
  predicate InFormation(b: BetType, form: FormationSelection, t: seq<int>) {
    match b
    case Tansho | Fukusho => false
    case Umaren | Wide | Wakuren => PairFrom(form.first, form.second, t)
    case Umatan => ExactaFrom(form.first, form.second, t)
    case Sanrenpuku => form.third.Some? && TrioFrom(form.first, form.second, form.third.value, t)
    case Sanrentan => form.third.Some? && TrifectaFrom(form.first, form.second, form.third.value, t)
  }

  // ---------------------------------------------------------------- candidates by membership

  lemma PairRowSound(b: BetType, x: int, S: seq<int>, t: seq<int>) returns (y: int)
    requires t in PairRow(b, x, S)
    ensures y in S && x != y && t == PairTicket(b, x, y)
  {
    var g := y => if x != y then [PairTicket(b, x, y)] else [];
    FlatMapMember(S, g, t);
    var k :| 0 <= k < |S| && t in g(S[k]);
    y := S[k];
  }

  lemma PairRowComplete(b: BetType, x: int, S: seq<int>, y: int)
    requires y in S && x != y
    ensures PairTicket(b, x, y) in PairRow(b, x, S)
  {
    var g := y => if x != y then [PairTicket(b, x, y)] else [];
    var k :| 0 <= k < |S| && S[k] == y;
    assert PairTicket(b, x, y) in g(S[k]);
    FlatMapMember(S, g, PairTicket(b, x, y));
  }

  lemma PairCandidatesSound(b: BetType, F: seq<int>, S: seq<int>, t: seq<int>) returns (x: int, y: int)
    requires t in PairCandidates(b, F, S)
    ensures x in F && y in S && x != y && t == PairTicket(b, x, y)
  {
    var f := x => PairRow(b, x, S);
    FlatMapMember(F, f, t);
    var k :| 0 <= k < |F| && t in f(F[k]);
    x := F[k];
    y := PairRowSound(b, x, S, t);
  }

  lemma PairCandidatesComplete(b: BetType, F: seq<int>, S: seq<int>, x: int, y: int)
    requires x in F && y in S && x != y
    ensures PairTicket(b, x, y) in PairCandidates(b, F, S)
  {
    var f := x => PairRow(b, x, S);
    PairRowComplete(b, x, S, y);
    var k :| 0 <= k < |F| && F[k] == x;
    assert PairTicket(b, x, y) in f(F[k]);
    FlatMapMember(F, f, PairTicket(b, x, y));
  }

  lemma TripleRowSound(b: BetType, x: int, y: int, T: seq<int>, t: seq<int>) returns (z: int)
    requires t in TripleRow(b, x, y, T)
    ensures z in T && x != y && x != z && y != z && t == TripleTicket(b, x, y, z)
  {
    var g := z => if x != y && x != z && y != z then [TripleTicket(b, x, y, z)] else [];
    FlatMapMember(T, g, t);
    var k :| 0 <= k < |T| && t in g(T[k]);
    z := T[k];
  }

  lemma TripleRowComplete(b: BetType, x: int, y: int, T: seq<int>, z: int)
    requires z in T && x != y && x != z && y != z
    ensures TripleTicket(b, x, y, z) in TripleRow(b, x, y, T)
  {
    var g := z => if x != y && x != z && y != z then [TripleTicket(b, x, y, z)] else [];
    var k :| 0 <= k < |T| && T[k] == z;
    assert TripleTicket(b, x, y, z) in g(T[k]);
    FlatMapMember(T, g, TripleTicket(b, x, y, z));
  }

  lemma TripleMidSound(b: BetType, x: int, S: seq<int>, T: seq<int>, t: seq<int>) returns (y: int, z: int)
    requires t in TripleMid(b, x, S, T)
    ensures y in S && z in T && x != y && x != z && y != z && t == TripleTicket(b, x, y, z)
  {
    var f := y => TripleRow(b, x, y, T);
    FlatMapMember(S, f, t);
    var k :| 0 <= k < |S| && t in f(S[k]);
    y := S[k];
    z := TripleRowSound(b, x, y, T, t);
  }

  lemma TripleMidComplete(b: BetType, x: int, S: seq<int>, T: seq<int>, y: int, z: int)
    requires y in S && z in T && x != y && x != z && y != z
    ensures TripleTicket(b, x, y, z) in TripleMid(b, x, S, T)
  {
    var f := y => TripleRow(b, x, y, T);
    TripleRowComplete(b, x, y, T, z);
    var k :| 0 <= k < |S| && S[k] == y;
    assert TripleTicket(b, x, y, z) in f(S[k]);
    FlatMapMember(S, f, TripleTicket(b, x, y, z));
  }

  lemma TripleCandidatesSound(b: BetType, F: seq<int>, S: seq<int>, T: seq<int>, t: seq<int>)
    returns (x: int, y: int, z: int)
    requires t in TripleCandidates(b, F, S, T)
    ensures x in F && y in S && z in T && x != y && x != z && y != z && t == TripleTicket(b, x, y, z)
  {
    var f := x => TripleMid(b, x, S, T);
    FlatMapMember(F, f, t);
    var k :| 0 <= k < |F| && t in f(F[k]);
    x := F[k];
    y, z := TripleMidSound(b, x, S, T, t);
  }

  lemma TripleCandidatesComplete(b: BetType, F: seq<int>, S: seq<int>, T: seq<int>, x: int, y: int, z: int)
    requires x in F && y in S && z in T && x != y && x != z && y != z
    ensures TripleTicket(b, x, y, z) in TripleCandidates(b, F, S, T)
  {
    var f := x => TripleMid(b, x, S, T);
    TripleMidComplete(b, x, S, T, y, z);
    var k :| 0 <= k < |F| && F[k] == x;
    assert TripleTicket(b, x, y, z) in f(F[k]);
    FlatMapMember(F, f, TripleTicket(b, x, y, z));
  }

  // ---------------------------------------------------------------- candidates described

  /** 馬連/ワイド/枠連: the candidates are the ascending pairs of a `first` and a different
      `second` horse. */
  lemma UnorderedPairMember(b: BetType, F: seq<int>, S: seq<int>, t: seq<int>)
    requires b != Umatan
    ensures t in PairCandidates(b, F, S) <==> PairFrom(F, S, t)
  {
    if t in PairCandidates(b, F, S) {
      var x, y := PairCandidatesSound(b, F, S, t);
      NagashiTickets.MinMaxCanonical(x, y, t);
    }
    if PairFrom(F, S, t) {
      var x, y :| x in F && y in S && x != y && Bag(t) == multiset{x, y};
      NagashiTickets.MinMaxCanonical(x, y, t);
      PairCandidatesComplete(b, F, S, x, y);
    }
  }

  /** 馬単: the candidates are the `[first, second]` pairs of different horses. */
  lemma ExactaMember(F: seq<int>, S: seq<int>, t: seq<int>)
    ensures t in PairCandidates(Umatan, F, S) <==> ExactaFrom(F, S, t)
  {
    if t in PairCandidates(Umatan, F, S) {
      var x, y := PairCandidatesSound(Umatan, F, S, t);
    }
    if ExactaFrom(F, S, t) {
      PairCandidatesComplete(Umatan, F, S, t[0], t[1]);
      assert t == PairTicket(Umatan, t[0], t[1]);
    }
  }

  lemma TrioSound(F: seq<int>, S: seq<int>, T: seq<int>, t: seq<int>)
    requires t in TripleCandidates(Sanrenpuku, F, S, T)
    ensures TrioFrom(F, S, T, t)
  {
    var x, y, z := TripleCandidatesSound(Sanrenpuku, F, S, T, t);
    NagashiTickets.TrioCanonical(x, y, z, t);
  }

  lemma TrioComplete(F: seq<int>, S: seq<int>, T: seq<int>, t: seq<int>)
    requires TrioFrom(F, S, T, t)
    ensures t in TripleCandidates(Sanrenpuku, F, S, T)
  {
    var x, y, z :| x in F && y in S && z in T && x != y && x != z && y != z
      && Bag(t) == multiset{x, y, z};
    NagashiTickets.TrioCanonical(x, y, z, t);
    assert t == SortAscending([x, y, z]);
    TripleCandidatesComplete(Sanrenpuku, F, S, T, x, y, z);
  }

  /** 3連複: the candidates are the sorted triples of pairwise different horses, one per list. */
  lemma TrioMember(F: seq<int>, S: seq<int>, T: seq<int>, t: seq<int>)
    ensures t in TripleCandidates(Sanrenpuku, F, S, T) <==> TrioFrom(F, S, T, t)
  {
    if t in TripleCandidates(Sanrenpuku, F, S, T) {
      TrioSound(F, S, T, t);
    }
    if TrioFrom(F, S, T, t) {
      TrioComplete(F, S, T, t);
    }
  }

  /** Three numbers are duplicate-free exactly when they differ pairwise. */
  lemma TripleNoDup(t: seq<int>)
    requires |t| == 3
    ensures NoDup(t) <==> t[0] != t[1] && t[0] != t[2] && t[1] != t[2]
  {
  }

  /** 3連単: the candidates are the `[first, second, third]` triples of different horses. */
  lemma TrifectaMember(F: seq<int>, S: seq<int>, T: seq<int>, t: seq<int>)
    ensures t in TripleCandidates(Sanrentan, F, S, T) <==> TrifectaFrom(F, S, T, t)
  {
    if t in TripleCandidates(Sanrentan, F, S, T) {
      var x, y, z := TripleCandidatesSound(Sanrentan, F, S, T, t);
      TripleNoDup(t);
    }
    if TrifectaFrom(F, S, T, t) {
      TripleNoDup(t);
      TripleCandidatesComplete(Sanrentan, F, S, T, t[0], t[1], t[2]);
      assert t == TripleTicket(Sanrentan, t[0], t[1], t[2]);
    }
  }

  lemma CandidatesMember(b: BetType, form: FormationSelection, t: seq<int>)
    ensures t in Candidates(b, form) <==> InFormation(b, form, t)
  {
    var F, S := form.first, form.second;
    match b
    case Tansho | Fukusho =>
    case Umaren | Wide | Wakuren => UnorderedPairMember(b, F, S, t);
    case Umatan => ExactaMember(F, S, t);
    case Sanrenpuku => if form.third.Some? { TrioMember(F, S, form.third.value, t); }
    case Sanrentan => if form.third.Some? { TrifectaMember(F, S, form.third.value, t); }
  }

  // ---------------------------------------------------------------- shape and distinctness

  lemma PairFromNoDup(F: seq<int>, S: seq<int>, t: seq<int>)
    requires PairFrom(F, S, t)
    ensures NoDup(t)
  {
    var x, y :| x in F && y in S && x != y && Bag(t) == multiset{x, y};
    NagashiTickets.PairNoDup(x, y, t);
  }

  lemma TrioFromNoDup(F: seq<int>, S: seq<int>, T: seq<int>, t: seq<int>)
    requires TrioFrom(F, S, T, t)
    ensures NoDup(t)
  {
    var x, y, z :| x in F && y in S && z in T && x != y && x != z && y != z && Bag(t) == multiset{x, y, z};
    NagashiTickets.TrioNoDup(x, y, z, t);
  }

  /** A formation ticket has one horse per position, no horse twice, and is ascending unless
      the bet type is ordered. */
  lemma InFormationShape(b: BetType, form: FormationSelection, t: seq<int>)
    requires InFormation(b, form, t)
    ensures TupleShape(b, t)
  {
    match b
    case Umaren | Wide | Wakuren => PairFromNoDup(form.first, form.second, t);
    case Umatan =>
    case Sanrenpuku => TrioFromNoDup(form.first, form.second, form.third.value, t);
    case Sanrentan =>
  }

  /** Ascending tuples that hold the same horses are the same tuple, so a duplicate-free list
      of them repeats no combination. */
  lemma AscendingNoDupBag(ts: seq<seq<int>>)
    requires NoDup(ts)
    requires forall k :: 0 <= k < |ts| ==> Ascending(ts[k])
    ensures NoDupBy(ts, Bag)
  {
    forall i, j | 0 <= i < j < |ts| ensures Bag(ts[i]) != Bag(ts[j]) {
      if Bag(ts[i]) == Bag(ts[j]) {
        AscendingUnique(ts[i], ts[j]);
      }
    }
  }

  /** The formation tuples' shape per ticket. */
  predicate TupleShape(b: BetType, t: seq<int>) {
    |t| == Positions(b) && NoDup(t) && (!IsOrderedBet(b) ==> Ascending(t))
  }

  // ---------------------------------------------------------------- how many

  lemma {:induction false} DedupLength<K>(c: seq<seq<int>>, key: seq<int> -> K, seen: set<K>)
    ensures |DedupBy(c, key, seen)| <= |c|
  {
    if c != [] {
      DedupLength(c[1..], key, seen);
      DedupLength(c[1..], key, seen + {key(c[0])});
    }
  }

  lemma PairCandidatesLength(b: BetType, F: seq<int>, S: seq<int>)
    ensures |PairCandidates(b, F, S)| <= |F| * |S|
  {
    forall k | 0 <= k < |F| ensures |PairRow(b, F[k], S)| <= |S| {
      FlatMapLengthBound(S, y => if F[k] != y then [PairTicket(b, F[k], y)] else [], 1);
    }
    FlatMapLengthBound(F, x => PairRow(b, x, S), |S|);
  }

  lemma TripleCandidatesLength(b: BetType, F: seq<int>, S: seq<int>, T: seq<int>)
    ensures |TripleCandidates(b, F, S, T)| <= |F| * (|S| * |T|)
  {
    forall k | 0 <= k < |F| ensures |TripleMid(b, F[k], S, T)| <= |S| * |T| {
      var x := F[k];
      forall m | 0 <= m < |S| ensures |TripleRow(b, x, S[m], T)| <= |T| {
        var y := S[m];
        FlatMapLengthBound(T, z => if x != y && x != z && y != z then [TripleTicket(b, x, y, z)] else [], 1);
      }
      FlatMapLengthBound(S, y => TripleRow(b, x, y, T), |T|);
    }
    FlatMapLengthBound(F, x => TripleMid(b, x, S, T), |S| * |T|);
  }

  /** The loops' product bound: at most one ticket per choice of one horse from each list. */
  function FormationBound(b: BetType, form: FormationSelection): nat {
    if IsSingleBet(b) then 0
    else if !IsTripleBet(b) then |form.first| * |form.second|
    else if form.third.None? then 0
    else |form.first| * (|form.second| * |form.third.value|)
  }

  lemma CandidatesLength(b: BetType, form: FormationSelection)
    ensures |Candidates(b, form)| <= FormationBound(b, form)
  {
    match b
    case Tansho | Fukusho =>
    case Umaren | Wide | Wakuren | Umatan => PairCandidatesLength(b, form.first, form.second);
    case Sanrenpuku | Sanrentan =>
      if form.third.Some? {
        TripleCandidatesLength(b, form.first, form.second, form.third.value);
      }
  }

  // ---------------------------------------------------------------- calculateFormationTickets

  lemma FormationTuplesFacts(b: BetType, form: FormationSelection)
    ensures |FormationTuples(b, form)| <= FormationBound(b, form)
    ensures forall t :: t in FormationTuples(b, form) <==> InFormation(b, form, t)
    ensures forall k :: 0 <= k < |FormationTuples(b, form)| ==> TupleShape(b, FormationTuples(b, form)[k])
    ensures NoRepeatedCombination(b, FormationTuples(b, form))
    ensures FirstSeenOrder(FormationTuples(b, form), Candidates(b, form))
  {
    var c := Candidates(b, form);
    var ts := FormationTuples(b, form);
    StringKeysAgree(c);
    DedupFacts(c, {});
    DedupOrder(c, {});
    DedupLength(c, JoinKey, {});
    CandidatesLength(b, form);
    forall t ensures t in ts <==> InFormation(b, form, t) {
      CandidatesMember(b, form, t);
    }
    forall k | 0 <= k < |ts| ensures TupleShape(b, ts[k]) {
      InFormationShape(b, form, ts[k]);
    }
    if !IsOrderedBet(b) {
      AscendingNoDupBag(ts);
    }
  }

  /** `calculateFormationTickets`: the tickets are exactly the choices of different horses
      from the position lists, each combination once, never more than the lists' product;
      single-horse bets, and triple bets whose third list is missing or empty, have none. */
  function CalculateFormationTickets(b: BetType, form: FormationSelection): (r: TicketSet)
    ensures r.count == |r.selections| <= FormationBound(b, form)
    ensures forall t :: t in HorsesOf(r.selections) <==> InFormation(b, form, t)
    ensures forall k :: 0 <= k < |r.selections| ==>
      TupleShape(b, r.selections[k].horses) && r.selections[k].odds == None
    ensures NoRepeatedCombination(b, HorsesOf(r.selections))
    ensures IsSingleBet(b) || (IsTripleBet(b) && (form.third.None? || form.third == Some([]))) ==> r.count == 0
  {
    FormationTuplesFacts(b, form);
    var r := Tickets(FormationTuples(b, form));
    assert HorsesOf(r.selections) == FormationTuples(b, form);
    r
  }

  lemma ScenarioRows()
    ensures PairCandidates(Umatan, [1, 2], [1, 2]) == [[1, 2], [2, 1]]
  {
    assert [1, 2][1..] == [2];
    assert PairRow(Umatan, 1, [1, 2]) == [[1, 2]];
    assert PairRow(Umatan, 2, [1, 2]) == [[2, 1]];
  }

  lemma ScenarioDedup()
    ensures DedupBy([[1, 2], [2, 1]], Itself, {}) == [[1, 2], [2, 1]]
  {
    var c: seq<seq<int>> := [[1, 2], [2, 1]];
    assert c[1..] == [[2, 1]];
    assert [[2, 1]][1..] == [];
    assert [2, 1] !in {[1, 2]};
  }

  /** Worked cases: 馬単 with lists [1, 2] and [1, 2] keeps both orders of the one pair of
      different horses; 3連複 without a third list has no tickets. */
  lemma FormationScenarios()
    ensures FormationTuples(Umatan, FormationSelection([1, 2], [1, 2], None)) == [[1, 2], [2, 1]]
    ensures FormationTuples(Sanrenpuku, FormationSelection([1], [2], None)) == []
  {
    ScenarioRows();
    ScenarioDedup();
    StringKeysAgree([[1, 2], [2, 1]]);
  }
}
