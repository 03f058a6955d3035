/** A stable ascending sort by an integer key, as `Array.prototype.sort((a, b) => key(a) - key(b))`. */
module Sorting {

  predicate SortedBy<T>(s: seq<T>, key: T -> int) {
    forall i, j :: 0 <= i < j < |s| ==> key(s[i]) <= key(s[j])
  }

  function Id(x: int): int { x }

  /** Ascending order of plain numbers. */
  predicate Ascending(s: seq<int>) {
    SortedBy(s, Id)
  }

  /** Inserts `x` before the first element whose key is not smaller, keeping equal keys in order. */
  function InsertBy<T>(x: T, s: seq<T>, key: T -> int): (r: seq<T>)
    requires SortedBy(s, key)
    ensures SortedBy(r, key)
    ensures multiset(r) == multiset(s) + multiset{x}
    ensures |r| == |s| + 1
  {
    if s == [] || key(x) <= key(s[0]) then
      ConsSorted(x, s, key);
      [x] + s
    else
      var r := InsertBy(x, s[1..], key);
      InsertBehind(x, s, r, key);
      [s[0]] + r
  }

  /** An element whose key is not above any key of a sorted sequence can go in front of it. */
  lemma ConsSorted<T>(y: T, r: seq<T>, key: T -> int)
    requires SortedBy(r, key) && (r == [] || key(y) <= key(r[0]))
    ensures SortedBy([y] + r, key)
  {
    forall i, j | 0 <= i < j < |[y] + r| ensures key(([y] + r)[i]) <= key(([y] + r)[j]) {
      if i > 0 {
        assert ([y] + r)[i] == r[i - 1];
      }
      assert ([y] + r)[j] == r[j - 1];
    }
  }

  /** When `x` goes behind the head of `s`, the head stays in front of the rest with `x` in it. */
  lemma InsertBehind<T>(x: T, s: seq<T>, r: seq<T>, key: T -> int)
    requires s != [] && SortedBy(s, key) && key(s[0]) < key(x)
    requires SortedBy(r, key) && multiset(r) == multiset(s[1..]) + multiset{x} && |r| == |s|
    ensures SortedBy([s[0]] + r, key) && multiset([s[0]] + r) == multiset(s) + multiset{x}
  {
    assert s == [s[0]] + s[1..];
    assert r[0] in multiset(r);
    if r[0] != x {
      assert r[0] in multiset(s[1..]);
      var j :| 0 <= j < |s[1..]| && s[1..][j] == r[0];
      assert s[j + 1] == r[0];
    }
    ConsSorted(s[0], r, key);
  }

  /** Insertion sort: a sorted permutation of `s`. */
  function SortBy<T>(s: seq<T>, key: T -> int): (r: seq<T>)
    ensures SortedBy(r, key)
    ensures multiset(r) == multiset(s)
    ensures |r| == |s|
  {
    if s == [] then []
    else
      assert s == [s[0]] + s[1..];
      InsertBy(s[0], SortBy(s[1..], key), key)
  }

  /** `[...s].sort((a, b) => a - b)` */
  function SortAscending(s: seq<int>): (r: seq<int>)
    ensures Ascending(r)
    ensures multiset(r) == multiset(s)
    ensures |r| == |s|
  {
    SortBy(s, Id)
  }

  /** The head of an ascending sequence is below every element. */
  lemma AscendingHeadIsLeast(s: seq<int>, x: int)
    requires Ascending(s) && x in multiset(s)
    ensures s[0] <= x
  {
    var i :| 0 <= i < |s| && s[i] == x;
    assert Id(s[0]) <= Id(s[i]) || i == 0;
  }

  /** Two ascending sequences with the same elements are equal: sorting yields a canonical form. */
  lemma {:induction false} AscendingUnique(a: seq<int>, b: seq<int>)
    requires Ascending(a) && Ascending(b)
    requires multiset(a) == multiset(b)
    ensures a == b
  {
    assert |a| == |multiset(a)| == |b|;
    if a != [] {
      AscendingHeadIsLeast(b, a[0]);
      AscendingHeadIsLeast(a, b[0]);
      assert a[0] == b[0];
      assert a == [a[0]] + a[1..] && b == [b[0]] + b[1..];
      assert multiset(a[1..]) == multiset(a) - multiset{a[0]};
      assert multiset(b[1..]) == multiset(b) - multiset{b[0]};
      assert multiset(a[1..]) == multiset(b[1..]);
      assert Ascending(a[1..]) by {
        forall i, j | 0 <= i < j < |a[1..]| ensures Id(a[1..][i]) <= Id(a[1..][j]) {
          assert Id(a[i + 1]) <= Id(a[j + 1]);
        }
      }
      assert Ascending(b[1..]) by {
        forall i, j | 0 <= i < j < |b[1..]| ensures Id(b[1..][i]) <= Id(b[1..][j]) {
          assert Id(b[i + 1]) <= Id(b[j + 1]);
        }
      }
      AscendingUnique(a[1..], b[1..]);
    }
  }

  /** Sorting two sequences gives the same result iff they hold the same elements. */
  lemma SortAscendingCanonical(a: seq<int>, b: seq<int>)
    ensures SortAscending(a) == SortAscending(b) <==> multiset(a) == multiset(b)
  {
    if multiset(a) == multiset(b) {
      AscendingUnique(SortAscending(a), SortAscending(b));
    }
  }

  /** An already ascending sequence is left unchanged. */
  lemma SortAscendingFixed(s: seq<int>)
    requires Ascending(s)
    ensures SortAscending(s) == s
  {
    AscendingUnique(SortAscending(s), s);
  }
}
