/** Generic sequence helpers: order-preserving filter, flat-map and duplicate-freedom. */
module Seqs {

  /** No element occurs twice. */
  predicate NoDup<T(==)>(s: seq<T>) {
    forall i, j :: 0 <= i < j < |s| ==> s[i] != s[j]
  }

  /** Membership in a concatenation, as a step the solver is handed rather than left to find. */
  lemma InAppend<T>(x: T, a: seq<T>, b: seq<T>)
    ensures x in a + b <==> x in a || x in b
  {
  }

  /** The elements of `s` satisfying `p`, in their original order (`Array.prototype.filter`). */
  function Filter<T>(s: seq<T>, p: T -> bool): (r: seq<T>)
    ensures |r| <= |s|
    ensures forall k :: 0 <= k < |r| ==> p(r[k])
    ensures multiset(r) <= multiset(s)
  {
    if s == [] then []
    else
      assert s == [s[0]] + s[1..];
      (if p(s[0]) then [s[0]] else []) + Filter(s[1..], p)
  }

  lemma {:induction false} FilterAppend<T>(a: seq<T>, b: seq<T>, p: T -> bool)
    ensures Filter(a + b, p) == Filter(a, p) + Filter(b, p)
  {
    if a == [] {
      assert a + b == b;
    } else {
      assert (a + b)[1..] == a[1..] + b;
      FilterAppend(a[1..], b, p);
    }
  }

  /** Extending the input by one element extends the filter by that element when it passes. */
  lemma FilterSnoc<T>(s: seq<T>, i: nat, p: T -> bool)
    requires i < |s|
    ensures Filter(s[..i + 1], p) == Filter(s[..i], p) + (if p(s[i]) then [s[i]] else [])
  {
    assert s[..i + 1] == s[..i] + [s[i]];
    FilterAppend(s[..i], [s[i]], p);
    assert [s[i]][1..] == [];
  }

  /** Filtering keeps exactly the occurrences of the elements satisfying `p`. */
  lemma {:induction false} FilterMultiset<T>(s: seq<T>, p: T -> bool, x: T)
    ensures multiset(Filter(s, p))[x] == if p(x) then multiset(s)[x] else 0
  {
    if s != [] {
      assert s == [s[0]] + s[1..];
      FilterMultiset(s[1..], p, x);
    }
  }

  /** Every element satisfying `p` survives the filter. */
  lemma FilterKeeps<T>(s: seq<T>, p: T -> bool)
    ensures forall x :: x in s && p(x) ==> x in Filter(s, p)
  {
    forall x | x in s && p(x) ensures x in Filter(s, p) {
      FilterMultiset(s, p, x);
    }
  }

  /** The filter holds exactly the elements of `s` that satisfy `p`. */
  lemma FilterMember<T>(s: seq<T>, p: T -> bool, x: T)
    ensures x in Filter(s, p) <==> x in s && p(x)
  {
    FilterMultiset(s, p, x);
  }

  /** A filter and the filter by the negated predicate split the input between them. */
  lemma {:induction false} FilterComplement<T>(s: seq<T>, p: T -> bool, q: T -> bool)
    requires forall x :: q(x) == !p(x)
    ensures |Filter(s, p)| + |Filter(s, q)| == |s|
    ensures multiset(Filter(s, p)) + multiset(Filter(s, q)) == multiset(s)
  {
    if s != [] {
      assert s == [s[0]] + s[1..];
      FilterComplement(s[1..], p, q);
    }
  }

  /** A filter whose predicate holds everywhere on `s` returns `s`. */
  lemma {:induction false} FilterAll<T>(s: seq<T>, p: T -> bool)
    requires forall k :: 0 <= k < |s| ==> p(s[k])
    ensures Filter(s, p) == s
  {
    if s != [] {
      assert s == [s[0]] + s[1..];
      FilterAll(s[1..], p);
    }
  }

  /** The concatenation of `f(a)` over the elements `a` of `s`, in order (nested `for…of`). */
  function FlatMap<A, B>(s: seq<A>, f: A -> seq<B>): seq<B>
  {
    if s == [] then [] else f(s[0]) + FlatMap(s[1..], f)
  }

  /** When every image has `c` elements, the flat-map has `|s| * c`. */
  lemma {:induction false} FlatMapUniformLength<A, B>(s: seq<A>, f: A -> seq<B>, c: nat)
    requires forall k :: 0 <= k < |s| ==> |f(s[k])| == c
    ensures |FlatMap(s, f)| == |s| * c
  {
    if s != [] {
      FlatMapUniformLength(s[1..], f, c);
      assert |FlatMap(s, f)| == c + (|s| - 1) * c;
    }
  }

  /** When no image has more than `c` elements, the flat-map has at most `|s| * c`. */
  lemma {:induction false} FlatMapLengthBound<A, B>(s: seq<A>, f: A -> seq<B>, c: nat)
    requires forall k :: 0 <= k < |s| ==> |f(s[k])| <= c
    ensures |FlatMap(s, f)| <= |s| * c
  {
    if s != [] {
      assert forall k :: 0 <= k < |s[1..]| ==> s[1..][k] == s[k + 1];
      FlatMapLengthBound(s[1..], f, c);
      assert |FlatMap(s, f)| <= c + (|s| - 1) * c;
    }
  }

  /** Something is in the flat-map iff it is in the image of some element. */
  lemma {:induction false} FlatMapMember<A, B>(s: seq<A>, f: A -> seq<B>, x: B)
    ensures x in FlatMap(s, f) <==> exists k :: 0 <= k < |s| && x in f(s[k])
  {
    if s != [] {
      FlatMapMember(s[1..], f, x);
      if x in FlatMap(s[1..], f) {
        var k :| 0 <= k < |s[1..]| && x in f(s[1..][k]);
        assert x in f(s[k + 1]);
      }
      if exists k :: 0 <= k < |s| && x in f(s[k]) {
        var k :| 0 <= k < |s| && x in f(s[k]);
        if k > 0 {
          assert x in f(s[1..][k - 1]);
        }
      }
    }
  }

  /** Every element of the flat-map satisfies `P` when every image does. */
  lemma {:induction false} FlatMapAll<A, B>(s: seq<A>, f: A -> seq<B>, P: B -> bool)
    requires forall k, x :: 0 <= k < |s| && x in f(s[k]) ==> P(x)
    ensures forall x :: x in FlatMap(s, f) ==> P(x)
  {
    forall x | x in FlatMap(s, f)
      ensures P(x)
    {
      FlatMapMember(s, f, x);
    }
  }

  /** No two elements share the same image under `f`. */
  predicate NoDupBy<T, K(==)>(s: seq<T>, f: T -> K) {
    forall i, j :: 0 <= i < j < |s| ==> f(s[i]) != f(s[j])
  }

  /** The identity as a key: being apart under it is plain inequality. */
  function Itself<T>(x: T): T { x }

  lemma NoDupByItself<T>(s: seq<T>)
    requires NoDupBy(s, Itself)
    ensures NoDup(s)
  {
    forall i, j | 0 <= i < j < |s| ensures s[i] != s[j] {
      assert Itself(s[i]) != Itself(s[j]);
    }
  }

  lemma NoDupByAppend<T, K>(a: seq<T>, b: seq<T>, f: T -> K)
    requires NoDupBy(a, f) && NoDupBy(b, f)
    requires forall x, y :: x in a && y in b ==> f(x) != f(y)
    ensures NoDupBy(a + b, f)
  {
    forall i, j | 0 <= i < j < |a + b|
      ensures f((a + b)[i]) != f((a + b)[j])
    {
      if j >= |a| && i < |a| {
        assert (a + b)[i] in a && (a + b)[j] in b;
        assert (a + b)[j] == b[j - |a|];
      } else if i >= |a| {
        assert (a + b)[i] == b[i - |a|] && (a + b)[j] == b[j - |a|];
      }
    }
  }

  lemma NoDupAppend<T>(a: seq<T>, b: seq<T>)
    requires NoDup(a) && NoDup(b)
    requires forall x :: x in a ==> x !in b
    ensures NoDup(a + b)
  {
    forall i, j | 0 <= i < j < |a + b|
      ensures (a + b)[i] != (a + b)[j]
    {
      if j >= |a| && i < |a| {
        assert (a + b)[i] in a && (a + b)[j] in b;
      }
    }
  }

  /** Elements of different images never share an image under `g`. */
  ghost predicate Apart<B, K>(a: seq<B>, b: seq<B>, g: B -> K) {
    forall x, y :: x in a && y in b ==> g(x) != g(y)
  }

  /** A flat-map repeats nothing when no image does and different images are apart. */
  lemma {:induction false} FlatMapNoDupBy<A, B, K>(s: seq<A>, f: A -> seq<B>, g: B -> K)
    requires forall k :: 0 <= k < |s| ==> NoDupBy(f(s[k]), g)
    requires forall k1, k2 :: 0 <= k1 < k2 < |s| ==> Apart(f(s[k1]), f(s[k2]), g)
    ensures NoDupBy(FlatMap(s, f), g)
  {
    if s != [] {
      var t := s[1..];
      assert forall k :: 0 <= k < |t| ==> t[k] == s[k + 1];
      FlatMapNoDupBy(t, f, g);
      forall x, y | x in f(s[0]) && y in FlatMap(t, f)
        ensures g(x) != g(y)
      {
        FlatMapMember(t, f, y);
        var k :| 0 <= k < |t| && y in f(t[k]);
        assert Apart(f(s[0]), f(s[k + 1]), g);
      }
      NoDupByAppend(f(s[0]), FlatMap(t, f), g);
    }
  }

  /** Two indices holding the same value make that value occur at least twice. */
  lemma RepeatedCount<T>(s: seq<T>, i: nat, j: nat)
    requires i < j < |s| && s[i] == s[j]
    ensures multiset(s)[s[i]] >= 2
  {
    assert s == s[..j] + [s[j]] + s[j + 1..];
    assert s[i] in s[..j];
    assert multiset(s) == multiset(s[..j]) + multiset{s[j]} + multiset(s[j + 1..]);
  }

  /** A duplicate-free sequence holds each value at most once. */
  lemma {:induction false} NoDupCount<T>(s: seq<T>, x: T)
    requires NoDup(s)
    ensures multiset(s)[x] <= 1
  {
    if s != [] {
      assert s == [s[0]] + s[1..];
      assert NoDup(s[1..]) by {
        forall i, j | 0 <= i < j < |s[1..]| ensures s[1..][i] != s[1..][j] {
          assert s[i + 1] != s[j + 1];
        }
      }
      NoDupCount(s[1..], x);
      if x == s[0] {
        assert x !in s[1..];
      }
    }
  }

  /** Duplicate-freedom depends only on the bag of elements. */
  lemma NoDupSameBag<T>(s: seq<T>, u: seq<T>)
    requires multiset(s) == multiset(u) && NoDup(u)
    ensures NoDup(s)
  {
    forall i, j | 0 <= i < j < |s|
      ensures s[i] != s[j]
    {
      if s[i] == s[j] {
        RepeatedCount(s, i, j);
        NoDupCount(u, s[i]);
      }
    }
  }
}
