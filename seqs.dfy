/** Order-preserving filtering of sequences, the one list operation that the
    lister's partition and the filtering match callback are both built on. */
module Seqs {

  /** The elements of `s` that satisfy `p`, in their original order.
      Defined from the end so that it follows a left-to-right scan. */
  function Filter<T>(p: T -> bool, s: seq<T>): (r: seq<T>)
    decreases |s|
  {
    if s == [] then []
    else Filter(p, s[..|s| - 1]) + (if p(s[|s| - 1]) then [s[|s| - 1]] else [])
  }

  /** `a` can be obtained from `b` by deleting elements, without reordering. */
  predicate IsSubsequence<T(==)>(a: seq<T>, b: seq<T>)
    decreases |b|
  {
    if a == [] then true
    else if b == [] then false
    else (a[|a| - 1] == b[|b| - 1] && IsSubsequence(a[..|a| - 1], b[..|b| - 1]))
         || IsSubsequence(a, b[..|b| - 1])
  }

  /** Relation `r` holds between every element of `s` and every later one. */
  ghost predicate Pairwise<T>(r: (T, T) -> bool, s: seq<T>)
  {
    forall i, j :: 0 <= i < j < |s| ==> r(s[i], s[j])
  }

  /** Every element kept by `Filter` comes from `s` and satisfies `p`. */
  lemma {:induction false} FilterSatisfies<T>(p: T -> bool, s: seq<T>)
    ensures |Filter(p, s)| <= |s|
    ensures forall x :: x in Filter(p, s) ==> x in s && p(x)
    decreases |s|
  {
    if s != [] {
      FilterSatisfies(p, s[..|s| - 1]);
    }
  }

  /** `Filter` keeps every occurrence of a satisfying element and no
      occurrence of any other. */
  lemma {:induction false} FilterCount<T>(p: T -> bool, s: seq<T>, x: T)
    ensures multiset(Filter(p, s))[x] == if p(x) then multiset(s)[x] else 0
    decreases |s|
  {
    if s != [] {
      var init, last := s[..|s| - 1], s[|s| - 1];
      assert s == init + [last];
      FilterCount(p, init, x);
    }
  }

  /** Filtering by a predicate and by its negation splits `s` exactly. */
  lemma {:induction false} FilterComplement<T>(p: T -> bool, q: T -> bool, s: seq<T>)
    requires forall x :: q(x) == !p(x)
    ensures multiset(Filter(p, s)) + multiset(Filter(q, s)) == multiset(s)
    decreases |s|
  {
    if s != [] {
      var init, last := s[..|s| - 1], s[|s| - 1];
      assert s == init + [last];
      FilterComplement(p, q, init);
      assert q(last) == !p(last);
    }
  }

  /** `Filter` keeps the relative order of the elements it keeps. */
  lemma {:induction false} FilterIsSubsequence<T>(p: T -> bool, s: seq<T>)
    ensures IsSubsequence(Filter(p, s), s)
    decreases |s|
  {
    if s != [] {
      var init := s[..|s| - 1];
      FilterIsSubsequence(p, init);
      var f := Filter(p, s);
      if p(s[|s| - 1]) {
        assert f[..|f| - 1] == Filter(p, init);
      } else {
        assert f == Filter(p, init);
      }
    }
  }

  /** A relation that holds between every earlier and every later element of
      `s` still holds after filtering. */
  lemma {:induction false} FilterPairwise<T>(p: T -> bool, r: (T, T) -> bool, s: seq<T>)
    requires Pairwise(r, s)
    ensures Pairwise(r, Filter(p, s))
    decreases |s|
  {
    if s != [] {
      var init, last := s[..|s| - 1], s[|s| - 1];
      assert Pairwise(r, init) by {
        forall i, j | 0 <= i < j < |init| ensures r(init[i], init[j]) {
          assert init[i] == s[i] && init[j] == s[j];
        }
      }
      FilterPairwise(p, r, init);
      if p(last) {
        var f, g := Filter(p, s), Filter(p, init);
        assert f == g + [last];
        FilterSatisfies(p, init);
        forall i, j | 0 <= i < j < |f| ensures r(f[i], f[j]) {
          if j < |g| {
            assert f[i] == g[i] && f[j] == g[j];
          } else {
            assert g[i] in init;
            var k :| 0 <= k < |init| && init[k] == g[i];
            assert s[k] == g[i] && s[|s| - 1] == last;
          }
        }
      }
    }
  }
}
