/**
  The two collection idioms of the page: `Array.prototype.filter` (a stable
  filter) and `[...new Set(xs)].sort()` (the sorted list of distinct values).
*/
module Seqs {
  import opened Text

  // ---------------------------------------------------------------------------
  // Stable filter

  /** `r` is obtained from `s` by deleting elements, keeping the order of the rest. */
  predicate IsSubsequence<T(==)>(r: seq<T>, s: seq<T>)
    decreases |s|
  {
    if r == [] then true
    else if s == [] then false
    else if r[|r| - 1] == s[|s| - 1] then IsSubsequence(r[..|r| - 1], s[..|s| - 1])
    else IsSubsequence(r, s[..|s| - 1])
  }

  /** `s.filter(p)`: the elements of `s` that satisfy `p`, in their order. */
  function Filter<T(==,!new)>(s: seq<T>, p: T -> bool): (r: seq<T>)
    ensures |r| <= |s|
    ensures forall i :: 0 <= i < |r| ==> p(r[i])
  {
    if s == [] then [] else Filter(s[..|s| - 1], p) + (if p(s[|s| - 1]) then [s[|s| - 1]] else [])
  }

  /** The filter keeps the order of what it keeps, and each value that passes
      exactly as often as it occurs. */
  lemma {:induction false} FilterKeepsOrderAndCounts<T(!new)>(s: seq<T>, p: T -> bool)
    ensures IsSubsequence(Filter(s, p), s)
    ensures forall x :: multiset(Filter(s, p))[x] == if p(x) then multiset(s)[x] else 0
  {
    if s != [] {
      var init, last := s[..|s| - 1], s[|s| - 1];
      FilterKeepsOrderAndCounts(init, p);
      assert s == init + [last];
      var r := Filter(s, p);
      assert IsSubsequence(r, s) by {
        if p(last) {
          assert r[..|r| - 1] == Filter(init, p) && r[|r| - 1] == last;
        } else if r != [] {
          assert r == Filter(init, p);
          assert r[|r| - 1] != s[|s| - 1];
        }
      }
    }
  }

  /** Filtering one more element. */
  lemma FilterSnoc<T(!new)>(s: seq<T>, x: T, p: T -> bool)
    ensures Filter(s + [x], p) == Filter(s, p) + (if p(x) then [x] else [])
  {
    var t := s + [x];
    assert t[..|t| - 1] == s && t[|t| - 1] == x;
  }

  /** Membership in a filtered sequence. */
  lemma FilterMembership<T(!new)>(s: seq<T>, p: T -> bool, x: T)
    ensures x in Filter(s, p) <==> x in s && p(x)
  {
    var r := Filter(s, p);
    FilterKeepsOrderAndCounts(s, p);
    assert x in r <==> multiset(r)[x] > 0;
    assert x in s <==> multiset(s)[x] > 0;
  }

  /** Filtering with a predicate no element passes leaves nothing. */
  lemma {:induction false} FilterNonePass<T(!new)>(s: seq<T>, p: T -> bool)
    requires forall i :: 0 <= i < |s| ==> !p(s[i])
    ensures Filter(s, p) == []
  {
    if s != [] {
      FilterNonePass(s[..|s| - 1], p);
    }
  }

  /** Filtering with a predicate every element passes changes nothing. */
  lemma {:induction false} FilterAllPass<T(!new)>(s: seq<T>, p: T -> bool)
    requires forall i :: 0 <= i < |s| ==> p(s[i])
    ensures Filter(s, p) == s
  {
    if s != [] {
      FilterAllPass(s[..|s| - 1], p);
      assert s == s[..|s| - 1] + [s[|s| - 1]];
    }
  }

  /** Two predicates that agree on every element select the same elements. */
  lemma {:induction false} FilterCongruent<T(!new)>(s: seq<T>, p: T -> bool, q: T -> bool)
    requires forall i :: 0 <= i < |s| ==> p(s[i]) == q(s[i])
    ensures Filter(s, p) == Filter(s, q)
  {
    if s != [] {
      FilterCongruent(s[..|s| - 1], p, q);
    }
  }

  /** Filtering by `p` and then by `q` is one filter by their conjunction. */
  lemma {:induction false} FilterOfFilter<T(!new)>(s: seq<T>, p: T -> bool, q: T -> bool, both: T -> bool)
    requires forall i :: 0 <= i < |s| ==> both(s[i]) == (p(s[i]) && q(s[i]))
    ensures Filter(Filter(s, p), q) == Filter(s, both)
  {
    if s != [] {
      var init, last := s[..|s| - 1], s[|s| - 1];
      FilterOfFilter(init, p, q, both);
      var mid := Filter(init, p);
      assert Filter(s, both) == Filter(init, both) + (if both(last) then [last] else []);
      if p(last) {
        var once := mid + [last];
        assert Filter(s, p) == once;
        assert once[..|once| - 1] == mid && once[|once| - 1] == last;
        assert Filter(once, q) == Filter(mid, q) + (if q(last) then [last] else []);
      } else {
        assert Filter(s, p) == mid;
      }
    }
  }

  /** Filtering a second time with the same predicate changes nothing. */
  lemma FilterIdempotent<T(!new)>(s: seq<T>, p: T -> bool)
    ensures Filter(Filter(s, p), p) == Filter(s, p)
  {
    var r := Filter(s, p);
    FilterAllPass(r, p);
  }

  /** When `all` is split by two exclusive predicates `p` and `q`, the two
      filtered sequences together are as long as the one filtered by `all`. */
  lemma {:induction false} FilterSplit<T(!new)>(s: seq<T>, p: T -> bool, q: T -> bool, all: T -> bool)
    requires forall i :: 0 <= i < |s| ==> (all(s[i]) <==> p(s[i]) || q(s[i]))
    requires forall i :: 0 <= i < |s| ==> !(p(s[i]) && q(s[i]))
    ensures |Filter(s, p)| + |Filter(s, q)| == |Filter(s, all)|
  {
    if s != [] {
      FilterSplit(s[..|s| - 1], p, q, all);
    }
  }

  /** One stage of a filter chain: a stage that is switched on narrows the
      result by its predicate `q`, one that is switched off leaves it as it is;
      either way the chain so far is one filter by `both`. */
  lemma FilterNarrow<T(!new)>(s: seq<T>, r: seq<T>, p: T -> bool, q: T -> bool, both: T -> bool, active: bool)
    requires r == Filter(s, p)
    requires forall i :: 0 <= i < |s| ==> both(s[i]) == (p(s[i]) && (!active || q(s[i])))
    ensures (if active then Filter(r, q) else r) == Filter(s, both)
  {
    if active {
      FilterOfFilter(s, p, q, both);
    } else {
      FilterCongruent(s, p, both);
    }
  }

  /** A property every element has, every kept element has. */
  lemma FilterKeepsProperty<T(!new)>(s: seq<T>, p: T -> bool, P: T -> bool)
    requires forall i :: 0 <= i < |s| ==> P(s[i])
    ensures forall i :: 0 <= i < |Filter(s, p)| ==> P(Filter(s, p)[i])
  {
    forall i | 0 <= i < |Filter(s, p)| ensures P(Filter(s, p)[i]) {
      FilterMembership(s, p, Filter(s, p)[i]);
    }
  }

  /** No two elements share a key. */
  predicate DistinctKeys<T, K(==)>(s: seq<T>, key: T -> K)
  {
    forall i, j :: 0 <= i < j < |s| ==> key(s[i]) != key(s[j])
  }

  /** Filtering keeps keys distinct. */
  lemma {:induction false} FilterKeepsDistinct<T(!new), K>(s: seq<T>, p: T -> bool, key: T -> K)
    requires DistinctKeys(s, key)
    ensures DistinctKeys(Filter(s, p), key)
  {
    if s != [] {
      var init, last := s[..|s| - 1], s[|s| - 1];
      assert DistinctKeys(init, key);
      FilterKeepsDistinct(init, p, key);
      if p(last) {
        var r := Filter(s, p);
        var f := Filter(init, p);
        assert r == f + [last];
        forall i | 0 <= i < |f| ensures key(f[i]) != key(last) {
          FilterMembership(init, p, f[i]);
          var j :| 0 <= j < |init| && init[j] == f[i];
        }
      }
    }
  }

  // ---------------------------------------------------------------------------
  // Numbering

  /** `f` applied to each element and its number, the numbers counting up from `start`. */
  function MapIndexed<A, B>(xs: seq<A>, f: (A, int) -> B, start: int): (ys: seq<B>)
    ensures |ys| == |xs|
  {
    if xs == [] then [] else MapIndexed(xs[..|xs| - 1], f, start) + [f(xs[|xs| - 1], start + |xs| - 1)]
  }

  /** The k-th result is `f` of the k-th element and the number `start + k`. */
  lemma {:induction false} MapIndexedAt<A, B>(xs: seq<A>, f: (A, int) -> B, start: int, k: int)
    requires 0 <= k < |xs|
    ensures MapIndexed(xs, f, start)[k] == f(xs[k], start + k)
  {
    if k < |xs| - 1 {
      MapIndexedAt(xs[..|xs| - 1], f, start, k);
    }
  }

  /** A property every value of `f` has, every numbered result has. */
  lemma MapIndexedAll<A, B>(xs: seq<A>, f: (A, int) -> B, start: int, P: B -> bool)
    requires forall x, n :: P(f(x, n))
    ensures forall k :: 0 <= k < |xs| ==> P(MapIndexed(xs, f, start)[k])
  {
    forall k | 0 <= k < |xs| ensures P(MapIndexed(xs, f, start)[k]) {
      MapIndexedAt(xs, f, start, k);
    }
  }

  /** One more element gets the next number. */
  lemma MapIndexedSnoc<A, B>(xs: seq<A>, x: A, f: (A, int) -> B, start: int)
    ensures MapIndexed(xs + [x], f, start) == MapIndexed(xs, f, start) + [f(x, start + |xs|)]
  {
    var s := xs + [x];
    assert s[..|s| - 1] == xs && s[|s| - 1] == x;
  }

  /** A loop that filters `s[lo..]` and numbers what it keeps, one element
      further: the element is kept, and numbered after those before it,
      exactly when it passes. */
  lemma FilterNumberStep<A(!new), B>(s: seq<A>, lo: int, i: int, p: A -> bool, f: (A, int) -> B, start: int,
                                     kept: seq<A>, ys: seq<B>)
    requires 0 <= lo <= i < |s|
    requires kept == Filter(s[lo..i], p) && ys == MapIndexed(kept, f, start)
    ensures p(s[i]) ==> Filter(s[lo..i + 1], p) == kept + [s[i]]
    ensures p(s[i]) ==> MapIndexed(kept + [s[i]], f, start) == ys + [f(s[i], start + |ys|)]
    ensures !p(s[i]) ==> Filter(s[lo..i + 1], p) == kept
  {
    assert s[lo..i + 1] == s[lo..i] + [s[i]];
    FilterSnoc(s[lo..i], s[i], p);
    MapIndexedSnoc(kept, s[i], f, start);
  }

  // ---------------------------------------------------------------------------
  // Sorted distinct values

  /** Strictly increasing in the string order, hence free of duplicates. */
  predicate StrictlySorted(r: seq<string>)
  {
    forall i, j :: 0 <= i < j < |r| ==> StrLess(r[i], r[j])
  }

  /** Puts `x` into its place in a strictly sorted list, unless it is there already. */
  function Insert(x: string, r: seq<string>): (r': seq<string>)
    requires StrictlySorted(r)
    ensures StrictlySorted(r')
    ensures forall y :: y in r' <==> y == x || y in r
  {
    if r == [] then [x]
    else if x == r[0] then r
    else if StrLess(x, r[0]) then
      assert forall j :: 0 < j < |r| ==> StrLess(x, r[j]) by {
        forall j | 0 < j < |r| ensures StrLess(x, r[j]) {
          StrLessTransitive(x, r[0], r[j]);
        }
      }
      [x] + r
    else
      StrLessTotal(x, r[0]);
      var rest := Insert(x, r[1..]);
      assert forall y :: y in rest ==> StrLess(r[0], y) by {
        forall y | y in rest ensures StrLess(r[0], y) {
          if y != x {
            var j :| 1 <= j < |r| && r[j] == y;
          }
        }
      }
      [r[0]] + rest
  }

  /** `[...new Set(xs)].sort()`: every value of `xs` once, in increasing order. */
  function SortedDistinct(xs: seq<string>): (r: seq<string>)
    ensures StrictlySorted(r)
    ensures forall y :: y in r <==> y in xs
    ensures forall i, j :: 0 <= i < j < |r| ==> r[i] != r[j]
  {
    if xs == [] then []
    else
      var r := Insert(xs[|xs| - 1], SortedDistinct(xs[..|xs| - 1]));
      assert xs == xs[..|xs| - 1] + [xs[|xs| - 1]];
      assert forall i, j :: 0 <= i < j < |r| ==> r[i] != r[j] by {
        forall i, j | 0 <= i < j < |r| ensures r[i] != r[j] {
          StrLessIrreflexive(r[i]);
        }
      }
      r
  }

  /** A strictly sorted list is determined by its elements: there is only one
      sorted list of distinct values for a given set. */
  lemma {:induction false} StrictlySortedUnique(a: seq<string>, b: seq<string>)
    requires StrictlySorted(a) && StrictlySorted(b)
    requires forall y :: y in a <==> y in b
    ensures a == b
    decreases |a|
  {
    assert a != [] ==> a[0] in b;
    assert b != [] ==> b[0] in a;
    if a != [] && b != [] {
      assert a[0] == b[0] by {
        StrLessIrreflexive(a[0]);
        assert a[0] in b && b[0] in a;
        if a[0] != b[0] {
          // each first element occurs later in the other list, so each is below the other
          var j :| 0 < j < |b| && b[j] == a[0];
          var k :| 0 < k < |a| && a[k] == b[0];
          StrLessTransitive(a[0], b[0], a[0]);
          assert false;
        }
      }
      forall y ensures y in a[1..] <==> y in b[1..] {
        StrLessIrreflexive(y);
        if y in a[1..] {
          var j :| 1 <= j < |a| && a[j] == y;
          assert StrLess(a[0], y);
          assert y in b;
          var k :| 0 <= k < |b| && b[k] == y;
          assert b[1..][k - 1] == y;
        }
        if y in b[1..] {
          var j :| 1 <= j < |b| && b[j] == y;
          assert StrLess(b[0], y);
          assert y in a;
          var k :| 0 <= k < |a| && a[k] == y;
          assert a[1..][k - 1] == y;
        }
      }
      StrictlySortedUnique(a[1..], b[1..]);
      assert a == [a[0]] + a[1..] && b == [b[0]] + b[1..];
    }
  }
}
