/**
 * The numpy ordering primitives the core relies on: `np.argsort`, `np.sort`,
 * reversal `[::-1]`, Python prefix slicing `[:n]`, `np.searchsorted(..., side='left')`
 * and `np.flatnonzero`.
 *
 * The argsort here is the stable one: indices ordered by value, equal values by index.
 * numpy's default argsort (introsort) may order equal values differently; every
 * property proved about the selections built on it holds whatever the tie order.
 */
module Sorting {
  import opened Common

  function Range(n: nat): (r: seq<int>)
    ensures |r| == n
    ensures forall i :: 0 <= i < n ==> r[i] == i
  {
    seq(n, i => i)
  }

  /** Every entry of `p` is a valid index into a sequence of length `n`. */
  predicate IndicesInto(p: seq<int>, n: int)
  {
    forall k :: 0 <= k < |p| ==> 0 <= p[k] < n
  }

  predicate Distinct(s: seq<int>)
  {
    forall i, j :: 0 <= i < j < |s| ==> s[i] != s[j]
  }

  predicate Ascending(s: seq<int>)
  {
    forall i, j :: 0 <= i < j < |s| ==> s[i] <= s[j]
  }

  /** The stable argsort order: index `a` comes before index `b`. */
  predicate Precedes(c: seq<int>, a: int, b: int)
    requires 0 <= a < |c| && 0 <= b < |c|
  {
    c[a] < c[b] || (c[a] == c[b] && a < b)
  }

  predicate ArgSorted(c: seq<int>, p: seq<int>)
    requires IndicesInto(p, |c|)
  {
    forall i, j :: 0 <= i < j < |p| ==> Precedes(c, p[i], p[j])
  }

  /** Insert index `x` behind every index whose value is at most `c[x]`. */
  function Insert(c: seq<int>, x: int, p: seq<int>): (r: seq<int>)
    requires 0 <= x < |c| && IndicesInto(p, |c|)
    ensures |r| == |p| + 1
    ensures IndicesInto(r, |c|)
  {
    if p == [] then [x]
    else if c[x] < c[p[0]] then [x] + p
    else [p[0]] + Insert(c, x, p[1..])
  }

  /** Stable argsort of the first `k` entries of `c`, built by insertion. */
  function ArgSortPrefix(c: seq<int>, k: nat): (p: seq<int>)
    requires k <= |c|
    ensures |p| == k
    ensures IndicesInto(p, |c|)
  {
    if k == 0 then [] else Insert(c, k - 1, ArgSortPrefix(c, k - 1))
  }

  /** `np.argsort(c)` with stable tie order. */
  function ArgSort(c: seq<int>): (p: seq<int>)
    ensures |p| == |c|
    ensures IndicesInto(p, |c|)
  {
    ArgSortPrefix(c, |c|)
  }

  /** `c[p]`: the values of `c` gathered at the indices `p`. */
  function Values(c: seq<int>, p: seq<int>): (r: seq<int>)
    requires IndicesInto(p, |c|)
    ensures |r| == |p|
    ensures forall k :: 0 <= k < |p| ==> r[k] == c[p[k]]
  {
    seq(|p|, k requires 0 <= k < |p| => c[p[k]])
  }

  /** `np.sort(x)`, which equals `x[np.argsort(x)]`. */
  function Sort(x: seq<int>): seq<int>
  {
    Values(x, ArgSort(x))
  }

  /** `s[::-1]`. */
  function Reverse(s: seq<int>): (r: seq<int>)
    ensures |r| == |s|
    ensures forall k :: 0 <= k < |s| ==> r[k] == s[|s| - 1 - k]
  {
    seq(|s|, k requires 0 <= k < |s| => s[|s| - 1 - k])
  }

  /** Python's `s[:n]`: a negative `n` drops `-n` entries from the end. */
  function PyPrefix(s: seq<int>, n: int): (r: seq<int>)
    ensures n >= 0 ==> |r| == if n <= |s| then n else |s|
    ensures n < 0 ==> |r| == if |s| + n >= 0 then |s| + n else 0
    ensures r == s[..|r|]
  {
    if n >= 0 then (if n <= |s| then s[..n] else s)
    else (if |s| + n >= 0 then s[..|s| + n] else [])
  }

  /**
   * `np.searchsorted(s, v, side='left')` by a linear scan: the first index whose value is at least `v`.
   * The integer twin of `Background.SearchSortedLeftReal`.
   */
  function SearchSortedLeft(s: seq<int>, v: int): (r: nat)
    ensures r <= |s|
    ensures forall k :: 0 <= k < r ==> s[k] < v
    ensures r < |s| ==> s[r] >= v
  {
    if s == [] then 0
    else if s[0] >= v then 0
    else 1 + SearchSortedLeft(s[1..], v)
  }

  /** `np.flatnonzero(v)`: the positions of the nonzero entries, ascending. */
  function FlatNonzero(v: seq<int>): (r: seq<int>)
    ensures StrictlyIncreasing(r)
    ensures IndicesInto(r, |v|)
    ensures forall k :: 0 <= k < |r| ==> v[r[k]] != 0
    ensures forall f :: 0 <= f < |v| && v[f] != 0 ==> f in r
  {
    if v == [] then []
    else
      var n := |v| - 1;
      var rest := FlatNonzero(v[..n]);
      assert forall f :: 0 <= f < n && v[f] != 0 ==> v[..n][f] != 0;
      rest + (if v[n] != 0 then [n] else [])
  }

  // ---------------------------------------------------------------------------
  // Lemmas

  lemma {:induction false} InsertMultiset(c: seq<int>, x: int, p: seq<int>)
    requires 0 <= x < |c| && IndicesInto(p, |c|)
    ensures multiset(Insert(c, x, p)) == multiset(p) + multiset{x}
  {
    if p != [] && c[x] >= c[p[0]] {
      InsertMultiset(c, x, p[1..]);
      assert p == [p[0]] + p[1..];
    }
  }

  lemma RangeStep(k: nat)
    requires k > 0
    ensures Range(k) == Range(k - 1) + [k - 1]
  {
  }

  lemma ArgSortPrefixStep(c: seq<int>, k: nat)
    requires 0 < k <= |c|
    ensures ArgSortPrefix(c, k) == Insert(c, k - 1, ArgSortPrefix(c, k - 1))
  {
  }

  lemma {:induction false} ArgSortPrefixMultiset(c: seq<int>, k: nat)
    requires k <= |c|
    ensures multiset(ArgSortPrefix(c, k)) == multiset(Range(k))
  {
    if k > 0 {
      var p := ArgSortPrefix(c, k - 1);
      ArgSortPrefixMultiset(c, k - 1);
      InsertMultiset(c, k - 1, p);
      ArgSortPrefixStep(c, k);
      RangeStep(k);
    }
  }

  /** `np.argsort` returns a permutation of the index range. */
  lemma ArgSortPermutation(c: seq<int>)
    ensures multiset(ArgSort(c)) == multiset(Range(|c|))
  {
    ArgSortPrefixMultiset(c, |c|);
  }

  lemma {:induction false} InsertArgSorted(c: seq<int>, x: int, p: seq<int>)
    requires 0 <= x < |c| && IndicesInto(p, |c|)
    requires ArgSorted(c, p)
    requires forall k :: 0 <= k < |p| ==> p[k] < x
    ensures ArgSorted(c, Insert(c, x, p))
  {
    if p == [] {
    } else if c[x] < c[p[0]] {
      var r := [x] + p;
      forall i, j | 0 <= i < j < |r| ensures Precedes(c, r[i], r[j]) {
        if i == 0 && j > 1 {
          assert Precedes(c, p[0], p[j - 1]);
        }
      }
    } else {
      var tail := Insert(c, x, p[1..]);
      InsertArgSorted(c, x, p[1..]);
      InsertMultiset(c, x, p[1..]);
      var r := [p[0]] + tail;
      assert r == Insert(c, x, p);
      forall i, j | 0 <= i < j < |r| ensures Precedes(c, r[i], r[j]) {
        if i == 0 {
          var y := tail[j - 1];
          assert y in multiset(tail);
          if y != x {
            assert y in multiset(p[1..]);
            var m :| 0 <= m < |p[1..]| && p[1..][m] == y;
            assert Precedes(c, p[0], p[m + 1]);
          }
        }
      }
    }
  }

  /** Inserting the next index into a stable argsort of the indices below it keeps it stable. */
  lemma InsertNextSorted(c: seq<int>, k: nat, p: seq<int>)
    requires 0 < k <= |c| && IndicesInto(p, |c|)
    requires ArgSorted(c, p) && multiset(p) == multiset(Range(k - 1))
    ensures ArgSorted(c, Insert(c, k - 1, p))
  {
    forall m | 0 <= m < |p| ensures p[m] < k - 1 {
      assert p[m] in multiset(p);
      assert p[m] in Range(k - 1);
    }
    InsertArgSorted(c, k - 1, p);
  }

  lemma {:induction false} ArgSortPrefixSorted(c: seq<int>, k: nat)
    requires k <= |c|
    ensures ArgSorted(c, ArgSortPrefix(c, k))
  {
    if k > 0 {
      ArgSortPrefixSorted(c, k - 1);
      ArgSortPrefixMultiset(c, k - 1);
      InsertNextSorted(c, k, ArgSortPrefix(c, k - 1));
      ArgSortPrefixStep(c, k);
    }
  }

  lemma ArgSortSorted(c: seq<int>)
    ensures ArgSorted(c, ArgSort(c))
  {
    ArgSortPrefixSorted(c, |c|);
  }

  /** Indices whose multiset is that of a range are pairwise distinct. */
  lemma {:induction false} RangePermutationDistinct(p: seq<int>, n: nat)
    requires multiset(p) == multiset(Range(n))
    ensures Distinct(p)
  {
    forall i, j | 0 <= i < j < |p| ensures p[i] != p[j] {
      if p[i] == p[j] {
        var x := p[i];
        assert p == p[..i] + [x] + p[i + 1..j] + [x] + p[j + 1..];
        assert multiset(p)[x] >= 2;
        RangeMultiplicity(n, x);
      }
    }
  }

  lemma {:induction false} RangeMultiplicity(n: nat, x: int)
    ensures multiset(Range(n))[x] <= 1
  {
    if n > 0 {
      assert Range(n) == Range(n - 1) + [n - 1];
      RangeMultiplicity(n - 1, x);
      if x == n - 1 {
        assert x !in Range(n - 1);
      }
    }
  }

  lemma ValuesCons(c: seq<int>, a: int, t: seq<int>)
    requires 0 <= a < |c| && IndicesInto(t, |c|)
    ensures IndicesInto([a] + t, |c|)
    ensures Values(c, [a] + t) == [c[a]] + Values(c, t)
  {
  }

  lemma {:induction false} ValuesInsert(c: seq<int>, x: int, p: seq<int>)
    requires 0 <= x < |c| && IndicesInto(p, |c|)
    ensures multiset(Values(c, Insert(c, x, p))) == multiset(Values(c, p)) + multiset{c[x]}
  {
    if p == [] {
    } else if c[x] < c[p[0]] {
      ValuesCons(c, x, p);
    } else {
      var tail := Insert(c, x, p[1..]);
      ValuesInsert(c, x, p[1..]);
      ValuesCons(c, p[0], tail);
      ValuesCons(c, p[0], p[1..]);
      assert [p[0]] + p[1..] == p;
    }
  }

  lemma {:induction false} ValuesArgSortPrefix(c: seq<int>, k: nat)
    requires k <= |c|
    ensures multiset(Values(c, ArgSortPrefix(c, k))) == multiset(c[..k])
  {
    if k > 0 {
      ValuesArgSortPrefix(c, k - 1);
      ArgSortPrefixStep(c, k);
      ValuesNextPrefix(c, k, ArgSortPrefix(c, k - 1));
    }
  }

  lemma ValuesNextPrefix(c: seq<int>, k: nat, p: seq<int>)
    requires 0 < k <= |c| && IndicesInto(p, |c|)
    requires multiset(Values(c, p)) == multiset(c[..k - 1])
    ensures multiset(Values(c, Insert(c, k - 1, p))) == multiset(c[..k])
  {
    ValuesInsert(c, k - 1, p);
    assert c[..k] == c[..k - 1] + [c[k - 1]];
  }

  /** `np.sort` returns an ascending permutation of its input. */
  lemma SortCorrect(x: seq<int>)
    ensures |Sort(x)| == |x|
    ensures Ascending(Sort(x))
    ensures multiset(Sort(x)) == multiset(x)
  {
    ArgSortSorted(x);
    ValuesArgSortPrefix(x, |x|);
    assert x[..|x|] == x;
    var p := ArgSort(x);
    forall i, j | 0 <= i < j < |p| ensures Sort(x)[i] <= Sort(x)[j] {
      assert Precedes(x, p[i], p[j]);
    }
  }

  /** Sorting a sequence without repetitions gives a strictly ascending sequence. */
  lemma SortDistinctStrict(x: seq<int>)
    requires Distinct(x)
    ensures StrictlyIncreasing(Sort(x))
  {
    ArgSortSorted(x);
    ArgSortPermutation(x);
    var p := ArgSort(x);
    RangePermutationDistinct(p, |x|);
    forall i, j | 0 <= i < j < |p| ensures Sort(x)[i] < Sort(x)[j] {
      assert Precedes(x, p[i], p[j]);
      assert p[i] != p[j];
    }
  }

  lemma {:induction false} ReverseMultiset(s: seq<int>)
    ensures multiset(Reverse(s)) == multiset(s)
  {
    if s != [] {
      ReverseMultiset(s[1..]);
      assert Reverse(s) == Reverse(s[1..]) + [s[0]];
      assert s == [s[0]] + s[1..];
    }
  }

  /** Every index below n occurs in a permutation of `Range(n)`. */
  lemma RangeMember(d: seq<int>, n: nat, j: int)
    requires multiset(d) == multiset(Range(n)) && 0 <= j < n
    ensures exists t :: 0 <= t < |d| && d[t] == j
  {
    assert Range(n)[j] == j;
    assert j in multiset(Range(n));
    assert j in multiset(d);
  }

  /** The argsort lists every index exactly once, in stable ascending order. */
  lemma ArgSortFacts(c: seq<int>)
    ensures ArgSorted(c, ArgSort(c))
    ensures multiset(ArgSort(c)) == multiset(Range(|c|))
    ensures Distinct(ArgSort(c))
  {
    ArgSortSorted(c);
    ArgSortPermutation(c);
    RangePermutationDistinct(ArgSort(c), |c|);
  }

  /** For a sorted sequence, the left insertion point of `v` leaves exactly the values `>= v` behind it. */
  lemma SearchSortedLeftCounts(s: seq<int>, v: int)
    requires Ascending(s)
    ensures |s| - SearchSortedLeft(s, v) == CountAtLeast(s, v)
  {
    var r := SearchSortedLeft(s, v);
    assert s == s[..r] + s[r..];
    CountAtLeastConcat(s[..r], s[r..], v);
    CountAtLeastNone(s[..r], v);
    CountAtLeastAll(s[r..], v);
  }

  lemma {:induction false} CountAtLeastNone(s: seq<int>, v: int)
    requires forall k :: 0 <= k < |s| ==> s[k] < v
    ensures CountAtLeast(s, v) == 0
  {
    if s != [] {
      CountAtLeastNone(s[..|s| - 1], v);
    }
  }

  lemma {:induction false} CountAtLeastAll(s: seq<int>, v: int)
    requires forall k :: 0 <= k < |s| ==> s[k] >= v
    ensures CountAtLeast(s, v) == |s|
  {
    if s != [] {
      CountAtLeastAll(s[..|s| - 1], v);
    }
  }
}
