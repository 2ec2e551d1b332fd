/** Shared vocabulary: the Python exceptions the core can raise, sums and counts over sequences. */
module Common {

  /** The exceptions the modelled Python code raises on bad input or violated invariants. */
  datatype Failure = AssertionFailed | IndexError | ValueError | ZeroDivisionError

  datatype Result<T> = Ok(value: T) | Err(error: Failure)

  datatype Option<T> = None | Some(value: T)

  function Sum(s: seq<int>): int
  {
    if s == [] then 0 else Sum(s[..|s| - 1]) + s[|s| - 1]
  }

  function SumReal(s: seq<real>): real
  {
    if s == [] then 0.0 else SumReal(s[..|s| - 1]) + s[|s| - 1]
  }

  /** Number of elements of `s` that are at least `v` (numpy: `np.sum(s >= v)`). */
  function CountAtLeast(s: seq<int>, v: int): nat
  {
    if s == [] then 0
    else CountAtLeast(s[..|s| - 1], v) + (if s[|s| - 1] >= v then 1 else 0)
  }

  /** Number of elements of `s` strictly below `v` (numpy: `np.sum(s < v)`). */
  function CountBelow(s: seq<real>, v: real): nat
  {
    if s == [] then 0
    else CountBelow(s[..|s| - 1], v) + (if s[|s| - 1] < v then 1 else 0)
  }

  predicate NonNegative(s: seq<int>)
  {
    forall i :: 0 <= i < |s| ==> s[i] >= 0
  }

  predicate StrictlyIncreasing(s: seq<int>)
  {
    forall i, j :: 0 <= i < j < |s| ==> s[i] < s[j]
  }

  /** Element-wise sum of two vectors of the same length (numpy `a + b`). */
  function AddVec(a: seq<int>, b: seq<int>): (r: seq<int>)
    requires |a| == |b|
    ensures |r| == |a|
    ensures forall j :: 0 <= j < |a| ==> r[j] == a[j] + b[j]
  {
    seq(|a|, j requires 0 <= j < |a| => a[j] + b[j])
  }

  lemma {:induction false} SumAppend(s: seq<int>, x: int)
    ensures Sum(s + [x]) == Sum(s) + x
  {
    assert (s + [x])[..|s|] == s;
  }

  lemma {:induction false} SumConcat(a: seq<int>, b: seq<int>)
    ensures Sum(a + b) == Sum(a) + Sum(b)
    decreases |b|
  {
    if b == [] {
      assert a + b == a;
    } else {
      var b' := b[..|b| - 1];
      assert a + b == (a + b') + [b[|b| - 1]];
      SumAppend(a + b', b[|b| - 1]);
      SumConcat(a, b');
      SumAppend(b', b[|b| - 1]);
      assert b' + [b[|b| - 1]] == b;
    }
  }

  lemma {:induction false} SumNonNegative(s: seq<int>)
    requires NonNegative(s)
    ensures Sum(s) >= 0
  {
    if s != [] {
      SumNonNegative(s[..|s| - 1]);
    }
  }

  lemma {:induction false} SumAddVec(a: seq<int>, b: seq<int>)
    requires |a| == |b|
    ensures Sum(AddVec(a, b)) == Sum(a) + Sum(b)
    decreases |a|
  {
    if a != [] {
      var n := |a| - 1;
      assert AddVec(a, b)[..n] == AddVec(a[..n], b[..n]);
      SumAddVec(a[..n], b[..n]);
    }
  }

  /** Adding one at position j adds one to the sum. */
  lemma {:induction false} SumIncrement(s: seq<int>, j: nat)
    requires j < |s|
    ensures Sum(s[j := s[j] + 1]) == Sum(s) + 1
    decreases |s|
  {
    var n := |s| - 1;
    if j == n {
      assert s[j := s[j] + 1][..n] == s[..n];
    } else {
      assert s[j := s[j] + 1][..n] == s[..n][j := s[j] + 1];
      SumIncrement(s[..n], j);
    }
  }

  lemma {:induction false} CountAtLeastAppend(s: seq<int>, x: int, v: int)
    ensures CountAtLeast(s + [x], v) == CountAtLeast(s, v) + (if x >= v then 1 else 0)
  {
    assert (s + [x])[..|s|] == s;
  }

  lemma {:induction false} CountAtLeastConcat(a: seq<int>, b: seq<int>, v: int)
    ensures CountAtLeast(a + b, v) == CountAtLeast(a, v) + CountAtLeast(b, v)
    decreases |b|
  {
    if b == [] {
      assert a + b == a;
    } else {
      var b' := b[..|b| - 1];
      assert a + b == (a + b') + [b[|b| - 1]];
      CountAtLeastAppend(a + b', b[|b| - 1], v);
      CountAtLeastConcat(a, b', v);
      CountAtLeastAppend(b', b[|b| - 1], v);
      assert b' + [b[|b| - 1]] == b;
    }
  }

  lemma {:induction false} CountAtLeastBound(s: seq<int>, v: int)
    ensures CountAtLeast(s, v) <= |s|
  {
    if s != [] {
      CountAtLeastBound(s[..|s| - 1], v);
    }
  }

  /** Counting is invariant under permutation. */
  lemma {:induction false} CountAtLeastPermutation(a: seq<int>, b: seq<int>, v: int)
    requires multiset(a) == multiset(b)
    ensures CountAtLeast(a, v) == CountAtLeast(b, v)
    decreases |a|
  {
    if a == [] {
      assert |b| == |multiset(b)| == 0;
    } else {
      var n := |a| - 1;
      var x := a[n];
      assert a == a[..n] + [x];
      assert x in multiset(b);
      var j :| 0 <= j < |b| && b[j] == x;
      var b' := b[..j] + b[j + 1..];
      assert b == b[..j] + [x] + b[j + 1..];
      assert multiset(b') == multiset(b) - multiset{x};
      assert multiset(a[..n]) == multiset(a) - multiset{x};
      CountAtLeastPermutation(a[..n], b', v);
      CountAtLeastAppend(a[..n], x, v);
      CountAtLeastConcat(b[..j] + [x], b[j + 1..], v);
      CountAtLeastAppend(b[..j], x, v);
      CountAtLeastConcat(b[..j], b[j + 1..], v);
    }
  }

  /** Summing is invariant under permutation. */
  lemma {:induction false} SumPermutation(a: seq<int>, b: seq<int>)
    requires multiset(a) == multiset(b)
    ensures Sum(a) == Sum(b)
    decreases |a|
  {
    if a == [] {
      assert |b| == |multiset(b)| == 0;
    } else {
      var n := |a| - 1;
      var x := a[n];
      assert a == a[..n] + [x];
      assert x in multiset(b);
      var j :| 0 <= j < |b| && b[j] == x;
      var b' := b[..j] + b[j + 1..];
      assert b == b[..j] + [x] + b[j + 1..];
      assert multiset(b') == multiset(b) - multiset{x};
      assert multiset(a[..n]) == multiset(a) - multiset{x};
      SumPermutation(a[..n], b');
      SumConcat(b[..j] + [x], b[j + 1..]);
      SumAppend(b[..j], x);
      SumConcat(b[..j], b[j + 1..]);
    }
  }

  /** Raising the threshold never admits more elements. */
  lemma {:induction false} CountAtLeastAntitone(s: seq<int>, v: int, w: int)
    requires v <= w
    ensures CountAtLeast(s, w) <= CountAtLeast(s, v)
  {
    if s != [] {
      CountAtLeastAntitone(s[..|s| - 1], v, w);
    }
  }

  /** A sum of `|s|` values in `[lo, hi]` lies in `[|s| * lo, |s| * hi]`. */
  lemma {:induction false} SumBounds(s: seq<int>, lo: int, hi: int)
    requires forall i :: 0 <= i < |s| ==> lo <= s[i] <= hi
    ensures |s| * lo <= Sum(s) <= |s| * hi
  {
    if s != [] {
      SumBounds(s[..|s| - 1], lo, hi);
      assert |s| * lo == (|s| - 1) * lo + lo;
      assert |s| * hi == (|s| - 1) * hi + hi;
    }
  }

  lemma {:induction false} CountBelowAppend(s: seq<real>, x: real, v: real)
    ensures CountBelow(s + [x], v) == CountBelow(s, v) + (if x < v then 1 else 0)
  {
    assert (s + [x])[..|s|] == s;
  }

  lemma {:induction false} CountBelowBound(s: seq<real>, v: real)
    ensures CountBelow(s, v) <= |s|
  {
    if s != [] {
      CountBelowBound(s[..|s| - 1], v);
    }
  }

  /** A larger threshold never has fewer values below it. */
  lemma {:induction false} CountBelowMonotone(s: seq<real>, v: real, w: real)
    requires v <= w
    ensures CountBelow(s, v) <= CountBelow(s, w)
  {
    if s != [] {
      CountBelowMonotone(s[..|s| - 1], v, w);
    }
  }
}
