/**
 * The ambient background profile built from the barcodes with the fewest UMIs
 * (`est_background_profile_bottom`, cell_cosmo/tools/aa/stats.py, lines 109-130).
 *
 * The feature x barcode count matrix is held column by column: `cols[b]` is the
 * count vector of barcode `b`, one entry per feature. Cumulative shares and the
 * profile are exact rationals; the floating-point rounding of the source and the
 * tolerance of `np.isclose` are not modelled.
 */
module Background {
  import opened Common
  import opened Sorting

  /** A feature x barcode matrix of UMI counts, stored by barcode column. */
  datatype Matrix = Matrix(numFeatures: nat, cols: seq<seq<int>>)

  /** Every column has one non-negative count per feature. */
  predicate WellFormed(m: Matrix)
  {
    forall b :: 0 <= b < |m.cols| ==> |m.cols[b]| == m.numFeatures && NonNegative(m.cols[b])
  }

  /** The nonzero features and their share of the background counts. */
  datatype Profile = Profile(nzFeat: seq<int>, p: seq<real>)

  /** `matrix.sum(0)`: UMIs per barcode. */
  function BarcodeTotals(m: Matrix): (r: seq<int>)
    ensures |r| == |m.cols|
    ensures forall b :: 0 <= b < |r| ==> r[b] == Sum(m.cols[b])
  {
    seq(|m.cols|, b requires 0 <= b < |m.cols| => Sum(m.cols[b]))
  }

  /** `np.cumsum(s)`. */
  function CumSum(s: seq<int>): (r: seq<int>)
    ensures |r| == |s|
    ensures forall k :: 0 <= k < |r| ==> r[k] == Sum(s[..k + 1])
  {
    seq(|s|, k requires 0 <= k < |s| => Sum(s[..k + 1]))
  }

  /** `np.cumsum(sorted) / float(total)`. */
  function CumFrac(sorted: seq<int>, total: int): (r: seq<real>)
    requires total != 0
    ensures |r| == |sorted|
    ensures forall k :: 0 <= k < |r| ==> r[k] == CumSum(sorted)[k] as real / total as real
  {
    seq(|sorted|, k requires 0 <= k < |sorted| => CumSum(sorted)[k] as real / total as real)
  }

  /** `np.searchsorted(s, v, side='left')` on reals, by a linear scan; the real twin of `Sorting.SearchSortedLeft`. */
  function SearchSortedLeftReal(s: seq<real>, v: real): (r: nat)
    ensures r <= |s|
    ensures forall k :: 0 <= k < r ==> s[k] < v
    ensures r < |s| ==> s[r] >= v
  {
    if s == [] then 0
    else if s[0] >= v then 0
    else 1 + SearchSortedLeftReal(s[1..], v)
  }

  /** `max_bg_idx`: how many of the barcodes, smallest first, form the background. */
  function BackgroundSize(m: Matrix, bottomFrac: real): nat
    requires Sum(BarcodeTotals(m)) != 0
  {
    var totals := BarcodeTotals(m);
    SearchSortedLeftReal(CumFrac(Sort(totals), Sum(totals)), bottomFrac)
  }

  /** `barcode_order[0:max_bg_idx]`. */
  function BackgroundBarcodes(m: Matrix, bottomFrac: real): (r: seq<int>)
    requires Sum(BarcodeTotals(m)) != 0
    ensures IndicesInto(r, |m.cols|)
  {
    var totals := BarcodeTotals(m);
    var order := ArgSort(totals);
    var size := BackgroundSize(m, bottomFrac);
    order[..size]
  }

  /** The counts of feature `f` in the columns `idx`. */
  function FeatureRow(m: Matrix, idx: seq<int>, f: nat): (r: seq<int>)
    requires WellFormed(m) && IndicesInto(idx, |m.cols|) && f < m.numFeatures
    ensures |r| == |idx|
    ensures forall k :: 0 <= k < |idx| ==> r[k] == m.cols[idx[k]][f]
  {
    seq(|idx|, k requires 0 <= k < |idx| => m.cols[idx[k]][f])
  }

  /** `bg_mat.sum(1)`: per-feature totals over the columns `idx`. */
  function FeatureSums(m: Matrix, idx: seq<int>): (r: seq<int>)
    requires WellFormed(m) && IndicesInto(idx, |m.cols|)
    ensures |r| == m.numFeatures
    ensures forall f :: 0 <= f < |r| ==> r[f] == Sum(FeatureRow(m, idx, f))
  {
    seq(m.numFeatures, f requires 0 <= f < m.numFeatures => Sum(FeatureRow(m, idx, f)))
  }

  /** `bg_profile / np.sum(bg_profile)`. */
  function Normalize(s: seq<int>, total: int): (r: seq<real>)
    requires total != 0
    ensures |r| == |s|
    ensures forall i :: 0 <= i < |s| ==> r[i] == s[i] as real / total as real
  {
    seq(|s|, i requires 0 <= i < |s| => s[i] as real / total as real)
  }

  /** `est_background_profile_bottom`. */
  function EstBackgroundProfileBottom(m: Matrix, bottomFrac: real): Result<Profile>
    requires WellFormed(m)
  {
    if !(0.0 <= bottomFrac <= 1.0) then Err(AssertionFailed)
    else if Sum(BarcodeTotals(m)) == 0 then
      // cum_frac is 0/0 = NaN everywhere, the background is empty and its profile sums to 0
      Err(AssertionFailed)
    else
      var bg := FeatureSums(m, BackgroundBarcodes(m, bottomFrac));
      var nz := FlatNonzero(bg);
      var profile := Values(bg, nz);
      if Sum(profile) == 0 then Err(AssertionFailed)
      else Ok(Profile(nz, Normalize(profile, Sum(profile))))
  }

  // ---------------------------------------------------------------------------
  // Lemmas

  lemma {:induction false} NormalizeSum(s: seq<int>, total: int)
    requires total != 0
    ensures SumReal(Normalize(s, total)) == Sum(s) as real / total as real
  {
    if s != [] {
      var n := |s| - 1;
      assert Normalize(s, total)[..n] == Normalize(s[..n], total);
      NormalizeSum(s[..n], total);
    }
  }

  /** Every row of non-negative counts has a non-negative sum. */
  lemma FeatureSumsNonNegative(m: Matrix, idx: seq<int>)
    requires WellFormed(m) && IndicesInto(idx, |m.cols|)
    ensures NonNegative(FeatureSums(m, idx))
  {
    forall f | 0 <= f < m.numFeatures ensures Sum(FeatureRow(m, idx, f)) >= 0 {
      SumNonNegative(FeatureRow(m, idx, f));
    }
  }

  /** The sum of the positive entries picked out is zero only when there are none. */
  lemma {:induction false} PositiveSum(s: seq<int>)
    requires forall i :: 0 <= i < |s| ==> s[i] > 0
    ensures Sum(s) == 0 <==> s == []
    ensures Sum(s) >= |s|
  {
    if s != [] {
      PositiveSum(s[..|s| - 1]);
    }
  }

  /**
   * Results of the background profile: the fraction must lie in [0, 1], and
   * the call fails exactly when the background counts are all zero (including
   * an all-zero matrix); otherwise `nzFeat` lists, ascending, exactly the
   * features with a positive background count, and `p` gives each one's share
   * of the background, all positive and summing to 1.
   */
  lemma BackgroundProfileCorrect(m: Matrix, bottomFrac: real)
    requires WellFormed(m)
    ensures !(0.0 <= bottomFrac <= 1.0) ==> EstBackgroundProfileBottom(m, bottomFrac) == Err(AssertionFailed)
    ensures 0.0 <= bottomFrac <= 1.0 && Sum(BarcodeTotals(m)) == 0 ==>
      EstBackgroundProfileBottom(m, bottomFrac) == Err(AssertionFailed)
    ensures 0.0 <= bottomFrac <= 1.0 && Sum(BarcodeTotals(m)) != 0 ==>
      (EstBackgroundProfileBottom(m, bottomFrac).Err? <==>
        forall f :: 0 <= f < m.numFeatures ==> FeatureSums(m, BackgroundBarcodes(m, bottomFrac))[f] == 0)
    ensures EstBackgroundProfileBottom(m, bottomFrac).Ok? ==>
      ProfileOf(FeatureSums(m, BackgroundBarcodes(m, bottomFrac)), EstBackgroundProfileBottom(m, bottomFrac).value)
  {
    if 0.0 <= bottomFrac <= 1.0 && Sum(BarcodeTotals(m)) != 0 {
      var bg := FeatureSums(m, BackgroundBarcodes(m, bottomFrac));
      FeatureSumsNonNegative(m, BackgroundBarcodes(m, bottomFrac));
      var nz := FlatNonzero(bg);
      ProfileEmpty(bg, nz, Values(bg, nz));
      if Sum(Values(bg, nz)) != 0 {
        ProfileShares(bg, nz);
      }
    }
  }

  /**
   * `r` lists the nonzero entries of `bg`, ascending, with each one's share of
   * their total: positive shares that sum to one.
   */
  predicate ProfileOf(bg: seq<int>, r: Profile)
  {
    StrictlyIncreasing(r.nzFeat) && IndicesInto(r.nzFeat, |bg|) &&
    (forall f :: 0 <= f < |bg| ==> (f in r.nzFeat <==> bg[f] > 0)) &&
    |r.p| == |r.nzFeat| &&
    (forall i :: 0 <= i < |r.p| ==> r.p[i] > 0.0) &&
    Sum(Values(bg, r.nzFeat)) > 0 &&
    (forall i :: 0 <= i < |r.p| ==> r.p[i] == bg[r.nzFeat[i]] as real / Sum(Values(bg, r.nzFeat)) as real) &&
    SumReal(r.p) == 1.0
  }

  /** The selected sums total zero exactly when every per-feature sum is zero. */
  lemma ProfileEmpty(bg: seq<int>, nz: seq<int>, profile: seq<int>)
    requires NonNegative(bg) && nz == FlatNonzero(bg) && profile == Values(bg, nz)
    ensures Sum(profile) == 0 <==> forall f :: 0 <= f < |bg| ==> bg[f] == 0
  {
    assert forall k :: 0 <= k < |profile| ==> profile[k] == bg[nz[k]] > 0;
    PositiveSum(profile);
    if exists f :: 0 <= f < |bg| && bg[f] != 0 {
      var f :| 0 <= f < |bg| && bg[f] != 0;
      assert f in nz;
      assert |profile| == |nz| > 0;
    } else {
      NoNonzero(bg);
    }
  }

  /** An all-zero vector has no nonzero positions. */
  lemma NoNonzero(bg: seq<int>)
    requires forall f :: 0 <= f < |bg| ==> bg[f] == 0
    ensures FlatNonzero(bg) == []
  {
  }

  /** With a nonzero total the normalised entries are positive shares summing to one. */
  lemma ProfileShares(bg: seq<int>, nz: seq<int>)
    requires NonNegative(bg) && nz == FlatNonzero(bg)
    requires Sum(Values(bg, nz)) != 0
    ensures ProfileOf(bg, Profile(nz, Normalize(Values(bg, nz), Sum(Values(bg, nz)))))
  {
    PositiveSum(Values(bg, nz));
    NormalizeSum(Values(bg, nz), Sum(Values(bg, nz)));
    DivSelf(Sum(Values(bg, nz)));
    SharesPositive(Values(bg, nz), Sum(Values(bg, nz)));
    NonzeroMembers(bg, nz);
  }

  lemma DivSelf(s: int)
    requires s != 0
    ensures s as real / s as real == 1.0
  {
  }

  lemma SharesPositive(profile: seq<int>, s: int)
    requires s > 0 && forall i :: 0 <= i < |profile| ==> profile[i] > 0
    ensures forall i :: 0 <= i < |profile| ==> Normalize(profile, s)[i] > 0.0
  {
    var p := Normalize(profile, s);
    forall i | 0 <= i < |p| ensures p[i] > 0.0 {
      assert p[i] == profile[i] as real / s as real;
    }
  }

  lemma NonzeroMembers(bg: seq<int>, nz: seq<int>)
    requires NonNegative(bg) && nz == FlatNonzero(bg)
    ensures forall f :: 0 <= f < |bg| ==> (f in nz <==> bg[f] > 0)
  {
    forall f | 0 <= f < |bg| ensures (f in nz <==> bg[f] > 0) {
      if f in nz {
        var k :| 0 <= k < |nz| && nz[k] == f;
      }
    }
  }

  /**
   * The background is the bottom of the barcode order: `BackgroundSize`
   * barcodes, each listed once, none with more UMIs than a barcode left out.
   */
  lemma BackgroundBottom(m: Matrix, bottomFrac: real)
    requires Sum(BarcodeTotals(m)) != 0
    ensures |BackgroundBarcodes(m, bottomFrac)| == BackgroundSize(m, bottomFrac)
    ensures Distinct(BackgroundBarcodes(m, bottomFrac))
    ensures NoneSmallerLeftOut(BarcodeTotals(m), BackgroundBarcodes(m, bottomFrac))
  {
    var totals := BarcodeTotals(m);
    ArgSortFacts(totals);
    BackgroundSizeBound(m, bottomFrac);
    BottomOfArgSort(totals, ArgSort(totals), BackgroundSize(m, bottomFrac), BackgroundBarcodes(m, bottomFrac));
  }

  lemma BackgroundSizeBound(m: Matrix, bottomFrac: real)
    requires Sum(BarcodeTotals(m)) != 0
    ensures BackgroundSize(m, bottomFrac) <= |m.cols|
  {
    SortCorrect(BarcodeTotals(m));
  }

  /**
   * The background size is the left insertion point of `bottomFrac * total`
   * among the cumulative totals of the ascending barcode totals: every included
   * barcode's cumulative total is strictly below it, the first excluded one reaches it.
   */
  lemma BackgroundThreshold(m: Matrix, bottomFrac: real, t: int)
    requires WellFormed(m) && t == Sum(BarcodeTotals(m)) && t != 0
    ensures BackgroundSize(m, bottomFrac) <= |m.cols|
    ensures forall k :: 0 <= k < BackgroundSize(m, bottomFrac) ==>
      CumSum(Sort(BarcodeTotals(m)))[k] as real < bottomFrac * t as real
    ensures BackgroundSize(m, bottomFrac) < |m.cols| ==>
      CumSum(Sort(BarcodeTotals(m)))[BackgroundSize(m, bottomFrac)] as real >= bottomFrac * t as real
  {
    TotalPositive(m);
    var totals := BarcodeTotals(m);
    SortCorrect(totals);
    var sorted := Sort(totals);
    ThresholdPrefix(CumSum(sorted), t, bottomFrac, CumFrac(sorted, t), BackgroundSize(m, bottomFrac));
  }

  lemma TotalPositive(m: Matrix)
    requires WellFormed(m) && Sum(BarcodeTotals(m)) != 0
    ensures Sum(BarcodeTotals(m)) > 0
  {
    TotalsNonNegative(m);
    SumNonNegative(BarcodeTotals(m));
  }

  /** Comparing shares `cs[k] / t` with `frac` is comparing `cs[k]` with `frac * t`. */
  lemma ThresholdPrefix(cs: seq<int>, t: int, frac: real, cf: seq<real>, size: nat)
    requires t > 0 && |cf| == |cs|
    requires forall k :: 0 <= k < |cf| ==> cf[k] == cs[k] as real / t as real
    requires size == SearchSortedLeftReal(cf, frac)
    ensures size <= |cs|
    ensures forall k :: 0 <= k < size ==> cs[k] as real < frac * t as real
    ensures size < |cs| ==> cs[size] as real >= frac * t as real
  {
    forall k | 0 <= k < |cf| ensures (cf[k] < frac <==> cs[k] as real < frac * t as real) {
      ShareBelow(cs[k], t, frac);
    }
  }

  lemma TotalsNonNegative(m: Matrix)
    requires WellFormed(m)
    ensures NonNegative(BarcodeTotals(m))
  {
    forall b | 0 <= b < |m.cols| ensures Sum(m.cols[b]) >= 0 {
      SumNonNegative(m.cols[b]);
    }
  }

  /** For a positive total, `a / t < frac` exactly when `a < frac * t`. */
  lemma ShareBelow(a: int, t: int, frac: real)
    requires t > 0
    ensures a as real / t as real < frac <==> a as real < frac * t as real
  {
    var q := a as real / t as real;
    assert q * t as real == a as real;
    if q < frac {
      assert q * t as real < frac * t as real;
    } else {
      assert q * t as real >= frac * t as real;
    }
  }

  /** No index left out of `r` has a smaller value than one in `r`. */
  predicate NoneSmallerLeftOut(c: seq<int>, r: seq<int>)
    requires IndicesInto(r, |c|)
  {
    forall a, j :: 0 <= a < |r| && 0 <= j < |c| && j !in r ==> c[r[a]] <= c[j]
  }

  /** A prefix of a stable ascending argsort lists distinct indices, none above an index left out. */
  lemma BottomOfArgSort(c: seq<int>, p: seq<int>, size: nat, r: seq<int>)
    requires IndicesInto(p, |c|) && |p| == |c| && ArgSorted(c, p) && Distinct(p)
    requires multiset(p) == multiset(Range(|c|))
    requires size <= |p| && r == p[..size]
    ensures |r| == size && Distinct(r)
    ensures NoneSmallerLeftOut(c, r)
  {
    forall a, j | 0 <= a < |r| && 0 <= j < |c| && j !in r ensures c[r[a]] <= c[j] {
      RangeMember(p, |c|, j);
      var t :| 0 <= t < |p| && p[t] == j;
      assert Precedes(c, p[a], p[t]);
    }
  }

  /**
   * With `bottom_frac = 1` and a nonzero total the left insertion point stops at
   * the last barcode, so the barcode with the most UMIs is never part of the background.
   */
  lemma FullFractionExcludesLargest(m: Matrix)
    requires WellFormed(m) && Sum(BarcodeTotals(m)) != 0
    ensures BackgroundSize(m, 1.0) == |m.cols| - 1
  {
    var totals := BarcodeTotals(m);
    SortedTotals(m);
    TotalPositive(m);
    var sorted := Sort(totals);
    LastShare(sorted, Sum(totals), CumFrac(sorted, Sum(totals)));
  }

  /** Only the last cumulative share of a sequence with a positive last entry reaches 1. */
  lemma LastShare(sorted: seq<int>, t: int, cf: seq<real>)
    requires Ascending(sorted) && NonNegative(sorted) && Sum(sorted) == t && t > 0
    requires cf == CumFrac(sorted, t)
    ensures SearchSortedLeftReal(cf, 1.0) == |sorted| - 1
  {
    LargestPositive(sorted);
    CumSumLast(sorted);
    var n := |sorted|;
    forall k | 0 <= k < n - 1 ensures cf[k] < 1.0 {
      CumSumBelowTotal(sorted, k);
      ShareBelow(CumSum(sorted)[k], t, 1.0);
    }
    assert cf[n - 1] == 1.0;
  }

  /** Zero fraction: nothing is strictly below zero, so the background is empty. */
  lemma ZeroFractionEmpty(m: Matrix)
    requires WellFormed(m) && Sum(BarcodeTotals(m)) != 0
    ensures BackgroundSize(m, 0.0) == 0
  {
    var totals := BarcodeTotals(m);
    var t := Sum(totals);
    TotalPositive(m);
    FirstCumSumNonNegative(m);
    var cf := CumFrac(Sort(totals), t);
    if |cf| > 0 {
      ShareNonNegative(CumSum(Sort(totals))[0], t);
    }
    assert BackgroundSize(m, 0.0) == SearchSortedLeftReal(cf, 0.0);
  }

  /** A nonnegative count over a positive total is a nonnegative fraction. */
  lemma ShareNonNegative(a: int, t: int)
    requires a >= 0 && t > 0
    ensures a as real / t as real >= 0.0
  {
  }

  /** The smallest barcode total is nonnegative. */
  lemma FirstCumSumNonNegative(m: Matrix)
    requires WellFormed(m)
    ensures |CumSum(Sort(BarcodeTotals(m)))| > 0 ==> CumSum(Sort(BarcodeTotals(m)))[0] >= 0
  {
    SortedTotals(m);
    if |m.cols| > 0 {
      CumSumNonNegative(Sort(BarcodeTotals(m)), 0);
    }
  }

  /** The ascending barcode totals are non-negative, and sum to the matrix total. */
  lemma SortedTotals(m: Matrix)
    requires WellFormed(m)
    ensures |Sort(BarcodeTotals(m))| == |m.cols|
    ensures Ascending(Sort(BarcodeTotals(m))) && NonNegative(Sort(BarcodeTotals(m)))
    ensures Sum(Sort(BarcodeTotals(m))) == Sum(BarcodeTotals(m))
  {
    var totals := BarcodeTotals(m);
    TotalsNonNegative(m);
    var sorted := Sort(totals);
    SortCorrect(totals);
    SumPermutation(sorted, totals);
    forall i | 0 <= i < |sorted| ensures sorted[i] >= 0 {
      assert sorted[i] in multiset(totals);
    }
  }

  lemma CumSumLast(s: seq<int>)
    requires s != []
    ensures CumSum(s)[|s| - 1] == Sum(s)
  {
    assert s[..|s|] == s;
  }

  /** A non-negative ascending sequence with a nonzero sum ends in a positive entry. */
  lemma LargestPositive(s: seq<int>)
    requires Ascending(s) && NonNegative(s) && Sum(s) != 0
    ensures s != [] && s[|s| - 1] > 0
  {
    if s == [] || s[|s| - 1] <= 0 {
      SumBounds(s, 0, 0);
    }
  }

  /** Before the last entry, a positive last entry keeps the running total below the full sum. */
  lemma CumSumBelowTotal(s: seq<int>, k: nat)
    requires NonNegative(s) && k < |s| - 1 && s[|s| - 1] > 0
    ensures CumSum(s)[k] < Sum(s)
  {
    var n := |s| - 1;
    SumPrefixMonotone(s, k + 1, n);
    assert s[..n] == s[..|s| - 1];
  }

  /** Over non-negative entries a longer prefix never has a smaller sum. */
  lemma {:induction false} SumPrefixMonotone(s: seq<int>, i: nat, j: nat)
    requires NonNegative(s) && i <= j <= |s|
    ensures Sum(s[..i]) <= Sum(s[..j])
    decreases j
  {
    if i < j {
      SumPrefixMonotone(s, i, j - 1);
      assert s[..j][..j - 1] == s[..j - 1];
    }
  }

  lemma CumSumNonNegative(s: seq<int>, k: nat)
    requires NonNegative(s) && k < |s|
    ensures CumSum(s)[k] >= 0
  {
    SumNonNegative(s[..k + 1]);
  }
}
