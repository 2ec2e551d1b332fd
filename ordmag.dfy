/**
 * The order-of-magnitude cell-calling heuristic and its fixed-cutoff variant
 * (cell_cosmo/tools/aa/stats.py, lines 16-106).
 *
 * The bootstrap resampling is an input: `draws` holds, per replicate, the indices
 * that `np.random.choice` picked from the nonzero counts. Mean and variance of the
 * replicates are floating point in the source; the mean is modelled exactly as an
 * integer quotient rounded half to even, the variance is not modelled.
 */
module OrdMag {
  import opened Common
  import opened Sorting

  const DefaultRecoveredCells := 3000
  const MaxRecoveredCellsMultiple := 6
  const NumBootstrapSamples := 100
  const AllZeroWarning := "WARNING: All barcodes do not have enough reads for ordmag, allowing no bcs through"

  datatype Metrics = Metrics(filteredBcs: int, maxFilteredBcs: int)

  /** What both filters return: kept barcode indices, the metrics record and an optional warning. */
  datatype Selection = Selection(indices: seq<int>, metrics: Metrics, warning: Option<string>)

  /** `determine_max_filtered_bcs`: the sanity ceiling on the number of cells. */
  function MaxFilteredBcs(recoveredCells: int): int
  {
    recoveredCells * MaxRecoveredCellsMultiple
  }

  /** Python `round(a / b)` for `b > 0`, ties to even, computed exactly. */
  function RoundHalfEven(a: int, b: int): (r: int)
    requires b > 0
    ensures -b <= 2 * (a - r * b) <= b
    ensures 2 * (a - r * b) == b || 2 * (a - r * b) == -b ==> r % 2 == 0
  {
    var q, m := a / b, a % b;
    assert a - q * b == m && a - (q + 1) * b == m - b;
    if 2 * m < b then q
    else if 2 * m > b then q + 1
    else if q % 2 == 0 then q
    else q + 1
  }

  /**
   * `int(round(float(recovered_cells) * (1 - 0.99)))`. In binary floating point
   * `1 - 0.99` is slightly above 0.01, so halves round away from zero.
   */
  function BaselineRank(recoveredCells: int): int
  {
    if recoveredCells >= 0 then (recoveredCells + 50) / 100
    else -((-recoveredCells + 50) / 100)
  }

  /** Python indexing `s[i]`, negative `i` counting from the end. */
  function PyIndex(s: seq<int>, i: int): int
    requires -|s| <= i < |s|
  {
    if i >= 0 then s[i] else s[|s| + i]
  }

  /** `x_ascending[-baseline_idx]`: the baseline_idx-th largest value, or the smallest when the index is 0. */
  function Baseline(x: seq<int>, baselineIdx: int): int
    requires -|x| < baselineIdx <= |x|
  {
    SortCorrect(x);
    PyIndex(Sort(x), -baselineIdx)
  }

  /** `max(1, round(0.1 * baseline))`. */
  function Cutoff(baseline: int): (c: int)
    ensures c >= 1
    ensures baseline >= 1 ==> c <= baseline
    ensures c == 1 <==> baseline <= 14
    ensures c > 1 ==> 10 * c - 5 <= baseline <= 10 * c + 5
  {
    var r := RoundHalfEven(baseline, 10);
    if r < 1 then 1 else r
  }

  /** `find_within_ordmag`: how many values are within an order of magnitude of the baseline. */
  function FindWithinOrdmag(x: seq<int>, baselineIdx: int): (r: nat)
    requires -|x| < baselineIdx <= |x|
    ensures r <= |x|
    ensures r == CountAtLeast(x, Cutoff(Baseline(x, baselineIdx)))
  {
    var sorted := Sort(x);
    var cutoff := Cutoff(Baseline(x, baselineIdx));
    SortCorrect(x);
    SearchSortedLeftCounts(sorted, cutoff);
    CountAtLeastPermutation(sorted, x, cutoff);
    |x| - SearchSortedLeft(sorted, cutoff)
  }

  /** `bc_counts[bc_counts > 0]`, order kept. */
  function Nonzero(counts: seq<int>): (r: seq<int>)
    ensures |r| == CountAtLeast(counts, 1)
    ensures forall k :: 0 <= k < |r| ==> r[k] > 0
    ensures forall v :: v > 0 ==> multiset(r)[v] == multiset(counts)[v]
  {
    if counts == [] then []
    else
      var last := counts[|counts| - 1];
      assert counts == counts[..|counts| - 1] + [last];
      Nonzero(counts[..|counts| - 1]) + (if last > 0 then [last] else [])
  }

  /** Each replicate draws `|nonzero|` indices into the nonzero counts. */
  predicate ValidDraws(draws: seq<seq<int>>, n: nat)
  {
    |draws| == NumBootstrapSamples &&
    forall b :: 0 <= b < |draws| ==> |draws[b]| == n && IndicesInto(draws[b], n)
  }

  /** The 100 replicate results `find_within_ordmag(sample, baseline_idx)`. */
  function BootstrapTopN(nonzero: seq<int>, draws: seq<seq<int>>, baselineIdx: int): (r: seq<int>)
    requires ValidDraws(draws, |nonzero|)
    requires -|nonzero| < baselineIdx <= |nonzero|
    ensures |r| == |draws|
    ensures forall b :: 0 <= b < |r| ==> r[b] == FindWithinOrdmag(Values(nonzero, draws[b]), baselineIdx)
  {
    seq(|draws|, b requires 0 <= b < |draws| => FindWithinOrdmag(Values(nonzero, draws[b]), baselineIdx))
  }

  /** `np.sort(np.argsort(bc_counts)[::-1][:top_n])`. */
  function TopBarcodes(counts: seq<int>, topN: int): seq<int>
  {
    Sort(PyPrefix(Reverse(ArgSort(counts)), topN))
  }

  /** `filter_cellular_barcodes_ordmag`. */
  function FilterOrdMag(counts: seq<int>, recoveredCells: Option<int>, draws: seq<seq<int>>): Result<Selection>
    requires ValidDraws(draws, CountAtLeast(counts, 1))
  {
    var rc := if recoveredCells.None? then DefaultRecoveredCells else recoveredCells.value;
    var maxFiltered := MaxFilteredBcs(rc);
    var nonzero := Nonzero(counts);
    if |nonzero| == 0 then
      Ok(Selection([], Metrics(0, maxFiltered), Some(AllZeroWarning)))
    else
      var baselineIdx := Min(BaselineRank(rc), |nonzero| - 1);
      if !(baselineIdx < maxFiltered) then Err(AssertionFailed)
      else
        BaselineRankNonNegative(rc, baselineIdx, |nonzero|);
        var topNBoot := BootstrapTopN(nonzero, draws, baselineIdx);
        var topN := RoundHalfEven(Sum(topNBoot), |topNBoot|);
        Ok(Selection(TopBarcodes(counts, topN), Metrics(topN, maxFiltered), None))
  }

  /** `filter_cellular_barcodes_fixed_cutoff`. */
  function FilterFixedCutoff(counts: seq<int>, cutoff: int): Selection
  {
    var topN := Min(cutoff, |Nonzero(counts)|);
    Selection(TopBarcodes(counts, topN), Metrics(topN, 0), None)
  }

  function Min(a: int, b: int): int
  {
    if a <= b then a else b
  }

  // ---------------------------------------------------------------------------
  // Lemmas

  /** Once the ceiling assertion passes, the baseline index is a valid rank. */
  lemma BaselineRankNonNegative(rc: int, baselineIdx: int, n: nat)
    requires n >= 1
    requires baselineIdx == Min(BaselineRank(rc), n - 1)
    requires baselineIdx < MaxFilteredBcs(rc)
    ensures 0 <= baselineIdx < n
  {
  }

  /** The ceiling assertion fails exactly when the recovered-cell count is not positive. */
  lemma {:induction false} CeilingAssertion(rc: int, n: nat)
    requires n >= 1
    ensures Min(BaselineRank(rc), n - 1) < MaxFilteredBcs(rc) <==> rc >= 1
  {
    if rc >= 1 {
      assert BaselineRank(rc) <= (rc + 50) / 100 <= rc;
    } else if rc < 0 {
      assert (-rc + 50) / 100 <= -rc;
    }
  }

  /**
   * The baseline is the baselineIdx-th largest value: at least baselineIdx values
   * are at least as large, fewer are strictly larger; index 0 picks the minimum.
   */
  lemma BaselineRanked(x: seq<int>, baselineIdx: int, v: int)
    requires 0 <= baselineIdx <= |x| && |x| > 0
    requires v == Baseline(x, baselineIdx)
    ensures v in x
    ensures baselineIdx == 0 ==> CountAtLeast(x, v) == |x|
    ensures baselineIdx >= 1 ==> CountAtLeast(x, v) >= baselineIdx && CountAtLeast(x, v + 1) < baselineIdx
  {
    var at := if baselineIdx == 0 then 0 else |x| - baselineIdx;
    var s := Sort(x);
    SortCorrect(x);
    BaselineAt(x, baselineIdx, at);
    RankOfSorted(x, s, at, v);
  }

  /** The baseline is the entry of the ascending sort at `|x| - baselineIdx`, or at 0. */
  lemma BaselineAt(x: seq<int>, baselineIdx: int, at: nat)
    requires 0 <= baselineIdx <= |x| && |x| > 0
    requires at == if baselineIdx == 0 then 0 else |x| - baselineIdx
    ensures at < |Sort(x)| && Baseline(x, baselineIdx) == Sort(x)[at]
  {
    SortCorrect(x);
  }

  /** Rank facts about `s[at]` carry over from the ascending rearrangement `s` to `x`. */
  lemma RankOfSorted(x: seq<int>, s: seq<int>, at: nat, v: int)
    requires Ascending(s) && multiset(s) == multiset(x) && at < |s| && v == s[at]
    ensures v in x && |s| == |x|
    ensures CountAtLeast(x, v) >= |s| - at
    ensures CountAtLeast(x, v + 1) < |s| - at
    ensures at == 0 ==> CountAtLeast(x, v) == |x|
  {
    assert |s| == |multiset(s)| == |multiset(x)| == |x|;
    SortedRank(s, at, v);
    assert v in multiset(s);
    CountAtLeastPermutation(s, x, v);
    CountAtLeastPermutation(s, x, v + 1);
  }

  /** In an ascending sequence, `s[at]` is reached by exactly the entries from `at` on, and exceeded by fewer. */
  lemma SortedRank(s: seq<int>, at: nat, v: int)
    requires Ascending(s) && at < |s| && v == s[at]
    ensures CountAtLeast(s, v) >= |s| - at
    ensures CountAtLeast(s, v + 1) < |s| - at
    ensures at == 0 ==> CountAtLeast(s, v) == |s|
  {
    SearchSortedLeftCounts(s, v);
    SearchSortedLeftCounts(s, v + 1);
    assert SearchSortedLeft(s, v) <= at;
    assert SearchSortedLeft(s, v + 1) > at;
  }

  /** For positive inputs the ordmag count is at least max(1, baselineIdx); index 0 keeps everything. */
  lemma FindWithinOrdmagLowerBound(x: seq<int>, baselineIdx: int)
    requires 0 <= baselineIdx <= |x| && |x| > 0
    requires forall k :: 0 <= k < |x| ==> x[k] > 0
    ensures FindWithinOrdmag(x, baselineIdx) >= baselineIdx
    ensures FindWithinOrdmag(x, baselineIdx) >= 1
    ensures baselineIdx == 0 ==> FindWithinOrdmag(x, baselineIdx) == |x|
  {
    var v := Baseline(x, baselineIdx);
    BaselineRanked(x, baselineIdx, v);
    assert v >= 1;
    CountAtLeastAntitone(x, Cutoff(v), v);
    CountAtLeastBound(x, Cutoff(v));
  }

  /** Rounding the mean of values in [lo, hi] stays in [lo, hi]. */
  lemma RoundedMeanBounds(s: seq<int>, lo: int, hi: int)
    requires |s| > 0
    requires forall i :: 0 <= i < |s| ==> lo <= s[i] <= hi
    ensures lo <= RoundHalfEven(Sum(s), |s|) <= hi
  {
    var n := |s|;
    var r := RoundHalfEven(Sum(s), n);
    SumBounds(s, lo, hi);
    if r < lo {
      assert r * n <= (lo - 1) * n by { MulMonotone(r, lo - 1, n); }
    }
    if r > hi {
      assert r * n >= (hi + 1) * n by { MulMonotone(hi + 1, r, n); }
    }
  }

  lemma MulMonotone(a: int, b: int, n: nat)
    requires a <= b
    ensures a * n <= b * n
  {
  }

  /** Non-increasing counts along the index order `d`. */
  predicate DescendingBy(c: seq<int>, d: seq<int>)
    requires IndicesInto(d, |c|)
  {
    forall a, b :: 0 <= a < b < |d| ==> c[d[a]] >= c[d[b]]
  }

  /** Reversing a stable ascending argsort gives a permutation ordered by non-increasing count. */
  lemma ReversedArgSorted(c: seq<int>, p: seq<int>, d: seq<int>)
    requires IndicesInto(p, |c|) && ArgSorted(c, p) && Distinct(p)
    requires d == Reverse(p)
    ensures IndicesInto(d, |c|) && Distinct(d) && DescendingBy(c, d)
    ensures multiset(d) == multiset(p)
  {
    ReverseMultiset(p);
    var n := |p|;
    forall a, b | 0 <= a < b < n ensures c[d[a]] >= c[d[b]] && d[a] != d[b] {
      assert Precedes(c, p[n - 1 - b], p[n - 1 - a]);
    }
  }

  /** `np.argsort(bc_counts)[::-1]` lists every index once, by non-increasing count. */
  lemma DescendingOrder(counts: seq<int>, d: seq<int>)
    requires d == Reverse(ArgSort(counts))
    ensures IndicesInto(d, |counts|)
    ensures Distinct(d)
    ensures multiset(d) == multiset(Range(|counts|))
    ensures DescendingBy(counts, d)
  {
    ArgSortFacts(counts);
    ReversedArgSorted(counts, ArgSort(counts), d);
  }

  /**
   * What the top-N expression promises: strictly ascending valid indices, and no
   * unselected barcode has a larger count than a selected one.
   */
  predicate IsTopSelection(counts: seq<int>, r: seq<int>)
  {
    StrictlyIncreasing(r) && IndicesInto(r, |counts|) &&
    forall a, j :: 0 <= a < |r| && 0 <= j < |counts| && j !in r ==> counts[r[a]] >= counts[j]
  }

  /** A permutation of all indices ordered by non-increasing count. */
  predicate DescendingPermutation(counts: seq<int>, d: seq<int>)
  {
    |d| == |counts| && IndicesInto(d, |counts|) && Distinct(d) &&
    multiset(d) == multiset(Range(|counts|)) && DescendingBy(counts, d)
  }

  /** Any ascending rearrangement of a prefix of a descending permutation is a top selection. */
  lemma TopOfDescending(counts: seq<int>, d: seq<int>, q: seq<int>, r: seq<int>)
    requires DescendingPermutation(counts, d)
    requires |q| <= |d| && q == d[..|q|]
    requires multiset(r) == multiset(q) && StrictlyIncreasing(r)
    ensures IsTopSelection(counts, r)
  {
    var n := |counts|;
    var m := |q|;
    forall a | 0 <= a < |r| ensures 0 <= r[a] < n && exists k :: 0 <= k < m && d[k] == r[a] {
      assert r[a] in multiset(q);
    }
    forall a, j | 0 <= a < |r| && 0 <= j < n && j !in r ensures counts[r[a]] >= counts[j] {
      var k :| 0 <= k < m && d[k] == r[a];
      RangeMember(d, n, j);
      var t :| 0 <= t < n && d[t] == j;
      if t < m {
        PrefixMember(d, q, t);
      }
      assert counts[d[k]] >= counts[d[t]];
    }
  }

  lemma PrefixMember(d: seq<int>, q: seq<int>, t: int)
    requires |q| <= |d| && q == d[..|q|] && 0 <= t < |q|
    ensures d[t] in multiset(q)
  {
    assert q[t] == d[t];
  }

  /** In a non-increasing sequence, the first CountAtLeast(v, 1) entries are positive. */
  lemma {:induction false} PositiveHead(v: seq<int>, m: nat)
    requires m <= CountAtLeast(v, 1) && m <= |v|
    requires forall a, b :: 0 <= a < b < |v| ==> v[a] >= v[b]
    ensures forall k :: 0 <= k < m ==> v[k] >= 1
  {
    forall k | 0 <= k < m ensures v[k] >= 1 {
      if v[k] < 1 {
        assert v == v[..k] + v[k..];
        CountAtLeastConcat(v[..k], v[k..], 1);
        CountAtLeastBound(v[..k], 1);
        CountAtLeastNone(v[k..], 1);
      }
    }
  }

  /** A prefix of a descending permutation no longer than the number of positive counts has only positive counts. */
  lemma PositiveOfDescending(counts: seq<int>, d: seq<int>, q: seq<int>, r: seq<int>)
    requires DescendingPermutation(counts, d)
    requires multiset(Values(counts, d)) == multiset(counts)
    requires |q| <= CountAtLeast(counts, 1) && |q| <= |d| && q == d[..|q|]
    requires multiset(r) == multiset(q)
    ensures IndicesInto(r, |counts|)
    ensures AllPositive(counts, r)
  {
    var n := |counts|;
    var v := Values(counts, d);
    CountAtLeastPermutation(v, counts, 1);
    PositiveHead(v, |q|);
    forall a | 0 <= a < |r| ensures 0 <= r[a] < n && counts[r[a]] >= 1 {
      assert r[a] in multiset(q);
      var k :| 0 <= k < |q| && q[k] == r[a];
      assert v[k] == counts[r[a]];
    }
  }

  /** The prefix `argsort[::-1][:top_n]` is a prefix of a descending permutation and has no repetitions. */
  lemma TopPrefix(counts: seq<int>, topN: int, d: seq<int>, q: seq<int>)
    requires d == Reverse(ArgSort(counts)) && q == PyPrefix(d, topN)
    ensures DescendingPermutation(counts, d)
    ensures |q| <= |d| && q == d[..|q|] && Distinct(q)
  {
    DescendingOrder(counts, d);
  }

  /** The counts read in descending order are a rearrangement of the counts. */
  lemma DescendingValues(counts: seq<int>, d: seq<int>)
    requires d == Reverse(ArgSort(counts))
    ensures multiset(Values(counts, d)) == multiset(counts)
  {
    SortCorrect(counts);
    assert Values(counts, d) == Reverse(Sort(counts));
    ReverseMultiset(Sort(counts));
  }

  /** The sorted prefix is an ascending rearrangement of it. */
  lemma SortedPrefix(q: seq<int>, r: seq<int>)
    requires Distinct(q) && r == Sort(q)
    ensures multiset(r) == multiset(q) && StrictlyIncreasing(r) && |r| == |q|
  {
    SortCorrect(q);
    SortDistinctStrict(q);
  }

  /** The top-N expression keeps exactly min(topN, |counts|) barcodes for a non-negative topN. */
  lemma TopBarcodesCorrect(counts: seq<int>, topN: int)
    ensures IsTopSelection(counts, TopBarcodes(counts, topN))
    ensures topN >= 0 ==> |TopBarcodes(counts, topN)| == Min(topN, |counts|)
    ensures topN < 0 ==> |TopBarcodes(counts, topN)| == if |counts| + topN >= 0 then |counts| + topN else 0
  {
    var d := Reverse(ArgSort(counts));
    var q := PyPrefix(d, topN);
    TopPrefix(counts, topN, d, q);
    SortedPrefix(q, TopBarcodes(counts, topN));
    TopOfDescending(counts, d, q, TopBarcodes(counts, topN));
  }

  /** When topN does not exceed the number of positive counts, every selected barcode has a positive count. */
  lemma TopBarcodesPositive(counts: seq<int>, topN: int, r: seq<int>)
    requires 0 <= topN <= CountAtLeast(counts, 1)
    requires r == TopBarcodes(counts, topN)
    ensures IndicesInto(r, |counts|)
    ensures AllPositive(counts, r)
  {
    var d := Reverse(ArgSort(counts));
    var q := PyPrefix(d, topN);
    TopPrefix(counts, topN, d, q);
    SortedPrefix(q, r);
    CountAtLeastBound(counts, 1);
    DescendingValues(counts, d);
    PositiveOfDescending(counts, d, q, r);
  }

  /** Every selected barcode has a positive count. */
  predicate AllPositive(counts: seq<int>, r: seq<int>)
    requires IndicesInto(r, |counts|)
  {
    forall a :: 0 <= a < |r| ==> counts[r[a]] >= 1
  }

  /** A successful ordmag selection: 1..#nonzero barcodes, all positive, as many as the metric says. */
  predicate OrdMagSelectionValid(counts: seq<int>, sel: Selection)
  {
    sel.warning == None &&
    |sel.indices| == sel.metrics.filteredBcs &&
    1 <= sel.metrics.filteredBcs <= CountAtLeast(counts, 1) &&
    IsTopSelection(counts, sel.indices) &&
    AllPositive(counts, sel.indices)
  }

  /**
   * Entry checks and result of the ordmag filter: with no positive count it
   * returns no indices and the warning; otherwise the ceiling assertion fails
   * exactly when the recovered-cell count is not positive; on success it keeps
   * between 1 and #nonzero barcodes, all with positive counts, as many as
   * `filtered_bcs` says, strictly ascending, none outranked by an unselected one.
   */
  lemma FilterOrdMagCorrect(counts: seq<int>, recoveredCells: Option<int>, draws: seq<seq<int>>, rc: int)
    requires ValidDraws(draws, CountAtLeast(counts, 1))
    requires rc == if recoveredCells.None? then DefaultRecoveredCells else recoveredCells.value
    ensures FilterOrdMag(counts, recoveredCells, draws).Err? <==> CountAtLeast(counts, 1) > 0 && rc <= 0
    ensures FilterOrdMag(counts, recoveredCells, draws).Err? ==>
      FilterOrdMag(counts, recoveredCells, draws).error == AssertionFailed
    ensures FilterOrdMag(counts, recoveredCells, draws).Ok? ==>
      FilterOrdMag(counts, recoveredCells, draws).value.metrics.maxFilteredBcs == 6 * rc
    ensures CountAtLeast(counts, 1) == 0 ==>
      FilterOrdMag(counts, recoveredCells, draws) == Ok(Selection([], Metrics(0, 6 * rc), Some(AllZeroWarning)))
    ensures FilterOrdMag(counts, recoveredCells, draws).Ok? && CountAtLeast(counts, 1) > 0 ==>
      OrdMagSelectionValid(counts, FilterOrdMag(counts, recoveredCells, draws).value)
  {
    var nonzero := Nonzero(counts);
    if |nonzero| > 0 {
      var baselineIdx := Min(BaselineRank(rc), |nonzero| - 1);
      CeilingAssertion(rc, |nonzero|);
      if baselineIdx < MaxFilteredBcs(rc) {
        var boot := BootstrapTopN(nonzero, draws, baselineIdx);
        var topN := RoundHalfEven(Sum(boot), |boot|);
        BootstrapMeanBounds(nonzero, draws, baselineIdx, boot, topN);
        CountAtLeastBound(counts, 1);
        TopBarcodesCorrect(counts, topN);
        TopBarcodesPositive(counts, topN, TopBarcodes(counts, topN));
      }
    }
  }

  lemma ReplicateBounds(nonzero: seq<int>, draw: seq<int>, baselineIdx: int, t: int)
    requires |draw| == |nonzero| && IndicesInto(draw, |nonzero|) && 0 <= baselineIdx < |nonzero|
    requires forall k :: 0 <= k < |nonzero| ==> nonzero[k] > 0
    requires t == FindWithinOrdmag(Values(nonzero, draw), baselineIdx)
    ensures 1 <= t <= |nonzero|
  {
    FindWithinOrdmagLowerBound(Values(nonzero, draw), baselineIdx);
  }

  /** The rounded mean of the bootstrap replicates lies between 1 and the number of nonzero counts. */
  lemma BootstrapMeanBounds(nonzero: seq<int>, draws: seq<seq<int>>, baselineIdx: int, boot: seq<int>, topN: int)
    requires ValidDraws(draws, |nonzero|) && 0 <= baselineIdx < |nonzero|
    requires forall k :: 0 <= k < |nonzero| ==> nonzero[k] > 0
    requires boot == BootstrapTopN(nonzero, draws, baselineIdx)
    requires topN == RoundHalfEven(Sum(boot), |boot|)
    ensures 1 <= topN <= |nonzero|
  {
    forall b | 0 <= b < |boot| ensures 1 <= boot[b] <= |nonzero| {
      ReplicateBounds(nonzero, draws[b], baselineIdx, boot[b]);
    }
    RoundedMeanBounds(boot, 1, |nonzero|);
  }

  /**
   * Fixed cutoff: top_n = min(cutoff, #nonzero); for a non-negative cutoff the
   * metric equals the number of returned indices and every kept barcode has a
   * positive count.
   */
  lemma FilterFixedCutoffCorrect(counts: seq<int>, cutoff: int)
    ensures FilterFixedCutoff(counts, cutoff).metrics == Metrics(Min(cutoff, CountAtLeast(counts, 1)), 0)
    ensures FilterFixedCutoff(counts, cutoff).warning == None
    ensures IsTopSelection(counts, FilterFixedCutoff(counts, cutoff).indices)
    ensures cutoff >= 0 ==>
      |FilterFixedCutoff(counts, cutoff).indices| == FilterFixedCutoff(counts, cutoff).metrics.filteredBcs
    ensures cutoff >= 0 ==> AllPositive(counts, FilterFixedCutoff(counts, cutoff).indices)
  {
    var topN := Min(cutoff, CountAtLeast(counts, 1));
    CountAtLeastBound(counts, 1);
    TopBarcodesCorrect(counts, topN);
    if cutoff >= 0 {
      TopBarcodesPositive(counts, topN, TopBarcodes(counts, topN));
    }
  }

  /** counts [5, 0, 3, 9, 1] with cutoff 2 keep the barcodes of 5 and 9, in index order. */
  lemma FixedCutoffExample(counts: seq<int>)
    requires counts == [5, 0, 3, 9, 1]
    ensures FilterFixedCutoff(counts, 2).indices == [0, 3]
    ensures FilterFixedCutoff(counts, 2).metrics.filteredBcs == 2
  {
    ExampleNonzero(counts);
    FilterFixedCutoffCorrect(counts, 2);
    ExampleTopTwo(counts, FilterFixedCutoff(counts, 2).indices);
  }

  lemma ExampleNonzero(counts: seq<int>)
    requires counts == [5, 0, 3, 9, 1]
    ensures CountAtLeast(counts, 1) == 4
  {
    assert counts == [5, 0, 3, 9] + [1];
    assert [5, 0, 3, 9] == [5, 0, 3] + [9];
    assert [5, 0, 3] == [5, 0] + [3];
    assert [5, 0] == [5] + [0];
    assert [5] == [] + [5];
    CountAtLeastAppend([5, 0, 3, 9], 1, 1);
    CountAtLeastAppend([5, 0, 3], 9, 1);
    CountAtLeastAppend([5, 0], 3, 1);
    CountAtLeastAppend([5], 0, 1);
    CountAtLeastAppend([], 5, 1);
  }

  /** The only top selection of two barcodes from [5, 0, 3, 9, 1] is [0, 3]. */
  lemma ExampleTopTwo(counts: seq<int>, r: seq<int>)
    requires counts == [5, 0, 3, 9, 1]
    requires IsTopSelection(counts, r) && |r| == 2
    ensures r == [0, 3]
  {
    var a, b := r[0], r[1];
    assert r == [a, b];
    assert 0 <= a < b < 5;
    assert counts[a] >= 0 && counts[b] >= 0 && counts[3] == 9 && counts[0] == 5;
    assert 3 in r && 0 in r;
  }
}
