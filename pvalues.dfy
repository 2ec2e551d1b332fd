/**
 * Empirical p-values of the observed log-likelihoods against the simulated null
 * (`compute_ambient_pvalues`, cell_cosmo/tools/aa/stats.py, lines 225-248).
 */
module PValues {
  import opened Common
  import opened Sorting

  /** `float(1 + num_lower_loglk) / (1 + num_sims)`. */
  function PValue(numLower: nat, numSims: nat): real
  {
    (1 + numLower) as real / (1 + numSims) as real
  }

  /** `sim_loglk[row, :]`. */
  function Row(t: array2<real>, row: nat): (r: seq<real>)
    requires row < t.Length0
    reads t
    ensures |r| == t.Length1
    ensures forall s :: 0 <= s < t.Length1 ==> r[s] == t[row, s]
  {
    seq(t.Length1, s requires 0 <= s < t.Length1 reads t => t[row, s])
  }

  /**
   * The p-value of a barcode with `n` UMIs and observed log-likelihood `obs`: the
   * simulated row is the first whose total is at least `n` (`np.searchsorted`).
   */
  function BarcodePValue(simN: seq<int>, t: array2<real>, n: int, obs: real): real
    requires t.Length0 == |simN| && SearchSortedLeft(simN, n) < |simN|
    reads t
  {
    PValue(CountBelow(Row(t, SearchSortedLeft(simN, n)), obs), t.Length1)
  }

  /** Every barcode total has a simulated row at or above it. */
  predicate AllIndexed(simN: seq<int>, umis: seq<int>)
  {
    forall i :: 0 <= i < |umis| ==> SearchSortedLeft(simN, umis[i]) < |simN|
  }

  /**
   * The p-value of every barcode. Mismatched lengths fail the two assertions; a
   * barcode with more UMIs than any simulated total indexes past the table.
   */
  method ComputeAmbientPvalues(umis: seq<int>, obsLoglk: seq<real>, simN: seq<int>, simLoglk: array2<real>)
    returns (r: Result<seq<real>>)
    requires Ascending(simN)
    ensures |umis| != |obsLoglk| ==> r == Err(AssertionFailed)
    ensures |umis| == |obsLoglk| && simLoglk.Length0 != |simN| ==> r == Err(AssertionFailed)
    ensures |umis| == |obsLoglk| && simLoglk.Length0 == |simN| ==>
      (r.Err? <==> !AllIndexed(simN, umis)) && (r.Err? ==> r.error == IndexError)
    ensures r.Ok? ==> |r.value| == |umis| && simLoglk.Length0 == |simN| && AllIndexed(simN, umis)
    ensures r.Ok? ==> forall i :: 0 <= i < |umis| ==>
      r.value[i] == BarcodePValue(simN, simLoglk, umis[i], obsLoglk[i])
  {
    if |umis| != |obsLoglk| || simLoglk.Length0 != |simN| {
      return Err(AssertionFailed);
    }
    var numSims := simLoglk.Length1;
    var numBarcodes := |umis|;
    var pvalues := new real[numBarcodes];
    for i := 0 to numBarcodes
      invariant forall i' :: 0 <= i' < i ==> SearchSortedLeft(simN, umis[i']) < |simN|
      invariant forall i' :: 0 <= i' < i ==> pvalues[i'] == BarcodePValue(simN, simLoglk, umis[i'], obsLoglk[i'])
    {
      var idx := SearchSortedLeft(simN, umis[i]);
      if idx >= |simN| {
        return Err(IndexError);
      }
      var numLower := CountBelow(Row(simLoglk, idx), obsLoglk[i]);
      pvalues[i] := PValue(numLower, numSims);
    }
    return Ok(pvalues[..]);
  }

  /** A p-value lies in `[1 / (1 + numSims), 1]`; it is never 0 and is 1 exactly when every simulated value is lower. */
  lemma PValueBounds(numLower: nat, numSims: nat)
    requires numLower <= numSims
    ensures 1.0 / (1 + numSims) as real <= PValue(numLower, numSims) <= 1.0
    ensures PValue(numLower, numSims) == 1.0 <==> numLower == numSims
  {
    var d := (1 + numSims) as real;
    assert PValue(numLower, numSims) * d == (1 + numLower) as real;
  }

  /** Counting more values below never lowers the p-value. */
  lemma PValueMonotone(c: nat, c': nat, numSims: nat)
    requires c <= c'
    ensures PValue(c, numSims) <= PValue(c', numSims)
  {
    var d := (1 + numSims) as real;
    assert PValue(c, numSims) * d == (1 + c) as real;
    assert PValue(c', numSims) * d == (1 + c') as real;
  }

  /** Each barcode's p-value lies in `[1 / (1 + num_sims), 1]`. */
  lemma BarcodePValueBounds(simN: seq<int>, t: array2<real>, n: int, obs: real)
    requires t.Length0 == |simN| && SearchSortedLeft(simN, n) < |simN|
    ensures 1.0 / (1 + t.Length1) as real <= BarcodePValue(simN, t, n, obs) <= 1.0
  {
    var row := Row(t, SearchSortedLeft(simN, n));
    CountBelowBound(row, obs);
    PValueBounds(CountBelow(row, obs), t.Length1);
  }

  /** For a fixed total, a higher observed log-likelihood never has a lower p-value. */
  lemma BarcodePValueMonotone(simN: seq<int>, t: array2<real>, n: int, obs: real, obs': real)
    requires t.Length0 == |simN| && SearchSortedLeft(simN, n) < |simN| && obs <= obs'
    ensures BarcodePValue(simN, t, n, obs) <= BarcodePValue(simN, t, n, obs')
  {
    var row := Row(t, SearchSortedLeft(simN, n));
    CountBelowMonotone(row, obs, obs');
    PValueMonotone(CountBelow(row, obs), CountBelow(row, obs'), t.Length1);
  }
}
