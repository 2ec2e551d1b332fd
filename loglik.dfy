/**
 * Observed multinomial log-likelihoods, one per barcode, computed chunk by chunk
 * (`eval_multinomial_loglikelihoods`, cell_cosmo/tools/aa/stats.py, lines 133-153).
 *
 * The log-pmf of scipy's multinomial distribution under the background profile is
 * a parameter: `logPmf(counts, n)` is `sp_stats.multinomial.logpmf(counts, n, p)`.
 * The memory budget enters through `memRatio`, the value of
 * `int(round(max_mem_gb / gb_per_bc))`, whose floating-point evaluation is not modelled.
 */
module Likelihood {
  import opened Common
  import opened Background

  /** `bcs_per_chunk = max(1, memRatio)`. */
  function ChunkSize(memRatio: int): (r: int)
    ensures r >= 1 && r >= memRatio
    ensures memRatio >= 1 ==> r == memRatio
  {
    if memRatio < 1 then 1 else memRatio
  }

  /**
   * The log-likelihood of every barcode column under the profile. An empty feature
   * axis makes `gb_per_bc` zero and the division by it fails. The ghost results
   * record, per barcode, how often its entry was written and by which chunk.
   */
  method EvalMultinomialLoglikelihoods(m: Matrix, logPmf: (seq<int>, int) -> real, memRatio: int)
    returns (r: Result<seq<real>>, ghost writes: seq<int>, ghost chunkOf: seq<int>)
    ensures r.Err? <==> m.numFeatures == 0
    ensures r.Err? ==> r.error == ZeroDivisionError
    ensures r.Ok? ==> |r.value| == |m.cols|
    ensures r.Ok? ==> forall b :: 0 <= b < |m.cols| ==> r.value[b] == logPmf(m.cols[b], Sum(m.cols[b]))
    ensures r.Ok? ==> |writes| == |chunkOf| == |m.cols|
    ensures r.Ok? ==> forall b :: 0 <= b < |m.cols| ==> writes[b] == 1 && chunkOf[b] == b / ChunkSize(memRatio)
  {
    if m.numFeatures == 0 {
      return Err(ZeroDivisionError), [], [];
    }
    var size := ChunkSize(memRatio);
    var numBcs := |m.cols|;
    var loglk := new real[numBcs];
    var chunkStart := 0;
    ghost var c := 0;
    writes := seq(numBcs, b => 0);
    chunkOf := seq(numBcs, b => 0);
    while chunkStart < numBcs
      invariant 0 <= chunkStart == c * size
      invariant |writes| == |chunkOf| == numBcs
      invariant forall b :: 0 <= b < numBcs && b < chunkStart ==> loglk[b] == logPmf(m.cols[b], Sum(m.cols[b]))
      invariant forall b :: 0 <= b < numBcs ==> writes[b] == if b < chunkStart then 1 else 0
      invariant forall b :: 0 <= b < numBcs && b < chunkStart ==> chunkOf[b] == b / size
      decreases numBcs - chunkStart
    {
      // the slice `chunk_start:chunk_start + bcs_per_chunk`, clipped to the matrix
      var stop := if chunkStart + size < numBcs then chunkStart + size else numBcs;
      forall b | chunkStart <= b < stop {
        loglk[b] := logPmf(m.cols[b], Sum(m.cols[b]));
      }
      forall b | chunkStart <= b < stop
        ensures c == b / size
      {
        ChunkOfBarcode(b, size, c);
      }
      writes := seq(numBcs, b requires 0 <= b < numBcs => if chunkStart <= b < stop then writes[b] + 1 else writes[b]);
      chunkOf := seq(numBcs, b requires 0 <= b < numBcs => if chunkStart <= b < stop then c else chunkOf[b]);
      chunkStart := chunkStart + size;
      c := c + 1;
    }
    return Ok(loglk[..]), writes, chunkOf;
  }

  /** The chunks visited by the loop partition the barcodes: barcode `b` lies in chunk `b / size` and in no other. */
  lemma ChunkOfBarcode(b: nat, size: int, c: nat)
    requires size >= 1
    ensures c * size <= b < c * size + size <==> c == b / size
  {
    var q := b / size;
    assert q * size <= b < q * size + size;
    if c < q {
      assert c * size + size == (c + 1) * size;
      MulMonotoneNat(c + 1, q, size);
    } else if c > q {
      MulMonotoneNat(q + 1, c, size);
      assert (q + 1) * size == q * size + size;
    }
  }

  lemma MulMonotoneNat(a: nat, b: nat, k: int)
    requires a <= b && k >= 1
    ensures a * k <= b * k
  {
  }
}
