/**
 * The null distribution of multinomial log-likelihoods for every distinct UMI
 * total (`simulate_multinomial_loglikelihoods`, cell_cosmo/tools/aa/stats.py,
 * lines 156-222).
 *
 * Randomness is supplied from outside:
 *  - `rvs(sim, row, n)` is the multinomial draw of `n` UMIs taken for replicate
 *    `sim` at row `row` (`sp_stats.multinomial.rvs(n, profile_p)`);
 *  - `pool(q)` is the `q`-th feature of the stream that successive
 *    `np.random.choice(..., size=n_sample_feature_block)` calls return, block after
 *    block; the method keeps the position of its current block in `offset`.
 * The log-pmf (`logPmf(counts, n)`) and the natural logarithm (`log`) are
 * parameters as well.
 */
module NullSim {
  import opened Common
  import opened Sorting

  /** `np.max` of a non-empty sequence. */
  function MaxOf(u: seq<int>): (r: int)
    requires |u| > 0
    ensures r in u
    ensures forall i :: 0 <= i < |u| ==> u[i] <= r
  {
    if |u| == 1 then u[0]
    else
      var m := MaxOf(u[..|u| - 1]);
      assert m in u;
      if u[|u| - 1] > m then u[|u| - 1] else m
  }

  /** `np.bincount(u)`: entry `v` is the number of occurrences of `v`. */
  function Bincount(u: seq<int>): (r: seq<int>)
    requires NonNegative(u)
    ensures |u| == 0 ==> r == []
    ensures |u| > 0 ==> |r| == MaxOf(u) + 1
    ensures forall v :: 0 <= v < |r| ==> r[v] == multiset(u)[v]
  {
    if |u| == 0 then [] else seq(MaxOf(u) + 1, v => multiset(u)[v])
  }

  /** `distinct_n = np.flatnonzero(np.bincount(umis_per_bc))`. */
  function DistinctValues(u: seq<int>): seq<int>
    requires NonNegative(u)
  {
    FlatNonzero(Bincount(u))
  }

  /** The distinct totals are the values of `u`, each once, in increasing order. */
  lemma DistinctValuesCorrect(u: seq<int>)
    requires NonNegative(u)
    ensures StrictlyIncreasing(DistinctValues(u))
    ensures forall v :: v in DistinctValues(u) <==> v in u
    ensures |DistinctValues(u)| == 0 <==> |u| == 0
  {
    var b := Bincount(u);
    var d := DistinctValues(u);
    forall v
      ensures v in d <==> v in u
    {
      if v in d {
        var k :| 0 <= k < |d| && d[k] == v;
        assert b[v] != 0;
      }
      if v in u {
        assert v <= MaxOf(u);
        assert multiset(u)[v] > 0;
        assert b[v] != 0;
      }
    }
    if |u| > 0 {
      assert u[0] in d;
    }
  }

  /** The distinct totals as the simulation sees them: non-empty, non-negative, increasing. */
  predicate ValidNs(ns: seq<int>)
  {
    |ns| > 0 && ns[0] >= 0 && StrictlyIncreasing(ns)
  }

  /** Everything one run depends on: the totals, the jump threshold, the random sources and the log functions. */
  datatype Setting = Setting(
    ns: seq<int>,
    jump: int,
    numFeatures: nat,
    rvs: (nat, nat, nat) -> seq<int>,
    pool: nat -> nat,
    logPmf: (seq<int>, int) -> real,
    logProfile: seq<real>,
    log: real -> real)

  /** Every pooled feature is a feature index. */
  ghost predicate PoolInRange(pool: nat -> nat, numFeatures: nat)
  {
    forall q :: pool(q) < numFeatures
  }

  /** A multinomial draw is a non-negative count vector over the features. */
  ghost predicate RvsValid(rvs: (nat, nat, nat) -> seq<int>, numFeatures: nat)
  {
    forall s, i, n :: |rvs(s, i, n)| == numFeatures && NonNegative(rvs(s, i, n))
  }

  /** A multinomial draw of `n` UMIs totals `n`. */
  ghost predicate RvsTotal(rvs: (nat, nat, nat) -> seq<int>)
  {
    forall s, i, n :: Sum(rvs(s, i, n)) == n
  }

  ghost predicate Valid(z: Setting)
  {
    ValidNs(z.ns) && |z.logProfile| == z.numFeatures
    && PoolInRange(z.pool, z.numFeatures) && RvsValid(z.rvs, z.numFeatures)
  }

  /** `step = distinct_n[i] - distinct_n[i-1]`. */
  function Step(z: Setting, i: nat): (r: nat)
    requires ValidNs(z.ns) && 1 <= i < |z.ns|
    ensures r >= 1
  {
    z.ns[i] - z.ns[i - 1]
  }

  /** Rows whose gap is below `jump` are filled one pooled feature per UMI. */
  predicate Incremental(z: Setting, i: nat)
    requires ValidNs(z.ns) && 1 <= i < |z.ns|
  {
    Step(z, i) < z.jump
  }

  /** Pooled features one replicate consumes in rows `1 .. i-1`. */
  function UnitsBefore(z: Setting, i: nat): nat
    requires ValidNs(z.ns) && 1 <= i <= |z.ns|
  {
    if i == 1 then 0
    else UnitsBefore(z, i - 1) + (if Incremental(z, i - 1) then Step(z, i - 1) else 0)
  }

  /** Pooled features one replicate consumes in total. */
  function UnitsPerSim(z: Setting): nat
    requires ValidNs(z.ns)
  {
    UnitsBefore(z, |z.ns|)
  }

  /** Stream position of the first pooled feature row `i` of replicate `s` uses. */
  function Base(z: Setting, s: nat, i: nat): nat
    requires ValidNs(z.ns) && 1 <= i <= |z.ns|
  {
    s * UnitsPerSim(z) + UnitsBefore(z, i)
  }

  /** `curr_counts[j] += 1`. */
  function Bump(c: seq<int>, j: nat): seq<int>
    requires j < |c|
  {
    c[j := c[j] + 1]
  }

  /** `curr_counts` and `curr_loglk` together. */
  datatype Tally = Tally(counts: seq<int>, ll: real)

  /** What one UMI of feature `j` adds at total `n` once feature `j` has `cj` counts. */
  function Gain(z: Setting, j: nat, n: int, cj: int): real
    requires j < |z.logProfile| && cj > 0
  {
    z.logProfile[j] + z.log(n as real / cj as real)
  }

  /**
   * The tally after the pooled features `pool(start) .. pool(start + t - 1)`, one UMI
   * each, starting from `st` at total `n0`.
   */
  function Units(z: Setting, st: Tally, start: nat, n0: int, t: nat): (r: Tally)
    requires |st.counts| == z.numFeatures && |z.logProfile| == z.numFeatures
    requires PoolInRange(z.pool, z.numFeatures) && NonNegative(st.counts)
    ensures |r.counts| == z.numFeatures && NonNegative(r.counts)
  {
    if t == 0 then st
    else
      var prev := Units(z, st, start, n0, t - 1);
      var j := z.pool(start + t - 1);
      var c := Bump(prev.counts, j);
      Tally(c, prev.ll + Gain(z, j, n0 + t, c[j]))
  }

  /** `(curr_counts, curr_loglk)` after row `i` of replicate `s`. */
  function Run(z: Setting, s: nat, i: nat): (r: Tally)
    requires Valid(z) && i < |z.ns|
    ensures |r.counts| == z.numFeatures && NonNegative(r.counts)
  {
    if i == 0 then
      var c := z.rvs(s, 0, z.ns[0]);
      Tally(c, z.logPmf(c, z.ns[0]))
    else
      var prev := Run(z, s, i - 1);
      if Incremental(z, i) then Units(z, prev, Base(z, s, i), z.ns[i - 1], Step(z, i))
      else
        var draw := z.rvs(s, i, Step(z, i));
        var c := AddVec(prev.counts, draw);
        Tally(c, z.logPmf(c, z.ns[i]))
  }

  /** `loglk[i, s]`: the log-likelihood the simulation records for row `i` of replicate `s`. */
  function RunLogLk(z: Setting, s: nat, i: nat): real
    requires Valid(z) && i < |z.ns|
  {
    Run(z, s, i).ll
  }

  /** `loglk[:i, s]`: the first `i` rows of column `s` of the table. */
  function Column(z: Setting, s: nat, i: nat): (r: seq<real>)
    requires Valid(z) && i <= |z.ns|
    ensures |r| == i
  {
    if i == 0 then [] else Column(z, s, i - 1) + [RunLogLk(z, s, i - 1)]
  }

  /** What the simulation returns: the distinct totals and the `len(distinct_n) x num_sims` table. */
  datatype Simulation = Simulation(distinctN: seq<int>, loglk: array2<real>)

  /** `np.log(profile_p)`. */
  function LogProfile(profileP: seq<real>, log: real -> real): (r: seq<real>)
    ensures |r| == |profileP|
    ensures forall j :: 0 <= j < |r| ==> r[j] == log(profileP[j])
  {
    seq(|profileP|, j requires 0 <= j < |profileP| => log(profileP[j]))
  }

  function SettingOf(
    umis: seq<int>, jump: int, numFeatures: nat, rvs: (nat, nat, nat) -> seq<int>, pool: nat -> nat,
    logPmf: (seq<int>, int) -> real, profileP: seq<real>, log: real -> real): Setting
    requires NonNegative(umis)
  {
    Setting(DistinctValues(umis), jump, numFeatures, rvs, pool, logPmf, LogProfile(profileP, log), log)
  }

  lemma SettingValid(
    umis: seq<int>, jump: int, rvs: (nat, nat, nat) -> seq<int>, pool: nat -> nat,
    logPmf: (seq<int>, int) -> real, profileP: seq<real>, log: real -> real)
    requires NonNegative(umis) && |umis| > 0
    requires PoolInRange(pool, |profileP|) && RvsValid(rvs, |profileP|)
    ensures Valid(SettingOf(umis, jump, |profileP|, rvs, pool, logPmf, profileP, log))
  {
    DistinctValuesCorrect(umis);
    var d := DistinctValues(umis);
    assert d[0] in umis;
  }

  /**
   * The feature buffer: `sampled` holds the current block of the stream, starting
   * at stream position `offset`, and `k` is the next position to read in it.
   */
  ghost predicate Buffered(pool: nat -> nat, sampled: array<nat>, offset: nat, k: nat, block: nat)
    reads sampled
  {
    sampled.Length == block
    && (forall q :: 0 <= q < block ==> sampled[q] == pool(offset + q))
    && (block > 0 ==> k < block)
    && (block == 0 ==> offset + k == 0)
  }

  /**
   * `j = sampled_features[k]; k += 1`, drawing the next block of the stream once
   * the current one is used up.
   */
  method NextFeature(pool: nat -> nat, sampled0: array<nat>, offset0: nat, k0: nat, block: nat)
    returns (j: nat, sampled: array<nat>, offset: nat, k: nat)
    requires Buffered(pool, sampled0, offset0, k0, block) && block > 0
    ensures j == pool(offset0 + k0)
    ensures Buffered(pool, sampled, offset, k, block) && offset + k == offset0 + k0 + 1
  {
    j := sampled0[k0];
    sampled, offset, k := sampled0, offset0, k0 + 1;
    if k >= block {
      // the block is used up: read the next block of the stream
      offset := offset + block;
      sampled := new nat[block](q requires 0 <= q < block => pool(offset + q));
      k := 0;
    }
  }

  /**
   * One UMI of the inner loop: the next pooled feature `j` gains a count and the
   * running log-likelihood gains `log_profile_p[j] + log(n / curr_counts[j])`.
   */
  method AddPooledFeature(
    z: Setting, curr: array<int>, ll0: real, n: int, sampled0: array<nat>, offset0: nat, k0: nat, block: nat)
    returns (ll: real, sampled: array<nat>, offset: nat, k: nat)
    requires PoolInRange(z.pool, z.numFeatures) && |z.logProfile| == z.numFeatures
    requires curr.Length == z.numFeatures && NonNegative(curr[..])
    requires Buffered(z.pool, sampled0, offset0, k0, block) && block > 0
    modifies curr
    ensures curr[..] == Bump(old(curr[..]), z.pool(offset0 + k0))
    ensures curr[z.pool(offset0 + k0)] > 0
    ensures ll == ll0 + Gain(z, z.pool(offset0 + k0), n, curr[z.pool(offset0 + k0)])
    ensures Buffered(z.pool, sampled, offset, k, block) && offset + k == offset0 + k0 + 1
  {
    var j;
    j, sampled, offset, k := NextFeature(z.pool, sampled0, offset0, k0, block);
    curr[j] := curr[j] + 1;
    ll := ll0 + z.logProfile[j] + z.log(n as real / curr[j] as real);
    assert curr[..][j] == curr[j];
  }

  /**
   * The inner loop over `n` in `(n0, n0 + count]`: one pooled feature per UMI.
   * `ok` is false when the buffer is empty at the first read (the IndexError of
   * `sampled_features[k]`).
   */
  method DrawUnits(
    z: Setting, curr: array<int>, ll0: real, sampled0: array<nat>, offset0: nat, k0: nat, block: nat,
    n0: int, count: nat)
    returns (ll: real, sampled: array<nat>, offset: nat, k: nat, ok: bool)
    requires PoolInRange(z.pool, z.numFeatures) && |z.logProfile| == z.numFeatures
    requires curr.Length == z.numFeatures && NonNegative(curr[..])
    requires Buffered(z.pool, sampled0, offset0, k0, block)
    modifies curr
    ensures ok <==> block > 0 || count == 0
    ensures ok ==> Tally(curr[..], ll) == Units(z, Tally(old(curr[..]), ll0), offset0 + k0, n0, count)
    ensures ok ==> Buffered(z.pool, sampled, offset, k, block) && offset + k == offset0 + k0 + count
  {
    ghost var st := Tally(curr[..], ll0);
    ghost var start := offset0 + k0;
    ll, sampled, offset, k := ll0, sampled0, offset0, k0;
    for t := 0 to count
      invariant curr.Length == z.numFeatures
      invariant Tally(curr[..], ll) == Units(z, st, start, n0, t)
      invariant Buffered(z.pool, sampled, offset, k, block) && offset + k == start + t
    {
      if k >= sampled.Length {
        return ll, sampled, offset, k, false;
      }
      ghost var before := Tally(curr[..], ll);
      assert z.pool(offset + k) == z.pool(start + t);
      ll, sampled, offset, k := AddPooledFeature(z, curr, ll, n0 + t + 1, sampled, offset, k, block);
      UnitStep(z, st, start, n0, t, before, Tally(curr[..], ll));
    }
    ok := true;
  }

  /** A row whose gap reaches `jump`: the intermediate totals are sampled at once. */
  method JumpRowDraw(z: Setting, sim: nat, i: nat, curr: array<int>, ghost ll0: real) returns (ll: real)
    requires Valid(z) && 1 <= i < |z.ns| && !Incremental(z, i)
    requires curr.Length == z.numFeatures && Tally(curr[..], ll0) == Run(z, sim, i - 1)
    modifies curr
    ensures Tally(curr[..], ll) == Run(z, sim, i)
  {
    ghost var prev := Tally(curr[..], ll0);
    var draw := z.rvs(sim, i, z.ns[i] - z.ns[i - 1]);
    forall j | 0 <= j < z.numFeatures {
      curr[j] := curr[j] + draw[j];
    }
    assert curr[..] == AddVec(prev.counts, draw);
    ll := z.logPmf(curr[..], z.ns[i]);
    JumpRow(z, sim, i, prev, draw, Tally(curr[..], ll));
  }

  /** A row whose gap is below `jump`: one pooled feature per UMI. */
  method IncrementalRowDraw(
    z: Setting, sim: nat, i: nat, curr: array<int>, ll0: real, sampled0: array<nat>, offset0: nat, k0: nat, block: nat)
    returns (ll: real, sampled: array<nat>, offset: nat, k: nat, ok: bool)
    requires Valid(z) && 1 <= i < |z.ns| && Incremental(z, i)
    requires curr.Length == z.numFeatures && Tally(curr[..], ll0) == Run(z, sim, i - 1)
    requires Buffered(z.pool, sampled0, offset0, k0, block) && offset0 + k0 == Base(z, sim, i)
    modifies curr
    ensures ok <==> block > 0
    ensures ok ==> Tally(curr[..], ll) == Run(z, sim, i)
    ensures ok ==> Buffered(z.pool, sampled, offset, k, block) && offset + k == Base(z, sim, i + 1)
  {
    ghost var prev := Tally(curr[..], ll0);
    var step := z.ns[i] - z.ns[i - 1];
    ll, sampled, offset, k, ok := DrawUnits(z, curr, ll0, sampled0, offset0, k0, block, z.ns[i - 1], step);
    if ok {
      IncrementalRow(z, sim, i, prev, offset0 + k0, step, Tally(curr[..], ll));
    }
  }

  /**
   * Row `i` of replicate `sim`: `ok` is false exactly when the pooled features are
   * needed and the buffer is empty.
   */
  method AdvanceRow(
    z: Setting, sim: nat, i: nat, curr: array<int>, ll0: real, sampled0: array<nat>, offset0: nat, k0: nat, block: nat)
    returns (ll: real, sampled: array<nat>, offset: nat, k: nat, ok: bool)
    requires Valid(z) && 1 <= i < |z.ns|
    requires curr.Length == z.numFeatures && Tally(curr[..], ll0) == Run(z, sim, i - 1)
    requires Buffered(z.pool, sampled0, offset0, k0, block) && offset0 + k0 == Base(z, sim, i)
    modifies curr
    ensures ok <==> block > 0 || !Incremental(z, i)
    ensures ok ==> Tally(curr[..], ll) == Run(z, sim, i)
    ensures ok ==> Buffered(z.pool, sampled, offset, k, block) && offset + k == Base(z, sim, i + 1)
  {
    var step := z.ns[i] - z.ns[i - 1];
    if step >= z.jump {
      ll := JumpRowDraw(z, sim, i, curr, ll0);
      sampled, offset, k, ok := sampled0, offset0, k0, true;
    } else {
      ll, sampled, offset, k, ok := IncrementalRowDraw(z, sim, i, curr, ll0, sampled0, offset0, k0, block);
    }
  }

  /** Row 0 of replicate `sim`: `distinct_n[0]` UMIs drawn at once. */
  method FirstRow(z: Setting, sim: nat) returns (curr: array<int>, ll: real)
    requires Valid(z)
    ensures fresh(curr) && curr.Length == z.numFeatures && Tally(curr[..], ll) == Run(z, sim, 0)
  {
    var first := z.rvs(sim, 0, z.ns[0]);
    curr := new int[z.numFeatures](j requires 0 <= j < z.numFeatures => first[j]);
    ll := z.logPmf(first, z.ns[0]);
    assert curr[..] == first;
  }

  /**
   * One replicate `sim`: the column `loglk[:, sim]`, row by row; `ok` is false
   * exactly when an empty buffer is read.
   */
  method SimulateReplicate(z: Setting, sim: nat, sampled0: array<nat>, offset0: nat, k0: nat, block: nat)
    returns (column: seq<real>, sampled: array<nat>, offset: nat, k: nat, ok: bool)
    requires Valid(z)
    requires Buffered(z.pool, sampled0, offset0, k0, block) && offset0 + k0 == sim * UnitsPerSim(z)
    ensures ok <==> block > 0 || UnitsPerSim(z) == 0
    ensures ok ==> Buffered(z.pool, sampled, offset, k, block) && offset + k == (sim + 1) * UnitsPerSim(z)
    ensures ok ==> column == Column(z, sim, |z.ns|)
  {
    sampled, offset, k := sampled0, offset0, k0;
    var curr, currLoglk := FirstRow(z, sim);
    column := [currLoglk];
    for i := 1 to |z.ns|
      invariant curr.Length == z.numFeatures && Tally(curr[..], currLoglk) == Run(z, sim, i - 1)
      invariant Buffered(z.pool, sampled, offset, k, block) && offset + k == Base(z, sim, i)
      invariant column == Column(z, sim, i)
    {
      var rowOk;
      currLoglk, sampled, offset, k, rowOk := AdvanceRow(z, sim, i, curr, currLoglk, sampled, offset, k, block);
      if !rowOk {
        UnitsBeforeBound(z, i + 1);
        return column, sampled, offset, k, false;
      }
      column := column + [currLoglk];
    }
    ReplicateEnd(z, sim);
    if block == 0 {
      ZeroProduct(sim + 1, UnitsPerSim(z));
    }
    ok := true;
  }

  /** Columns `0 .. count-1` of the table hold the specified log-likelihoods. */
  ghost predicate Filled(z: Setting, loglk: array2<real>, count: nat)
    requires Valid(z)
    reads loglk
  {
    loglk.Length0 == |z.ns| && count <= loglk.Length1
    && forall i, s {:trigger loglk[i, s]} :: 0 <= i < |z.ns| && 0 <= s < count ==> loglk[i, s] == RunLogLk(z, s, i)
  }

  /** `loglk[:, sim] = column` for a finished replicate. */
  method WriteColumn(z: Setting, loglk: array2<real>, sim: nat, column: seq<real>)
    requires Valid(z) && Filled(z, loglk, sim) && sim < loglk.Length1
    requires column == Column(z, sim, |z.ns|)
    modifies loglk
    ensures Filled(z, loglk, sim + 1)
  {
    ColumnEntries(z, sim, |z.ns|);
    forall i | 0 <= i < |z.ns| {
      loglk[i, sim] := column[i];
    }
  }

  /**
   * The replicate loop: `numSims` columns, the pooled-feature stream carried from
   * one replicate to the next. `ok` is false exactly when an empty buffer is read.
   */
  method RunReplicates(z: Setting, numSims: nat, block: nat) returns (loglk: array2<real>, ok: bool)
    requires Valid(z)
    ensures loglk.Length0 == |z.ns| && loglk.Length1 == numSims
    ensures ok <==> block > 0 || numSims == 0 || UnitsPerSim(z) == 0
    ensures ok ==> Filled(z, loglk, numSims)
  {
    loglk := new real[|z.ns|, numSims];
    var offset: nat := 0;
    var sampled := new nat[block](q requires 0 <= q < block => z.pool(offset + q));
    var k: nat := 0;
    for sim := 0 to numSims
      invariant loglk.Length0 == |z.ns| && loglk.Length1 == numSims
      invariant Buffered(z.pool, sampled, offset, k, block) && offset + k == sim * UnitsPerSim(z)
      invariant Filled(z, loglk, sim)
      invariant block > 0 || UnitsPerSim(z) == 0 || sim == 0
    {
      var column;
      column, sampled, offset, k, ok := SimulateReplicate(z, sim, sampled, offset, k, block);
      if !ok {
        return;
      }
      WriteColumn(z, loglk, sim, column);
    }
    ok := true;
  }

  /**
   * `np.random.choice(len(profile_p), p=profile_p)` accepts the profile: it is not empty, no
   * entry is negative and the entries sum to one (numpy's tolerance is taken as exact).
   */
  predicate ProfileValid(p: seq<real>)
  {
    |p| > 0 && (forall j :: 0 <= j < |p| ==> p[j] >= 0.0) && SumReal(p) == 1.0
  }

  /**
   * Simulates `numSims` replicates. Negative UMI totals (`np.bincount`), a negative
   * simulation count (`np.zeros`), an empty input (`np.max` of nothing), a negative
   * block size and a profile that is not a distribution (`np.random.choice`) are ValueErrors;
   * an empty block is an IndexError at the first pooled feature read. The pool and the draws
   * are only asked to be in range when the profile is a distribution.
   */
  method SimulateMultinomialLoglikelihoods(
    profileP: seq<real>, umis: seq<int>, numSims: int, jump: int, block: int,
    rvs: (nat, nat, nat) -> seq<int>, pool: nat -> nat, logPmf: (seq<int>, int) -> real, log: real -> real)
    returns (r: Result<Simulation>)
    requires ProfileValid(profileP) ==> PoolInRange(pool, |profileP|) && RvsValid(rvs, |profileP|)
    ensures !NonNegative(umis) || numSims < 0 || |umis| == 0 || block < 0 || !ProfileValid(profileP)
      <==> r == Err(ValueError)
    ensures NonNegative(umis) && numSims >= 0 && |umis| > 0 && block >= 0 && ProfileValid(profileP) ==>
      var z := SettingOf(umis, jump, |profileP|, rvs, pool, logPmf, profileP, log);
      Valid(z) && (r.Err? <==> block == 0 && numSims > 0 && exists row :: 1 <= row < |z.ns| && Incremental(z, row))
    ensures r.Err? ==> r.error in {ValueError, IndexError}
    ensures r.Ok? ==>
      NonNegative(umis) && numSims >= 0 && |umis| > 0 && ProfileValid(profileP) && r.value.distinctN == DistinctValues(umis)
    ensures r.Ok? ==> r.value.loglk.Length0 == |r.value.distinctN| && r.value.loglk.Length1 == numSims
    ensures r.Ok? ==>
      var z := SettingOf(umis, jump, |profileP|, rvs, pool, logPmf, profileP, log);
      Valid(z) && forall i, s {:trigger r.value.loglk[i, s]} :: 0 <= i < |z.ns| && 0 <= s < numSims ==> r.value.loglk[i, s] == RunLogLk(z, s, i)
  {
    if (exists i :: 0 <= i < |umis| && umis[i] < 0) || numSims < 0 {
      return Err(ValueError);
    }
    var distinctN := DistinctValues(umis);
    DistinctValuesCorrect(umis);
    if |distinctN| == 0 || block < 0 || !ProfileValid(profileP) {
      return Err(ValueError);
    }
    var z := SettingOf(umis, jump, |profileP|, rvs, pool, logPmf, profileP, log);
    SettingValid(umis, jump, rvs, pool, logPmf, profileP, log);
    UnitsBeforePositive(z, |z.ns|);
    var loglk, ok := RunReplicates(z, numSims as nat, block);
    if !ok {
      return Err(IndexError);
    }
    return Ok(Simulation(distinctN, loglk));
  }

  /** One pass of the inner loop advances the tally by one pooled feature. */
  lemma UnitStep(z: Setting, st: Tally, start: nat, n0: int, t: nat, before: Tally, after: Tally)
    requires |st.counts| == z.numFeatures && |z.logProfile| == z.numFeatures
    requires PoolInRange(z.pool, z.numFeatures) && NonNegative(st.counts)
    requires before == Units(z, st, start, n0, t)
    requires after.counts == Bump(before.counts, z.pool(start + t)) && after.counts[z.pool(start + t)] > 0
    requires after.ll == before.ll + Gain(z, z.pool(start + t), n0 + t + 1, after.counts[z.pool(start + t)])
    ensures after == Units(z, st, start, n0, t + 1)
  {
  }

  /** A row drawn at once from the multinomial matches the specification of the run. */
  lemma JumpRow(z: Setting, s: nat, i: nat, prev: Tally, draw: seq<int>, after: Tally)
    requires Valid(z) && 1 <= i < |z.ns| && !Incremental(z, i)
    requires prev == Run(z, s, i - 1) && draw == z.rvs(s, i, Step(z, i)) && |draw| == |prev.counts|
    requires after.counts == AddVec(prev.counts, draw) && after.ll == z.logPmf(after.counts, z.ns[i])
    ensures after == Run(z, s, i)
  {
  }

  /** A row filled from the pool matches the specification of the run. */
  lemma IncrementalRow(z: Setting, s: nat, i: nat, prev: Tally, start: nat, count: nat, after: Tally)
    requires Valid(z) && 1 <= i < |z.ns| && Incremental(z, i)
    requires prev == Run(z, s, i - 1) && start == Base(z, s, i) && count == Step(z, i)
    requires after == Units(z, prev, start, z.ns[i - 1], count)
    ensures after == Run(z, s, i)
  {
  }

  /** After the last row the replicate has used exactly its share of the stream. */
  lemma ReplicateEnd(z: Setting, sim: nat)
    requires ValidNs(z.ns)
    ensures Base(z, sim, |z.ns|) == (sim + 1) * UnitsPerSim(z)
  {
  }

  /** Each entry of a column is the log-likelihood of its row. */
  lemma {:induction false} ColumnEntries(z: Setting, s: nat, i: nat)
    requires Valid(z) && i <= |z.ns|
    ensures forall i' :: 0 <= i' < i ==> Column(z, s, i)[i'] == RunLogLk(z, s, i')
  {
    if i > 0 {
      ColumnEntries(z, s, i - 1);
    }
  }

  lemma ZeroProduct(a: nat, b: nat)
    requires a > 0 && a * b == 0
    ensures b == 0
  {
  }

  /** No row starts past the replicate's share of the stream. */
  lemma {:induction false} UnitsBeforeBound(z: Setting, i: nat)
    requires ValidNs(z.ns) && 1 <= i <= |z.ns|
    ensures UnitsBefore(z, i) <= UnitsPerSim(z)
    decreases |z.ns| - i
  {
    if i < |z.ns| {
      UnitsBeforeBound(z, i + 1);
    }
  }
  /** The pooled-feature loop adds exactly one UMI per pass. */
  lemma {:induction false} UnitsSum(z: Setting, st: Tally, start: nat, n0: int, t: nat)
    requires |st.counts| == z.numFeatures && |z.logProfile| == z.numFeatures
    requires PoolInRange(z.pool, z.numFeatures) && NonNegative(st.counts)
    ensures Sum(Units(z, st, start, n0, t).counts) == Sum(st.counts) + t
  {
    if t > 0 {
      UnitsSum(z, st, start, n0, t - 1);
      BumpSum(Units(z, st, start, n0, t - 1).counts, z.pool(start + t - 1), Units(z, st, start, n0, t).counts, Sum(st.counts) + t - 1);
    }
  }

  lemma BumpSum(prev: seq<int>, j: nat, after: seq<int>, m: int)
    requires j < |prev| && after == Bump(prev, j) && Sum(prev) == m
    ensures Sum(after) == m + 1
  {
    SumIncrement(prev, j);
  }

  /** After row `i` the running counts total `distinct_n[i]`: both branches add exactly `step` UMIs. */
  lemma {:induction false} RunSum(z: Setting, s: nat, i: nat)
    requires Valid(z) && RvsTotal(z.rvs) && i < |z.ns|
    ensures Sum(Run(z, s, i).counts) == z.ns[i]
  {
    if i > 0 {
      RunSum(z, s, i - 1);
      var prev := Run(z, s, i - 1);
      if Incremental(z, i) {
        UnitsSum(z, prev, Base(z, s, i), z.ns[i - 1], Step(z, i));
      } else {
        SumAddVec(prev.counts, z.rvs(s, i, Step(z, i)));
      }
    }
  }

  /**
   * The multinomial log-pmf identity behind the recurrence: one more UMI of feature
   * `j` multiplies the pmf by `p[j] * (n + 1) / (c[j] + 1)`.
   */
  ghost predicate MultinomialStep(z: Setting)
  {
    forall c: seq<int>, j: nat {:trigger Bump(c, j)} ::
      |c| == z.numFeatures && NonNegative(c) && j < |c| && j < |z.logProfile| ==>
        z.logPmf(Bump(c, j), Sum(c) + 1) == z.logPmf(c, Sum(c)) + Gain(z, j, Sum(c) + 1, c[j] + 1)
  }

  /** The tally is a count vector totalling `n` whose log-likelihood is the exact log-pmf. */
  ghost predicate Exact(z: Setting, t: Tally, n: int)
  {
    |t.counts| == z.numFeatures && NonNegative(t.counts) && Sum(t.counts) == n
    && t.ll == z.logPmf(t.counts, n)
  }

  /** One pooled UMI keeps the tally exact. */
  lemma ExactStep(z: Setting, prev: Tally, j: nat, n: int, after: Tally, n': int)
    requires |z.logProfile| == z.numFeatures && j < z.numFeatures
    requires MultinomialStep(z) && Exact(z, prev, n) && n' == n + 1
    requires after.counts == Bump(prev.counts, j)
    requires after.ll == prev.ll + Gain(z, j, n', prev.counts[j] + 1)
    ensures Exact(z, after, n')
  {
    SumIncrement(prev.counts, j);
  }

  /** Under the identity, the pooled-feature loop keeps the tally exact. */
  lemma {:induction false} UnitsExact(z: Setting, st: Tally, start: nat, n0: int, t: nat, n: int)
    requires |st.counts| == z.numFeatures && |z.logProfile| == z.numFeatures
    requires PoolInRange(z.pool, z.numFeatures) && NonNegative(st.counts)
    requires MultinomialStep(z) && Exact(z, st, n0) && n == n0 + t
    ensures Exact(z, Units(z, st, start, n0, t), n)
  {
    if t > 0 {
      UnitsExact(z, st, start, n0, t - 1, n - 1);
      ExactStep(z, Units(z, st, start, n0, t - 1), z.pool(start + t - 1), n - 1, Units(z, st, start, n0, t), n);
    }
  }

  /**
   * Under the identity, every recorded log-likelihood is the exact log-pmf of the
   * running counts at `distinct_n[i]`, whichever branch produced the row.
   */
  lemma {:induction false} RunExact(z: Setting, s: nat, i: nat)
    requires Valid(z) && RvsTotal(z.rvs) && i < |z.ns| && MultinomialStep(z)
    ensures Exact(z, Run(z, s, i), z.ns[i])
  {
    RunSum(z, s, i);
    if i > 0 && Incremental(z, i) {
      RunExact(z, s, i - 1);
      UnitsExact(z, Run(z, s, i - 1), Base(z, s, i), z.ns[i - 1], Step(z, i), z.ns[i]);
    }
  }
  /** `UnitsBefore(z, i)` is positive exactly when some row in `1 .. i-1` is filled from the pool. */
  lemma {:induction false} UnitsBeforePositive(z: Setting, i: nat)
    requires ValidNs(z.ns) && 1 <= i <= |z.ns|
    ensures UnitsBefore(z, i) > 0 <==> exists r :: 1 <= r < i && Incremental(z, r)
  {
    if i > 1 {
      UnitsBeforePositive(z, i - 1);
      if Incremental(z, i - 1) {
        assert Step(z, i - 1) >= 1;
      } else if UnitsBefore(z, i) == 0 {
        forall r | 1 <= r < i
          ensures !Incremental(z, r)
        {
          if r < i - 1 {
            assert !(exists r' :: 1 <= r' < i - 1 && Incremental(z, r'));
          }
        }
      }
    }
  }
}
