/**
 * The barcode-correction filter chain (cell_cosmo/util/BarcodeCorrectUtil/get_correct_dict.py).
 *
 * A table of intended/neighbour barcode pairs carries a `filter_reason` column,
 * initially empty, and a scratch `rank` column. Six filters in a fixed order stamp
 * a reason on the rows their rule rejects; the rows still unmarked at the end are
 * stamped "Passed:NeedCorrectBarcode" and give the correction dictionary
 * neighbour -> intended.
 */
module BarcodeCorrect {
  import opened Common

  type Barcode = string

  /** One row of the intended/neighbour table. */
  datatype Pair = Pair(
    intended: Barcode,
    neighbor: Barcode,
    intendedSize: int,
    neighborSize: int,
    intendedBase: char,
    neighborBase: char,
    position: int)

  /** The `filter_reason` column: `Unmarked` is the empty string, one constructor per reason string. */
  datatype Reason =
    | Unmarked
    | ItdSizeLeNbrSize                 // filter_by_step1
    | DuplicateSameBaseInItd           // filter_by_step2
    | DuplicateBySubstitutionWithIdl   // filter_by_step3
    | ItdWithMultNbr                   // filter_by_step4
    | ItdInNbr                         // filter_by_step5
    | NbrUmisOverLimit                 // filter_by_step6
    | PassedNeedCorrectBarcode

  /** `df[rank] = 100000` before the chain starts. */
  const InitialRank := 100000

  /** `df[self.rank] = 10000`: the rank every row outside a step's slice keeps. */
  const UnrankedRank := 10000

  /** The reason column of a freshly loaded table. */
  function Initial(n: nat): (r: seq<Reason>)
    ensures |r| == n && forall i :: 0 <= i < n ==> r[i] == Unmarked
  {
    seq(n, _ => Unmarked)
  }

  /** `rs'` only adds reasons to rows of `rs` that had none. */
  predicate Extends(rs: seq<Reason>, rs': seq<Reason>)
  {
    |rs'| == |rs| && forall i :: 0 <= i < |rs| && rs[i] != Unmarked ==> rs'[i] == rs[i]
  }

  // ---------------------------------------------------------------- step 1

  /** Step 1: `df.loc[intended_size <= neighbor_size, filter_reason] = reason`. */
  function SizeStep(p: seq<Pair>, rs: seq<Reason>): (r: seq<Reason>)
    requires |rs| == |p|
    ensures |r| == |p|
  {
    seq(|p|, i requires 0 <= i < |p| => if p[i].intendedSize <= p[i].neighborSize then ItdSizeLeNbrSize else rs[i])
  }

  // -------------------------------------------------------- steps 2, 3, 4

  /** The three `groupby(...).rank(...)` steps. */
  datatype RankBy =
    | ByPosition       // step 2: deletions grouped by (intended, neighbour), ranked by position, method='first'
    | ByNeighborBase   // step 3: grouped by (neighbour, intended), ranked by neighbour base, method='first'
    | ByIntendedSize   // step 4: grouped by neighbour, ranked by intended size, method='max'

  /** The rows a rank step ranks: the unmarked ones, and in step 2 only those whose neighbour base is '-'. */
  predicate InSlice(rb: RankBy, p: seq<Pair>, rs: seq<Reason>, i: nat)
    requires i < |p| == |rs|
  {
    rs[i] == Unmarked && (rb == ByPosition ==> p[i].neighborBase == '-')
  }

  /** Rows in the same group of the step's `groupby`. */
  predicate SameGroup(rb: RankBy, a: Pair, b: Pair)
  {
    if rb == ByIntendedSize then a.neighbor == b.neighbor
    else a.intended == b.intended && a.neighbor == b.neighbor
  }

  /**
   * Row `k` counts towards the rank of row `i`: with method='first' when its key is
   * smaller, or equal and the row comes first; with method='max' when its key is no larger.
   */
  predicate Ahead(rb: RankBy, p: seq<Pair>, k: nat, i: nat)
    requires k < |p| && i < |p|
  {
    match rb
    case ByPosition => p[k].position < p[i].position || (p[k].position == p[i].position && k < i)
    case ByNeighborBase => p[k].neighborBase < p[i].neighborBase || (p[k].neighborBase == p[i].neighborBase && k < i)
    case ByIntendedSize => p[k].intendedSize <= p[i].intendedSize
  }

  /** Another ranked row of the same group that ranks ahead of row `i`. */
  predicate Beats(rb: RankBy, p: seq<Pair>, rs: seq<Reason>, k: nat, i: nat)
    requires k < |p| == |rs| && i < |p|
  {
    k != i && InSlice(rb, p, rs, k) && InSlice(rb, p, rs, i) && SameGroup(rb, p[k], p[i]) && Ahead(rb, p, k, i)
  }

  /** The number of rows among `0 .. n-1` that beat row `i`. */
  function Preceding(rb: RankBy, p: seq<Pair>, rs: seq<Reason>, i: nat, n: nat): (r: nat)
    requires i < |p| == |rs| && n <= |p|
    ensures r <= n
  {
    if n == 0 then 0
    else Preceding(rb, p, rs, i, n - 1) + (if Beats(rb, p, rs, n - 1, i) then 1 else 0)
  }

  /** The `rank` column entry of row `i` after the step's rank assignment. */
  function RankOf(rb: RankBy, p: seq<Pair>, rs: seq<Reason>, i: nat): int
    requires i < |p| == |rs|
  {
    if InSlice(rb, p, rs, i) then 1 + Preceding(rb, p, rs, i, |p|) else UnrankedRank
  }

  /** The whole `rank` column after the step's rank assignment. */
  function Ranks(rb: RankBy, p: seq<Pair>, rs: seq<Reason>): (r: seq<int>)
    requires |p| == |rs|
    ensures |r| == |p|
  {
    seq(|p|, i requires 0 <= i < |p| => RankOf(rb, p, rs, i))
  }

  /** `df.loc[(filter_reason == "") & (rank != 1), filter_reason] = reason`. */
  function MarkUnranked(rs: seq<Reason>, rk: seq<int>, reason: Reason): (r: seq<Reason>)
    requires |rk| == |rs|
    ensures Extends(rs, r)
  {
    seq(|rs|, i requires 0 <= i < |rs| => if rs[i] == Unmarked && rk[i] != 1 then reason else rs[i])
  }

  /** A whole rank step: rank, then mark every unmarked row whose rank is not 1. */
  function RankedStep(rb: RankBy, p: seq<Pair>, rs: seq<Reason>, reason: Reason): (r: seq<Reason>)
    requires |p| == |rs|
    ensures Extends(rs, r)
  {
    MarkUnranked(rs, Ranks(rb, p, rs), reason)
  }

  // ---------------------------------------------------------------- step 5

  /** `b` occurs in the neighbour-barcode column (`isin(df[neighbor_barcode])`). */
  predicate IsNeighbor(p: seq<Pair>, b: Barcode)
  {
    exists k :: 0 <= k < |p| && p[k].neighbor == b
  }

  /** Step 5: unmarked rows whose intended barcode is some row's neighbour. */
  function ItdInNbrStep(p: seq<Pair>, rs: seq<Reason>): (r: seq<Reason>)
    requires |rs| == |p|
    ensures Extends(rs, r)
  {
    seq(|p|, i requires 0 <= i < |p| => if rs[i] == Unmarked && IsNeighbor(p, p[i].intended) then ItdInNbr else rs[i])
  }

  // ---------------------------------------------------- aggregation, step 6

  /** The `groupby([intended_barcode, intended_size])` key of a row. */
  function KeyOf(x: Pair): (Barcode, int)
  {
    (x.intended, x.intendedSize)
  }

  /** One row of `grouped_df` (the `neighbors` description string is not modelled). */
  datatype Group = Group(intended: Barcode, intendedSize: int, nNeighbors: nat, neighborSizeTotal: int, percent: real)

  /** Every unmarked row has a positive intended size, so `nbr_size / itd_s` is defined. */
  predicate PositiveUnmarked(p: seq<Pair>, rs: seq<Reason>)
    requires |rs| == |p|
  {
    forall i :: 0 <= i < |p| && rs[i] == Unmarked ==> p[i].intendedSize > 0
  }

  /** The group keys of the unmarked rows among `0 .. n-1`, each once, in order of first occurrence. */
  function GroupKeys(p: seq<Pair>, rs: seq<Reason>, n: nat): (r: seq<(Barcode, int)>)
    requires |rs| == |p| && n <= |p|
    ensures forall g, h :: 0 <= g < h < |r| ==> r[g] != r[h]
    ensures forall g :: 0 <= g < |r| ==> exists i :: 0 <= i < n && rs[i] == Unmarked && KeyOf(p[i]) == r[g]
    ensures forall i :: 0 <= i < n && rs[i] == Unmarked ==> KeyOf(p[i]) in r
  {
    if n == 0 then []
    else
      var r := GroupKeys(p, rs, n - 1);
      if rs[n - 1] == Unmarked && KeyOf(p[n - 1]) !in r then r + [KeyOf(p[n - 1])] else r
  }

  /** `ddf`: the unmarked rows among `0 .. n-1` with key `key`, in table order. */
  function GroupRows(p: seq<Pair>, rs: seq<Reason>, key: (Barcode, int), n: nat): seq<Pair>
    requires |rs| == |p| && n <= |p|
  {
    if n == 0 then []
    else GroupRows(p, rs, key, n - 1) + (if rs[n - 1] == Unmarked && KeyOf(p[n - 1]) == key then [p[n - 1]] else [])
  }

  /** The neighbour sizes of `rows`, summed. */
  function NeighborTotal(rows: seq<Pair>): int
  {
    if rows == [] then 0 else NeighborTotal(rows[..|rows| - 1]) + rows[|rows| - 1].neighborSize
  }

  /**
   * The `grouped_df` row of one key: `n_neighbors` rows whose neighbour sizes total
   * `neighbor_size_total`, and `percent`, that total over the intended size as an exact ratio.
   */
  function GroupOf(p: seq<Pair>, rs: seq<Reason>, key: (Barcode, int)): Group
    requires |rs| == |p| && key.1 != 0
  {
    var rows := GroupRows(p, rs, key, |p|);
    Group(key.0, key.1, |rows|, NeighborTotal(rows), NeighborTotal(rows) as real / key.1 as real)
  }

  /** `grouped_df`: one row per group of unmarked rows. */
  function Aggregate(p: seq<Pair>, rs: seq<Reason>): (r: seq<Group>)
    requires |rs| == |p| && PositiveUnmarked(p, rs)
  {
    var keys := GroupKeys(p, rs, |p|);
    seq(|keys|, g requires 0 <= g < |keys| => KeyPositive(p, rs, keys, g); GroupOf(p, rs, keys[g]))
  }

  lemma KeyPositive(p: seq<Pair>, rs: seq<Reason>, keys: seq<(Barcode, int)>, g: nat)
    requires |rs| == |p| && PositiveUnmarked(p, rs)
    requires keys == GroupKeys(p, rs, |p|) && g < |keys|
    ensures keys[g].1 > 0
  {
    var i :| 0 <= i < |p| && rs[i] == Unmarked && KeyOf(p[i]) == keys[g];
  }

  /** `get_filter_slice`: the intended barcodes of the groups whose percent exceeds `limit`. */
  function GetFilterSlice(groups: seq<Group>, limit: real): (r: seq<Barcode>)
    ensures forall b :: b in r <==> exists g :: 0 <= g < |groups| && groups[g].percent > limit && groups[g].intended == b
  {
    if groups == [] then []
    else
      var last := groups[|groups| - 1];
      var r := GetFilterSlice(groups[..|groups| - 1], limit);
      assert forall g :: 0 <= g < |groups| - 1 ==> groups[..|groups| - 1][g] == groups[g];
      if last.percent > limit then r + [last.intended] else r
  }

  /** Step 6: unmarked rows whose intended barcode is in the slice. */
  function LimitStep(p: seq<Pair>, rs: seq<Reason>, slice: seq<Barcode>): (r: seq<Reason>)
    requires |rs| == |p|
    ensures Extends(rs, r)
  {
    seq(|p|, i requires 0 <= i < |p| => if rs[i] == Unmarked && p[i].intended in slice then NbrUmisOverLimit else rs[i])
  }

  // ---------------------------------------------------------- final pass

  /** `NeedCorrectBarcode`: every row still unmarked passes. */
  function Finalize(rs: seq<Reason>): (r: seq<Reason>)
    ensures Extends(rs, r)
  {
    seq(|rs|, i requires 0 <= i < |rs| => if rs[i] == Unmarked then PassedNeedCorrectBarcode else rs[i])
  }

  /** `df[filter_reason == ""].copy()`: the unmarked rows among `0 .. n-1`, in table order. */
  function UnmarkedRows(p: seq<Pair>, rs: seq<Reason>, n: nat): (r: seq<Pair>)
    requires |rs| == |p| && n <= |p|
  {
    if n == 0 then []
    else UnmarkedRows(p, rs, n - 1) + (if rs[n - 1] == Unmarked then [p[n - 1]] else [])
  }

  /** `dict(rows[[neighbor_barcode, intended_barcode]].values.tolist())`: later rows win. */
  function DictOf(rows: seq<Pair>): map<Barcode, Barcode>
  {
    if rows == [] then map[]
    else DictOf(rows[..|rows| - 1])[rows[|rows| - 1].neighbor := rows[|rows| - 1].intended]
  }

  // ------------------------------------------------------- the whole chain

  /** Neighbour sizes are UMI counts. */
  predicate CountSizes(p: seq<Pair>)
  {
    forall i :: 0 <= i < |p| ==> p[i].neighborSize >= 0
  }

  function AfterStep1(p: seq<Pair>): (r: seq<Reason>)
    ensures |r| == |p|
  {
    SizeStep(p, Initial(|p|))
  }

  function AfterStep2(p: seq<Pair>): (r: seq<Reason>)
    ensures Extends(AfterStep1(p), r)
  {
    RankedStep(ByPosition, p, AfterStep1(p), DuplicateSameBaseInItd)
  }

  function AfterStep3(p: seq<Pair>): (r: seq<Reason>)
    ensures Extends(AfterStep2(p), r)
  {
    RankedStep(ByNeighborBase, p, AfterStep2(p), DuplicateBySubstitutionWithIdl)
  }

  function AfterStep4(p: seq<Pair>): (r: seq<Reason>)
    ensures Extends(AfterStep3(p), r)
  {
    RankedStep(ByIntendedSize, p, AfterStep3(p), ItdWithMultNbr)
  }

  function AfterStep5(p: seq<Pair>): (r: seq<Reason>)
    ensures Extends(AfterStep4(p), r)
  {
    ItdInNbrStep(p, AfterStep4(p))
  }

  /** `grouped_df` of the chain. */
  function Groups(p: seq<Pair>): seq<Group>
    requires CountSizes(p)
  {
    Step5Positive(p);
    Aggregate(p, AfterStep5(p))
  }

  function AfterStep6(p: seq<Pair>, limit: real): (r: seq<Reason>)
    requires CountSizes(p)
    ensures Extends(AfterStep5(p), r)
  {
    LimitStep(p, AfterStep5(p), GetFilterSlice(Groups(p), limit))
  }

  /** The reason column the chain leaves behind. */
  function FinalReasons(p: seq<Pair>, limit: real): (r: seq<Reason>)
    requires CountSizes(p)
    ensures Extends(AfterStep6(p, limit), r)
  {
    Finalize(AfterStep6(p, limit))
  }

  /** The correction dictionary the chain returns. */
  function CorrectDict(p: seq<Pair>, limit: real): map<Barcode, Barcode>
    requires CountSizes(p)
  {
    DictOf(UnmarkedRows(p, AfterStep6(p, limit), |p|))
  }

  /** Unmarked rows after step 1 have an intended size above their neighbour size. */
  lemma Step5Positive(p: seq<Pair>)
    requires CountSizes(p)
    ensures PositiveUnmarked(p, AfterStep5(p))
  {
    forall i | 0 <= i < |p| && AfterStep5(p)[i] == Unmarked
      ensures p[i].intendedSize > 0
    {
      ExtendsUnmarked(AfterStep1(p), AfterStep2(p), i);
      ExtendsUnmarked(AfterStep2(p), AfterStep3(p), i);
      ExtendsUnmarked(AfterStep3(p), AfterStep4(p), i);
      ExtendsUnmarked(AfterStep4(p), AfterStep5(p), i);
    }
  }

  /** A row unmarked after a stage was unmarked before it. */
  lemma ExtendsUnmarked(rs: seq<Reason>, rs': seq<Reason>, i: nat)
    requires Extends(rs, rs') && i < |rs| && rs'[i] == Unmarked
    ensures rs[i] == Unmarked
  {
  }
  // --------------------------------------------------------- rank lemmas

  /** No row beats row `i` exactly when none of `0 .. n-1` is counted. */
  lemma {:induction false} PrecedingZero(rb: RankBy, p: seq<Pair>, rs: seq<Reason>, i: nat, n: nat)
    requires i < |p| == |rs| && n <= |p|
    ensures Preceding(rb, p, rs, i, n) == 0 <==> forall k :: 0 <= k < n ==> !Beats(rb, p, rs, k, i)
  {
    if n > 0 {
      PrecedingZero(rb, p, rs, i, n - 1);
    }
  }

  /** A row has rank 1 exactly when it is ranked and no row of its group ranks ahead of it. */
  lemma RankOneIff(rb: RankBy, p: seq<Pair>, rs: seq<Reason>, i: nat)
    requires i < |p| == |rs|
    ensures RankOf(rb, p, rs, i) == 1 <==> InSlice(rb, p, rs, i) && forall k :: 0 <= k < |p| ==> !Beats(rb, p, rs, k, i)
  {
    PrecedingZero(rb, p, rs, i, |p|);
  }

  /** A ranked row's rank lies between 1 and the table size; every other row keeps 10000. */
  lemma RankRange(rb: RankBy, p: seq<Pair>, rs: seq<Reason>, i: nat)
    requires i < |p| == |rs|
    ensures InSlice(rb, p, rs, i) ==> 1 <= RankOf(rb, p, rs, i) <= |p|
    ensures !InSlice(rb, p, rs, i) ==> RankOf(rb, p, rs, i) == UnrankedRank
  {
    if InSlice(rb, p, rs, i) {
      PrecedingBound(rb, p, rs, i, |p|);
    }
  }

  /** Row `i` never beats itself, so at most `n - 1` of `0 .. n-1` beat it once `i < n`. */
  lemma {:induction false} PrecedingBound(rb: RankBy, p: seq<Pair>, rs: seq<Reason>, i: nat, n: nat)
    requires i < n <= |p| == |rs|
    ensures Preceding(rb, p, rs, i, n) <= n - 1
  {
    if n - 1 > i {
      PrecedingBound(rb, p, rs, i, n - 1);
    }
  }

  /** Of two different rows, at least one ranks ahead of the other. */
  lemma AheadTotal(rb: RankBy, p: seq<Pair>, k: nat, i: nat)
    requires k < |p| && i < |p| && k != i
    ensures Ahead(rb, p, k, i) || Ahead(rb, p, i, k)
  {
  }

  /**
   * A rank step leaves row `i` unmarked exactly when the row is ranked and nothing in
   * its group ranks ahead of it; a row it marks gets the step's reason.
   */
  lemma RankedSurvivor(rb: RankBy, p: seq<Pair>, rs: seq<Reason>, reason: Reason, i: nat)
    requires i < |p| == |rs| && reason != Unmarked
    ensures RankedStep(rb, p, rs, reason)[i] == Unmarked <==>
      InSlice(rb, p, rs, i) && forall k :: 0 <= k < |p| ==> !Beats(rb, p, rs, k, i)
    ensures rs[i] == Unmarked && RankedStep(rb, p, rs, reason)[i] != Unmarked ==> RankedStep(rb, p, rs, reason)[i] == reason
  {
    RankOneIff(rb, p, rs, i);
  }

  /** After a rank step, no two unmarked rows share a group. */
  lemma RankedUnique(rb: RankBy, p: seq<Pair>, rs: seq<Reason>, reason: Reason, i: nat, k: nat)
    requires i < |p| == |rs| && k < |p| && i != k && reason != Unmarked
    requires RankedStep(rb, p, rs, reason)[i] == Unmarked && RankedStep(rb, p, rs, reason)[k] == Unmarked
    ensures !SameGroup(rb, p[i], p[k])
  {
    RankedSurvivor(rb, p, rs, reason, i);
    RankedSurvivor(rb, p, rs, reason, k);
    AheadTotal(rb, p, k, i);
    assert SameGroup(rb, p[i], p[k]) ==> Beats(rb, p, rs, k, i) || Beats(rb, p, rs, i, k);
  }

  // -------------------------------------------------------- chain lemmas

  /** Step 1 stamps exactly the rows whose intended size is at most the neighbour size. */
  lemma Step1Marks(p: seq<Pair>, i: nat)
    requires i < |p|
    ensures AfterStep1(p)[i] == Unmarked <==> p[i].intendedSize > p[i].neighborSize
    ensures AfterStep1(p)[i] != Unmarked ==> AfterStep1(p)[i] == ItdSizeLeNbrSize
  {
  }

  /**
   * Step 2 keeps a row unmarked exactly when it survived step 1, its neighbour base is
   * '-', and it comes first by position (ties: table order) among such rows with the
   * same intended and neighbour barcodes.
   */
  lemma Step2Survivor(p: seq<Pair>, i: nat)
    requires i < |p|
    ensures AfterStep2(p)[i] == Unmarked <==>
      AfterStep1(p)[i] == Unmarked && p[i].neighborBase == '-' &&
      forall k ::
        (0 <= k < |p| && k != i && AfterStep1(p)[k] == Unmarked && p[k].neighborBase == '-'
         && p[k].intended == p[i].intended && p[k].neighbor == p[i].neighbor) ==>
        p[i].position < p[k].position || (p[i].position == p[k].position && i < k)
  {
    var rs := AfterStep1(p);
    RankedSurvivor(ByPosition, p, rs, DuplicateSameBaseInItd, i);
    forall k | 0 <= k < |p|
      ensures InSlice(ByPosition, p, rs, i) ==>
        (!Beats(ByPosition, p, rs, k, i) <==>
          ((k != i && rs[k] == Unmarked && p[k].neighborBase == '-'
            && p[k].intended == p[i].intended && p[k].neighbor == p[i].neighbor) ==>
           p[i].position < p[k].position || (p[i].position == p[k].position && i < k)))
    {
    }
  }

  /** After step 2 every unmarked row is a deletion, and no two share their (intended, neighbour) pair. */
  lemma Step2Unique(p: seq<Pair>, i: nat, k: nat)
    requires i < |p| && k < |p| && AfterStep2(p)[i] == Unmarked
    ensures p[i].neighborBase == '-'
    ensures k != i && AfterStep2(p)[k] == Unmarked ==> p[k].intended != p[i].intended || p[k].neighbor != p[i].neighbor
  {
    RankedSurvivor(ByPosition, p, AfterStep1(p), DuplicateSameBaseInItd, i);
    if k != i && AfterStep2(p)[k] == Unmarked {
      RankedUnique(ByPosition, p, AfterStep1(p), DuplicateSameBaseInItd, i, k);
    }
  }

  /** Step 3 never marks a row: after step 2 each (neighbour, intended) group has one unmarked row. */
  lemma Step3NoOp(p: seq<Pair>)
    ensures AfterStep3(p) == AfterStep2(p)
  {
    var rs := AfterStep2(p);
    forall i | 0 <= i < |p|
      ensures AfterStep3(p)[i] == rs[i]
    {
      if rs[i] == Unmarked {
        forall k | 0 <= k < |p|
          ensures !Beats(ByNeighborBase, p, rs, k, i)
        {
          Step2Unique(p, i, k);
        }
        RankedSurvivor(ByNeighborBase, p, rs, DuplicateBySubstitutionWithIdl, i);
      }
    }
  }

  /**
   * Step 4 keeps a row unmarked exactly when it survived step 3 and its intended size
   * is strictly below that of every other such row with the same neighbour barcode
   * (tied minima are all marked).
   */
  lemma Step4Survivor(p: seq<Pair>, i: nat)
    requires i < |p|
    ensures AfterStep4(p)[i] == Unmarked <==>
      AfterStep3(p)[i] == Unmarked &&
      forall k :: 0 <= k < |p| && k != i && AfterStep3(p)[k] == Unmarked && p[k].neighbor == p[i].neighbor ==>
        p[i].intendedSize < p[k].intendedSize
  {
    var rs := AfterStep3(p);
    RankedSurvivor(ByIntendedSize, p, rs, ItdWithMultNbr, i);
    forall k | 0 <= k < |p|
      ensures InSlice(ByIntendedSize, p, rs, i) ==>
        (!Beats(ByIntendedSize, p, rs, k, i) <==>
          ((k != i && rs[k] == Unmarked && p[k].neighbor == p[i].neighbor) ==> p[i].intendedSize < p[k].intendedSize))
    {
    }
  }

  /** After step 4 no two unmarked rows share a neighbour barcode. */
  lemma Step4Unique(p: seq<Pair>, i: nat, k: nat)
    requires i < |p| && k < |p| && i != k
    requires AfterStep4(p)[i] == Unmarked && AfterStep4(p)[k] == Unmarked
    ensures p[i].neighbor != p[k].neighbor
  {
    RankedUnique(ByIntendedSize, p, AfterStep3(p), ItdWithMultNbr, i, k);
  }

  /** Step 5 marks exactly the unmarked rows whose intended barcode is the neighbour of some row, marked or not. */
  lemma Step5Survivor(p: seq<Pair>, i: nat)
    requires i < |p|
    ensures AfterStep5(p)[i] == Unmarked <==> AfterStep4(p)[i] == Unmarked && !IsNeighbor(p, p[i].intended)
    ensures AfterStep4(p)[i] == Unmarked && AfterStep5(p)[i] != Unmarked ==> AfterStep5(p)[i] == ItdInNbr
  {
  }

  /**
   * Step 6 keeps a row unmarked exactly when it survived step 5 and no group of its
   * intended barcode has a neighbour share above `limit`.
   */
  lemma Step6Survivor(p: seq<Pair>, limit: real, i: nat)
    requires CountSizes(p) && i < |p|
    ensures AfterStep6(p, limit)[i] == Unmarked <==>
      AfterStep5(p)[i] == Unmarked &&
      forall g :: 0 <= g < |Groups(p)| && Groups(p)[g].intended == p[i].intended ==> Groups(p)[g].percent <= limit
  {
  }

  // ------------------------------------------------------ aggregation lemmas

  /** A key with an unmarked row among `0 .. n-1` has a nonempty `ddf`. */
  lemma {:induction false} GroupRowsNonEmpty(p: seq<Pair>, rs: seq<Reason>, key: (Barcode, int), n: nat, i: nat)
    requires |rs| == |p| && i < n <= |p| && rs[i] == Unmarked && KeyOf(p[i]) == key
    ensures |GroupRows(p, rs, key, n)| >= 1
  {
    if n - 1 > i {
      GroupRowsNonEmpty(p, rs, key, n - 1, i);
    }
  }

  /** With UMI counts as neighbour sizes, a group's neighbour total is nonnegative. */
  lemma {:induction false} GroupTotalNonNegative(p: seq<Pair>, rs: seq<Reason>, key: (Barcode, int), n: nat)
    requires |rs| == |p| && n <= |p| && CountSizes(p)
    ensures NeighborTotal(GroupRows(p, rs, key, n)) >= 0
  {
    if n > 0 {
      GroupTotalNonNegative(p, rs, key, n - 1);
      var prev := GroupRows(p, rs, key, n - 1);
      if rs[n - 1] == Unmarked && KeyOf(p[n - 1]) == key {
        assert GroupRows(p, rs, key, n) == prev + [p[n - 1]];
        assert (prev + [p[n - 1]])[..|prev|] == prev;
      } else {
        assert GroupRows(p, rs, key, n) == prev;
      }
    }
  }

  /** The `g`-th row of `grouped_df` is the group of the `g`-th key. */
  lemma AggregateAt(p: seq<Pair>, rs: seq<Reason>, g: nat)
    requires |rs| == |p| && PositiveUnmarked(p, rs) && g < |GroupKeys(p, rs, |p|)|
    ensures GroupKeys(p, rs, |p|)[g].1 > 0
    ensures |Aggregate(p, rs)| == |GroupKeys(p, rs, |p|)|
    ensures Aggregate(p, rs)[g] == GroupOf(p, rs, GroupKeys(p, rs, |p|)[g])
  {
    KeyPositive(p, rs, GroupKeys(p, rs, |p|), g);
  }

  /** The `g`-th row of `grouped_df` describes the `g`-th key: a positive size, at least one neighbour. */
  lemma AggregateEntry(p: seq<Pair>, rs: seq<Reason>, g: nat)
    requires |rs| == |p| && PositiveUnmarked(p, rs) && g < |Aggregate(p, rs)|
    ensures |Aggregate(p, rs)| == |GroupKeys(p, rs, |p|)|
    ensures Aggregate(p, rs)[g].intended == GroupKeys(p, rs, |p|)[g].0
    ensures Aggregate(p, rs)[g].intendedSize == GroupKeys(p, rs, |p|)[g].1 > 0
    ensures Aggregate(p, rs)[g].nNeighbors >= 1
    ensures CountSizes(p) ==> Aggregate(p, rs)[g].percent >= 0.0
  {
    var keys := GroupKeys(p, rs, |p|);
    AggregateAt(p, rs, g);
    var key := keys[g];
    var i :| 0 <= i < |p| && rs[i] == Unmarked && KeyOf(p[i]) == key;
    GroupRowsNonEmpty(p, rs, key, |p|, i);
    if CountSizes(p) {
      GroupTotalNonNegative(p, rs, key, |p|);
      GroupPercentNonNegative(NeighborTotal(GroupRows(p, rs, key, |p|)), key.1);
    }
  }

  /** A nonnegative total over a positive size is a nonnegative percent. */
  lemma GroupPercentNonNegative(total: int, size: int)
    requires total >= 0 && size > 0
    ensures total as real / size as real >= 0.0
  {
  }

  /** Every `grouped_df` row has a positive intended size and at least one neighbour, and with UMI counts a nonnegative percent. */
  lemma AggregateNonEmpty(p: seq<Pair>, rs: seq<Reason>)
    requires |rs| == |p| && PositiveUnmarked(p, rs)
    ensures forall g :: 0 <= g < |Aggregate(p, rs)| ==> Aggregate(p, rs)[g].nNeighbors >= 1 && Aggregate(p, rs)[g].intendedSize > 0
    ensures CountSizes(p) ==> forall g :: 0 <= g < |Aggregate(p, rs)| ==> Aggregate(p, rs)[g].percent >= 0.0
  {
    forall g | 0 <= g < |Aggregate(p, rs)|
      ensures Aggregate(p, rs)[g].nNeighbors >= 1 && Aggregate(p, rs)[g].intendedSize > 0
      ensures CountSizes(p) ==> Aggregate(p, rs)[g].percent >= 0.0
    {
      AggregateEntry(p, rs, g);
    }
  }

  /** No (intended barcode, intended size) appears twice in `grouped_df`. */
  lemma AggregateDistinct(p: seq<Pair>, rs: seq<Reason>)
    requires |rs| == |p| && PositiveUnmarked(p, rs)
    ensures forall g, h :: 0 <= g < h < |Aggregate(p, rs)| ==>
      Aggregate(p, rs)[g].intended != Aggregate(p, rs)[h].intended || Aggregate(p, rs)[g].intendedSize != Aggregate(p, rs)[h].intendedSize
  {
    forall g, h | 0 <= g < h < |Aggregate(p, rs)|
      ensures Aggregate(p, rs)[g].intended != Aggregate(p, rs)[h].intended || Aggregate(p, rs)[g].intendedSize != Aggregate(p, rs)[h].intendedSize
    {
      AggregateEntry(p, rs, g);
      AggregateEntry(p, rs, h);
    }
  }

  /** Every unmarked row has its (intended barcode, intended size) group in `grouped_df`. */
  lemma AggregateCovers(p: seq<Pair>, rs: seq<Reason>)
    requires |rs| == |p| && PositiveUnmarked(p, rs)
    ensures forall i :: 0 <= i < |p| && rs[i] == Unmarked ==>
      exists g :: 0 <= g < |Aggregate(p, rs)| && Aggregate(p, rs)[g].intended == p[i].intended && Aggregate(p, rs)[g].intendedSize == p[i].intendedSize
  {
    var keys := GroupKeys(p, rs, |p|);
    forall i | 0 <= i < |p| && rs[i] == Unmarked
      ensures exists g :: 0 <= g < |Aggregate(p, rs)| && Aggregate(p, rs)[g].intended == p[i].intended && Aggregate(p, rs)[g].intendedSize == p[i].intendedSize
    {
      var g :| 0 <= g < |keys| && keys[g] == KeyOf(p[i]);
      AggregateEntry(p, rs, g);
    }
  }

  // ---------------------------------------------------- final-pass lemmas

  /** The number of the first `n` rows whose reason is `x`. */
  function CountReason(rs: seq<Reason>, x: Reason, n: nat): nat
    requires n <= |rs|
  {
    if n == 0 then 0 else CountReason(rs, x, n - 1) + (if rs[n - 1] == x then 1 else 0)
  }

  /** No row has been stamped as passed. */
  predicate NoPassed(rs: seq<Reason>)
  {
    forall i :: 0 <= i < |rs| ==> rs[i] != PassedNeedCorrectBarcode
  }

  /** The six filters only ever stamp their own reasons. */
  lemma ChainNoPassed(p: seq<Pair>, limit: real)
    requires CountSizes(p)
    ensures NoPassed(AfterStep6(p, limit))
  {
    forall i | 0 <= i < |p|
      ensures AfterStep6(p, limit)[i] != PassedNeedCorrectBarcode
    {
      assert AfterStep1(p)[i] in {Unmarked, ItdSizeLeNbrSize};
      assert AfterStep2(p)[i] in {Unmarked, ItdSizeLeNbrSize, DuplicateSameBaseInItd};
      assert AfterStep3(p)[i] != PassedNeedCorrectBarcode;
      assert AfterStep4(p)[i] != PassedNeedCorrectBarcode;
      assert AfterStep5(p)[i] != PassedNeedCorrectBarcode;
    }
  }

  /** After the final pass no row is unmarked, and a row is passed exactly when it was unmarked. */
  lemma FinalizeMarks(rs: seq<Reason>, i: nat)
    requires NoPassed(rs) && i < |rs|
    ensures Finalize(rs)[i] != Unmarked
    ensures Finalize(rs)[i] == PassedNeedCorrectBarcode <==> rs[i] == Unmarked
  {
  }

  /** The final pass stamps as many rows passed as were unmarked. */
  lemma {:induction false} CountFinalize(rs: seq<Reason>, n: nat)
    requires NoPassed(rs) && n <= |rs|
    ensures CountReason(Finalize(rs), PassedNeedCorrectBarcode, n) == CountReason(rs, Unmarked, n)
  {
    if n > 0 {
      CountFinalize(rs, n - 1);
      FinalizeMarks(rs, n - 1);
    }
  }

  /** The dictionary built from the unmarked rows has exactly their neighbours as keys. */
  lemma {:induction false} DictOfKeys(p: seq<Pair>, rs: seq<Reason>, n: nat)
    requires |rs| == |p| && n <= |p|
    ensures forall b :: b in DictOf(UnmarkedRows(p, rs, n)) <==> exists i :: 0 <= i < n && rs[i] == Unmarked && p[i].neighbor == b
  {
    if n > 0 {
      DictOfKeys(p, rs, n - 1);
      var rows := UnmarkedRows(p, rs, n - 1);
      if rs[n - 1] == Unmarked {
        assert UnmarkedRows(p, rs, n) == rows + [p[n - 1]];
        assert (rows + [p[n - 1]])[..|rows|] == rows;
      } else {
        assert UnmarkedRows(p, rs, n) == rows;
      }
    }
  }

  /** Unmarked rows among `0 .. n-1` whose neighbours are pairwise distinct. */
  predicate DistinctNeighbors(p: seq<Pair>, rs: seq<Reason>, n: nat)
    requires |rs| == |p| && n <= |p|
  {
    forall i, k :: 0 <= i < k < n && rs[i] == Unmarked && rs[k] == Unmarked ==> p[i].neighbor != p[k].neighbor
  }

  /**
   * When the unmarked rows have distinct neighbours, the dictionary built from them maps
   * each one's neighbour to its intended barcode and has one entry per unmarked row.
   */
  lemma {:induction false} DictOfUnmarked(p: seq<Pair>, rs: seq<Reason>, n: nat)
    requires |rs| == |p| && n <= |p| && DistinctNeighbors(p, rs, n)
    ensures forall i :: 0 <= i < n && rs[i] == Unmarked ==>
      p[i].neighbor in DictOf(UnmarkedRows(p, rs, n)) && DictOf(UnmarkedRows(p, rs, n))[p[i].neighbor] == p[i].intended
    ensures |DictOf(UnmarkedRows(p, rs, n))| == CountReason(rs, Unmarked, n)
  {
    if n > 0 {
      assert DistinctNeighbors(p, rs, n - 1);
      DictOfUnmarked(p, rs, n - 1);
      var rows := UnmarkedRows(p, rs, n - 1);
      var d := DictOf(rows);
      if rs[n - 1] == Unmarked {
        var x := p[n - 1];
        assert UnmarkedRows(p, rs, n) == rows + [x];
        assert (rows + [x])[..|rows|] == rows;
        assert DictOf(UnmarkedRows(p, rs, n)) == d[x.neighbor := x.intended];
        DictOfKeys(p, rs, n - 1);
        assert x.neighbor !in d;
      } else {
        assert UnmarkedRows(p, rs, n) == rows;
      }
    }
  }

  /**
   * The final pass leaves no row unmarked; a row is stamped passed exactly when it
   * survived all six filters.
   */
  lemma FinalMarksAll(p: seq<Pair>, limit: real, i: nat)
    requires CountSizes(p) && i < |p|
    ensures FinalReasons(p, limit)[i] != Unmarked
    ensures FinalReasons(p, limit)[i] == PassedNeedCorrectBarcode <==> AfterStep6(p, limit)[i] == Unmarked
  {
    ChainNoPassed(p, limit);
    FinalizeMarks(AfterStep6(p, limit), i);
  }

  /** Rows that survive step 6 survived step 4, so their neighbours are distinct. */
  lemma Step6Distinct(p: seq<Pair>, limit: real)
    requires CountSizes(p)
    ensures DistinctNeighbors(p, AfterStep6(p, limit), |p|)
  {
    forall i, k | 0 <= i < k < |p| && AfterStep6(p, limit)[i] == Unmarked && AfterStep6(p, limit)[k] == Unmarked
      ensures p[i].neighbor != p[k].neighbor
    {
      ExtendsUnmarked(AfterStep5(p), AfterStep6(p, limit), i);
      ExtendsUnmarked(AfterStep5(p), AfterStep6(p, limit), k);
      Step4Unique(p, i, k);
    }
  }

  /**
   * The correction dictionary maps the neighbour of every passed row to its intended
   * barcode, has no other keys, and has exactly one entry per passed row.
   */
  lemma CorrectDictEntries(p: seq<Pair>, limit: real)
    requires CountSizes(p)
    ensures forall b :: b in CorrectDict(p, limit) <==>
      exists i :: 0 <= i < |p| && FinalReasons(p, limit)[i] == PassedNeedCorrectBarcode && p[i].neighbor == b
    ensures forall i :: 0 <= i < |p| && FinalReasons(p, limit)[i] == PassedNeedCorrectBarcode ==>
      p[i].neighbor in CorrectDict(p, limit) && CorrectDict(p, limit)[p[i].neighbor] == p[i].intended
    ensures |CorrectDict(p, limit)| == CountReason(FinalReasons(p, limit), PassedNeedCorrectBarcode, |p|)
  {
    var rs := AfterStep6(p, limit);
    Step6Distinct(p, limit);
    DictOfKeys(p, rs, |p|);
    DictOfUnmarked(p, rs, |p|);
    ChainNoPassed(p, limit);
    CountFinalize(rs, |p|);
    forall i | 0 <= i < |p|
      ensures FinalReasons(p, limit)[i] == PassedNeedCorrectBarcode <==> rs[i] == Unmarked
    {
      FinalizeMarks(rs, i);
    }
  }

  /**
   * A passed row has an intended size above its neighbour size, is a deletion, has an
   * intended barcode that is nobody's neighbour, belongs to no group over the limit,
   * and shares its neighbour with no other passed row.
   */
  lemma PassedRow(p: seq<Pair>, limit: real, i: nat)
    requires CountSizes(p) && i < |p| && FinalReasons(p, limit)[i] == PassedNeedCorrectBarcode
    ensures p[i].intendedSize > p[i].neighborSize
    ensures p[i].neighborBase == '-'
    ensures !IsNeighbor(p, p[i].intended)
    ensures forall g :: 0 <= g < |Groups(p)| && Groups(p)[g].intended == p[i].intended ==> Groups(p)[g].percent <= limit
    ensures forall k :: 0 <= k < |p| && k != i && FinalReasons(p, limit)[k] == PassedNeedCorrectBarcode ==> p[k].neighbor != p[i].neighbor
  {
    FinalMarksAll(p, limit, i);
    Step6Survivor(p, limit, i);
    Step5Survivor(p, i);
    ExtendsUnmarked(AfterStep3(p), AfterStep4(p), i);
    ExtendsUnmarked(AfterStep2(p), AfterStep3(p), i);
    Step2Unique(p, i, i);
    ExtendsUnmarked(AfterStep1(p), AfterStep2(p), i);
    Step1Marks(p, i);
    Step6Distinct(p, limit);
    forall k | 0 <= k < |p| && k != i && FinalReasons(p, limit)[k] == PassedNeedCorrectBarcode
      ensures p[k].neighbor != p[i].neighbor
    {
      FinalMarksAll(p, limit, k);
    }
  }

  // ------------------------------------------------------------ the table

  /** The pair table with its `filter_reason` and `rank` columns, updated in place by the filters. */
  class ItdNbrTable {
    const pairs: seq<Pair>
    const reason: array<Reason>
    const rank: array<int>

    ghost predicate Valid()
    {
      reason.Length == |pairs| && rank.Length == |pairs|
    }

    /** The loaded table with `df[filter_reason] = ""` and `df[rank] = 100000`. */
    constructor(p: seq<Pair>)
      ensures Valid() && pairs == p && fresh(reason) && fresh(rank)
      ensures reason[..] == Initial(|p|)
      ensures forall i :: 0 <= i < |p| ==> rank[i] == InitialRank
    {
      pairs := p;
      reason := new Reason[|p|](_ => Unmarked);
      rank := new int[|p|](_ => InitialRank);
    }

    /** `FilterItdSizeLeNbrSize._run`. */
    method FilterItdSizeLeNbrSize()
      requires Valid()
      modifies reason
      ensures reason[..] == SizeStep(pairs, old(reason[..]))
    {
      forall i | 0 <= i < reason.Length && pairs[i].intendedSize <= pairs[i].neighborSize {
        reason[i] := ItdSizeLeNbrSize;
      }
    }

    /** `df[rank] = 10000` and then `df.loc[slice, rank] = df[slice].groupby(...)[key].rank(...)`. */
    method AssignRanks(rb: RankBy)
      requires Valid()
      modifies rank
      ensures rank[..] == Ranks(rb, pairs, reason[..])
    {
      var rs := reason[..];
      forall i | 0 <= i < rank.Length {
        rank[i] := UnrankedRank;
      }
      forall i | 0 <= i < rank.Length && InSlice(rb, pairs, rs, i) {
        rank[i] := RankOf(rb, pairs, rs, i);
      }
      assert forall i :: 0 <= i < rank.Length ==> rank[..][i] == Ranks(rb, pairs, rs)[i];
      assert reason[..] == rs;
    }

    /** `df.loc[(filter_reason == "") & (rank != 1), filter_reason] = r`. */
    method MarkRankNotOne(r: Reason)
      requires Valid()
      modifies reason
      ensures reason[..] == MarkUnranked(old(reason[..]), rank[..], r)
    {
      forall i | 0 <= i < reason.Length && reason[i] == Unmarked && rank[i] != 1 {
        reason[i] := r;
      }
    }

    /** `FilterDuplicateSameBaseInItd._run`. */
    method FilterDuplicateSameBaseInItd()
      requires Valid()
      modifies reason, rank
      ensures rank[..] == Ranks(ByPosition, pairs, old(reason[..]))
      ensures reason[..] == RankedStep(ByPosition, pairs, old(reason[..]), DuplicateSameBaseInItd)
    {
      AssignRanks(ByPosition);
      MarkRankNotOne(DuplicateSameBaseInItd);
    }

    /** `FilterDuplicateBySubstitutionWithIdl._run`. */
    method FilterDuplicateBySubstitutionWithIdl()
      requires Valid()
      modifies reason, rank
      ensures rank[..] == Ranks(ByNeighborBase, pairs, old(reason[..]))
      ensures reason[..] == RankedStep(ByNeighborBase, pairs, old(reason[..]), DuplicateBySubstitutionWithIdl)
    {
      AssignRanks(ByNeighborBase);
      MarkRankNotOne(DuplicateBySubstitutionWithIdl);
    }

    /** `FilterItdWithMultNbr._run`. */
    method FilterItdWithMultNbr()
      requires Valid()
      modifies reason, rank
      ensures rank[..] == Ranks(ByIntendedSize, pairs, old(reason[..]))
      ensures reason[..] == RankedStep(ByIntendedSize, pairs, old(reason[..]), ItdWithMultNbr)
    {
      AssignRanks(ByIntendedSize);
      MarkRankNotOne(ItdWithMultNbr);
    }

    /** `FilterItdInNbr._run`. */
    method FilterItdInNbr()
      requires Valid()
      modifies reason
      ensures reason[..] == ItdInNbrStep(pairs, old(reason[..]))
    {
      var neighbors := set k | 0 <= k < |pairs| :: pairs[k].neighbor;
      forall i | 0 <= i < reason.Length && reason[i] == Unmarked && pairs[i].intended in neighbors {
        reason[i] := ItdInNbr;
      }
    }

    /** `AggItdAllNbr._run`: one `grouped_df` row per group of unmarked rows. */
    method AggItdAllNbr() returns (groups: seq<Group>)
      requires Valid() && PositiveUnmarked(pairs, reason[..])
      ensures groups == Aggregate(pairs, reason[..])
    {
      var rs := reason[..];
      var keys := GroupKeys(pairs, rs, |pairs|);
      groups := [];
      for g := 0 to |keys|
        invariant |groups| == g
        invariant forall g' :: 0 <= g' < g ==> keys[g'].1 != 0 && groups[g'] == GroupOf(pairs, rs, keys[g'])
      {
        var key := keys[g];
        KeyPositive(pairs, rs, keys, g);
        var ddf := GroupRows(pairs, rs, key, |pairs|);
        var nbrSize := 0;
        var nbrN := 0;
        for d := 0 to |ddf|
          invariant nbrSize == NeighborTotal(ddf[..d]) && nbrN == d
        {
          assert ddf[..d + 1][..d] == ddf[..d];
          nbrSize := nbrSize + ddf[d].neighborSize;
          nbrN := nbrN + 1;
        }
        assert ddf[..|ddf|] == ddf;
        groups := groups + [Group(key.0, key.1, nbrN, nbrSize, nbrSize as real / key.1 as real)];
      }
    }

    /** `FilterBarcodeNbrUMIsLtLimit._run` with the slice of `get_filter_slice`. */
    method FilterBarcodeNbrUMIsLtLimit(slice: seq<Barcode>)
      requires Valid()
      modifies reason
      ensures reason[..] == LimitStep(pairs, old(reason[..]), slice)
    {
      forall i | 0 <= i < reason.Length && reason[i] == Unmarked && pairs[i].intended in slice {
        reason[i] := NbrUmisOverLimit;
      }
    }

    /** `NeedCorrectBarcode._run`: the unmarked rows, which are then stamped as passed. */
    method NeedCorrectBarcode() returns (passed: seq<Pair>)
      requires Valid()
      modifies reason
      ensures passed == UnmarkedRows(pairs, old(reason[..]), |pairs|)
      ensures reason[..] == Finalize(old(reason[..]))
    {
      passed := UnmarkedRows(pairs, reason[..], |pairs|);
      forall i | 0 <= i < reason.Length && reason[i] == Unmarked {
        reason[i] := PassedNeedCorrectBarcode;
      }
    }
  }

  /**
   * `get_correct_dict`: the steps in order over one table. Returns the correction
   * dictionary and the reason column that is written back to the database.
   */
  method GetCorrectDict(p: seq<Pair>, limit: real) returns (correct: map<Barcode, Barcode>, reasons: seq<Reason>)
    requires CountSizes(p)
    ensures reasons == FinalReasons(p, limit)
    ensures correct == CorrectDict(p, limit)
  {
    var t := new ItdNbrTable(p);
    t.FilterItdSizeLeNbrSize();
    t.FilterDuplicateSameBaseInItd();
    t.FilterDuplicateBySubstitutionWithIdl();
    t.FilterItdWithMultNbr();
    t.FilterItdInNbr();
    assert t.reason[..] == AfterStep5(p);
    Step5Positive(p);
    var groups := t.AggItdAllNbr();
    var slice := GetFilterSlice(groups, limit);
    t.FilterBarcodeNbrUMIsLtLimit(slice);
    var passed := t.NeedCorrectBarcode();
    correct := DictOf(passed);
    reasons := t.reason[..];
  }
}
