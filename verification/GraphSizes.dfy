/**
 Choosing which batch sizes to capture as graphs: a stream budget bounds their
 number, and a uniform sample of the configured sizes is kept.
 */
module GraphSizes {
  import opened Wrappers
  import opened Arith

  const MAX_CAPTURE := 1800
  const CP_STREAMS := 100
  const COMM_STREAMS := 40

  datatype Model = Model(layers: nat, draftLayers: Option<nat>, dp: nat, tp: nat, pcp: nat, dcp: nat,
                         expertParallel: bool, sharedExpertOverlap: bool, moe: bool, aiv: bool)

  function Flag(b: bool): nat
  {
    if b then 1 else 0
  }

  /** Streams one captured graph needs per unit of the factor. */
  function ResourcesPerGraph(m: Model): (r: nat)
    ensures r >= 1
  {
    m.layers + 1 + if m.draftLayers.Some? then m.draftLayers.value + 1 else 0
  }

  function CommGroups(m: Model): nat
  {
    Flag(m.dp > 1) + Flag(m.tp > 1)
  }

  function Factor(m: Model): (f: nat)
    ensures f >= 1
  {
    if m.aiv then
      1 + CommGroups(m) + Flag(m.expertParallel) + Flag(m.sharedExpertOverlap) + if m.moe then Flag(m.dp > 1) else 0
    else 1 + CommGroups(m) * 2
  }

  function Reserved(m: Model): nat
  {
    if m.aiv then (if m.moe then 0 else Factor(m) * ResourcesPerGraph(m))
    else CP_STREAMS * Flag(m.pcp > 1) + CP_STREAMS * Flag(m.dcp > 1) + CommGroups(m) * COMM_STREAMS
  }

  /** floor((MAX - reserved) / resources / factor); negative for a model that does not fit. */
  function MaxBatchSizes(m: Model): int
  {
    (MAX_CAPTURE - Reserved(m)) / (ResourcesPerGraph(m) * Factor(m))
  }

  /**
   Whether k graphs can be captured within the 1800 streams. Without AIV, dp and tp
   above 1 each reserve 40 streams and context parallelism 100 an axis; with AIV a
   dense model reserves as much as one more graph takes.
   */
  ghost predicate Fits(m: Model, k: int)
  {
    var perUnit := if m.draftLayers == None then m.layers + 1 else m.layers + m.draftLayers.value + 2;
    var comm := (if m.dp > 1 then 1 else 0) + (if m.tp > 1 then 1 else 0);
    var context := (if m.pcp > 1 then 100 else 0) + (if m.dcp > 1 then 100 else 0);
    var aiv := 1 + comm + (if m.expertParallel then 1 else 0) + (if m.sharedExpertOverlap then 1 else 0);
    if !m.aiv then k * (perUnit * (1 + 2 * comm)) + 40 * comm + context <= 1800
    else if !m.moe then (k + 1) * (perUnit * aiv) <= 1800
    else if m.dp > 1 then k * (perUnit * (aiv + 1)) <= 1800
    else k * (perUnit * aiv) <= 1800
  }

  /** Python's round on p / q: to the nearest integer, ties to the even one. */
  function RoundHalfEven(p: int, q: int): int
    requires q > 0
  {
    var f, r := p / q, p % q;
    if 2 * r < q then f else if 2 * r > q then f + 1 else if f % 2 == 0 then f else f + 1
  }

  lemma RoundIsNear(p: int, q: int)
    requires q > 0
    ensures 2 * p - q <= 2 * (RoundHalfEven(p, q) * q) <= 2 * p + q
    ensures p % q == 0 ==> RoundHalfEven(p, q) == p / q
    ensures RoundHalfEven(p, q) % 2 == 1 ==> 2 * p - q < 2 * (RoundHalfEven(p, q) * q) < 2 * p + q
  {
    var f, r := p / q, p % q;
    assert p == f * q + r;
    MulDistributes(f, 1, q);
  }

  /** Quotients more than one apart round to different integers. */
  lemma RoundSeparates(p: int, p': int, q: int)
    requires q > 0 && p + q < p'
    ensures RoundHalfEven(p, q) < RoundHalfEven(p', q)
  {
    RoundIsNear(p, q);
    RoundIsNear(p', q);
    MulMonotone(RoundHalfEven(p', q), RoundHalfEven(p, q), q);
  }

  /** round(i * step) with step = (n - 1) / (m - 1). */
  function SampleIndex(i: nat, n: nat, m: nat): int
    requires m >= 2
  {
    RoundHalfEven(i * (n - 1), m - 1)
  }

  lemma SampleStep(i: nat, n: nat, m: nat)
    requires 2 <= m < n
    ensures SampleIndex(i, n, m) < SampleIndex(i + 1, n, m)
    ensures SampleIndex(0, n, m) == 0
    ensures SampleIndex(m - 1, n, m) == n - 1
  {
    MulDistributes(i, 1, n - 1);
    RoundSeparates(i * (n - 1), (i + 1) * (n - 1), m - 1);
    RoundIsNear(0, m - 1);
    assert (m - 1) * (n - 1) == (n - 1) * (m - 1);
    DivModUnique(n - 1, 0, m - 1);
    RoundIsNear((m - 1) * (n - 1), m - 1);
  }

  lemma {:induction false} SampleIncreases(i: nat, j: nat, n: nat, m: nat)
    requires 2 <= m < n && i < j
    ensures SampleIndex(i, n, m) < SampleIndex(j, n, m)
    decreases j
  {
    SampleStep(j - 1, n, m);
    if i < j - 1 {
      SampleIncreases(i, j - 1, n, m);
    }
  }

  lemma SampleInRange(i: nat, n: nat, m: nat)
    requires 2 <= m < n && i < m
    ensures 0 <= SampleIndex(i, n, m) < n
  {
    SampleStep(0, n, m);
    if i > 0 {
      SampleIncreases(0, i, n, m);
    }
    if i < m - 1 {
      SampleIncreases(i, m - 1, n, m);
    }
  }

  function Sampled(sizes: seq<nat>, m: nat): (r: seq<nat>)
    requires 2 <= m < |sizes|
    ensures |r| == m
  {
    seq(m, i requires 0 <= i < m => (SampleInRange(i, |sizes|, m); sizes[SampleIndex(i, |sizes|, m)]))
  }

  ghost predicate Ascending(sizes: seq<nat>)
  {
    forall i, j :: 0 <= i < j < |sizes| ==> sizes[i] < sizes[j]
  }

  /** The sample is an ascending selection that keeps the smallest and the largest size. */
  lemma SampleIsRepresentative(sizes: seq<nat>, m: nat)
    requires 2 <= m < |sizes| && Ascending(sizes)
    ensures Ascending(Sampled(sizes, m)) && |Sampled(sizes, m)| == m
    ensures forall i :: 0 <= i < m ==> Sampled(sizes, m)[i] in sizes
    ensures Sampled(sizes, m)[0] == sizes[0]
    ensures Sampled(sizes, m)[m - 1] == sizes[|sizes| - 1]
  {
    SampleStep(0, |sizes|, m);
    forall i, j | 0 <= i < j < m
      ensures Sampled(sizes, m)[i] < Sampled(sizes, m)[j]
    {
      SampleInRange(i, |sizes|, m);
      SampleInRange(j, |sizes|, m);
      SampleIncreases(i, j, |sizes|, m);
    }
    forall i | 0 <= i < m
      ensures Sampled(sizes, m)[i] in sizes
    {
      SampleInRange(i, |sizes|, m);
    }
  }

  /** Entry i is the size at the index nearest to i * (n - 1) / (m - 1), the even one of two equally near. */
  lemma SampleIsNearest(sizes: seq<nat>, m: nat, i: nat) returns (x: nat)
    requires 2 <= m < |sizes| && i < m
    ensures x < |sizes| && Sampled(sizes, m)[i] == sizes[x]
    ensures -(m - 1) <= 2 * (x * (m - 1) - i * (|sizes| - 1)) <= m - 1
    ensures x % 2 == 1 ==> -(m - 1) < 2 * (x * (m - 1) - i * (|sizes| - 1)) < m - 1
  {
    SampleInRange(i, |sizes|, m);
    RoundIsNear(i * (|sizes| - 1), m - 1);
    x := SampleIndex(i, |sizes|, m);
  }

  // ----- the update of the configuration -----

  /** The sizes to capture, None where the sampling raises. */
  function Adjusted(sizes: seq<nat>, max: int): Option<seq<nat>>
  {
    if max >= |sizes| then Some(sizes)
    else if max >= 2 then Some(Sampled(sizes, max))
    else None
  }

  method SampleSizes(sizes: seq<nat>, m: nat) returns (sampled: seq<nat>)
    requires 2 <= m < |sizes|
    ensures sampled == Sampled(sizes, m)
  {
    var n := |sizes|;
    var indices: seq<int> := [];
    for i := 0 to m
      invariant |indices| == i
      invariant forall j :: 0 <= j < i ==> indices[j] == SampleIndex(j, n, m)
    {
      indices := indices + [RoundHalfEven(i * (n - 1), m - 1)];
    }
    SampleStep(0, n, m);
    indices := indices[0 := 0][m - 1 := n - 1];
    sampled := [];
    for i := 0 to m
      invariant sampled == Sampled(sizes, m)[..i]
    {
      SampleInRange(i, n, m);
      sampled := sampled + [sizes[indices[i]]];
    }
  }

  /** As many of the sizes as fit: all of them, or an even sample that could not be larger. */
  ghost predicate Kept(sizes: seq<nat>, kept: seq<nat>, m: Model)
  {
    && Fits(m, |kept|)
    && (Fits(m, |sizes|) ==> kept == sizes)
    && (!Fits(m, |sizes|) ==> 2 <= |kept| < |sizes| && !Fits(m, |kept| + 1) && kept == Sampled(sizes, |kept|))
  }

  lemma AdjustmentKeeps(sizes: seq<nat>, m: Model)
    ensures Adjusted(sizes, MaxBatchSizes(m)).Some? <==> Fits(m, |sizes|) || Fits(m, 2)
    ensures Fits(m, |sizes|) <==> MaxBatchSizes(m) >= |sizes|
    ensures Adjusted(sizes, MaxBatchSizes(m)).Some? ==> Kept(sizes, Adjusted(sizes, MaxBatchSizes(m)).value, m)
  {
    hide Fits, MaxBatchSizes, SampleIndex, RoundHalfEven;
    MaximumIsExact(m, |sizes|);
    MaximumIsExact(m, 2);
    MaximumIsExact(m, MaxBatchSizes(m));
    MaximumIsExact(m, MaxBatchSizes(m) + 1);
  }

  class CompilationConfig {
    var captureSizes: Option<seq<nat>>
    var maxCaptureSize: Option<nat>

    constructor (captureSizes: Option<seq<nat>>, maxCaptureSize: Option<nat>)
      ensures this.captureSizes == captureSizes && this.maxCaptureSize == maxCaptureSize
    {
      this.captureSizes, this.maxCaptureSize := captureSizes, maxCaptureSize;
    }

    /** False stands for the ValueError. */
    method UpdateCaptureSizes(sizes: seq<nat>) returns (ok: bool)
      modifies this
      ensures var last := if sizes == [] then 0 else sizes[|sizes| - 1];
        && ok == (old(captureSizes.None?) || old(maxCaptureSize) == None || old(maxCaptureSize) == Some(last))
        && (if ok then captureSizes == Some(sizes) && maxCaptureSize == Some(last)
            else captureSizes == old(captureSizes) && maxCaptureSize == old(maxCaptureSize))
    {
      var validMax := if sizes == [] then 0 else sizes[|sizes| - 1];
      if maxCaptureSize.Some? && maxCaptureSize.value != validMax {
        if captureSizes.Some? {
          return false;
        }
      }
      maxCaptureSize := Some(validMax);
      captureSizes := Some(sizes);
      ok := true;
    }

    /**
     False stands for an exception, after which the sizes stay cleared. Without a
     model the sizes are cleared as well.
     */
    method UpdateAclGraphSizes(model: Option<Model>) returns (ok: bool)
      modifies this
      ensures model.None? ==> ok && captureSizes == None && maxCaptureSize == old(maxCaptureSize)
      ensures model.Some? ==>
        var original := old(captureSizes);
        && ok == (original.Some? && (Fits(model.value, |original.value|) || Fits(model.value, 2)))
        && captureSizes == (if ok then Adjusted(original.value, MaxBatchSizes(model.value)) else None)
        && maxCaptureSize == if ok && !Fits(model.value, |original.value|)
                             then Some(original.value[|original.value| - 1]) else old(maxCaptureSize)
      ensures model.Some? && ok ==> captureSizes.Some? && Kept(old(captureSizes).value, captureSizes.value, model.value)
    {
      hide MaxBatchSizes, SampleIndex, Fits, Kept, RoundHalfEven;
      var original := captureSizes;
      captureSizes := None;
      if model.None? {
        return true;
      }
      var max := MaxBatchSizes(model.value);
      if original.None? {
        return false;
      }
      var sizes := original.value;
      var n := |sizes|;
      AdjustmentKeeps(sizes, model.value);
      if max >= n {
        captureSizes := original;
        return true;
      }
      if max == 1 || max <= 0 {
        // the step divides by zero, or there is no first index to set
        return false;
      }
      var sampled := SampleSizes(sizes, max);
      SampleStep(0, n, max);
      ok := UpdateCaptureSizes(sampled);
    }
  }

  lemma FloorBounds(total: int, unit: int)
    requires unit > 0
    ensures total / unit * unit <= total < (total / unit + 1) * unit
    ensures total / unit >= 2 <==> 2 * unit <= total
  {
    var f := total / unit;
    assert total == f * unit + total % unit;
    MulDistributes(f, 1, unit);
    MulMonotone(2, f, unit);
    MulMonotone(f + 1, 2, unit);
  }

  lemma UnitIsPositive(m: Model)
    ensures ResourcesPerGraph(m) * Factor(m) >= 1
  {
    MulMonotone(1, ResourcesPerGraph(m), Factor(m));
  }

  /** What fits, in the terms of the computation. */
  lemma FitsIs(m: Model, k: int)
    ensures Fits(m, k) <==> k * (ResourcesPerGraph(m) * Factor(m)) + Reserved(m) <= MAX_CAPTURE
  {
    var unit := ResourcesPerGraph(m) * Factor(m);
    MulDistributes(k, 1, unit);
    assert Factor(m) * ResourcesPerGraph(m) == unit;
  }

  /** The computed maximum is exact: as many graphs fit, and not one more. */
  lemma MaximumIsExact(m: Model, k: int)
    ensures Fits(m, k) <==> k <= MaxBatchSizes(m)
  {
    hide Reserved, ResourcesPerGraph, Factor, Fits;
    FitsIs(m, k);
    UnitIsPositive(m);
    var unit, max := ResourcesPerGraph(m) * Factor(m), MaxBatchSizes(m);
    FloorBounds(MAX_CAPTURE - Reserved(m), unit);
    if k <= max {
      MulMonotone(k, max, unit);
    } else {
      MulMonotone(max + 1, k, unit);
    }
  }

  /** All sizes kept for capture together stay within the stream limit, reserved streams included. */
  lemma CapturesFitBudget(sizes: seq<nat>, m: Model)
    requires Adjusted(sizes, MaxBatchSizes(m)).Some?
    ensures Fits(m, |Adjusted(sizes, MaxBatchSizes(m)).value|)
  {
    hide Fits, MaxBatchSizes, Sampled;
    MaximumIsExact(m, |Adjusted(sizes, MaxBatchSizes(m)).value|);
  }

  /**
   The adjustment raises exactly when neither the configured sizes nor two graphs
   fit; else it drops no more sizes than it must.
   */
  lemma AdjustmentRaisesIff(sizes: seq<nat>, m: Model)
    ensures Adjusted(sizes, MaxBatchSizes(m)).None? <==> !Fits(m, |sizes|) && !Fits(m, 2)
    ensures Fits(m, |sizes|) ==> Adjusted(sizes, MaxBatchSizes(m)) == Some(sizes)
    ensures !Fits(m, |sizes|) && Fits(m, 2) ==> !Fits(m, |Adjusted(sizes, MaxBatchSizes(m)).value| + 1)
  {
    hide Fits, MaxBatchSizes, Sampled;
    MaximumIsExact(m, |sizes|);
    MaximumIsExact(m, 2);
    MaximumIsExact(m, MaxBatchSizes(m) + 1);
  }
}
