/**
 The gated feed-forward block: one fused column-parallel layer for gate and up
 projection, a gated activation of its two halves, and a row-parallel layer.
 */
module GatedLinear {
  import opened Wrappers
  import opened Arith
  import opened Vectors
  import opened Shardings
  import opened Linear

  /** Both projections have one output row per hidden unit; `act` combines their outputs. */
  datatype Gated = Gated(gate: Matrix, up: Matrix, gateBias: Option<Vec>, upBias: Option<Vec>,
                         act: (int, int) -> int, down: Matrix, downBias: Option<Vec>)

  ghost predicate WellFormedGated(l: Gated, inputs: nat, hidden: nat)
  {
    && |l.gate| == |l.up| == hidden && AllOfWidth(l.gate, inputs) && AllOfWidth(l.up, inputs)
    && (l.gateBias.Some? ==> |l.gateBias.value| == hidden) && (l.upBias.Some? ==> |l.upBias.value| == hidden)
    && (l.gateBias.Some? <==> l.upBias.Some?)
    && AllOfWidth(l.down, hidden) && (l.downBias.Some? ==> |l.downBias.value| == |l.down|)
  }

  /** The fused layer on the units lo to hi: its gate rows, then its up rows, with the bias likewise. */
  ghost function Merged(l: Gated, x: Vec, hidden: nat, lo: nat, hi: nat): (y: Vec)
    requires WellFormedGated(l, |x|, hidden) && lo <= hi <= hidden
    ensures |y| == 2 * (hi - lo)
  {
    AddBias(Apply(l.gate[lo..hi] + l.up[lo..hi], x),
            if l.gateBias.Some? then Some(l.gateBias.value[lo..hi] + l.upBias.value[lo..hi]) else None)
  }

  /** First half gate, second half up. */
  function Activate(act: (int, int) -> int, y: Vec): (h: Vec)
    requires |y| % 2 == 0
    ensures |h| == |y| / 2
  {
    seq(|y| / 2, i requires 0 <= i < |y| / 2 => act(y[i], y[|y| / 2 + i]))
  }

  /** The hidden vector of the dense block. */
  ghost function GatedHidden(l: Gated, x: Vec, hidden: nat): (h: Vec)
    requires WellFormedGated(l, |x|, hidden)
    ensures |h| == hidden
  {
    Activate(l.act, Merged(l, x, hidden, 0, hidden))
  }

  /** One output of a layer. */
  function Output(row: Vec, x: Vec, bias: int): int
    requires |row| == |x|
  {
    Dot(row, x) + bias
  }

  lemma OutputAt(w: Matrix, x: Vec, bias: Option<Vec>, j: nat)
    requires AllOfWidth(w, |x|) && (bias.Some? ==> |bias.value| == |w|) && j < |w|
    ensures AddBias(Apply(w, x), bias)[j] == Output(w[j], x, if bias.Some? then bias.value[j] else 0)
  {
  }

  function BiasAt(bias: Option<Vec>, i: nat): int
    requires bias.Some? ==> i < |bias.value|
  {
    if bias.Some? then bias.value[i] else 0
  }

  lemma MergedAt(l: Gated, x: Vec, hidden: nat, lo: nat, hi: nat, i: nat)
    requires WellFormedGated(l, |x|, hidden) && lo <= hi <= hidden && i < hi - lo
    ensures Merged(l, x, hidden, lo, hi)[i] == Output(l.gate[lo + i], x, BiasAt(l.gateBias, lo + i))
    ensures Merged(l, x, hidden, lo, hi)[hi - lo + i] == Output(l.up[lo + i], x, BiasAt(l.upBias, lo + i))
  {
    hide Output, Apply, AddBias;
    var w := l.gate[lo..hi] + l.up[lo..hi];
    var bias := if l.gateBias.Some? then Some(l.gateBias.value[lo..hi] + l.upBias.value[lo..hi]) else None;
    OutputAt(w, x, bias, i);
    OutputAt(w, x, bias, hi - lo + i);
    assert w[i] == l.gate[lo + i] && w[hi - lo + i] == l.up[lo + i];
  }

  /** Hidden unit k combines output k of the gate projection with output k of the up projection. */
  lemma GatedHiddenIs(l: Gated, x: Vec, hidden: nat, k: nat)
    requires WellFormedGated(l, |x|, hidden) && k < hidden
    ensures GatedHidden(l, x, hidden)[k] ==
      l.act(Sum(Products(l.gate[k], x)) + (if l.gateBias == None then 0 else l.gateBias.value[k]),
            Sum(Products(l.up[k], x)) + (if l.upBias == None then 0 else l.upBias.value[k]))
  {
    hide Merged, Products, Dot;
    MergedAt(l, x, hidden, 0, hidden, k);
    DotIsSum(l.gate[k], x);
    DotIsSum(l.up[k], x);
  }

  /** A rank's activated share is its slice of the dense hidden vector: gate and up rows stay paired. */
  lemma ActivatedIsSlice(l: Gated, x: Vec, hidden: nat, lo: nat, hi: nat)
    requires WellFormedGated(l, |x|, hidden) && lo <= hi <= hidden
    ensures Activate(l.act, Merged(l, x, hidden, lo, hi)) == GatedHidden(l, x, hidden)[lo..hi]
  {
    hide Merged, Output, BiasAt;
    var share, whole := Activate(l.act, Merged(l, x, hidden, lo, hi)), GatedHidden(l, x, hidden);
    forall i | 0 <= i < |share|
      ensures share[i] == whole[lo..hi][i]
    {
      MergedAt(l, x, hidden, lo, hi, i);
      MergedAt(l, x, hidden, 0, hidden, lo + i);
    }
  }

  ghost function GatedParts(l: Gated, x: Vec, hidden: nat, sizes: seq<nat>, skip: bool): (ys: seq<Vec>)
    requires WellFormedGated(l, |x|, hidden) && Sum(sizes) == hidden
    ensures |ys| == |sizes| && AllOfWidth(ys, |l.down|)
  {
    seq(|sizes|, r requires 0 <= r < |sizes| =>
      var (lo, hi) := Bounds(sizes, r);
      RowPart(l.down, l.downBias, Activate(l.act, Merged(l, x, hidden, lo, hi)), sizes, skip, r))
  }

  /** For any contiguous tiling of the hidden units the block computes the dense one, bias added once. */
  lemma GatedShardsAreDense(l: Gated, x: Vec, hidden: nat, sizes: seq<nat>, skip: bool)
    requires WellFormedGated(l, |x|, hidden) && Sum(sizes) == hidden && sizes != []
    ensures AllReduce(GatedParts(l, x, hidden, sizes, skip), |l.down|) ==
      if skip then Apply(l.down, GatedHidden(l, x, hidden))
      else AddBias(Apply(l.down, GatedHidden(l, x, hidden)), l.downBias)
  {
    hide GatedHidden, Merged, Activate, AllReduce, RowPart, Apply;
    var ys, h := GatedParts(l, x, hidden, sizes, skip), GatedHidden(l, x, hidden);
    forall r | 0 <= r < |sizes|
      ensures ys[r] == RowPart(l.down, l.downBias, h[Bounds(sizes, r).0..Bounds(sizes, r).1], sizes, skip, r)
    {
      ActivatedIsSlice(l, x, hidden, Bounds(sizes, r).0, Bounds(sizes, r).1);
    }
    RowPartsAreDense(l.down, l.downBias, h, ys, sizes, skip);
  }

  /** Both constructors and one forward pass: every rank's output, and the bias when it is left to the caller. */
  ghost function GatedForward(l: Gated, x: Vec, hidden: nat, tp: nat, skip: bool): Option<(Vec, Option<Vec>)>
    requires WellFormedGated(l, |x|, hidden) && tp > 0
  {
    PartsTile(hidden, tp);
    if !Fused([hidden, hidden], tp) || hidden % Units(tp) != 0 then None else
      var parts := GatedParts(l, x, hidden, PartSizes(hidden, tp), skip);
      Some((if tp > 1 then AllReduce(parts, |l.down|) else parts[0], if skip then l.downBias else None))
  }

  /**
   For every number of ranks and every input: the block can be built exactly when the
   hidden size is a multiple of the fused unit, and then output plus returned bias is
   the dense result.
   */
  lemma GatedIsDense(l: Gated, x: Vec, hidden: nat, tp: nat, skip: bool)
    requires WellFormedGated(l, |x|, hidden) && tp > 0
    ensures var r := GatedForward(l, x, hidden, tp, skip);
      && (r.Some? <==> hidden % FusedUnit(tp) == 0)
      && (r.Some? ==>
          && |r.value.0| == |l.down|
          && (r.value.1.Some? ==> |r.value.1.value| == |l.down|)
          && AddBias(r.value.0, r.value.1) == AddBias(Apply(l.down, GatedHidden(l, x, hidden)), l.downBias))
  {
    hide RowPart, GatedHidden, PartSizes, FusedUnit, Merged, Activate, Apply, Units;
    PartsTile(hidden, tp);
    FusedUnitIs(hidden, tp);
    assert Fused([hidden, hidden], tp) <==> hidden % tp == 0 && hidden % Units(tp) == 0 by {
      assert [hidden, hidden][0] == hidden;
    }
    if hidden % FusedUnit(tp) == 0 {
      var sizes := PartSizes(hidden, tp);
      GatedShardsAreDense(l, x, hidden, sizes, skip);
      if tp == 1 {
        AllReduceOfOne(GatedParts(l, x, hidden, sizes, skip), |l.down|, 0);
      }
    }
  }
}
