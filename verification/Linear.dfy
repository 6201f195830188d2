/**
 Uneven column-parallel and row-parallel layers. Arithmetic is exact; one token's
 activations are a vector, a weight is the list of its output rows.
 */
module Linear {
  import opened Wrappers
  import opened Arith
  import opened Vectors
  import opened Shardings

  type Matrix = seq<Vec>

  function Dot(u: Vec, v: Vec): int
    requires |u| == |v|
  {
    if u == [] then 0 else u[0] * v[0] + Dot(u[1..], v[1..])
  }

  lemma {:induction false} DotSplits(u: Vec, v: Vec, k: nat)
    requires k <= |u| == |v|
    ensures Dot(u, v) == Dot(u[..k], v[..k]) + Dot(u[k..], v[k..])
  {
    if k > 0 {
      DotSplits(u[1..], v[1..], k - 1);
      assert u[..k][1..] == u[1..][..k - 1] && v[..k][1..] == v[1..][..k - 1];
      assert u[k..] == u[1..][k - 1..] && v[k..] == v[1..][k - 1..];
    } else {
      assert u[..k] == [] && u[k..] == u && v[k..] == v;
    }
  }

  function Apply(w: Matrix, x: Vec): (y: Vec)
    requires AllOfWidth(w, |x|)
    ensures |y| == |w|
  {
    seq(|w|, i requires 0 <= i < |w| => Dot(w[i], x))
  }

  function Elementwise(f: int -> int, v: Vec): (w: Vec)
    ensures |w| == |v|
  {
    seq(|v|, i requires 0 <= i < |v| => f(v[i]))
  }

  /** The input columns lo to hi of every output row. */
  function Columns(w: Matrix, lo: nat, hi: nat): (c: Matrix)
    requires lo <= hi && forall i :: 0 <= i < |w| ==> |w[i]| >= hi
    ensures |c| == |w| && AllOfWidth(c, hi - lo)
  {
    seq(|w|, i requires 0 <= i < |w| => w[i][lo..hi])
  }

  function AddBias(y: Vec, bias: Option<Vec>): (r: Vec)
    requires bias.Some? ==> |bias.value| == |y|
    ensures |r| == |y|
  {
    if bias.Some? then Add(y, bias.value) else y
  }

  // ----- the dense layers -----

  datatype Layers = Layers(w1: Matrix, b1: Option<Vec>, f: int -> int, w2: Matrix, b2: Option<Vec>)

  ghost predicate WellFormed(l: Layers, inputs: nat, hidden: nat)
  {
    && |l.w1| == hidden && AllOfWidth(l.w1, inputs)
    && (l.b1.Some? ==> |l.b1.value| == hidden)
    && AllOfWidth(l.w2, hidden)
    && (l.b2.Some? ==> |l.b2.value| == |l.w2|)
  }

  ghost function Hidden(l: Layers, x: Vec, hidden: nat): (h: Vec)
    requires WellFormed(l, |x|, hidden)
    ensures |h| == hidden
  {
    Elementwise(l.f, AddBias(Apply(l.w1, x), l.b1))
  }

  /** Second layer without its bias. */
  ghost function DenseUnbiased(l: Layers, x: Vec, hidden: nat): (y: Vec)
    requires WellFormed(l, |x|, hidden)
    ensures |y| == |l.w2|
  {
    Apply(l.w2, Hidden(l, x, hidden))
  }

  ghost function Dense(l: Layers, x: Vec, hidden: nat): (y: Vec)
    requires WellFormed(l, |x|, hidden)
    ensures |y| == |l.w2|
  {
    AddBias(DenseUnbiased(l, x, hidden), l.b2)
  }

  function Products(u: Vec, v: Vec): (p: Vec)
    requires |u| == |v|
    ensures |p| == |u|
  {
    seq(|u|, i requires 0 <= i < |u| => u[i] * v[i])
  }

  lemma {:induction false} DotIsSum(u: Vec, v: Vec)
    requires |u| == |v|
    ensures Dot(u, v) == Sum(Products(u, v))
  {
    if u != [] {
      DotIsSum(u[1..], v[1..]);
      assert Products(u, v)[1..] == Products(u[1..], v[1..]);
    }
  }

  /** The dense result written out: hidden unit k and output i, each a weighted sum plus its bias. */
  lemma DenseIs(l: Layers, x: Vec, hidden: nat, k: nat, i: nat)
    requires WellFormed(l, |x|, hidden) && k < hidden && i < |l.w2|
    ensures Hidden(l, x, hidden)[k] == l.f(Sum(Products(l.w1[k], x)) + if l.b1 == None then 0 else l.b1.value[k])
    ensures Dense(l, x, hidden)[i] ==
      Sum(Products(l.w2[i], Hidden(l, x, hidden))) + if l.b2 == None then 0 else l.b2.value[i]
  {
    hide Products, Dot;
    DotIsSum(l.w1[k], x);
    DotIsSum(l.w2[i], Hidden(l, x, hidden));
  }

  // ----- one rank's share -----

  /** The size of the first k shares together. */
  function Before(sizes: seq<nat>, k: nat): (n: nat)
    requires k <= |sizes|
    ensures n == Sum(sizes[..k]) <= Sum(sizes)
  {
    SumOfTakesMonotone(sizes, k, |sizes|);
    assert sizes[..|sizes|] == sizes;
    Sum(sizes[..k])
  }

  function Bounds(sizes: seq<nat>, r: nat): (b: (nat, nat))
    requires r < |sizes|
    ensures b.0 == Before(sizes, r) && b.1 == Before(sizes, r + 1)
    ensures b.0 <= b.1 <= Sum(sizes)
  {
    SumOfTakesMonotone(sizes, r, r + 1);
    (Before(sizes, r), Before(sizes, r + 1))
  }

  /** Column-parallel: output rows lo to hi, then the elementwise function. */
  ghost function ColumnShare(l: Layers, x: Vec, hidden: nat, lo: nat, hi: nat): (h: Vec)
    requires WellFormed(l, |x|, hidden) && lo <= hi <= hidden
    ensures |h| == hi - lo
  {
    Elementwise(l.f, AddBias(Apply(l.w1[lo..hi], x), if l.b1.Some? then Some(l.b1.value[lo..hi]) else None))
  }

  /** The bias goes in on rank 0 only, and not when adding it is left to the caller. */
  function BiasHere(rank: nat, skipBiasAdd: bool, bias: Option<Vec>): Option<Vec>
  {
    if rank > 0 || skipBiasAdd then None else bias
  }

  /** Row-parallel on one rank, before the all-reduce: its columns applied to its share of the input. */
  ghost function RowPart(w: Matrix, bias: Option<Vec>, share: Vec, sizes: seq<nat>, skipBiasAdd: bool, r: nat): (y: Vec)
    requires r < |sizes| && Sum(sizes) >= 0 && AllOfWidth(w, Sum(sizes)) && (bias.Some? ==> |bias.value| == |w|)
    requires |share| == Bounds(sizes, r).1 - Bounds(sizes, r).0
    ensures |y| == |w|
  {
    var (lo, hi) := Bounds(sizes, r);
    AddBias(Apply(Columns(w, lo, hi), share), BiasHere(r, skipBiasAdd, bias))
  }

  ghost function RowShares(l: Layers, x: Vec, hidden: nat, sizes: seq<nat>, skipBiasAdd: bool): (ys: seq<Vec>)
    requires WellFormed(l, |x|, hidden) && Sum(sizes) == hidden
    ensures |ys| == |sizes| && AllOfWidth(ys, |l.w2|)
  {
    seq(|sizes|, r requires 0 <= r < |sizes| =>
      var (lo, hi) := Bounds(sizes, r);
      RowPart(l.w2, l.b2, ColumnShare(l, x, hidden, lo, hi), sizes, skipBiasAdd, r))
  }

  lemma ColumnShareIsSlice(l: Layers, x: Vec, hidden: nat, lo: nat, hi: nat)
    requires WellFormed(l, |x|, hidden) && lo <= hi <= hidden
    ensures ColumnShare(l, x, hidden, lo, hi) == Hidden(l, x, hidden)[lo..hi]
  {
    var part, whole := Apply(l.w1[lo..hi], x), Apply(l.w1, x);
    assert part == whole[lo..hi];
    if l.b1.Some? {
      assert Add(part, l.b1.value[lo..hi]) == Add(whole, l.b1.value)[lo..hi];
    }
  }

  /** The contribution of the hidden units below `upTo`. */
  function Partial(w: Matrix, h: Vec, upTo: nat): (y: Vec)
    requires AllOfWidth(w, |h|) && upTo <= |h|
    ensures |y| == |w|
  {
    Apply(Columns(w, 0, upTo), h[..upTo])
  }

  lemma PartialStep(w: Matrix, h: Vec, lo: nat, hi: nat)
    requires AllOfWidth(w, |h|) && lo <= hi <= |h|
    ensures Add(Partial(w, h, lo), Apply(Columns(w, lo, hi), h[lo..hi])) == Partial(w, h, hi)
  {
    forall i | 0 <= i < |w|
      ensures Dot(w[i][..hi], h[..hi]) == Dot(w[i][..lo], h[..lo]) + Dot(w[i][lo..hi], h[lo..hi])
    {
      DotSplits(w[i][..hi], h[..hi], lo);
      assert w[i][..hi][..lo] == w[i][..lo] && h[..hi][..lo] == h[..lo];
      assert w[i][..hi][lo..] == w[i][lo..hi] && h[..hi][lo..] == h[lo..hi];
    }
    assert Columns(w, 0, lo) == seq(|w|, i requires 0 <= i < |w| => w[i][..lo]);
    assert Columns(w, 0, hi) == seq(|w|, i requires 0 <= i < |w| => w[i][..hi]);
  }

  lemma {:induction false} AllReduceAppend(parts: seq<Vec>, p: Vec, n: nat)
    requires AllOfWidth(parts, n) && |p| == n
    ensures AllReduce(parts + [p], n) == Add(AllReduce(parts, n), p)
  {
    if parts != [] {
      AllReduceAppend(parts[1..], p, n);
      assert (parts + [p])[1..] == parts[1..] + [p];
    }
  }

  /** Every rank holds its slice of one and the same hidden vector. */
  ghost predicate RowParts(w: Matrix, bias: Option<Vec>, h: Vec, parts: seq<Vec>, sizes: seq<nat>, skip: bool)
    requires AllOfWidth(w, |h|) && (bias.Some? ==> |bias.value| == |w|) && Sum(sizes) == |h|
  {
    && |parts| == |sizes|
    && forall r :: 0 <= r < |sizes| ==>
      parts[r] == RowPart(w, bias, h[Bounds(sizes, r).0..Bounds(sizes, r).1], sizes, skip, r)
  }

  /** Summing the first k ranks gives their hidden units' contribution, and the bias once. */
  lemma {:induction false} PartsAddUp(w: Matrix, bias: Option<Vec>, h: Vec, parts: seq<Vec>, sizes: seq<nat>,
                                      skip: bool, k: nat)
    requires AllOfWidth(w, |h|) && (bias.Some? ==> |bias.value| == |w|) && Sum(sizes) == |h|
    requires RowParts(w, bias, h, parts, sizes, skip) && 0 < k <= |sizes|
    ensures AllOfWidth(parts[..k], |w|)
    ensures AllReduce(parts[..k], |w|) == AddBias(Partial(w, h, Before(sizes, k)), if skip then None else bias)
  {
    hide AllReduce, Partial, Columns;
    var m := |w|;
    var (lo, hi) := Bounds(sizes, k - 1);
    PartialStep(w, h, lo, hi);
    assert parts[..k] == parts[..k - 1] + [parts[k - 1]];
    AllReduceAppend(parts[..k - 1], parts[k - 1], m);
    var mine := Apply(Columns(w, lo, hi), h[lo..hi]);
    if k == 1 {
      assert parts[..0] == [] && sizes[..0] == [];
      NothingReduced(parts[..0], m);
      PartialOfNone(w, h);
      AddZeros(parts[0]);
      AddZeros(mine);
    } else {
      PartsAddUp(w, bias, h, parts, sizes, skip, k - 1);
      AddBiasCommutes(Partial(w, h, lo), mine, if skip then None else bias);
    }
  }

  lemma NothingReduced(none: seq<Vec>, n: nat)
    requires none == []
    ensures AllReduce(none, n) == Zero(n)
  {
  }

  lemma AddZeros(v: Vec)
    ensures Add(Zero(|v|), v) == v
  {
  }

  /** The row-parallel layer computes the dense one, for any contiguous tiling of its input. */
  lemma RowPartsAreDense(w: Matrix, bias: Option<Vec>, h: Vec, parts: seq<Vec>, sizes: seq<nat>, skip: bool)
    requires AllOfWidth(w, |h|) && (bias.Some? ==> |bias.value| == |w|) && Sum(sizes) == |h| && sizes != []
    requires RowParts(w, bias, h, parts, sizes, skip)
    ensures AllOfWidth(parts, |w|)
    ensures AllReduce(parts, |w|) == if skip then Apply(w, h) else AddBias(Apply(w, h), bias)
  {
    hide AllReduce, Partial, Apply, RowParts;
    PartsAddUp(w, bias, h, parts, sizes, skip, |sizes|);
    RowPartsCount(w, bias, h, parts, sizes, skip);
    assert parts[..|sizes|] == parts && sizes[..|sizes|] == sizes;
    PartialOfAll(w, h);
  }

  lemma RowPartsCount(w: Matrix, bias: Option<Vec>, h: Vec, parts: seq<Vec>, sizes: seq<nat>, skip: bool)
    requires AllOfWidth(w, |h|) && (bias.Some? ==> |bias.value| == |w|) && Sum(sizes) == |h|
    requires RowParts(w, bias, h, parts, sizes, skip)
    ensures |parts| == |sizes|
  {
  }

  lemma PartialOfNone(w: Matrix, h: Vec)
    requires AllOfWidth(w, |h|)
    ensures Partial(w, h, 0) == Zero(|w|)
  {
  }

  lemma AddBiasCommutes(u: Vec, v: Vec, bias: Option<Vec>)
    requires |u| == |v| && (bias.Some? ==> |bias.value| == |u|)
    ensures Add(AddBias(u, bias), v) == AddBias(Add(u, v), bias)
  {
  }

  /** Any contiguous tiling of the hidden units computes the dense layers. */
  lemma ShardedIsDense(l: Layers, x: Vec, hidden: nat, sizes: seq<nat>, skip: bool)
    requires WellFormed(l, |x|, hidden) && Sum(sizes) == hidden && sizes != []
    ensures AllReduce(RowShares(l, x, hidden, sizes, skip), |l.w2|)
      == if skip then DenseUnbiased(l, x, hidden) else Dense(l, x, hidden)
  {
    hide Hidden, AllReduce, ColumnShare, RowPart, Apply;
    var ys, h := RowShares(l, x, hidden, sizes, skip), Hidden(l, x, hidden);
    forall r | 0 <= r < |sizes|
      ensures ys[r] == RowPart(l.w2, l.b2, h[Bounds(sizes, r).0..Bounds(sizes, r).1], sizes, skip, r)
    {
      ColumnShareIsSlice(l, x, hidden, Bounds(sizes, r).0, Bounds(sizes, r).1);
    }
    RowPartsAreDense(l.w2, l.b2, h, ys, sizes, skip);
  }

  lemma PartialOfAll(w: Matrix, h: Vec)
    requires AllOfWidth(w, |h|)
    ensures Partial(w, h, |h|) == Apply(w, h)
  {
    assert h[..|h|] == h;
    forall i | 0 <= i < |w|
      ensures Columns(w, 0, |h|)[i] == w[i]
    {
    }
  }

  /** What one forward pass returns on every rank: the output and, when skipped, the bias. */
  ghost function Forward(l: Layers, x: Vec, hidden: nat, tp: nat, skip: bool): (r: Option<(Vec, Option<Vec>)>)
    requires WellFormed(l, |x|, hidden) && tp > 0
  {
    PartsTile(hidden, tp);
    if hidden % Units(tp) != 0 then None else
      var shares := RowShares(l, x, hidden, PartSizes(hidden, tp), skip);
      var output := if tp > 1 then AllReduce(shares, |l.w2|) else shares[0];
      Some((output, if skip then l.b2 else None))
  }

  /**
   For every number of ranks and every input: the layers can be built exactly when
   the shares divide the hidden size, and then output plus returned bias is the
   dense result. The bias therefore went in once.
   */
  lemma UnevenLayersAreDense(l: Layers, x: Vec, hidden: nat, tp: nat, skip: bool)
    requires WellFormed(l, |x|, hidden) && tp > 0
    ensures var r := Forward(l, x, hidden, tp, skip);
      && (r.Some? <==> hidden % Units(tp) == 0)
      && (r.Some? ==>
          && |r.value.0| == |l.w2|
          && (r.value.1.Some? ==> |r.value.1.value| == |l.w2|)
          && AddBias(r.value.0, r.value.1) == Dense(l, x, hidden)
          && (r.value.1.Some? <==> skip && l.b2.Some?))
  {
    hide RowPart, Hidden, PartSizes;
    PartsTile(hidden, tp);
    if hidden % Units(tp) == 0 {
      var sizes := PartSizes(hidden, tp);
      var shares := RowShares(l, x, hidden, sizes, skip);
      ShardedIsDense(l, x, hidden, sizes, skip);
      if tp == 1 {
        AllReduceOfOne(shares, |l.w2|, 0);
      }
    }
  }

  // ----- the constructors' partition sizes -----

  /** Every output divides both by the number of ranks and by the units. */
  ghost predicate Fused(outputSizes: seq<nat>, tp: nat)
    requires tp > 0
  {
    forall i :: 0 <= i < |outputSizes| ==> outputSizes[i] % tp == 0 && outputSizes[i] % Units(tp) == 0
  }

  lemma {:induction false} SumDivides(sizes: seq<nat>, units: nat)
    requires units > 0 && forall i :: 0 <= i < |sizes| ==> sizes[i] % units == 0
    ensures Sum(sizes) >= 0 && Sum(sizes) % units == 0
  {
    if sizes != [] {
      var rest := sizes[1..];
      forall i | 0 <= i < |rest| ensures rest[i] % units == 0 {
        assert rest[i] == sizes[i + 1];
      }
      SumDivides(rest, units);
      MultiplesAdd(sizes[0], Sum(rest), units);
    }
  }

  /** ColumnParallelLinear.__init__ for several outputs: the total part, then one part for each output. */
  method OutputPartitionSizes(outputSizes: seq<nat>, tp: nat, rank: nat) returns (sizes: Option<(nat, seq<nat>)>)
    requires rank < tp
    ensures sizes.Some? <==> forall i :: 0 <= i < |outputSizes| ==> outputSizes[i] % Units(tp) == 0
    ensures sizes.Some? ==> |sizes.value.1| == |outputSizes|
    ensures sizes.Some? ==> forall i :: 0 <= i < |outputSizes| ==>
      outputSizes[i] % Units(tp) == 0 && sizes.value.1[i] == PartSizes(outputSizes[i], tp)[rank]
    ensures sizes.Some? ==> sizes.value.0 == Sum(sizes.value.1)
  {
    hide PartSize, PartSizes, TpShardings, Units, Sum;
    ShardingsTile(tp);
    TotalIsNat(outputSizes);
    PartsTile(Sum(outputSizes), tp);
    var total := PartSize(Sum(outputSizes), tp, rank);
    if total.None? {
      if forall i :: 0 <= i < |outputSizes| ==> outputSizes[i] % Units(tp) == 0 {
        SumDivides(outputSizes, Units(tp));
      }
      return None;
    }
    var parts: seq<nat> := [];
    for i := 0 to |outputSizes|
      invariant |parts| == i
      invariant forall j :: 0 <= j < i ==>
        outputSizes[j] % Units(tp) == 0 && parts[j] == PartSizes(outputSizes[j], tp)[rank]
    {
      PartsTile(outputSizes[i], tp);
      var part := PartSize(outputSizes[i], tp, rank);
      if part.None? {
        return None;
      }
      parts := parts + [part.value];
    }
    PartsSum(outputSizes, parts, tp, rank);
    sizes := Some((total.value, parts));
  }

  lemma {:induction false} TotalIsNat(sizes: seq<nat>)
    ensures Sum(sizes) >= 0
  {
    SumOfTakesMonotone(sizes, 0, |sizes|);
    assert sizes[..|sizes|] == sizes;
  }

  /** A rank's parts of the outputs make up its part of the total. */
  lemma PartsSum(outputSizes: seq<nat>, parts: seq<nat>, tp: nat, rank: nat)
    requires rank < tp && |parts| == |outputSizes|
    requires forall i :: 0 <= i < |parts| ==>
      outputSizes[i] % Units(tp) == 0 && parts[i] == PartSizes(outputSizes[i], tp)[rank]
    ensures Sum(outputSizes) >= 0 && Sum(outputSizes) % Units(tp) == 0
    ensures PartSizes(Sum(outputSizes), tp)[rank] == Sum(parts)
  {
    ShardingsTile(tp);
    var units, share := Units(tp), TpShardings(tp)[rank];
    SumDivides(outputSizes, units);
    PartsSumScaled(outputSizes, parts, units, share);
  }

  lemma {:induction false} PartsSumScaled(outputSizes: seq<nat>, parts: seq<nat>, units: nat, share: nat)
    requires units > 0 && |parts| == |outputSizes|
    requires forall i :: 0 <= i < |parts| ==> outputSizes[i] % units == 0 && parts[i] == outputSizes[i] / units * share
    ensures Sum(outputSizes) >= 0 && Sum(outputSizes) % units == 0
    ensures Sum(outputSizes) / units * share == Sum(parts)
  {
    SumDivides(outputSizes, units);
    if parts != [] {
      PartsSumScaled(outputSizes[1..], parts[1..], units, share);
      MultiplesAdd(outputSizes[0], Sum(outputSizes[1..]), units);
      MulDistributes(outputSizes[0] / units, Sum(outputSizes[1..]) / units, share);
    }
  }

  /** MergedColumnParallelLinear.__init__: first every output must divide by the number of ranks. */
  method MergedPartitionSizes(outputSizes: seq<nat>, tp: nat, rank: nat) returns (sizes: Option<(nat, seq<nat>)>)
    requires rank < tp
    ensures sizes.Some? <==> Fused(outputSizes, tp)
    ensures sizes.Some? ==> |sizes.value.1| == |outputSizes| && sizes.value.0 == Sum(sizes.value.1)
    ensures sizes.Some? ==> forall i :: 0 <= i < |outputSizes| ==>
      outputSizes[i] % Units(tp) == 0 && sizes.value.1[i] == PartSizes(outputSizes[i], tp)[rank]
  {
    hide PartSizes, TpShardings, Units, Sum;
    for i := 0 to |outputSizes|
      invariant forall j :: 0 <= j < i ==> outputSizes[j] % tp == 0
    {
      if outputSizes[i] % tp != 0 {
        return None;
      }
    }
    sizes := OutputPartitionSizes(outputSizes, tp, rank);
  }

  /** The number every fused output must be a multiple of. */
  function FusedUnit(tp: nat): (n: nat)
    requires tp > 0
    ensures n > 0
  {
    if tp == 3 then 24 else if tp == 5 then 40 else if tp == 6 then 24 else if tp == 7 then 56 else Units(tp)
  }

  /** So the uneven splits ask for more than their 8 units: 24 rows for 3 and 6 ranks, 40 for 5, 56 for 7. */
  lemma FusedFitsIff(outputSizes: seq<nat>, tp: nat)
    requires tp > 0
    ensures Fused(outputSizes, tp) <==> forall i :: 0 <= i < |outputSizes| ==> outputSizes[i] % FusedUnit(tp) == 0
  {
    forall i | 0 <= i < |outputSizes|
      ensures outputSizes[i] % tp == 0 && outputSizes[i] % Units(tp) == 0 <==> outputSizes[i] % FusedUnit(tp) == 0
    {
      FusedUnitIs(outputSizes[i], tp);
    }
  }

  lemma MultipleOf(n: nat, d: nat, e: nat, k: int)
    requires d > 0 && e > 0 && n == k * (d * e)
    ensures d * e > 0 && n % (d * e) == 0
    ensures n % d == 0 && n % e == 0
  {
    MulMonotone(1, d, e);
    MulMonotone(k, -1, d * e);
    assert k >= 0;
    MulNonNegative(k, d);
    MulNonNegative(k, e);
    DivModUnique(k, 0, d * e);
    assert n == k * e * d == k * d * e;
    DivModUnique(k * e, 0, d);
    DivModUnique(k * d, 0, e);
  }

  lemma MultipleOfBoth(n: nat)
    ensures n % 3 == 0 && n % 8 == 0 <==> n % 24 == 0
    ensures n % 6 == 0 && n % 8 == 0 <==> n % 24 == 0
    ensures n % 5 == 0 && n % 8 == 0 <==> n % 40 == 0
    ensures n % 7 == 0 && n % 8 == 0 <==> n % 56 == 0
  {
    var b := n / 8;
    if n % 8 == 0 && n % 3 == 0 {
      MultipleOf(n, 3, 8, 3 * b - n / 3);
    }
    if n % 24 == 0 {
      MultipleOf(n, 3, 8, n / 24);
      MultipleOf(n, 6, 4, n / 24);
    }
    if n % 8 == 0 && n % 6 == 0 {
      MultipleOf(n, 3, 8, n / 6 - b);
    }
    if n % 8 == 0 && n % 5 == 0 {
      MultipleOf(n, 5, 8, 2 * (n / 5) - 3 * b);
    }
    if n % 40 == 0 {
      MultipleOf(n, 5, 8, n / 40);
    }
    if n % 8 == 0 && n % 7 == 0 {
      MultipleOf(n, 7, 8, n / 7 - b);
    }
    if n % 56 == 0 {
      MultipleOf(n, 7, 8, n / 56);
    }
  }

  lemma MultipleOfEight(n: nat)
    requires n % 8 == 0
    ensures n % 1 == 0 && n % 2 == 0 && n % 4 == 0
  {
    MultipleOf(n, 2, 4, n / 8);
  }

  lemma FusedUnitIs(n: nat, tp: nat)
    requires tp > 0
    ensures Units(tp) > 0
    ensures n % tp == 0 && n % Units(tp) == 0 <==> n % FusedUnit(tp) == 0
  {
    if tp == 3 || tp == 5 || tp == 6 || tp == 7 {
      MultipleOfBoth(n);
    } else if n % Units(tp) == 0 && tp < 8 {
      MultipleOfEight(n);
    }
  }
}
