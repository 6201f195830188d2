/**
 Uneven groups specialise to even ones: when all engines have the same size, every
 asymmetric family is the symmetric family with one stage and no context parallelism.
 */
module SymmetricCase {
  import opened Arith
  import opened Groups
  import opened Tensors
  import opened RankGroups
  import opened AsymGroups
  import opened AsymTheorems

  ghost predicate AllOfSize(sorted: seq<EngineConf>, t: nat)
  {
    forall i :: 0 <= i < |sorted| ==> sorted[i].newTp == t
  }

  function Even(n: nat, t: nat): Layout
  {
    Layout(1, n, 1, 1, t)
  }

  lemma Ravel5(shape: Shape, i: Index)
    requires |shape| == 5 && InShape(i, shape)
    ensures Ravel(shape, i)
      == (((i[0] * shape[1] + i[1]) * shape[2] + i[2]) * shape[3] + i[3]) * shape[4] + i[4]
    ensures Product(shape) == shape[0] * shape[1] * shape[2] * shape[3] * shape[4]
  {
    hide Product, Ravel;
    RavelLast(shape, i);
    var s4, i4 := shape[..4], i[..4];
    RavelLast(s4, i4);
    var s3, i3 := s4[..3], i4[..3];
    RavelLast(s3, i3);
    var s2, i2 := s3[..2], i3[..2];
    RavelLast(s2, i2);
    assert s2[..1] == [shape[0]] && i2[..1] == [i[0]];
    RavelOne(shape[0], i[0]);
  }

  lemma RavelOne(size: nat, i: nat)
    ensures Ravel([size], [i]) == i && Product([size]) == size
  {
    assert Product([]) == 1;
  }

  lemma RavelLast(shape: Shape, i: Index)
    requires |shape| == |i| > 0
    ensures var n := |shape| - 1;
      && Ravel(shape, i) == Ravel(shape[..n], i[..n]) * shape[n] + i[n]
      && Product(shape) == Product(shape[..n]) * shape[n]
  {
    hide Product, Ravel;
    var n := |shape| - 1;
    assert shape == shape[..n] + [shape[n]] && i == i[..n] + [i[n]];
    RavelConcat(shape[..n], [shape[n]], i[..n], [i[n]]);
    RavelOne(shape[n], i[n]);
  }

  lemma OffsetOfEven(sorted: seq<EngineConf>, t: nat, i: nat)
    requires AllOfSize(sorted, t) && i <= |sorted|
    ensures Offset(sorted, i) == i * t
  {
    assert Sizes(sorted)[..i] == seq(i, _ => t as int);
    SumConstant(i, t);
  }

  lemma EvenWorld(n: nat, t: nat)
    requires n > 0 && t > 0
    ensures WorldSize(Even(n, t)) == n * t > 0
  {
    Ravel5(ShapeOf(Even(n, t)), [0, 0, 0, 0, 0]);
    MulMonotone(1, n, t);
  }

  lemma TpCase(sorted: seq<EngineConf>, t: nat)
    requires t > 0 && sorted != [] && AllOfSize(sorted, t)
    ensures TpGroupsOf(sorted) == TpGroups(Even(|sorted|, t))
  {
    hide Product;
    var l, n := Even(|sorted|, t), |sorted|;
    EvenWorld(n, t);
    RowCount(AllRanks(l), t, n);
    var even := TpGroups(l);
    forall g | 0 <= g < n
      ensures TpGroupsOf(sorted)[g] == even[g]
    {
      OffsetOfEven(sorted, t, g);
      forall k | 0 <= k < t
        ensures Range(g * t, t)[k] == even[g][k]
      {
        RowCell(AllRanks(l), t, n, g, k);
      }
    }
  }

  /** With a unit axis in between, transposing it with the tensor-parallel axis moves no rank. */
  lemma UnitTransposeFixes(n: nat, t: nat, axis: nat, k: nat)
    requires n > 0 && t > 0 && (axis == 2 || axis == 3)
    requires k < Product(Swap(ShapeOf(Even(n, t)), axis, 4))
    ensures Source(ShapeOf(Even(n, t)), axis, 4, k) == k
  {
    hide Product, Ravel, Unravel;
    var shape := ShapeOf(Even(n, t));
    var s := Swap(shape, axis, 4);
    var c := Unravel(s, k);
    Ravel5(s, c);
    var d := Swap(c, axis, 4);
    Ravel5(shape, d);
    assert c[0] == 0 && c[4] == 0 && c[5 - axis] == 0;
  }

  lemma UnitRows(t: Tensor, n: nat)
    requires |t.elems| == n && forall k :: 0 <= k < n ==> t.elems[k] == k
    ensures Rows(t, 1) == Singletons(n)
  {
    RowCount(t, 1, n);
    forall g | 0 <= g < n
      ensures Rows(t, 1)[g] == [g]
    {
      RowCell(t, 1, n, g, 0);
    }
  }

  lemma SingletonCase(n: nat, t: nat)
    requires n > 0 && t > 0
    ensures DcpGroups(Even(n, t), 1) == Singletons(n * t)
    ensures PcpGroups(Even(n, t)) == Singletons(n * t)
    ensures PpGroups(Even(n, t)) == Singletons(n * t)
  {
    hide Product, Source, Rows;
    var l := Even(n, t);
    EvenWorld(n, t);
    ProductSwap(ShapeOf(l), 3, 4);
    ProductSwap(ShapeOf(l), 2, 4);
    forall axis: nat, k: nat | (axis == 2 || axis == 3) && k < n * t
      ensures k < Product(Swap(ShapeOf(l), axis, 4)) && Source(ShapeOf(l), axis, 4, k) == k
    {
      UnitTransposeFixes(n, t, axis, k);
    }
    UnitRows(AllRanks(l), n * t);
    UnitRows(Transpose(AllRanks(l), 3, 4), n * t);
    UnitRows(Transpose(AllRanks(l), 2, 4), n * t);
  }

  lemma DpSource(n: nat, t: nat, j: nat, i: nat)
    requires n > 0 && t > 0 && j < t && i < n
    ensures j * n + i < Product(Swap(ShapeOf(Even(n, t)), 1, 4))
    ensures Source(ShapeOf(Even(n, t)), 1, 4, j * n + i) == i * t + j
  {
    hide Product, Ravel, Unravel;
    var shape := ShapeOf(Even(n, t));
    var s, c := Swap(shape, 1, 4), [0, j, 0, 0, i];
    Ravel5(s, c);
    UnravelRavel(s, c);
    assert Ravel(s, c) == j * n + i;
    Ravel5(shape, Swap(c, 1, 4));
  }

  lemma {:induction false} LongerOfEven(groups: seq<Group>, t: nat, j: nat)
    requires j < t && forall g :: 0 <= g < |groups| ==> |groups[g]| == t
    ensures Longer(groups, j) == seq(|groups|, i => i)
  {
    if groups != [] {
      LongerOfEven(groups[..|groups| - 1], t, j);
    }
  }

  lemma DpShape(n: nat, t: nat)
    requires n > 0 && t > 0
    ensures |DpGroups(Even(n, t))| == t && forall j :: 0 <= j < t ==> |DpGroups(Even(n, t))[j]| == n
  {
    hide Product, Source;
    EvenWorld(n, t);
    ProductSwap(ShapeOf(Even(n, t)), 1, 4);
    assert n * t == t * n;
    RowCount(Transpose(AllRanks(Even(n, t)), 1, 4), n, t);
  }

  lemma DpCell(n: nat, t: nat, j: nat, i: nat)
    requires n > 0 && t > 0 && j < t && i < n
    ensures |DpGroups(Even(n, t))| == t && |DpGroups(Even(n, t))[j]| == n
    ensures DpGroups(Even(n, t))[j][i] == i * t + j
  {
    hide Product, Source;
    DpShape(n, t);
    EvenWorld(n, t);
    ProductSwap(ShapeOf(Even(n, t)), 1, 4);
    assert n * t == t * n;
    RowCell(Transpose(AllRanks(Even(n, t)), 1, 4), n, t, j, i);
    DpSource(n, t, j, i);
  }

  lemma ColumnCell(sorted: seq<EngineConf>, t: nat, j: nat, i: nat)
    requires AllOfSize(sorted, t) && j < t && i < |sorted|
    ensures |Column(TpGroupsOf(sorted), j)| == |sorted|
    ensures Column(TpGroupsOf(sorted), j)[i] == i * t + j
  {
    hide Longer, Offset;
    LongerOfEven(TpGroupsOf(sorted), t, j);
    OffsetOfEven(sorted, t, i);
  }

  lemma DpCase(sorted: seq<EngineConf>, t: nat)
    requires t > 0 && sorted != [] && AllOfSize(sorted, t)
    ensures DpGroupsOf(TpGroupsOf(sorted)) == DpGroups(Even(|sorted|, t))
  {
    hide Product, Source, Longer, MaxLength, DpGroups, Column;
    var n, tp := |sorted|, TpGroupsOf(sorted);
    DpShape(n, t);
    MaxLengthIsMax(tp);
    assert |tp[0]| == t;
    forall j | 0 <= j < t
      ensures Column(tp, j) == DpGroups(Even(n, t))[j]
    {
      ColumnCell(sorted, t, j, 0);
      forall i | 0 <= i < n
        ensures Column(tp, j)[i] == DpGroups(Even(n, t))[j][i]
      {
        ColumnCell(sorted, t, j, i);
        DpCell(n, t, j, i);
      }
    }
  }

  lemma EpSource(n: nat, t: nat, k: nat)
    requires n > 0 && t > 0 && k < Product(Swap(ShapeOf(Even(n, t)), 1, 2))
    ensures Source(ShapeOf(Even(n, t)), 1, 2, k) == k
  {
    hide Product, Ravel, Unravel;
    var shape := ShapeOf(Even(n, t));
    var s := Swap(shape, 1, 2);
    var c := Unravel(s, k);
    Ravel5(s, c);
    Ravel5(shape, Swap(c, 1, 2));
    assert c[0] == 0 && c[1] == 0 && c[3] == 0;
  }

  lemma EpCase(n: nat, t: nat)
    requires n > 0 && t > 0
    ensures EpGroups(Even(n, t)) == [Range(0, n * t)]
  {
    hide Product, Source, Rows;
    var l := Even(n, t);
    var turned := Transpose(AllRanks(l), 1, 2);
    assert EpGroups(l) == Rows(turned, n * t);
    EvenWorld(n, t);
    ProductSwap(ShapeOf(l), 1, 2);
    RowCount(turned, n * t, 1);
    assert |EpGroups(l)[0]| == n * t;
    forall k | 0 <= k < n * t
      ensures EpGroups(l)[0][k] == Range(0, n * t)[k]
    {
      RowCell(turned, n * t, 1, 0, k);
      EpSource(n, t, k);
    }
    assert EpGroups(l)[0] == Range(0, n * t);
  }

  /** Every family of an even rebuild is the symmetric one. */
  lemma EvenRebuildIsSymmetric(sorted: seq<EngineConf>, t: nat)
    requires t > 0 && sorted != [] && AllOfSize(sorted, t)
    ensures var l := Even(|sorted|, t);
      && World(sorted) == WorldSize(l)
      && TpGroupsOf(sorted) == TpGroups(l)
      && Singletons(World(sorted)) == DcpGroups(l, 1) == PcpGroups(l) == PpGroups(l)
      && DpGroupsOf(TpGroupsOf(sorted)) == DpGroups(l)
      && [Range(0, World(sorted))] == EpGroups(l)
  {
    hide Product, Transpose, Rows, Longer, MaxLength, EpGroups, PcpGroups, PpGroups, DcpGroups, DpGroups, TpGroups;
    OffsetOfEven(sorted, t, |sorted|);
    EvenWorld(|sorted|, t);
    TpCase(sorted, t);
    SingletonCase(|sorted|, t);
    DpCase(sorted, t);
    EpCase(|sorted|, t);
  }
}
