/** What the six symmetric families are: partitions, cut along one axis each. */
module Families {
  import opened Arith
  import opened Groups
  import opened Tensors
  import opened RankGroups

  /** The two ranks agree on every axis but the given one. */
  ghost predicate DifferOnlyOn(l: Layout, axis: nat, r: nat, s: nat)
    requires r < WorldSize(l) && s < WorldSize(l)
  {
    forall i :: 0 <= i < 5 && i != axis ==> Coords(l, r)[i] == Coords(l, s)[i]
  }

  /** Member k of every group has coordinate k on the axis, and every coordinate has its member. */
  ghost predicate Ordered(groups: seq<Group>, l: Layout, axis: nat)
    requires axis < 5
  {
    forall g, k :: 0 <= g < |groups| && 0 <= k < |groups[g]| ==>
      && |groups[g]| == ShapeOf(l)[axis]
      && groups[g][k] < WorldSize(l) && Coords(l, groups[g][k])[axis] == k
  }

  /**
   The groups are a partition, sharing a group means differing only on that axis, and
   the members of a group come in the order of the axis.
   */
  ghost predicate CutsAlong(groups: seq<Group>, l: Layout, axis: nat)
    requires axis < 5
  {
    && IsPartition(groups, WorldSize(l))
    && Ordered(groups, l, axis)
    && forall r: nat, s: nat :: r < WorldSize(l) && s < WorldSize(l) ==>
         (SameGroup(groups, r, s) <==> DifferOnlyOn(l, axis, r, s))
  }

  lemma TrailingAxis(l: Layout, axis: nat)
    requires axis < 5
    ensures Product(Swap(ShapeOf(l), axis, 4)[4..]) == ShapeOf(l)[axis]
  {
    var x := ShapeOf(l)[axis];
    assert Swap(ShapeOf(l), axis, 4)[4..] == [x];
    assert Product([x]) == x;
  }

  lemma AgreeMeansDifferOnlyOn(l: Layout, axis: nat, r: nat, s: nat)
    requires axis < 5 && r < WorldSize(l) && s < WorldSize(l)
    ensures LeadingAgree(ShapeOf(l), axis, 4, 1, r, s) <==> DifferOnlyOn(l, axis, r, s)
  {
    hide Product, Ravel, Unravel;
    var c, d := Coords(l, r), Coords(l, s);
    var x, y := Swap(c, axis, 4), Swap(d, axis, 4);
    assert forall i :: 0 <= i < 4 ==> x[i] == (if i == axis then c[4] else c[i]);
    assert forall i :: 0 <= i < 4 ==> y[i] == (if i == axis then d[4] else d[i]);
    if x[..4] == y[..4] {
      forall i | 0 <= i < 5 && i != axis
        ensures c[i] == d[i]
      {
        var j := if i == 4 then axis else i;
        assert x[..4][j] == y[..4][j];
      }
    }
  }

  lemma MembersInOrder(l: Layout, axis: nat)
    requires Positive(l) && axis < 5
    requires Product(Swap(ShapeOf(l), axis, 4)[4..]) > 0
    ensures Ordered(Grouped(ShapeOf(l), axis, 4, 1), l, axis)
  {
    hide Product, Grouped, Unravel;
    var shape := ShapeOf(l);
    var groups := Grouped(shape, axis, 4, 1);
    GroupedCount(shape, axis, 4, 1);
    TrailingAxis(l, axis);
    forall g, k | 0 <= g < |groups| && 0 <= k < |groups[g]|
      ensures groups[g][k] < WorldSize(l) && Coords(l, groups[g][k])[axis] == k
    {
      CellHasHome(shape, axis, 4, 1, g, k);
      LastOfTurned(l, axis, groups[g][k]);
    }
  }

  lemma LastOfTurned(l: Layout, axis: nat, r: nat)
    requires axis < 5 && r < WorldSize(l)
    ensures Home(ShapeOf(l), axis, 4, 1, r).1 == Coords(l, r)[axis]
  {
    hide Product, Ravel, Unravel;
    var shape := ShapeOf(l);
    assert Swap(shape, axis, 4)[4..] == [shape[axis]];
    assert Turned(shape, axis, 4, r)[4..] == [Coords(l, r)[axis]];
    RavelOne(shape[axis], Coords(l, r)[axis]);
  }

  /** The coordinates are the digits of the rank, in the layout's order of axes. */
  lemma CoordsAreDigits(l: Layout, r: nat)
    requires r < WorldSize(l)
    ensures var c := Coords(l, r);
      && c[0] < l.ext && c[1] < l.dp && c[2] < l.pp && c[3] < l.pcp && c[4] < l.tp
      && r == (((c[0] * l.dp + c[1]) * l.pp + c[2]) * l.pcp + c[3]) * l.tp + c[4]
  {
    var c, shape := Coords(l, r), ShapeOf(l);
    assert InShape(c, shape) && Ravel(shape, c) == r;
    hide Unravel, Coords;
    Horner(c, shape);
  }

  lemma Horner(c: Index, shape: Shape)
    requires |c| == |shape| == 5
    ensures Ravel(shape, c) ==
      (((c[0] * shape[1] + c[1]) * shape[2] + c[2]) * shape[3] + c[3]) * shape[4] + c[4]
  {
    hide Product, Ravel;
    RavelLast(shape, c);
    RavelLast(shape[..4], c[..4]);
    RavelLast(shape[..3], c[..3]);
    RavelLast(shape[..2], c[..2]);
    RavelLast(shape[..1], c[..1]);
    assert shape[..4][..3] == shape[..3] && c[..4][..3] == c[..3];
    assert shape[..3][..2] == shape[..2] && c[..3][..2] == c[..2];
    assert shape[..2][..1] == shape[..1] && c[..2][..1] == c[..1];
    assert shape[..1][..0] == [] && c[..1][..0] == [];
    RavelNone();
  }

  lemma RavelLast(shape: Shape, c: Index)
    requires |c| == |shape| > 0
    ensures Ravel(shape, c) ==
      Ravel(shape[..|shape| - 1], c[..|c| - 1]) * shape[|shape| - 1] + c[|c| - 1]
  {
    hide Product, Ravel;
    var n := |shape| - 1;
    assert shape == shape[..n] + [shape[n]] && c == c[..n] + [c[n]];
    RavelConcat(shape[..n], [shape[n]], c[..n], [c[n]]);
    RavelOne(shape[n], c[n]);
  }

  lemma RavelNone()
    ensures Ravel([], []) == 0
  {
  }

  lemma RavelOne(n: nat, k: nat)
    ensures Product([n]) == n && Ravel([n], [k]) == k
  {
  }

  /** Transposing an axis to the end and making rows of it cuts along that axis. */
  lemma AxisTheorem(l: Layout, axis: nat)
    requires Positive(l) && axis < 5
    requires Product(Swap(ShapeOf(l), axis, 4)[4..]) > 0
    ensures CutsAlong(Grouped(ShapeOf(l), axis, 4, 1), l, axis)
  {
    hide Product, Grouped, LeadingAgree, DifferOnlyOn, IsPartition, SameGroup, Ordered;
    MembersInOrder(l, axis);
    var shape := ShapeOf(l);
    GroupedTheorem(shape, axis, 4, 1);
    forall r: nat, s: nat | r < WorldSize(l) && s < WorldSize(l)
      ensures LeadingAgree(shape, axis, 4, 1, r, s) <==> DifferOnlyOn(l, axis, r, s)
    {
      AgreeMeansDifferOnlyOn(l, axis, r, s);
    }
  }

  lemma TransposeSameAxis(l: Layout)
    ensures Transpose(AllRanks(l), 4, 4) == AllRanks(l)
  {
    hide Product, Ravel, Unravel;
    var shape := ShapeOf(l);
    assert Swap(shape, 4, 4) == shape;
    forall k: nat | k < Product(shape)
      ensures Source(shape, 4, 4, k) == k
    {
      assert Swap(Unravel(shape, k), 4, 4) == Unravel(shape, k);
    }
  }

  /**
   For all sizes at least 1, the TP, PCP, PP and DP families each partition the
   world, and two ranks share a group exactly when they differ only on that
   family's axis.
   */
  lemma SymmetricFamilies(l: Layout)
    requires Positive(l)
    ensures CutsAlong(TpGroups(l), l, 4)
    ensures CutsAlong(PcpGroups(l), l, 3)
    ensures CutsAlong(PpGroups(l), l, 2)
    ensures CutsAlong(DpGroups(l), l, 1)
  {
    hide Product, Rows, Transpose, CutsAlong;
    forall axis: nat | 1 <= axis <= 4
      ensures Product(Swap(ShapeOf(l), axis, 4)[4..]) == ShapeOf(l)[axis]
      ensures ShapeOf(l)[axis] > 0 && CutsAlong(Grouped(ShapeOf(l), axis, 4, 1), l, axis)
    {
      TrailingAxis(l, axis);
      AxisTheorem(l, axis);
    }
    TransposeSameAxis(l);
    assert TpGroups(l) == Grouped(ShapeOf(l), 4, 4, 1);
    assert PcpGroups(l) == Grouped(ShapeOf(l), 3, 4, 1);
    assert PpGroups(l) == Grouped(ShapeOf(l), 2, 4, 1);
    assert DpGroups(l) == Grouped(ShapeOf(l), 1, 4, 1);
  }

  /** The expert-parallel groups: a partition; same group means same external-DP and same stage. */
  lemma ExpertFamily(l: Layout)
    requires Positive(l)
    ensures IsPartition(EpGroups(l), WorldSize(l))
    ensures forall r: nat, s: nat :: r < WorldSize(l) && s < WorldSize(l) ==>
      (SameGroup(EpGroups(l), r, s) <==>
       Coords(l, r)[0] == Coords(l, s)[0] && Coords(l, r)[2] == Coords(l, s)[2])
  {
    var shape := ShapeOf(l);
    ExpertWidth(l);
    hide Product, Ravel, Unravel, Rows, Transpose, IsPartition, SameGroup, Source;
    GroupedTheorem(shape, 1, 2, 3);
    forall r: nat, s: nat | r < WorldSize(l) && s < WorldSize(l)
      ensures LeadingAgree(shape, 1, 2, 3, r, s) <==>
        Coords(l, r)[0] == Coords(l, s)[0] && Coords(l, r)[2] == Coords(l, s)[2]
    {
      var c, d := Coords(l, r), Coords(l, s);
      assert Swap(c, 1, 2)[..2] == [c[0], c[2]] && Swap(d, 1, 2)[..2] == [d[0], d[2]];
      assert [c[0], c[2]] == [d[0], d[2]] <==> c[0] == d[0] && c[2] == d[2];
    }
  }

  lemma ExpertWidth(l: Layout)
    requires Positive(l)
    ensures Product(Swap(ShapeOf(l), 1, 2)[2..]) == l.dp * l.pcp * l.tp
    ensures l.dp * l.pcp * l.tp > 0
  {
    assert Swap(ShapeOf(l), 1, 2)[2..] == [l.dp] + ([l.pcp] + [l.tp]);
    ProductConcat([l.dp], [l.pcp] + [l.tp]);
    ProductConcat([l.pcp], [l.tp]);
    assert Product([l.dp]) == l.dp && Product([l.pcp]) == l.pcp && Product([l.tp]) == l.tp;
    MulAssociative(l.dp, l.pcp, l.tp);
    MulMonotone(1, l.dp, l.pcp);
    MulMonotone(1, l.dp * l.pcp, l.tp);
  }

  /** Orthogonality: a TP group and a DP group share at most one rank. */
  lemma TpMeetsDpOnce(l: Layout, r: nat, s: nat)
    requires Positive(l) && r < WorldSize(l) && s < WorldSize(l)
    ensures SameGroup(TpGroups(l), r, s) && SameGroup(DpGroups(l), r, s) ==> r == s
  {
    hide Product, Ravel, Unravel, TpGroups, DpGroups, IsPartition, SameGroup;
    SymmetricFamilies(l);
    if SameGroup(TpGroups(l), r, s) && SameGroup(DpGroups(l), r, s) {
      assert Coords(l, r) == Coords(l, s);
    }
  }

  // ----- decode-context groups cut TP groups further -----

  /** Rows of the untransposed ranks: rank r sits in row r / width. */
  lemma ContiguousRows(l: Layout, width: nat)
    requires width > 0 && WorldSize(l) % width == 0
    ensures IsPartition(Rows(AllRanks(l), width), WorldSize(l))
    ensures forall r: nat, s: nat :: r < WorldSize(l) && s < WorldSize(l) ==>
      (SameGroup(Rows(AllRanks(l), width), r, s) <==> r / width == s / width)
  {
    hide Product, Rows, IsPartition, SameGroup;
    var n, rows, count := WorldSize(l), Rows(AllRanks(l), width), WorldSize(l) / width;
    assert n == count * width;
    var home := (r: nat) => (r / width, r % width);
    RowCount(AllRanks(l), width, count);
    forall r: nat | r < n
      ensures 0 <= home(r).0 < |rows| && 0 <= home(r).1 < |rows[home(r).0]| && rows[home(r).0][home(r).1] == r
    {
      GridSplit(r, count, width);
      RowCell(AllRanks(l), width, count, r / width, r % width);
    }
    forall g, k | 0 <= g < |rows| && 0 <= k < |rows[g]|
      ensures rows[g][k] < n && home(rows[g][k]) == (g, k)
    {
      RowCell(AllRanks(l), width, count, g, k);
      DivModUnique(g, k, width);
    }
    PartitionFromHome(rows, n, home);
  }

  lemma DivOfMultiple(r: nat, q: nat, d: nat)
    requires q > 0 && d > 0
    ensures q * d > 0 && r / (q * d) == r / d / q
  {
    MulMonotone(1, q, d);
    var x, y := r / d, r % d;
    var u, v := x / q, x % q;
    assert r == (u * q + v) * d + y;
    MulDistributes(u * q, v, d);
    MulAssociative(u, q, d);
    GridBound(v, y, q, d);
    DivModUnique(u, v * d + y, q * d);
  }

  lemma {:induction false} PositiveProduct(shape: Shape)
    requires forall i :: 0 <= i < |shape| ==> shape[i] >= 1
    ensures Product(shape) >= 1
  {
    if shape != [] {
      PositiveProduct(shape[1..]);
      MulMonotone(1, shape[0], Product(shape[1..]));
    }
  }

  lemma WorldIsManyTp(l: Layout) returns (n: nat)
    requires Positive(l)
    ensures WorldSize(l) == n * l.tp && n >= 1
  {
    assert ShapeOf(l) == [l.ext, l.dp, l.pp, l.pcp] + [l.tp];
    ProductConcat([l.ext, l.dp, l.pp, l.pcp], [l.tp]);
    assert Product([l.tp]) == l.tp;
    n := Product([l.ext, l.dp, l.pp, l.pcp]);
    PositiveProduct([l.ext, l.dp, l.pp, l.pcp]);
  }

  lemma DividingDcpRefines(l: Layout, dcp: nat)
    requires Positive(l) && dcp > 0 && WorldSize(l) % dcp == 0 && WorldSize(l) % l.tp == 0
    requires l.tp % dcp == 0
    ensures Refines(DcpGroups(l, dcp), TpGroups(l))
  {
    hide Product, Rows, IsPartition, SameGroup;
    ContiguousRows(l, dcp);
    ContiguousRows(l, l.tp);
    var q := l.tp / dcp;
    assert l.tp == q * dcp;
    forall r: nat, s: nat | SameGroup(DcpGroups(l, dcp), r, s)
      ensures SameGroup(TpGroups(l), r, s)
    {
      SameGroupInWorld(DcpGroups(l, dcp), WorldSize(l), r, s);
      DivOfMultiple(r, q, dcp);
      DivOfMultiple(s, q, dcp);
    }
  }

  lemma OtherDcpStraddles(l: Layout, dcp: nat)
    requires Positive(l) && dcp > 0 && WorldSize(l) % dcp == 0 && WorldSize(l) % l.tp == 0
    requires l.tp < WorldSize(l) && l.tp % dcp != 0
    ensures SameGroup(DcpGroups(l, dcp), l.tp - 1, l.tp)
    ensures !SameGroup(TpGroups(l), l.tp - 1, l.tp)
  {
    hide Product, Rows, IsPartition, SameGroup;
    ContiguousRows(l, dcp);
    ContiguousRows(l, l.tp);
    SameQuotient(l.tp, dcp);
    DivModUnique(0, l.tp - 1, l.tp);
    DivModUnique(1, 0, l.tp);
  }

  /** Whenever the DCP reshape is possible at all, it refines TP exactly when dcp divides tp. */
  lemma DcpRefinesTpIff(l: Layout, dcp: nat)
    requires Positive(l) && dcp > 0 && WorldSize(l) % dcp == 0
    ensures IsPartition(DcpGroups(l, dcp), WorldSize(l))
    ensures Refines(DcpGroups(l, dcp), TpGroups(l)) <==> l.tp % dcp == 0
  {
    hide Product, Rows, IsPartition, SameGroup, DcpGroups, TpGroups, WorldSize;
    var n := WorldIsManyTp(l);
    DivModUnique(n, 0, l.tp);
    ContiguousRows(l, dcp);
    DcpIsRows(l, dcp);
    if l.tp % dcp == 0 {
      DividingDcpRefines(l, dcp);
    } else {
      assert n != 1;
      MulMonotone(2, n, l.tp);
      OtherDcpStraddles(l, dcp);
    }
  }

  lemma DcpIsRows(l: Layout, dcp: nat)
    requires dcp > 0
    ensures DcpGroups(l, dcp) == Rows(AllRanks(l), dcp)
  {
  }

  lemma SameQuotient(t: nat, d: nat)
    requires t > 0 && d > 0 && t % d != 0
    ensures (t - 1) / d == t / d
  {
    DivModUnique(t / d, t % d - 1, d);
  }

  lemma SameGroupInWorld(groups: seq<Group>, n: nat, r: nat, s: nat)
    requires IsPartition(groups, n) && SameGroup(groups, r, s)
    ensures r < n && s < n
  {
    assert Holds(groups, r) && Holds(groups, s);
  }
}
