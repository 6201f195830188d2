/**
 The symmetric process groups: `arange(world).reshape(ext, dp, pp, pcp, tp)`,
 one transpose per family, one reshape to rows.
 */
module RankGroups {
  import opened Arith
  import opened Groups
  import opened Tensors

  datatype Layout = Layout(ext: nat, dp: nat, pp: nat, pcp: nat, tp: nat)

  predicate Positive(l: Layout)
  {
    l.ext >= 1 && l.dp >= 1 && l.pp >= 1 && l.pcp >= 1 && l.tp >= 1
  }

  function ShapeOf(l: Layout): Shape
  {
    [l.ext, l.dp, l.pp, l.pcp, l.tp]
  }

  function AllRanks(l: Layout): (t: Tensor)
    ensures Valid(t) && |t.shape| == 5
  {
    Arange(ShapeOf(l))
  }

  function WorldSize(l: Layout): nat
  {
    Product(ShapeOf(l))
  }

  function TpGroups(l: Layout): seq<Group>
    requires Positive(l)
  {
    Rows(AllRanks(l), l.tp)
  }

  function DcpGroups(l: Layout, dcp: nat): seq<Group>
    requires dcp > 0
  {
    Rows(AllRanks(l), dcp)
  }

  function PcpGroups(l: Layout): seq<Group>
    requires Positive(l)
  {
    Rows(Transpose(AllRanks(l), 3, 4), l.pcp)
  }

  function PpGroups(l: Layout): seq<Group>
    requires Positive(l)
  {
    Rows(Transpose(AllRanks(l), 2, 4), l.pp)
  }

  function DpGroups(l: Layout): seq<Group>
    requires Positive(l)
  {
    Rows(Transpose(AllRanks(l), 1, 4), l.dp)
  }

  function EpGroups(l: Layout): seq<Group>
    requires Positive(l)
  {
    Rows(Transpose(AllRanks(l), 1, 2), l.dp * l.pcp * l.tp)
  }

  /** The rank's position on each of the five axes. */
  function Coords(l: Layout, r: nat): (c: Index)
    requires r < WorldSize(l)
    ensures |c| == 5
  {
    Unravel(ShapeOf(l), r)
  }

  // ----- one theorem for every family -----

  /** Transpose two axes, then make rows of the last m axes. */
  function Grouped(shape: Shape, a: nat, b: nat, m: nat): seq<Group>
    requires a < |shape| && b < |shape| && m <= |shape|
    requires Product(Swap(shape, a, b)[|shape| - m..]) > 0
  {
    Rows(Transpose(Arange(shape), a, b), Product(Swap(shape, a, b)[|shape| - m..]))
  }

  /** The rank's index in the transposed tensor. */
  function Turned(shape: Shape, a: nat, b: nat, r: nat): (c: Index)
    requires a < |shape| && b < |shape| && r < Product(shape)
    ensures InShape(c, Swap(shape, a, b))
  {
    Swap(Unravel(shape, r), a, b)
  }

  /** Row number and place in the row of a rank. */
  function Home(shape: Shape, a: nat, b: nat, m: nat, r: nat): (int, int)
    requires a < |shape| && b < |shape| && m <= |shape|
  {
    var outside: (int, int) := (-1, -1);
    if r >= Product(shape) then outside else
      var c, s, n := Turned(shape, a, b, r), Swap(shape, a, b), |shape| - m;
      (Ravel(s[..n], c[..n]), Ravel(s[n..], c[n..]))
  }

  lemma SplitIndex(s: Shape, n: nat, c: Index)
    requires n <= |s| && InShape(c, s)
    ensures Product(s) == Product(s[..n]) * Product(s[n..])
    ensures Ravel(s, c) == Ravel(s[..n], c[..n]) * Product(s[n..]) + Ravel(s[n..], c[n..])
    ensures Ravel(s[..n], c[..n]) < Product(s[..n]) && Ravel(s[n..], c[n..]) < Product(s[n..])
  {
    hide Product, Ravel, Unravel;
    assert s == s[..n] + s[n..] && c == c[..n] + c[n..];
    RavelConcat(s[..n], s[n..], c[..n], c[n..]);
    RavelBound(s[..n], c[..n]);
    RavelBound(s[n..], c[n..]);
  }

  lemma GroupedCount(shape: Shape, a: nat, b: nat, m: nat)
    requires a < |shape| && b < |shape| && m <= |shape|
    requires Product(Swap(shape, a, b)[|shape| - m..]) > 0
    ensures var s, rows := Swap(shape, a, b), Grouped(shape, a, b, m);
      && Product(s) == Product(shape) == Product(s[..|shape| - m]) * Product(s[|shape| - m..])
      && |rows| == Product(s[..|shape| - m])
      && forall g :: 0 <= g < |rows| ==> |rows[g]| == Product(s[|shape| - m..])
  {
    hide Product;
    var s, n := Swap(shape, a, b), |shape| - m;
    assert s == s[..n] + s[n..];
    ProductConcat(s[..n], s[n..]);
    ProductSwap(shape, a, b);
    RowCount(Transpose(Arange(shape), a, b), Product(s[n..]), Product(s[..n]));
  }

  lemma GroupedCell(shape: Shape, a: nat, b: nat, m: nat, g: nat, k: nat)
    requires a < |shape| && b < |shape| && m <= |shape|
    requires k < Product(Swap(shape, a, b)[|shape| - m..])
    requires g < Product(Swap(shape, a, b)[..|shape| - m])
    ensures var s, rows := Swap(shape, a, b), Grouped(shape, a, b, m);
      var flat := g * Product(s[|shape| - m..]) + k;
      && g < |rows| && k < |rows[g]|
      && flat < Product(s)
      && rows[g][k] == Source(shape, a, b, flat)
  {
    hide Product, Source;
    GroupedCount(shape, a, b, m);
    var s, n := Swap(shape, a, b), |shape| - m;
    RowCell(Transpose(Arange(shape), a, b), Product(s[n..]), Product(s[..n]), g, k);
  }

  /** Cell k of the transposed tensor holds the rank whose transposed index is k's. */
  lemma SourceTurned(shape: Shape, a: nat, b: nat, k: nat)
    requires a < |shape| && b < |shape| && k < Product(Swap(shape, a, b))
    ensures Turned(shape, a, b, Source(shape, a, b, k)) == Unravel(Swap(shape, a, b), k)
  {
    hide Product, Ravel, Unravel;
    var c := Unravel(Swap(shape, a, b), k);
    UnravelRavel(shape, Swap(c, a, b));
    assert Swap(Swap(c, a, b), a, b) == c;
  }

  lemma TurnedSource(shape: Shape, a: nat, b: nat, r: nat)
    requires a < |shape| && b < |shape| && r < Product(shape)
    ensures Ravel(Swap(shape, a, b), Turned(shape, a, b, r)) < Product(Swap(shape, a, b))
    ensures Source(shape, a, b, Ravel(Swap(shape, a, b), Turned(shape, a, b, r))) == r
  {
    hide Product, Ravel, Unravel;
    UnravelRavel(Swap(shape, a, b), Turned(shape, a, b, r));
    assert Swap(Turned(shape, a, b, r), a, b) == Unravel(shape, r);
  }

  lemma HomeHoldsRank(shape: Shape, a: nat, b: nat, m: nat, r: nat)
    requires a < |shape| && b < |shape| && m <= |shape| && r < Product(shape)
    requires Product(Swap(shape, a, b)[|shape| - m..]) > 0
    ensures var home := Home(shape, a, b, m, r);
      var rows := Grouped(shape, a, b, m);
      0 <= home.0 < |rows| && 0 <= home.1 < |rows[home.0]| && rows[home.0][home.1] == r
  {
    hide Product, Ravel, Unravel, Grouped, Source, Turned, Swap;
    var home := Home(shape, a, b, m, r);
    SplitIndex(Swap(shape, a, b), |shape| - m, Turned(shape, a, b, r));
    TurnedSource(shape, a, b, r);
    GroupedCell(shape, a, b, m, home.0, home.1);
  }

  lemma CellHasHome(shape: Shape, a: nat, b: nat, m: nat, g: nat, k: nat)
    requires a < |shape| && b < |shape| && m <= |shape|
    requires Product(Swap(shape, a, b)[|shape| - m..]) > 0
    requires g < |Grouped(shape, a, b, m)| && k < |Grouped(shape, a, b, m)[g]|
    ensures Grouped(shape, a, b, m)[g][k] < Product(shape)
    ensures Home(shape, a, b, m, Grouped(shape, a, b, m)[g][k]) == (g, k)
  {
    hide Product, Ravel, Unravel, Grouped, Source, Turned, Swap;
    GroupedCount(shape, a, b, m);
    GroupedCell(shape, a, b, m, g, k);
    var s, n := Swap(shape, a, b), |shape| - m;
    var width := Product(s[n..]);
    SourceTurned(shape, a, b, g * width + k);
    var c := Unravel(s, g * width + k);
    SplitIndex(s, n, c);
    DivModUnique(g, k, width);
    DivModUnique(Ravel(s[..n], c[..n]), Ravel(s[n..], c[n..]), width);
  }

  /**
   For any shape, any transposed pair of axes and any number of trailing axes:
   the rows partition the ranks, and two ranks share a row exactly when their
   transposed indices agree on the leading axes.
   */
  lemma GroupedTheorem(shape: Shape, a: nat, b: nat, m: nat)
    requires a < |shape| && b < |shape| && m <= |shape|
    requires Product(Swap(shape, a, b)[|shape| - m..]) > 0
    ensures IsPartition(Grouped(shape, a, b, m), Product(shape))
    ensures forall r: nat, s: nat :: r < Product(shape) && s < Product(shape) ==>
      (SameGroup(Grouped(shape, a, b, m), r, s) <==> LeadingAgree(shape, a, b, m, r, s))
  {
    hide *;
    var rows := Grouped(shape, a, b, m);
    var home := (r: nat) => Home(shape, a, b, m, r);
    forall r: nat | r < Product(shape)
      ensures 0 <= home(r).0 < |rows| && 0 <= home(r).1 < |rows[home(r).0]| && rows[home(r).0][home(r).1] == r
    {
      HomeHoldsRank(shape, a, b, m, r);
    }
    forall g, k | 0 <= g < |rows| && 0 <= k < |rows[g]|
      ensures rows[g][k] < Product(shape) && home(rows[g][k]) == (g, k)
    {
      CellHasHome(shape, a, b, m, g, k);
    }
    PartitionFromHome(rows, Product(shape), home);
    forall r: nat, s: nat | r < Product(shape) && s < Product(shape)
      ensures home(r).0 == home(s).0 <==> LeadingAgree(shape, a, b, m, r, s)
    {
      SameRow(shape, a, b, m, r, s);
    }
  }

  /** The transposed indices of two ranks agree on all but the last m axes. */
  predicate LeadingAgree(shape: Shape, a: nat, b: nat, m: nat, r: nat, s: nat)
    requires a < |shape| && b < |shape| && m <= |shape|
    requires r < Product(shape) && s < Product(shape)
  {
    Turned(shape, a, b, r)[..|shape| - m] == Turned(shape, a, b, s)[..|shape| - m]
  }

  lemma SameRow(shape: Shape, a: nat, b: nat, m: nat, r: nat, s: nat)
    requires a < |shape| && b < |shape| && m <= |shape|
    requires r < Product(shape) && s < Product(shape)
    ensures Home(shape, a, b, m, r).0 == Home(shape, a, b, m, s).0 <==> LeadingAgree(shape, a, b, m, r, s)
  {
    hide Product, Ravel, Unravel, Turned, Swap;
    var lead := Swap(shape, a, b)[..|shape| - m];
    UnravelRavel(lead, Turned(shape, a, b, r)[..|shape| - m]);
    UnravelRavel(lead, Turned(shape, a, b, s)[..|shape| - m]);
  }
}
