/**
 Dense row-major tensors of any rank: `arange`, `transpose` and `reshape` as the
 group construction uses them, with the index arithmetic behind them.
 */
module Tensors {
  import opened Arith
  import opened Groups

  type Shape = seq<nat>
  type Index = seq<nat>

  function Product(shape: Shape): nat
  {
    if shape == [] then 1 else shape[0] * Product(shape[1..])
  }

  predicate InShape(idx: Index, shape: Shape)
  {
    |idx| == |shape| && forall i :: 0 <= i < |shape| ==> idx[i] < shape[i]
  }

  function Ravel(shape: Shape, idx: Index): nat
    requires |idx| == |shape|
  {
    if shape == [] then 0 else idx[0] * Product(shape[1..]) + Ravel(shape[1..], idx[1..])
  }

  function Unravel(shape: Shape, k: nat): (idx: Index)
    requires k < Product(shape)
    ensures InShape(idx, shape)
    ensures Ravel(shape, idx) == k
  {
    if shape == [] then [] else
      var p := Product(shape[1..]);
      GridSplit(k, shape[0], p);
      var rest := Unravel(shape[1..], k % p);
      var idx := [k / p] + rest;
      assert idx[1..] == rest;
      idx
  }

  lemma {:induction false} RavelBound(shape: Shape, idx: Index)
    requires InShape(idx, shape)
    ensures Ravel(shape, idx) < Product(shape)
  {
    if shape != [] {
      RavelBound(shape[1..], idx[1..]);
      GridBound(idx[0], Ravel(shape[1..], idx[1..]), shape[0], Product(shape[1..]));
    }
  }

  /** Unravel is also the left inverse, so the flat position determines the index. */
  lemma {:induction false} UnravelRavel(shape: Shape, idx: Index)
    requires InShape(idx, shape)
    ensures Ravel(shape, idx) < Product(shape)
    ensures Unravel(shape, Ravel(shape, idx)) == idx
  {
    RavelBound(shape, idx);
    if shape != [] {
      UnravelRavel(shape[1..], idx[1..]);
      DivModUnique(idx[0], Ravel(shape[1..], idx[1..]), Product(shape[1..]));
      assert idx == [idx[0]] + idx[1..];
    }
  }

  /** A flat position in a concatenated shape is a position in a grid of blocks. */
  lemma {:induction false} RavelConcat(s: Shape, t: Shape, i: Index, j: Index)
    requires |i| == |s| && |j| == |t|
    ensures Product(s + t) == Product(s) * Product(t)
    ensures Ravel(s + t, i + j) == Ravel(s, i) * Product(t) + Ravel(t, j)
  {
    if s == [] {
      assert s + t == t && i + j == j;
    } else {
      assert (s + t)[1..] == s[1..] + t && (i + j)[1..] == i[1..] + j;
      RavelConcat(s[1..], t, i[1..], j);
      var p, q, r := Product(s[1..]), Product(t), Ravel(s[1..], i[1..]);
      MulAssociative(s[0], p, q);
      MulAssociative(i[0], p, q);
      MulDistributes(i[0] * p, r, q);
    }
  }

  function Swap<T>(s: seq<T>, a: nat, b: nat): (r: seq<T>)
    requires a < |s| && b < |s|
    ensures |r| == |s|
  {
    s[a := s[b]][b := s[a]]
  }

  /** A tensor of ranks. `elems` is the row-major content. */
  datatype Tensor = Tensor(shape: Shape, elems: seq<nat>)

  predicate Valid(t: Tensor)
  {
    |t.elems| == Product(t.shape)
  }

  /** torch.arange(n).reshape(shape), for n the number of cells. */
  function Arange(shape: Shape): (t: Tensor)
    ensures Valid(t)
  {
    Tensor(shape, seq(Product(shape), k => k))
  }

  lemma {:induction false} ProductSwap(shape: Shape, a: nat, b: nat)
    requires a < |shape| && b < |shape|
    ensures Product(Swap(shape, a, b)) == Product(shape)
    decreases |shape|
  {
    if a > b {
      assert Swap(shape, a, b) == Swap(shape, b, a);
      ProductSwapOrdered(shape, b, a);
    } else if a < b {
      ProductSwapOrdered(shape, a, b);
    } else {
      assert Swap(shape, a, b) == shape;
    }
  }

  lemma ProductSwapOrdered(shape: Shape, a: nat, b: nat)
    requires a < b < |shape|
    ensures Product(Swap(shape, a, b)) == Product(shape)
  {
    hide Product;
    var pre, x, mid, y, post := shape[..a], shape[a], shape[a + 1..b], shape[b], shape[b + 1..];
    FiveParts(shape, a, b);
    ProductFive(pre, x, mid, y, post);
    var s := Swap(shape, a, b);
    FiveParts(s, a, b);
    assert s[..a] == pre && s[a + 1..b] == mid && s[b + 1..] == post;
    ProductFive(pre, y, mid, x, post);
    ExchangeFactors(x, y, Product(mid), Product(post));
  }

  lemma FiveParts<T>(s: seq<T>, a: nat, b: nat)
    requires a < b < |s|
    ensures s == s[..a] + ([s[a]] + (s[a + 1..b] + ([s[b]] + s[b + 1..])))
  {
  }

  lemma ExchangeFactors(x: int, y: int, m: int, p: int)
    ensures x * (m * (y * p)) == y * (m * (x * p))
  {
    MulAssociative(m, y, p);
    MulAssociative(x, m * y, p);
    MulAssociative(m, x, p);
    MulAssociative(y, m * x, p);
    assert x * (m * y) == y * (m * x);
  }

  lemma ProductFive(pre: Shape, x: nat, mid: Shape, y: nat, post: Shape)
    ensures Product(pre + ([x] + (mid + ([y] + post))))
         == Product(pre) * (x * (Product(mid) * (y * Product(post))))
  {
    ProductConcat(pre, [x] + (mid + ([y] + post)));
    ProductConcat([x], mid + ([y] + post));
    ProductConcat(mid, [y] + post);
    ProductConcat([y], post);
    assert Product([x]) == x && Product([y]) == y;
  }

  lemma ProductConcat(s: Shape, t: Shape)
    ensures Product(s + t) == Product(s) * Product(t)
  {
    RavelConcat(s, t, seq(|s|, _ => 0), seq(|t|, _ => 0));
  }

  /** Where cell k of the transposed tensor comes from. */
  function Source(shape: Shape, a: nat, b: nat, k: nat): (r: nat)
    requires a < |shape| && b < |shape|
    requires k < Product(Swap(shape, a, b))
    ensures r < Product(shape)
  {
    var idx := Swap(Unravel(Swap(shape, a, b), k), a, b);
    RavelBound(shape, idx);
    Ravel(shape, idx)
  }

  /** t.transpose(a, b), made contiguous. */
  function Transpose(t: Tensor, a: nat, b: nat): (r: Tensor)
    requires Valid(t) && a < |t.shape| && b < |t.shape|
    ensures Valid(r)
  {
    var shape := Swap(t.shape, a, b);
    Tensor(shape, seq(Product(shape), k requires 0 <= k < Product(shape) => t.elems[Source(t.shape, a, b, k)]))
  }

  function RowAt(t: Tensor, width: nat, g: nat): (row: Group)
    requires width > 0 && g < |t.elems| / width
    ensures |row| == width
  {
    GridBound(g, width - 1, |t.elems| / width, width);
    t.elems[g * width..g * width + width]
  }

  /** t.reshape(-1, width).unbind(0), each row turned into a list. */
  function Rows(t: Tensor, width: nat): (rows: seq<Group>)
    requires width > 0
  {
    seq(|t.elems| / width, g requires 0 <= g < |t.elems| / width => RowAt(t, width, g))
  }

  lemma RowAtCell(t: Tensor, width: nat, g: nat, k: nat)
    requires width > 0 && g < |t.elems| / width && k < width
    ensures g * width + k < |t.elems|
    ensures |RowAt(t, width, g)| == width && RowAt(t, width, g)[k] == t.elems[g * width + k]
  {
    GridBound(g, width - 1, |t.elems| / width, width);
  }

  lemma RowCell(t: Tensor, width: nat, count: nat, g: nat, k: nat)
    requires width > 0 && |t.elems| == count * width
    requires g < count && k < width
    ensures |Rows(t, width)| == count && |Rows(t, width)[g]| == width
    ensures g * width + k < |t.elems|
    ensures Rows(t, width)[g][k] == t.elems[g * width + k]
  {
    hide RowAt;
    DivModUnique(count, 0, width);
    RowAtCell(t, width, g, k);
  }

  lemma RowCount(t: Tensor, width: nat, count: nat)
    requires width > 0 && |t.elems| == count * width
    ensures |Rows(t, width)| == count
    ensures forall g :: 0 <= g < count ==> |Rows(t, width)[g]| == width
  {
    DivModUnique(count, 0, width);
  }
}
