/**
 All-gather of slices of different lengths, done as an all-reduce of zero-padded
 buffers. A tensor is `outer` rows of `len` cells; a cell is the vector of the
 `width` values behind the gathered dimension.
 */
module VarlenGather {
  import opened Arith
  import opened Vectors

  type Cells = seq<Vec>

  ghost predicate WellShaped(x: Cells, outer: nat, len: nat, width: nat)
  {
    |x| == outer * len && AllOfWidth(x, width)
  }

  ghost predicate Inputs(xs: seq<Cells>, lens: seq<nat>, outer: nat, width: nat)
  {
    |xs| == |lens| && forall r :: 0 <= r < |xs| ==> WellShaped(xs[r], outer, lens[r], width)
  }

  /** Moving the gathered dimension to the front: cell (a, l) becomes cell (l, a). */
  function Moved(x: Cells, outer: nat, len: nat): (m: Cells)
    requires |x| == outer * len
    ensures |m| == len * outer
  {
    seq(len * outer, i requires 0 <= i < len * outer =>
      (GridSplit(i, len, outer); GridBound(i % outer, i / outer, outer, len);
       x[i % outer * len + i / outer]))
  }

  lemma MovedCell(x: Cells, outer: nat, len: nat, l: nat, a: nat)
    requires |x| == outer * len && l < len && a < outer
    ensures l * outer + a < len * outer && a * len + l < outer * len
    ensures Moved(x, outer, len)[l * outer + a] == x[a * len + l]
  {
    GridBound(l, a, len, outer);
    GridBound(a, l, outer, len);
    DivModUnique(l, a, outer);
  }

  lemma MovedWidth(x: Cells, outer: nat, len: nat, width: nat)
    requires WellShaped(x, outer, len, width)
    ensures AllOfWidth(Moved(x, outer, len), width)
  {
    forall i | 0 <= i < len * outer
      ensures |Moved(x, outer, len)[i]| == width
    {
      GridSplit(i, len, outer);
      MovedCell(x, outer, len, i / outer, i % outer);
    }
  }

  /** The rank-order concatenation of the first k moved inputs. */
  function Concatenated(xs: seq<Cells>, lens: seq<nat>, outer: nat, k: nat): Cells
    requires |xs| == |lens| && k <= |xs|
    requires forall r :: 0 <= r < |xs| ==> |xs[r]| == outer * lens[r]
  {
    if k == 0 then [] else Concatenated(xs, lens, outer, k - 1) + Moved(xs[k - 1], outer, lens[k - 1])
  }

  function Prefix(lens: seq<nat>, k: nat): (n: nat)
    requires k <= |lens|
  {
    SumOfTakesMonotone(lens, k, k);
    Sum(lens[..k])
  }

  function ZeroCells(n: nat, width: nat): (z: Cells)
    ensures |z| == n
  {
    seq(n, _ => Zero(width))
  }

  function AddCells(u: Cells, v: Cells): (w: Cells)
    requires |u| == |v|
    requires forall i :: 0 <= i < |u| ==> |u[i]| == |v[i]|
    ensures |w| == |u|
    ensures forall i :: 0 <= i < |u| ==> |w[i]| == |u[i]|
  {
    seq(|u|, i requires 0 <= i < |u| => Add(u[i], v[i]))
  }

  lemma AddZero(v: Vec)
    ensures Add(v, Zero(|v|)) == v && Add(Zero(|v|), v) == v
  {
  }

  /** One rank's buffer: zeros, its own cells, zeros. */
  function Padded(m: Cells, before: nat, after: nat, width: nat): (p: Cells)
    ensures |p| == before + |m| + after
  {
    ZeroCells(before, width) + m + ZeroCells(after, width)
  }

  /** Summing a partial concatenation and the next rank's padded buffer appends that rank's cells. */
  lemma AddPadded(done: Cells, m: Cells, rest: nat, width: nat)
    requires AllOfWidth(done, width) && AllOfWidth(m, width)
    ensures AllOfWidth(done + ZeroCells(|m| + rest, width), width)
    ensures AllOfWidth(Padded(m, |done|, rest, width), width)
    ensures AddCells(done + ZeroCells(|m| + rest, width), Padded(m, |done|, rest, width))
      == done + m + ZeroCells(rest, width)
  {
    var u, v := done + ZeroCells(|m| + rest, width), Padded(m, |done|, rest, width);
    forall i | 0 <= i < |u|
      ensures Add(u[i], v[i]) == (done + m + ZeroCells(rest, width))[i]
    {
      AddZero(u[i]);
      AddZero(v[i]);
    }
  }

  /** Steps 3 and 4 on one rank: a zero buffer with the rank's slice assigned at its offset. */
  method FillBuffer(x: Cells, lens: seq<nat>, rank: nat, outer: nat, width: nat) returns (buffer: array<Vec>)
    requires rank < |lens| && WellShaped(x, outer, lens[rank], width)
    ensures Prefix(lens, rank) * outer + lens[rank] * outer <= Prefix(lens, |lens|) * outer
    ensures buffer[..] == Padded(Moved(x, outer, lens[rank]), Prefix(lens, rank) * outer,
      Prefix(lens, |lens|) * outer - Prefix(lens, rank) * outer - lens[rank] * outer, width)
  {
    var m := Moved(x, outer, lens[rank]);
    var total, offset := Prefix(lens, |lens|), Prefix(lens, rank);
    SliceFits(lens, rank, outer);
    buffer := new Vec[total * outer](_ => Zero(width));
    for i := 0 to |m|
      invariant forall j :: 0 <= j < buffer.Length ==>
        buffer[j] == if offset * outer <= j < offset * outer + i then m[j - offset * outer] else Zero(width)
    {
      buffer[offset * outer + i] := m[i];
    }
  }

  lemma SliceFits(lens: seq<nat>, rank: nat, outer: nat)
    requires rank < |lens|
    ensures Prefix(lens, rank + 1) * outer == Prefix(lens, rank) * outer + lens[rank] * outer
    ensures Prefix(lens, rank) * outer + lens[rank] * outer <= Prefix(lens, |lens|) * outer
  {
    SumTake(lens, rank);
    SumOfTakesMonotone(lens, rank + 1, |lens|);
    MulDistributes(Prefix(lens, rank), lens[rank], outer);
    MulMonotone(Prefix(lens, rank + 1), Prefix(lens, |lens|), outer);
  }

  lemma {:induction false} ConcatenatedShape(xs: seq<Cells>, lens: seq<nat>, outer: nat, width: nat, k: nat)
    requires Inputs(xs, lens, outer, width) && k <= |xs|
    ensures |Concatenated(xs, lens, outer, k)| == Prefix(lens, k) * outer
    ensures AllOfWidth(Concatenated(xs, lens, outer, k), width)
  {
    if k > 0 {
      ConcatenatedShape(xs, lens, outer, width, k - 1);
      SliceFits(lens, k - 1, outer);
      MovedWidth(xs[k - 1], outer, lens[k - 1], width);
    }
  }

  /**
   The whole collective: every rank's padded buffer is summed. The sum, which every
   rank receives, is the rank-order concatenation of the moved inputs.
   */
  method AllGatherVarlen(xs: seq<Cells>, lens: seq<nat>, outer: nat, width: nat) returns (out: Cells)
    requires Inputs(xs, lens, outer, width)
    ensures out == Concatenated(xs, lens, outer, |xs|)
  {
    var total := Prefix(lens, |lens|);
    out := ZeroCells(total * outer, width);
    for r := 0 to |xs|
      invariant Prefix(lens, r) * outer <= total * outer
      invariant out == Concatenated(xs, lens, outer, r) + ZeroCells(total * outer - Prefix(lens, r) * outer, width)
    {
      var buffer := FillBuffer(xs[r], lens, r, outer, width);
      SliceFits(lens, r, outer);
      ConcatenatedShape(xs, lens, outer, width, r);
      MovedWidth(xs[r], outer, lens[r], width);
      AddPadded(Concatenated(xs, lens, outer, r), Moved(xs[r], outer, lens[r]),
        total * outer - Prefix(lens, r + 1) * outer, width);
      out := AddCells(out, buffer[..]);
    }
    ConcatenatedShape(xs, lens, outer, width, |xs|);
  }

  // ----- compared with concatenation along the dimension -----

  function RowOf(x: Cells, len: nat, outer: nat, a: nat): (row: Cells)
    requires |x| == outer * len && a < outer
    ensures |row| == len
  {
    MulMonotone(a, outer, len);
    x[a * len..a * len + len]
  }

  /** Row a of the concatenation along the dimension: row a of every input, in rank order. */
  function CatRow(xs: seq<Cells>, lens: seq<nat>, outer: nat, a: nat, k: nat): Cells
    requires |xs| == |lens| && k <= |xs| && a < outer
    requires forall r :: 0 <= r < |xs| ==> |xs[r]| == outer * lens[r]
  {
    if k == 0 then [] else CatRow(xs, lens, outer, a, k - 1) + RowOf(xs[k - 1], lens[k - 1], outer, a)
  }

  /** torch.cat(inputs, dim), flattened row by row. */
  function CatAlongDim(xs: seq<Cells>, lens: seq<nat>, outer: nat, rows: nat): Cells
    requires |xs| == |lens| && rows <= outer
    requires forall r :: 0 <= r < |xs| ==> |xs[r]| == outer * lens[r]
  {
    if rows == 0 then [] else CatAlongDim(xs, lens, outer, rows - 1) + CatRow(xs, lens, outer, rows - 1, |xs|)
  }

  lemma {:induction false} CatRowLength(xs: seq<Cells>, lens: seq<nat>, outer: nat, a: nat, k: nat)
    requires |xs| == |lens| && k <= |xs| && a < outer
    requires forall r :: 0 <= r < |xs| ==> |xs[r]| == outer * lens[r]
    ensures |CatRow(xs, lens, outer, a, k)| == Prefix(lens, k)
  {
    if k > 0 {
      CatRowLength(xs, lens, outer, a, k - 1);
      SumTake(lens, k - 1);
    }
  }

  lemma {:induction false} CatRowCell(xs: seq<Cells>, lens: seq<nat>, outer: nat, a: nat, k: nat, width: nat, l: nat)
    requires Inputs(xs, lens, outer, width) && k <= |xs| && a < outer && l < Prefix(lens, k)
    ensures |CatRow(xs, lens, outer, a, k)| == Prefix(lens, k)
    ensures l * outer + a < |Concatenated(xs, lens, outer, k)| == Prefix(lens, k) * outer
    ensures CatRow(xs, lens, outer, a, k)[l] == Concatenated(xs, lens, outer, k)[l * outer + a]
  {
    ConcatenatedShape(xs, lens, outer, width, k);
    CatRowLength(xs, lens, outer, a, k);
    GridBound(l, a, Prefix(lens, k), outer);
    if k > 0 {
      ConcatenatedShape(xs, lens, outer, width, k - 1);
      CatRowLength(xs, lens, outer, a, k - 1);
      if l < Prefix(lens, k - 1) {
        CatRowCell(xs, lens, outer, a, k - 1, width, l);
      } else {
        SumTake(lens, k - 1);
        CatRowNewCell(xs, lens, outer, a, k, width, l - Prefix(lens, k - 1));
      }
    }
  }

  lemma CatRowNewCell(xs: seq<Cells>, lens: seq<nat>, outer: nat, a: nat, k: nat, width: nat, l: nat)
    requires Inputs(xs, lens, outer, width) && 0 < k <= |xs| && a < outer && l < lens[k - 1]
    ensures var before := Prefix(lens, k - 1);
      && before + l < |CatRow(xs, lens, outer, a, k)|
      && (before + l) * outer + a < |Concatenated(xs, lens, outer, k)|
      && CatRow(xs, lens, outer, a, k)[before + l] == Concatenated(xs, lens, outer, k)[(before + l) * outer + a]
  {
    hide Moved, Prefix, RowOf, CatRow, Concatenated;
    var before, len, x := Prefix(lens, k - 1), lens[k - 1], xs[k - 1];
    ConcatenatedShape(xs, lens, outer, width, k - 1);
    CatRowLength(xs, lens, outer, a, k - 1);
    LastInput(xs, lens, outer, a, k);
    RowOfCell(x, len, outer, a, l);
    MovedCell(x, outer, len, l, a);
    MulDistributes(before, l, outer);
    AppendedAt(CatRow(xs, lens, outer, a, k - 1), RowOf(x, len, outer, a), l);
    AppendedAt(Concatenated(xs, lens, outer, k - 1), Moved(x, outer, len), l * outer + a);
  }

  lemma LastInput(xs: seq<Cells>, lens: seq<nat>, outer: nat, a: nat, k: nat)
    requires |xs| == |lens| && 0 < k <= |xs| && a < outer
    requires forall r :: 0 <= r < |xs| ==> |xs[r]| == outer * lens[r]
    ensures CatRow(xs, lens, outer, a, k) == CatRow(xs, lens, outer, a, k - 1) + RowOf(xs[k - 1], lens[k - 1], outer, a)
    ensures Concatenated(xs, lens, outer, k) ==
      Concatenated(xs, lens, outer, k - 1) + Moved(xs[k - 1], outer, lens[k - 1])
  {
  }

  lemma RowOfCell(x: Cells, len: nat, outer: nat, a: nat, l: nat)
    requires |x| == outer * len && a < outer && l < len
    ensures a * len + l < |x| && RowOf(x, len, outer, a)[l] == x[a * len + l]
  {
    MulMonotone(a, outer, len);
  }

  lemma AppendedAt<T>(u: seq<T>, v: seq<T>, i: nat)
    requires i < |v|
    ensures (u + v)[|u| + i] == v[i]
  {
  }

  lemma {:induction false} CatCell(xs: seq<Cells>, lens: seq<nat>, outer: nat, rows: nat, width: nat, a: nat, l: nat)
    requires Inputs(xs, lens, outer, width) && rows <= outer && a < rows && l < Prefix(lens, |xs|)
    ensures a * Prefix(lens, |xs|) + l < |CatAlongDim(xs, lens, outer, rows)| == rows * Prefix(lens, |xs|)
    ensures l * outer + a < |Concatenated(xs, lens, outer, |xs|)|
    ensures CatAlongDim(xs, lens, outer, rows)[a * Prefix(lens, |xs|) + l]
      == Concatenated(xs, lens, outer, |xs|)[l * outer + a]
  {
    hide CatRow, Concatenated, Prefix;
    var total := Prefix(lens, |xs|);
    CatLength(xs, lens, outer, rows);
    CatLength(xs, lens, outer, rows - 1);
    CatRowCell(xs, lens, outer, a, |xs|, width, l);
    MulDistributes(rows - 1, 1, total);
    GridBound(a, l, rows, total);
    if a < rows - 1 {
      GridBound(a, l, rows - 1, total);
      CatCell(xs, lens, outer, rows - 1, width, a, l);
    }
  }

  lemma {:induction false} CatLength(xs: seq<Cells>, lens: seq<nat>, outer: nat, rows: nat)
    requires |xs| == |lens| && rows <= outer
    requires forall r :: 0 <= r < |xs| ==> |xs[r]| == outer * lens[r]
    ensures |CatAlongDim(xs, lens, outer, rows)| == rows * Prefix(lens, |xs|)
  {
    if rows > 0 {
      CatLength(xs, lens, outer, rows - 1);
      CatRowLength(xs, lens, outer, rows - 1, |xs|);
      MulDistributes(rows - 1, 1, Prefix(lens, |xs|));
    }
  }

  /** For inputs of these lengths the final reshape gives the concatenation, whatever their values. */
  ghost predicate ReshapeIsCat(lens: seq<nat>, outer: nat, width: nat)
  {
    forall xs :: Inputs(xs, lens, outer, width) ==>
      Concatenated(xs, lens, outer, |xs|) == CatAlongDim(xs, lens, outer, outer)
  }

  lemma ReshapeIsCatWhenFlat(lens: seq<nat>, outer: nat, width: nat)
    requires outer <= 1 || Prefix(lens, |lens|) <= 1 || width == 0
    ensures ReshapeIsCat(lens, outer, width)
  {
    forall xs | Inputs(xs, lens, outer, width)
      ensures Concatenated(xs, lens, outer, |xs|) == CatAlongDim(xs, lens, outer, outer)
    {
      FlatIsCat(xs, lens, outer, width);
    }
  }

  lemma FlatIsCat(xs: seq<Cells>, lens: seq<nat>, outer: nat, width: nat)
    requires Inputs(xs, lens, outer, width)
    requires outer <= 1 || Prefix(lens, |lens|) <= 1 || width == 0
    ensures Concatenated(xs, lens, outer, |xs|) == CatAlongDim(xs, lens, outer, outer)
  {
    hide Concatenated, CatAlongDim, Prefix;
    var total := Prefix(lens, |lens|);
    var g, c := Concatenated(xs, lens, outer, |xs|), CatAlongDim(xs, lens, outer, outer);
    ConcatenatedShape(xs, lens, outer, width, |xs|);
    CatLength(xs, lens, outer, outer);
    assert total * outer == outer * total;
    forall i | 0 <= i < |g|
      ensures g[i] == c[i]
    {
      GridSplit(i, outer, total);
      CatCell(xs, lens, outer, outer, width, i / total, i % total);
      if width != 0 {
        OneRowOrColumn(i / total, i % total, outer, total);
      }
    }
  }

  lemma OneRowOrColumn(a: nat, l: nat, outer: nat, total: nat)
    requires a < outer && l < total && (outer == 1 || total == 1)
    ensures l * outer + a == a * total + l
  {
  }

  /** Inputs whose every cell carries its own row number. */
  function RowNumbers(lens: seq<nat>, outer: nat, width: nat): (xs: seq<Cells>)
    ensures |xs| == |lens|
  {
    seq(|lens|, r requires 0 <= r < |lens| =>
      seq(outer * lens[r], i requires 0 <= i < outer * lens[r] =>
        seq(width, _ => if lens[r] == 0 then 0 else i / lens[r])))
  }

  lemma ShiftByRows(j: nat, rows: nat, outer: nat)
    requires outer > 0
    ensures (rows * outer + j) % outer == j % outer
  {
    MulDistributes(rows, j / outer, outer);
    DivModUnique(rows + j / outer, j % outer, outer);
  }

  lemma MovedRowNumber(lens: seq<nat>, outer: nat, width: nat, r: nat, j: nat)
    requires r < |lens| && j < lens[r] * outer && |RowNumbers(lens, outer, width)[r]| == outer * lens[r]
    ensures outer > 0 && j < |Moved(RowNumbers(lens, outer, width)[r], outer, lens[r])|
    ensures Moved(RowNumbers(lens, outer, width)[r], outer, lens[r])[j] == seq(width, _ => j % outer)
  {
    var len := lens[r];
    GridSplit(j, len, outer);
    MovedCell(RowNumbers(lens, outer, width)[r], outer, len, j / outer, j % outer);
    DivModUnique(j % outer, j / outer, len);
  }

  lemma {:induction false} RowNumbersGather(lens: seq<nat>, outer: nat, width: nat, k: nat, i: nat)
    requires k <= |lens| && i < Prefix(lens, k) * outer
    ensures Inputs(RowNumbers(lens, outer, width), lens, outer, width)
    ensures i < |Concatenated(RowNumbers(lens, outer, width), lens, outer, k)| && outer > 0
    ensures Concatenated(RowNumbers(lens, outer, width), lens, outer, k)[i] == seq(width, _ => i % outer)
  {
    var xs := RowNumbers(lens, outer, width);
    ConcatenatedShape(xs, lens, outer, width, k);
    GridSplit(i, Prefix(lens, k), outer);
    if k > 0 {
      ConcatenatedShape(xs, lens, outer, width, k - 1);
      SliceFits(lens, k - 1, outer);
      var before, len := Prefix(lens, k - 1), lens[k - 1];
      if i < before * outer {
        RowNumbersGather(lens, outer, width, k - 1, i);
      } else {
        MovedRowNumber(lens, outer, width, k - 1, i - before * outer);
        ShiftByRows(i - before * outer, before, outer);
      }
    }
  }

  lemma ReshapeScrambles(lens: seq<nat>, outer: nat, width: nat)
    requires outer >= 2 && Prefix(lens, |lens|) >= 2 && width > 0
    ensures !ReshapeIsCat(lens, outer, width)
  {
    var xs, total := RowNumbers(lens, outer, width), Prefix(lens, |lens|);
    MulMonotone(2, total, outer);
    RowNumbersGather(lens, outer, width, |lens|, 1);
    RowNumbersGather(lens, outer, width, |lens|, outer);
    CatCell(xs, lens, outer, outer, width, 0, 1);
    var g, c := Concatenated(xs, lens, outer, |xs|), CatAlongDim(xs, lens, outer, outer);
    assert c[0 * total + 1] == g[1 * outer + 0];
    DivModUnique(0, 1, outer);
    DivModUnique(1, 0, outer);
    assert g[1][0] == 1 && g[outer][0] == 0;
  }

  /**
   The returned tensor is torch.cat along the dimension, for every input, exactly
   when nothing but single rows lies before the dimension, or at most one cell is
   gathered, or the cells are empty.
   */
  lemma ReshapeIsCatIff(lens: seq<nat>, outer: nat, width: nat)
    ensures ReshapeIsCat(lens, outer, width) <==>
      outer <= 1 || Prefix(lens, |lens|) <= 1 || width == 0
  {
    if outer <= 1 || Prefix(lens, |lens|) <= 1 || width == 0 {
      ReshapeIsCatWhenFlat(lens, outer, width);
    } else {
      ReshapeScrambles(lens, outer, width);
    }
  }
}
