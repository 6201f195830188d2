/** _dequant_paged_kv_to_dense up to the dequantisation: which rows it gathers, and in what order. */
module PagedGather {
  import opened Arith
  import opened PagedCache

  /** Block table: one row of `width` physical block numbers for every request. */
  datatype Batch = Batch(table: seq<seq<nat>>, width: nat, lens: seq<nat>)

  ghost predicate WellFormed(g: Geometry, batch: Batch)
  {
    && |batch.lens| == |batch.table|
    && (forall r :: 0 <= r < |batch.table| ==> |batch.table[r]| == batch.width)
    && forall r, k :: 0 <= r < |batch.table| && 0 <= k < |batch.table[r]| ==> batch.table[r][k] < g.blocks
  }

  function MaxTokens(g: Geometry, batch: Batch): nat
  {
    MulNonNegative(batch.width, g.blockSize);
    batch.width * g.blockSize
  }

  function PaddedTokens(g: Geometry, batch: Batch): nat
  {
    MulNonNegative(|batch.table|, MaxTokens(g, batch));
    |batch.table| * MaxTokens(g, batch)
  }

  // ----- one padded token -----

  lemma TokenPlace(g: Geometry, batch: Batch, k: nat)
    requires WellFormed(g, batch) && k < PaddedTokens(g, batch)
    ensures MaxTokens(g, batch) > 0 && g.blockSize > 0
    ensures 0 <= k / MaxTokens(g, batch) < |batch.table|
    ensures 0 <= k % MaxTokens(g, batch) / g.blockSize < batch.width
    ensures |batch.table[k / MaxTokens(g, batch)]| == batch.width
  {
    GridSplit(k, |batch.table|, MaxTokens(g, batch));
    GridSplit(k % MaxTokens(g, batch), batch.width, g.blockSize);
  }

  /** Physical block of padded token k. */
  function BlockOf(g: Geometry, batch: Batch, k: nat): (b: nat)
    requires WellFormed(g, batch) && k < PaddedTokens(g, batch)
    ensures b < g.blocks
  {
    TokenPlace(g, batch, k);
    batch.table[k / MaxTokens(g, batch)][k % MaxTokens(g, batch) / g.blockSize]
  }

  function OffsetOf(g: Geometry, batch: Batch, k: nat): (o: nat)
    requires WellFormed(g, batch) && k < PaddedTokens(g, batch)
    ensures o < g.blockSize
  {
    TokenPlace(g, batch, k);
    k % MaxTokens(g, batch) % g.blockSize
  }

  /** block_table[pos / bs] * bs + pos % bs. */
  function SlotOf(g: Geometry, batch: Batch, k: nat): (slot: nat)
    requires WellFormed(g, batch) && k < PaddedTokens(g, batch)
    ensures slot < g.blocks * g.blockSize
  {
    GridBound(BlockOf(g, batch, k), OffsetOf(g, batch, k), g.blocks, g.blockSize);
    BlockOf(g, batch, k) * g.blockSize + OffsetOf(g, batch, k)
  }

  /** positions < seq_lens. */
  predicate InLength(g: Geometry, batch: Batch, k: nat)
    requires WellFormed(g, batch) && k < PaddedTokens(g, batch)
  {
    TokenPlace(g, batch, k);
    k % MaxTokens(g, batch) < batch.lens[k / MaxTokens(g, batch)]
  }

  // ----- the tensor pipeline -----

  /** key[flat_ids] as rows: whole blocks in the order of the flattened table. */
  function Picked<R>(g: Geometry, cache: seq<R>, batch: Batch): (rows: seq<R>)
    requires WellFormed(g, batch) && |cache| == Cells(g)
    ensures |rows| == |batch.table| * batch.width * BlockRows(g)
  {
    var n := BlockRows(g);
    MulNonNegative(|batch.table|, batch.width);
    MulNonNegative(|batch.table| * batch.width, n);
    seq(|batch.table| * batch.width * n, i requires 0 <= i < |batch.table| * batch.width * n =>
      (PickedPlace(g, batch, i);
       cache[batch.table[i / n / batch.width][i / n % batch.width] * n + i % n]))
  }

  lemma PickedPlace(g: Geometry, batch: Batch, i: nat)
    requires WellFormed(g, batch) && i < |batch.table| * batch.width * BlockRows(g)
    ensures BlockRows(g) > 0 && batch.width > 0
    ensures 0 <= i / BlockRows(g) / batch.width < |batch.table|
    ensures |batch.table[i / BlockRows(g) / batch.width]| == batch.width
    ensures var block := batch.table[i / BlockRows(g) / batch.width][i / BlockRows(g) % batch.width];
      0 <= block * BlockRows(g) + i % BlockRows(g) < Cells(g)
  {
    var n := BlockRows(g);
    MulNonNegative(|batch.table|, batch.width);
    GridSplit(i, |batch.table| * batch.width, n);
    GridSplit(i / n, |batch.table|, batch.width);
    GridBound(batch.table[i / n / batch.width][i / n % batch.width], i % n, g.blocks, n);
  }

  /** permute(0, 2, 1, 3): every block from [head, offset] to [offset, head] order. */
  function Permuted<R>(g: Geometry, rows: seq<R>): (r: seq<R>)
    requires BlockRows(g) > 0 ==> |rows| % BlockRows(g) == 0
    ensures |r| == |rows|
  {
    var n := BlockRows(g);
    seq(|rows|, i requires 0 <= i < |rows| =>
      if n == 0 then rows[i] else
        (PermutedPlace(g, |rows|, i);
         rows[i / n * n + (i % n % g.heads * g.blockSize + i % n / g.heads)]))
  }

  lemma PermutedPlace(g: Geometry, count: nat, i: nat)
    requires BlockRows(g) > 0 && count % BlockRows(g) == 0 && i < count
    ensures g.heads > 0
    ensures var x := i % BlockRows(g);
      0 <= i / BlockRows(g) * BlockRows(g) + (x % g.heads * g.blockSize + x / g.heads) < count
  {
    var n := BlockRows(g);
    GridSplit(i % n, g.blockSize, g.heads);
    GridBound(i % n % g.heads, i % n / g.heads, g.heads, g.blockSize);
    assert count == count / n * n;
    GridSplit(i, count / n, n);
    GridBound(i / n, i % n % g.heads * g.blockSize + i % n / g.heads, count / n, n);
  }

  lemma WholeBlocks(g: Geometry, blocks: nat)
    ensures BlockRows(g) > 0 ==> 0 <= blocks * BlockRows(g) && blocks * BlockRows(g) % BlockRows(g) == 0
  {
    if BlockRows(g) > 0 {
      DivModUnique(blocks, 0, BlockRows(g));
    }
  }

  /** gathered_k: rows by request, padded position and head. */
  function Gathered<R>(layout: Layout, g: Geometry, cache: seq<R>, batch: Batch): (rows: seq<R>)
    requires WellFormed(g, batch) && |cache| == Cells(g)
    ensures |rows| == |batch.table| * batch.width * BlockRows(g)
  {
    MulNonNegative(|batch.table|, batch.width);
    WholeBlocks(g, |batch.table| * batch.width);
    match layout
    case BnNBsD => Permuted(g, Picked(g, cache, batch))
    case ND => Picked(g, cache, batch)
  }

  lemma PickedAt<R>(g: Geometry, cache: seq<R>, batch: Batch, r: nat, j: nat, x: nat)
    requires WellFormed(g, batch) && |cache| == Cells(g)
    requires r < |batch.table| && j < batch.width && x < BlockRows(g)
    ensures 0 <= (r * batch.width + j) * BlockRows(g) + x < |Picked(g, cache, batch)|
    ensures |batch.table[r]| == batch.width && 0 <= batch.table[r][j] * BlockRows(g) + x < |cache|
    ensures Picked(g, cache, batch)[(r * batch.width + j) * BlockRows(g) + x] ==
      cache[batch.table[r][j] * BlockRows(g) + x]
  {
    hide BlockRows;
    var n := BlockRows(g);
    MulNonNegative(|batch.table|, batch.width);
    GridBound(r, j, |batch.table|, batch.width);
    GridBound(r * batch.width + j, x, |batch.table| * batch.width, n);
    DivModUnique(r * batch.width + j, x, n);
    DivModUnique(r, j, batch.width);
    PickedPlace(g, batch, (r * batch.width + j) * n + x);
  }

  lemma PermutedIs<R>(g: Geometry, rows: seq<R>, i: nat)
    requires BlockRows(g) > 0 && |rows| % BlockRows(g) == 0 && i < |rows|
    ensures g.heads > 0
    ensures var x := i % BlockRows(g);
      var from := i / BlockRows(g) * BlockRows(g) + (x % g.heads * g.blockSize + x / g.heads);
      0 <= from < |rows| && Permuted(g, rows)[i] == rows[from]
  {
    hide BlockRows;
    PermutedPlace(g, |rows|, i);
  }

  lemma PermutedAt<R>(g: Geometry, rows: seq<R>, q: nat, o: nat, h: nat)
    requires BlockRows(g) > 0 && |rows| % BlockRows(g) == 0
    requires q < |rows| / BlockRows(g) && o < g.blockSize && h < g.heads
    ensures 0 <= q * BlockRows(g) + (o * g.heads + h) < |rows|
    ensures 0 <= q * BlockRows(g) + (h * g.blockSize + o) < |rows|
    ensures Permuted(g, rows)[q * BlockRows(g) + (o * g.heads + h)] == rows[q * BlockRows(g) + (h * g.blockSize + o)]
  {
    hide BlockRows, Permuted;
    var n := BlockRows(g);
    BlockRowsAre(g);
    GridBound(o, h, g.blockSize, g.heads);
    GridBound(h, o, g.heads, g.blockSize);
    InBlock(|rows|, n, q, o * g.heads + h);
    InBlock(|rows|, n, q, h * g.blockSize + o);
    PermutedIs(g, rows, q * n + (o * g.heads + h));
    DivModUnique(o, h, g.heads);
  }

  lemma InBlock(count: nat, n: nat, q: nat, x: nat)
    requires n > 0 && count % n == 0 && q < count / n && x < n
    ensures 0 <= q * n + x < count
    ensures (q * n + x) / n == q && (q * n + x) % n == x
  {
    assert count == count / n * n;
    GridBound(q, x, count / n, n);
    DivModUnique(q, x, n);
  }

  /** Row h of padded token k sits at k * N + h, in both layouts. */
  lemma GatheredAt<R>(layout: Layout, g: Geometry, cache: seq<R>, batch: Batch, k: nat, h: nat)
    requires WellFormed(g, batch) && |cache| == Cells(g) && k < PaddedTokens(g, batch) && h < g.heads
    ensures 0 <= k * g.heads + h < |Gathered(layout, g, cache, batch)|
    ensures Gathered(layout, g, cache, batch)[k * g.heads + h] ==
      At(layout, g, cache, BlockOf(g, batch, k), h, OffsetOf(g, batch, k))
  {
    hide BlockRows, Picked, Permuted, Cells;
    TokenPlace(g, batch, k);
    var r, p := k / MaxTokens(g, batch), k % MaxTokens(g, batch);
    var j, o := p / g.blockSize, p % g.blockSize;
    var n := BlockRows(g);
    PlaceInRows(g, batch, k, r, j, o, h);
    GridBound(h, o, g.heads, g.blockSize);
    GridBound(o, h, g.blockSize, g.heads);
    BlockRowsAre(g);
    PickedAt(g, cache, batch, r, j, o * g.heads + h);
    PickedAt(g, cache, batch, r, j, h * g.blockSize + o);
    MulNonNegative(|batch.table|, batch.width);
    WholeBlocks(g, |batch.table| * batch.width);
    GridBound(r, j, |batch.table|, batch.width);
    DivModUnique(|batch.table| * batch.width, 0, n);
    PermutedAt(g, Picked(g, cache, batch), r * batch.width + j, o, h);
  }

  lemma BlockRowsAre(g: Geometry)
    ensures BlockRows(g) == g.heads * g.blockSize == g.blockSize * g.heads
  {
  }

  /** (r * max_tokens + (j * bs + o)) * N + h == (r * width + j) * (N * bs) + (o * N + h). */
  lemma PlaceInRows(g: Geometry, batch: Batch, k: nat, r: nat, j: nat, o: nat, h: nat)
    requires k == r * MaxTokens(g, batch) + (j * g.blockSize + o)
    ensures k * g.heads + h == (r * batch.width + j) * BlockRows(g) + (o * g.heads + h)
  {
    var w, b, n := batch.width, g.blockSize, g.heads;
    MulAssociative(r, w, b);
    MulDistributes(r * w, j, b);
    MulDistributes((r * w + j) * b, o, n);
    MulAssociative(r * w + j, b, n);
  }

  // ----- the length mask, and the list of tokens behind it -----

  /** dense rows of the first k padded tokens: those within their request's length. */
  function Dense<R>(g: Geometry, rows: seq<R>, batch: Batch, k: nat): seq<R>
    requires WellFormed(g, batch) && k <= PaddedTokens(g, batch) && |rows| == PaddedTokens(g, batch) * g.heads
  {
    if k == 0 then [] else
      MulNonNegative(k - 1, g.heads);
      MulDistributes(k - 1, 1, g.heads);
      MulMonotone(k, PaddedTokens(g, batch), g.heads);
      Dense(g, rows, batch, k - 1) + (if InLength(g, batch, k - 1) then rows[(k - 1) * g.heads..k * g.heads] else [])
  }

  /** The slots of the same tokens. */
  function Slots(g: Geometry, batch: Batch, k: nat): (slots: seq<nat>)
    requires WellFormed(g, batch) && k <= PaddedTokens(g, batch)
    ensures forall t :: 0 <= t < |slots| ==> slots[t] < g.blocks * g.blockSize
  {
    if k == 0 then [] else
      Slots(g, batch, k - 1) + (if InLength(g, batch, k - 1) then [SlotOf(g, batch, k - 1)] else [])
  }

  /** A request's tokens follow those of the requests before it, in order of position. */
  lemma {:induction false} SlotsOfRequest(g: Geometry, batch: Batch, r: nat, p: nat)
    requires WellFormed(g, batch) && r < |batch.table| && p <= MaxTokens(g, batch)
    ensures 0 <= r * MaxTokens(g, batch) <= r * MaxTokens(g, batch) + p <= PaddedTokens(g, batch)
    ensures g.blockSize > 0 || p == 0
    ensures Slots(g, batch, r * MaxTokens(g, batch) + p) == Slots(g, batch, r * MaxTokens(g, batch)) +
      seq(if p < batch.lens[r] then p else batch.lens[r],
          q requires 0 <= q < p =>
            (PositionInRow(g, batch, q); batch.table[r][q / g.blockSize] * g.blockSize + q % g.blockSize))
  {
    var max := MaxTokens(g, batch);
    MulNonNegative(r, max);
    MulMonotone(r + 1, |batch.table|, max);
    MulDistributes(r, 1, max);
    if p > 0 {
      SlotsOfRequest(g, batch, r, p - 1);
      DivModUnique(r, p - 1, max);
    }
  }

  lemma PositionInRow(g: Geometry, batch: Batch, q: nat)
    requires q < MaxTokens(g, batch)
    ensures g.blockSize > 0 && 0 <= q / g.blockSize < batch.width
  {
    GridSplit(q, batch.width, g.blockSize);
  }

  /** All heads of the token stored at a slot. */
  function TokenAt<R>(layout: Layout, g: Geometry, cache: seq<R>, slot: nat): (row: seq<R>)
    requires |cache| == Cells(g) && slot < g.blocks * g.blockSize
    ensures |row| == g.heads
  {
    GridSplit(slot, g.blocks, g.blockSize);
    seq(g.heads, h requires 0 <= h < g.heads => At(layout, g, cache, slot / g.blockSize, h, slot % g.blockSize))
  }

  function Flatten<R>(tokens: seq<seq<R>>): seq<R>
  {
    if tokens == [] then [] else Flatten(tokens[..|tokens| - 1]) + tokens[|tokens| - 1]
  }

  function TokensAt<R>(layout: Layout, g: Geometry, cache: seq<R>, slots: seq<nat>): (tokens: seq<seq<R>>)
    requires |cache| == Cells(g) && forall t :: 0 <= t < |slots| ==> slots[t] < g.blocks * g.blockSize
    ensures |tokens| == |slots|
  {
    seq(|slots|, t requires 0 <= t < |slots| => TokenAt(layout, g, cache, slots[t]))
  }

  lemma TokenRows<R>(layout: Layout, g: Geometry, cache: seq<R>, batch: Batch, k: nat)
    requires WellFormed(g, batch) && |cache| == Cells(g) && k < PaddedTokens(g, batch)
    ensures 0 <= k * g.heads <= (k + 1) * g.heads <= |Gathered(layout, g, cache, batch)|
    ensures Gathered(layout, g, cache, batch)[k * g.heads..(k + 1) * g.heads] ==
      TokenAt(layout, g, cache, SlotOf(g, batch, k))
  {
    hide BlockRows, Gathered, Cells, At;
    var rows := Gathered(layout, g, cache, batch);
    GatheredLength(layout, g, cache, batch);
    MulNonNegative(k, g.heads);
    MulDistributes(k, 1, g.heads);
    MulMonotone(k + 1, PaddedTokens(g, batch), g.heads);
    DivModUnique(BlockOf(g, batch, k), OffsetOf(g, batch, k), g.blockSize);
    forall h | 0 <= h < g.heads
      ensures rows[k * g.heads + h] == TokenAt(layout, g, cache, SlotOf(g, batch, k))[h]
    {
      GatheredAt(layout, g, cache, batch, k, h);
    }
  }

  lemma GatheredLength<R>(layout: Layout, g: Geometry, cache: seq<R>, batch: Batch)
    requires WellFormed(g, batch) && |cache| == Cells(g)
    ensures |Gathered(layout, g, cache, batch)| == PaddedTokens(g, batch) * g.heads
  {
    hide Gathered, Cells;
    BlockRowsAre(g);
    var t, w, b, n := |batch.table|, batch.width, g.blockSize, g.heads;
    MulAssociative(t * w, b, n);
    MulAssociative(t, w, b);
  }

  /** Gather, permute and mask deliver exactly the tokens of the listed slots, for either layout. */
  lemma {:induction false} DenseIsTokens<R>(layout: Layout, g: Geometry, cache: seq<R>, batch: Batch, k: nat)
    requires WellFormed(g, batch) && |cache| == Cells(g) && k <= PaddedTokens(g, batch)
    ensures |Gathered(layout, g, cache, batch)| == PaddedTokens(g, batch) * g.heads
    ensures Dense(g, Gathered(layout, g, cache, batch), batch, k) ==
      Flatten(TokensAt(layout, g, cache, Slots(g, batch, k)))
  {
    hide Gathered, Cells, At, TokenAt, InLength, SlotOf;
    GatheredLength(layout, g, cache, batch);
    if k > 0 {
      DenseIsTokens(layout, g, cache, batch, k - 1);
      TokenRows(layout, g, cache, batch, k - 1);
      var before, now := Slots(g, batch, k - 1), Slots(g, batch, k);
      if InLength(g, batch, k - 1) {
        assert now == before + [SlotOf(g, batch, k - 1)];
        var tokens := TokensAt(layout, g, cache, now);
        assert tokens[..|tokens| - 1] == TokensAt(layout, g, cache, before);
      } else {
        assert now == before;
      }
    }
  }
}
