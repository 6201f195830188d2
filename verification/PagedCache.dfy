/**
 The paged KV cache as rows of one head vector each, in the ND layout
 [block, offset, head] and in the BnNBsD layout [block, head, offset].
 */
module PagedCache {
  import opened Arith
  import opened Shardings
  import Tensors

  // ----- layouts -----

  datatype Layout = ND | BnNBsD

  /** Number of blocks, heads reserved per block, and tokens per block. */
  datatype Geometry = Geometry(blocks: nat, heads: nat, blockSize: nat)

  /** Ranks with a smaller share than rank 0 keep the BnNBsD layout. */
  function LayoutOf(tp: nat, rank: nat): Layout
    requires rank < tp
  {
    ShardingsTile(tp);
    if TpShardings(tp)[rank] < TpShardings(tp)[0] then BnNBsD else ND
  }

  /** get_kv_cache_shape, without the leading 2 and the trailing head size. */
  function CacheShape(tp: nat, rank: nat, g: Geometry): seq<nat>
    requires rank < tp
  {
    if LayoutOf(tp, rank) == BnNBsD then [g.blocks, g.heads, g.blockSize] else [g.blocks, g.blockSize, g.heads]
  }

  /** Exactly the trailing ranks of groups of 3, 5, 6 and 7 are small. */
  lemma SmallRanks(tp: nat, rank: nat)
    requires rank < tp
    ensures LayoutOf(tp, rank) == BnNBsD <==>
      (tp == 3 && rank == 2) || (tp == 5 && rank >= 3) || (tp == 6 && rank >= 2) || (tp == 7 && rank >= 1)
  {
  }

  function Cells(g: Geometry): nat
  {
    MulNonNegative(g.blocks, g.heads * g.blockSize);
    g.blocks * (g.heads * g.blockSize)
  }

  /** Rows of one block. */
  function BlockRows(g: Geometry): nat
  {
    MulNonNegative(g.heads, g.blockSize);
    g.heads * g.blockSize
  }

  ghost predicate InCache(g: Geometry, b: int, h: int, o: int)
  {
    0 <= b < g.blocks && 0 <= h < g.heads && 0 <= o < g.blockSize
  }

  /** Row-major position of (block, head, offset); for BnNBsD this is flat_idx. */
  function Index(layout: Layout, g: Geometry, b: nat, h: nat, o: nat): nat
  {
    match layout
    case BnNBsD => b * (g.heads * g.blockSize) + (h * g.blockSize + o)
    case ND => b * (g.heads * g.blockSize) + (o * g.heads + h)
  }

  /** Index is the row-major position in the cache as it was allocated. */
  lemma IndexIsRowMajor(tp: nat, rank: nat, g: Geometry, b: nat, h: nat, o: nat)
    requires rank < tp && InCache(g, b, h, o)
    ensures Index(LayoutOf(tp, rank), g, b, h, o) ==
      Tensors.Ravel(CacheShape(tp, rank, g), if LayoutOf(tp, rank) == BnNBsD then [b, h, o] else [b, o, h])
    ensures Cells(g) == Tensors.Product(CacheShape(tp, rank, g))
  {
    hide LayoutOf;
    ThreeAxes(g.blocks, g.heads, g.blockSize, b, h, o);
    ThreeAxes(g.blocks, g.blockSize, g.heads, b, o, h);
  }

  lemma ThreeAxes(x: nat, y: nat, z: nat, i: nat, j: nat, k: nat)
    ensures Tensors.Product([x, y, z]) == x * (y * z)
    ensures Tensors.Ravel([x, y, z], [i, j, k]) == i * (y * z) + (j * z + k)
  {
    assert [x, y, z][1..] == [y, z] && [y, z][1..] == [z];
    assert [i, j, k][1..] == [j, k] && [j, k][1..] == [k];
    assert Tensors.Product([z]) == z && Tensors.Product([y, z]) == y * z;
    assert Tensors.Ravel([z], [k]) == k;
  }

  lemma IndexInRange(layout: Layout, g: Geometry, b: nat, h: nat, o: nat)
    requires InCache(g, b, h, o)
    ensures Index(layout, g, b, h, o) < Cells(g)
  {
    GridBound(h, o, g.heads, g.blockSize);
    GridBound(o, h, g.blockSize, g.heads);
    GridBound(b, h * g.blockSize + o, g.blocks, g.heads * g.blockSize);
    GridBound(b, o * g.heads + h, g.blocks, g.heads * g.blockSize);
  }

  /** The block, head and offset a position stands for. */
  function Coordinates(layout: Layout, g: Geometry, i: nat): (c: (nat, nat, nat))
    requires i < Cells(g)
    ensures InCache(g, c.0, c.1, c.2)
    ensures Index(layout, g, c.0, c.1, c.2) == i
  {
    var inBlock := g.heads * g.blockSize;
    MulNonNegative(g.heads, g.blockSize);
    GridSplit(i, g.blocks, inBlock);
    var rest := i % inBlock;
    GridSplit(rest, g.heads, g.blockSize);
    GridSplit(rest, g.blockSize, g.heads);
    match layout
    case BnNBsD => (i / inBlock, rest / g.blockSize, rest % g.blockSize)
    case ND => (i / inBlock, rest % g.heads, rest / g.heads)
  }

  /** Coordinates undoes Index, so no two cells share a position. */
  lemma CoordinatesOfIndex(layout: Layout, g: Geometry, b: nat, h: nat, o: nat)
    requires InCache(g, b, h, o)
    ensures Index(layout, g, b, h, o) < Cells(g)
    ensures Coordinates(layout, g, Index(layout, g, b, h, o)) == (b, h, o)
  {
    IndexInRange(layout, g, b, h, o);
    GridBound(h, o, g.heads, g.blockSize);
    GridBound(o, h, g.blockSize, g.heads);
    DivModUnique(b, h * g.blockSize + o, g.heads * g.blockSize);
    DivModUnique(b, o * g.heads + h, g.heads * g.blockSize);
    DivModUnique(h, o, g.blockSize);
    DivModUnique(o, h, g.heads);
  }

  /** The row of one head of one token. */
  function At<R>(layout: Layout, g: Geometry, cache: seq<R>, b: nat, h: nat, o: nat): R
    requires InCache(g, b, h, o) && |cache| == Cells(g)
  {
    IndexInRange(layout, g, b, h, o);
    cache[Index(layout, g, b, h, o)]
  }

  /** The same cache in the other layout. */
  function Relayout<R>(from: Layout, to: Layout, g: Geometry, cache: seq<R>): (r: seq<R>)
    requires |cache| == Cells(g)
    ensures |r| == Cells(g)
  {
    seq(Cells(g), i requires 0 <= i < Cells(g) =>
      var (b, h, o) := Coordinates(to, g, i); At(from, g, cache, b, h, o))
  }

  lemma RelayoutAt<R>(from: Layout, to: Layout, g: Geometry, cache: seq<R>, b: nat, h: nat, o: nat)
    requires |cache| == Cells(g) && InCache(g, b, h, o)
    ensures At(to, g, Relayout(from, to, g, cache), b, h, o) == At(from, g, cache, b, h, o)
  {
    hide Index, Coordinates, Cells;
    CoordinatesOfIndex(to, g, b, h, o);
  }

  /** Two caches are equal as soon as they agree on every cell. */
  lemma EqualByCells<R>(layout: Layout, g: Geometry, x: seq<R>, y: seq<R>)
    requires |x| == |y| == Cells(g)
    requires forall b, h, o :: InCache(g, b, h, o) ==> At(layout, g, x, b, h, o) == At(layout, g, y, b, h, o)
    ensures x == y
  {
    hide Index, Coordinates, Cells;
    forall i | 0 <= i < |x|
      ensures x[i] == y[i]
    {
      var (b, h, o) := Coordinates(layout, g, i);
      assert At(layout, g, x, b, h, o) == At(layout, g, y, b, h, o);
    }
  }

  /** Changing the layout and back is the identity. */
  lemma RelayoutRoundTrip<R>(from: Layout, to: Layout, g: Geometry, cache: seq<R>)
    requires |cache| == Cells(g)
    ensures Relayout(to, from, g, Relayout(from, to, g, cache)) == cache
  {
    hide Index, Coordinates, Cells, Relayout;
    forall b, h, o | InCache(g, b, h, o)
      ensures At(from, g, Relayout(to, from, g, Relayout(from, to, g, cache)), b, h, o) == At(from, g, cache, b, h, o)
    {
      RelayoutAt(to, from, g, Relayout(from, to, g, cache), b, h, o);
      RelayoutAt(from, to, g, cache, b, h, o);
    }
    EqualByCells(from, g, Relayout(to, from, g, Relayout(from, to, g, cache)), cache);
  }

  // ----- writing tokens by slot -----

  /** Every token has m heads and every used slot lies in the cache; a negative slot is padding. */
  ghost predicate Writable<R>(g: Geometry, data: seq<seq<R>>, slots: seq<int>, m: nat)
  {
    && m <= g.heads && |data| == |slots|
    && (forall t :: 0 <= t < |data| ==> |data[t]| == m)
    && forall t :: 0 <= t < |slots| ==> slots[t] < g.blocks * g.blockSize
  }

  /** The row was written by some token at that slot. */
  ghost predicate FromToken<R>(data: seq<seq<R>>, slots: seq<int>, slot: int, h: nat, row: R)
    requires |data| == |slots| && forall t :: 0 <= t < |data| ==> h < |data[t]|
  {
    exists t :: 0 <= t < |slots| && slots[t] == slot && data[t][h] == row
  }

  ghost predicate CellWritten<R>(layout: Layout, g: Geometry, before: seq<R>, after: seq<R>, data: seq<seq<R>>,
                                 slots: seq<int>, m: nat,
                                 b: nat, h: nat, o: nat)
    requires |before| == |after| == Cells(g) && Writable(g, data, slots, m) && InCache(g, b, h, o)
  {
    var slot := b * g.blockSize + o;
    if h < m && slot in slots
    then FromToken(data, slots, slot, h, At(layout, g, after, b, h, o))
    else At(layout, g, after, b, h, o) == At(layout, g, before, b, h, o)
  }

  /**
   What a write by slot mapping leaves behind, cell by cell. For ND this is the
   contract of the device's reshape-and-cache.
   */
  ghost predicate Written<R>(layout: Layout, g: Geometry, before: seq<R>, after: seq<R>, data: seq<seq<R>>,
                             slots: seq<int>, m: nat)
    requires Writable(g, data, slots, m)
  {
    && |before| == |after| == Cells(g)
    && forall b, h, o :: InCache(g, b, h, o) ==> CellWritten(layout, g, before, after, data, slots, m, b, h, o)
  }

  ghost predicate DistinctSlots(slots: seq<int>)
  {
    forall t, u :: 0 <= t < |slots| && 0 <= u < |slots| && slots[t] == slots[u] && slots[t] >= 0 ==> t == u
  }

  /** With distinct slots the write is a function: one outcome per cache before. */
  lemma WrittenIsUnique<R>(layout: Layout, g: Geometry, before: seq<R>, x: seq<R>, y: seq<R>, data: seq<seq<R>>,
                           slots: seq<int>, m: nat)
    requires Writable(g, data, slots, m) && DistinctSlots(slots)
    requires Written(layout, g, before, x, data, slots, m) && Written(layout, g, before, y, data, slots, m)
    ensures x == y
  {
    hide Index, Cells, At;
    forall b, h, o | InCache(g, b, h, o)
      ensures At(layout, g, x, b, h, o) == At(layout, g, y, b, h, o)
    {
      MulNonNegative(b, g.blockSize);
      assert CellWritten(layout, g, before, x, data, slots, m, b, h, o);
      assert CellWritten(layout, g, before, y, data, slots, m, b, h, o);
    }
    EqualByCells(layout, g, x, y);
  }

  /** A write in one layout is, after relayout, a write in the other. */
  lemma WriteRelayouts<R>(from: Layout, to: Layout, g: Geometry, before: seq<R>, after: seq<R>, data: seq<seq<R>>,
                          slots: seq<int>, m: nat)
    requires Writable(g, data, slots, m) && Written(from, g, before, after, data, slots, m)
    ensures Written(to, g, Relayout(from, to, g, before), Relayout(from, to, g, after), data, slots, m)
  {
    hide Index, Cells, At, Relayout, FromToken, Writable;
    forall b, h, o | InCache(g, b, h, o)
      ensures CellWritten(to, g, Relayout(from, to, g, before), Relayout(from, to, g, after), data, slots, m, b, h, o)
    {
      assert CellWritten(from, g, before, after, data, slots, m, b, h, o);
      RelayoutAt(from, to, g, before, b, h, o);
      RelayoutAt(from, to, g, after, b, h, o);
    }
  }

  /** The BnNBsD write refines the ND write: both give the same cache, seen in one layout. */
  lemma ScatterRefinesNdWrite<R>(g: Geometry, before: seq<R>, after: seq<R>, ndAfter: seq<R>, data: seq<seq<R>>,
                                 slots: seq<int>, m: nat)
    requires Writable(g, data, slots, m) && DistinctSlots(slots)
    requires Written(BnNBsD, g, before, after, data, slots, m)
    requires Written(ND, g, Relayout(BnNBsD, ND, g, before), ndAfter, data, slots, m)
    ensures ndAfter == Relayout(BnNBsD, ND, g, after)
  {
    hide CellWritten, Relayout, Writable;
    WriteRelayouts(BnNBsD, ND, g, before, after, data, slots, m);
    WrittenIsUnique(ND, g, Relayout(BnNBsD, ND, g, before), ndAfter, Relayout(BnNBsD, ND, g, after), data, slots, m);
  }

  // ----- the in-place writes -----

  lemma SetCell<R>(layout: Layout, g: Geometry, cache: seq<R>, b: nat, h: nat, o: nat, v: R)
    requires |cache| == Cells(g) && InCache(g, b, h, o)
    ensures Index(layout, g, b, h, o) < Cells(g)
    ensures forall c, k, p :: InCache(g, c, k, p) ==>
      At(layout, g, cache[Index(layout, g, b, h, o) := v], c, k, p) ==
      if (c, k, p) == (b, h, o) then v else At(layout, g, cache, c, k, p)
  {
    hide Index, Coordinates, Cells;
    CoordinatesOfIndex(layout, g, b, h, o);
    forall c, k, p | InCache(g, c, k, p)
      ensures At(layout, g, cache[Index(layout, g, b, h, o) := v], c, k, p) ==
        if (c, k, p) == (b, h, o) then v else At(layout, g, cache, c, k, p)
    {
      CoordinatesOfIndex(layout, g, c, k, p);
    }
  }

  /** The heads of one token go to its slot, and nothing else changes. */
  ghost predicate TokenWritten<R>(g: Geometry, before: seq<R>, after: seq<R>, slot: nat, row: seq<R>)
  {
    && |before| == |after| == Cells(g)
    && forall b, h, o :: InCache(g, b, h, o) ==>
      At(BnNBsD, g, after, b, h, o) ==
      if b * g.blockSize + o == slot && h < |row| then row[h] else At(BnNBsD, g, before, b, h, o)
  }

  lemma SlotIsCell(g: Geometry, slot: nat, b: nat, o: nat)
    requires 0 <= o < g.blockSize
    ensures b * g.blockSize + o == slot <==> b == slot / g.blockSize && o == slot % g.blockSize
  {
    DivModUnique(b, o, g.blockSize);
  }

  lemma OneMoreHead<R>(g: Geometry, before: seq<R>, now: seq<R>, slot: nat, row: seq<R>, h: nat)
    requires slot < g.blocks * g.blockSize && h < |row| <= g.heads
    requires TokenWritten(g, before, now, slot, row[..h])
    ensures g.blockSize > 0 && InCache(g, slot / g.blockSize, h, slot % g.blockSize)
    ensures Index(BnNBsD, g, slot / g.blockSize, h, slot % g.blockSize) < Cells(g)
    ensures TokenWritten(g, before, now[Index(BnNBsD, g, slot / g.blockSize, h, slot % g.blockSize) := row[h]],
                         slot, row[..h + 1])
  {
    hide Index, Coordinates, Cells, At;
    GridSplit(slot, g.blocks, g.blockSize);
    var b, o := slot / g.blockSize, slot % g.blockSize;
    SetCell(BnNBsD, g, now, b, h, o, row[h]);
    forall c, k, p | InCache(g, c, k, p)
      ensures At(BnNBsD, g, now[Index(BnNBsD, g, b, h, o) := row[h]], c, k, p) ==
        if c * g.blockSize + p == slot && k < h + 1 then row[..h + 1][k] else At(BnNBsD, g, before, c, k, p)
    {
      SlotIsCell(g, slot, c, p);
    }
  }

  lemma NoHeadYet<R>(g: Geometry, cache: seq<R>, slot: nat)
    requires |cache| == Cells(g)
    ensures TokenWritten(g, cache, cache, slot, [])
  {
  }

  /** One row of flat_idx: block_id * (N * Bs) + head * Bs + offset for the heads of the data. */
  method WriteToken<R>(cache: array<R>, g: Geometry, slot: nat, row: seq<R>)
    requires cache.Length == Cells(g) && slot < g.blocks * g.blockSize && |row| <= g.heads
    modifies cache
    ensures TokenWritten(g, old(cache[..]), cache[..], slot, row)
  {
    hide Coordinates, Cells, At, TokenWritten;
    NoHeadYet(g, cache[..], slot);
    GridSplit(slot, g.blocks, g.blockSize);
    var block, offset := slot / g.blockSize, slot % g.blockSize;
    for h := 0 to |row|
      invariant TokenWritten(g, old(cache[..]), cache[..], slot, row[..h])
    {
      OneMoreHead(g, old(cache[..]), cache[..], slot, row, h);
      ghost var now := cache[..];
      var flat := block * (g.heads * g.blockSize) + (h * g.blockSize + offset);
      cache[flat] := row[h];
      assert cache[..] == now[flat := row[h]];
    }
    assert row[..|row|] == row;
  }

  lemma OneMoreToken<R>(g: Geometry, before: seq<R>, mid: seq<R>, after: seq<R>, data: seq<seq<R>>, slots: seq<int>,
                        m: nat, i: nat)
    requires Writable(g, data, slots, m) && i < |slots| && slots[i] >= 0
    requires Writable(g, data[..i], slots[..i], m) && Written(BnNBsD, g, before, mid, data[..i], slots[..i], m)
    requires TokenWritten(g, mid, after, slots[i], data[i])
    ensures Writable(g, data[..i + 1], slots[..i + 1], m)
    ensures Written(BnNBsD, g, before, after, data[..i + 1], slots[..i + 1], m)
  {
    hide Cells, At;
    var done, more := slots[..i], slots[..i + 1];
    forall b, h, o | InCache(g, b, h, o)
      ensures CellWritten(BnNBsD, g, before, after, data[..i + 1], more, m, b, h, o)
    {
      var slot := b * g.blockSize + o;
      assert CellWritten(BnNBsD, g, before, mid, data[..i], done, m, b, h, o);
      assert more == done + [slots[i]];
      if h < m && slot == slots[i] {
        assert more[i] == slot && data[..i + 1][i][h] == At(BnNBsD, g, after, b, h, o);
      } else if h < m && slot in done {
        var t :| 0 <= t < i && done[t] == slot && data[..i][t][h] == At(BnNBsD, g, after, b, h, o);
        assert more[t] == slot && data[..i + 1][t][h] == At(BnNBsD, g, after, b, h, o);
      }
    }
  }

  lemma NoTokenYet<R>(g: Geometry, cache: seq<R>, m: nat)
    requires |cache| == Cells(g) && m <= g.heads
    ensures Writable<R>(g, [], [], m) && Written(BnNBsD, g, cache, cache, [], [], m)
  {
    hide Cells, At;
  }

  /** The flattened cache indexed by flat_idx is assigned the valid tokens. */
  method WriteTokens<R>(cache: array<R>, g: Geometry, data: seq<seq<R>>, slots: seq<int>, m: nat)
    requires Writable(g, data, slots, m) && cache.Length == Cells(g)
    requires forall t :: 0 <= t < |slots| ==> slots[t] >= 0
    modifies cache
    ensures Written(BnNBsD, g, old(cache[..]), cache[..], data, slots, m)
  {
    hide Cells, At, TokenWritten, Written;
    NoTokenYet(g, cache[..], m);
    for i := 0 to |slots|
      invariant cache.Length == Cells(g)
      invariant Writable(g, data[..i], slots[..i], m)
      invariant Written(BnNBsD, g, old(cache[..]), cache[..], data[..i], slots[..i], m)
    {
      ghost var mid := cache[..];
      WriteToken(cache, g, slots[i], data[i]);
      OneMoreToken(g, old(cache[..]), mid, cache[..], data, slots, m, i);
    }
    assert data[..|slots|] == data && slots[..|slots|] == slots;
  }

  /** slot_mapping[slot_mapping >= 0]. */
  function ValidSlots(slots: seq<int>): (v: seq<int>)
    ensures forall i :: 0 <= i < |v| ==> v[i] >= 0
  {
    if slots == [] then [] else
      var n := |slots| - 1;
      ValidSlots(slots[..n]) + (if slots[n] >= 0 then [slots[n]] else [])
  }

  /** The tokens the same mask selects. */
  function ValidTokens<R>(data: seq<seq<R>>, slots: seq<int>): (v: seq<seq<R>>)
    requires |data| == |slots|
    ensures |v| == |ValidSlots(slots)|
  {
    if slots == [] then [] else
      var n := |slots| - 1;
      ValidTokens(data[..n], slots[..n]) + (if slots[n] >= 0 then [data[n]] else [])
  }

  method Select<R>(data: seq<seq<R>>, slots: seq<int>) returns (validData: seq<seq<R>>, validSlots: seq<int>)
    requires |data| == |slots|
    ensures validSlots == ValidSlots(slots) && validData == ValidTokens(data, slots)
  {
    validData, validSlots := [], [];
    for t := 0 to |slots|
      invariant validSlots == ValidSlots(slots[..t]) && validData == ValidTokens(data[..t], slots[..t])
    {
      assert slots[..t + 1][..t] == slots[..t] && data[..t + 1][..t] == data[..t];
      if slots[t] >= 0 {
        validData, validSlots := validData + [data[t]], validSlots + [slots[t]];
      }
    }
    assert data[..|slots|] == data && slots[..|slots|] == slots;
  }

  lemma {:induction false} ValidWritable<R>(g: Geometry, data: seq<seq<R>>, slots: seq<int>, m: nat)
    requires Writable(g, data, slots, m)
    ensures Writable(g, ValidTokens(data, slots), ValidSlots(slots), m)
  {
    if slots != [] {
      var n := |slots| - 1;
      ValidWritable(g, data[..n], slots[..n], m);
    }
  }

  lemma FromTokenAppend<R>(data: seq<seq<R>>, slots: seq<int>, d: seq<R>, s: int, slot: int, h: nat, row: R)
    requires |data| == |slots| && h < |d| && forall t :: 0 <= t < |data| ==> h < |data[t]|
    ensures FromToken(data + [d], slots + [s], slot, h, row) <==>
      FromToken(data, slots, slot, h, row) || (s == slot && d[h] == row)
  {
    var moreData, more := data + [d], slots + [s];
    if s == slot && d[h] == row {
      assert more[|slots|] == slot && moreData[|slots|][h] == row;
    }
    if FromToken(data, slots, slot, h, row) {
      var t :| 0 <= t < |slots| && slots[t] == slot && data[t][h] == row;
      assert more[t] == slot && moreData[t][h] == row;
    }
    if FromToken(moreData, more, slot, h, row) {
      var t :| 0 <= t < |more| && more[t] == slot && moreData[t][h] == row;
      assert t < |slots| ==> slots[t] == slot && data[t][h] == row;
    }
  }

  /** The mask drops nothing that a real slot could see. */
  lemma {:induction false} SelectionKeeps<R>(data: seq<seq<R>>, slots: seq<int>, m: nat, slot: nat, h: nat, row: R)
    requires |data| == |slots| && h < m && forall t :: 0 <= t < |data| ==> |data[t]| == m
    ensures forall t :: 0 <= t < |ValidTokens(data, slots)| ==> |ValidTokens(data, slots)[t]| == m
    ensures slot in ValidSlots(slots) <==> slot in slots
    ensures FromToken(ValidTokens(data, slots), ValidSlots(slots), slot, h, row) <==>
      FromToken(data, slots, slot, h, row)
  {
    hide FromToken;
    if slots == [] {
      assert ValidTokens(data, slots) == data && ValidSlots(slots) == slots;
    } else {
      var n := |slots| - 1;
      SelectionKeeps(data[..n], slots[..n], m, slot, h, row);
      assert slots == slots[..n] + [slots[n]] && data == data[..n] + [data[n]];
      FromTokenAppend(data[..n], slots[..n], data[n], slots[n], slot, h, row);
      if slots[n] >= 0 {
        FromTokenAppend(ValidTokens(data[..n], slots[..n]), ValidSlots(slots[..n]), data[n], slots[n], slot, h, row);
      } else {
        assert ValidTokens(data, slots) == ValidTokens(data[..n], slots[..n]);
        assert ValidSlots(slots) == ValidSlots(slots[..n]);
      }
    }
  }

  /** Writing only the valid tokens is writing the token list with its padding skipped. */
  lemma PaddingIsSkipped<R>(g: Geometry, before: seq<R>, after: seq<R>, data: seq<seq<R>>, slots: seq<int>, m: nat)
    requires Writable(g, data, slots, m) && Writable(g, ValidTokens(data, slots), ValidSlots(slots), m)
    requires Written(BnNBsD, g, before, after, ValidTokens(data, slots), ValidSlots(slots), m)
    ensures Written(BnNBsD, g, before, after, data, slots, m)
  {
    hide Cells, At, FromToken, ValidTokens, ValidSlots;
    forall b, h, o | InCache(g, b, h, o)
      ensures CellWritten(BnNBsD, g, before, after, data, slots, m, b, h, o)
    {
      assert CellWritten(BnNBsD, g, before, after, ValidTokens(data, slots), ValidSlots(slots), m, b, h, o);
      MulNonNegative(b, g.blockSize);
      if h < m {
        SelectionKeeps(data, slots, m, b * g.blockSize + o, h, At(BnNBsD, g, after, b, h, o));
      }
    }
  }

  /** scatter_write_cache. */
  method ScatterWriteCache<R>(key: seq<seq<R>>, value: seq<seq<R>>, keyCache: array<R>, valueCache: array<R>,
                              g: Geometry, slots: seq<int>, m: nat)
    requires Writable(g, key, slots, m) && Writable(g, value, slots, m)
    requires keyCache.Length == valueCache.Length == Cells(g) && keyCache != valueCache
    modifies keyCache, valueCache
    ensures Written(BnNBsD, g, old(keyCache[..]), keyCache[..], key, slots, m)
    ensures Written(BnNBsD, g, old(valueCache[..]), valueCache[..], value, slots, m)
  {
    hide Cells, At, Written;
    var validKey, validSlots := Select(key, slots);
    var validValue, _ := Select(value, slots);
    ValidWritable(g, key, slots, m);
    ValidWritable(g, value, slots, m);
    if |validSlots| == 0 {
      assert validKey == [] && validValue == [] && validSlots == [];
      NoTokenYet(g, keyCache[..], m);
      NoTokenYet(g, valueCache[..], m);
    } else {
      WriteTokens(keyCache, g, validKey, validSlots, m);
      WriteTokens(valueCache, g, validValue, validSlots, m);
    }
    PaddingIsSkipped(g, old(keyCache[..]), keyCache[..], key, slots, m);
    PaddingIsSkipped(g, old(valueCache[..]), valueCache[..], value, slots, m);
  }
}
