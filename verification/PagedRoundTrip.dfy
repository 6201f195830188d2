/** Writing tokens by slot and reading them back through the block table. */
module PagedRoundTrip {
  import opened Wrappers
  import opened Arith
  import opened PagedCache
  import opened PagedGather

  // ----- the slots of a batch -----

  /** No physical block serves two places that hold tokens. */
  ghost predicate UsedBlocksDistinct(g: Geometry, batch: Batch)
    requires WellFormed(g, batch)
  {
    forall r, j, s, l ::
      (&& 0 <= r < |batch.table| && 0 <= j < batch.width && j * g.blockSize < batch.lens[r]
       && 0 <= s < |batch.table| && 0 <= l < batch.width && l * g.blockSize < batch.lens[s]
       && batch.table[r][j] == batch.table[s][l])
      ==> r == s && j == l
  }

  lemma {:induction false} SlotComesFrom(g: Geometry, batch: Batch, k: nat, slot: nat)
    requires WellFormed(g, batch) && k <= PaddedTokens(g, batch) && slot in Slots(g, batch, k)
    ensures exists l :: 0 <= l < k && InLength(g, batch, l) && SlotOf(g, batch, l) == slot
  {
    hide InLength, SlotOf;
    if InLength(g, batch, k - 1) && SlotOf(g, batch, k - 1) == slot {
    } else {
      SlotComesFrom(g, batch, k - 1, slot);
    }
  }

  /** Two different tokens within their lengths never share a slot. */
  lemma SlotsDiffer(g: Geometry, batch: Batch, k: nat, l: nat)
    requires WellFormed(g, batch) && k < PaddedTokens(g, batch) && l < PaddedTokens(g, batch)
    ensures (&& UsedBlocksDistinct(g, batch) && InLength(g, batch, k) && InLength(g, batch, l)
             && SlotOf(g, batch, k) == SlotOf(g, batch, l)) ==> k == l
  {
    hide UsedBlocksDistinct;
    var max, b := MaxTokens(g, batch), g.blockSize;
    TokenPlace(g, batch, k);
    TokenPlace(g, batch, l);
    DivModUnique(BlockOf(g, batch, k), OffsetOf(g, batch, k), b);
    DivModUnique(BlockOf(g, batch, l), OffsetOf(g, batch, l), b);
    GridSplit(k, |batch.table|, max);
    GridSplit(l, |batch.table|, max);
    GridSplit(k % max, batch.width, b);
    GridSplit(l % max, batch.width, b);
    UsedBlock(g, batch, k / max, k % max / b, l / max, l % max / b);
  }

  lemma UsedBlock(g: Geometry, batch: Batch, r: nat, j: nat, s: nat, l: nat)
    requires WellFormed(g, batch)
    requires r < |batch.table| && j < batch.width && s < |batch.table| && l < batch.width
    ensures (&& UsedBlocksDistinct(g, batch)
             && j * g.blockSize < batch.lens[r] && l * g.blockSize < batch.lens[s]
             && batch.table[r][j] == batch.table[s][l]) ==> r == s && j == l
  {
  }

  lemma {:induction false} SlotsDistinct(g: Geometry, batch: Batch, k: nat)
    requires WellFormed(g, batch) && UsedBlocksDistinct(g, batch) && k <= PaddedTokens(g, batch)
    ensures DistinctSlots(Slots(g, batch, k))
  {
    hide InLength, SlotOf, UsedBlocksDistinct;
    if k > 0 {
      SlotsDistinct(g, batch, k - 1);
      var before := Slots(g, batch, k - 1);
      if InLength(g, batch, k - 1) {
        forall t | 0 <= t < |before|
          ensures before[t] != SlotOf(g, batch, k - 1)
        {
          SlotComesFrom(g, batch, k - 1, before[t]);
          var l :| 0 <= l < k - 1 && InLength(g, batch, l) && SlotOf(g, batch, l) == before[t];
          if before[t] == SlotOf(g, batch, k - 1) {
            SlotsDiffer(g, batch, l, k - 1);
          }
        }
      }
    }
  }

  // ----- reading written tokens -----

  /** The first m heads of the token at a slot. */
  ghost predicate Holds<R>(layout: Layout, g: Geometry, cache: seq<R>, slot: int, m: nat, row: seq<R>)
  {
    && |cache| == Cells(g) && m <= g.heads && 0 <= slot < g.blocks * g.blockSize
    && TokenAt(layout, g, cache, slot)[..m] == row
  }

  /** After a write with distinct slots, each slot's first m heads are its token. */
  lemma ReadBack<R>(layout: Layout, g: Geometry, before: seq<R>, after: seq<R>, data: seq<seq<R>>, slots: seq<int>,
                    m: nat, t: nat)
    requires Writable(g, data, slots, m) && DistinctSlots(slots)
    requires Written(layout, g, before, after, data, slots, m) && t < |slots| && slots[t] >= 0
    ensures Holds(layout, g, after, slots[t], m, data[t])
  {
    hide At, Cells;
    GridSplit(slots[t], g.blocks, g.blockSize);
    var b, o := slots[t] / g.blockSize, slots[t] % g.blockSize;
    forall h | 0 <= h < m
      ensures At(layout, g, after, b, h, o) == data[t][h]
    {
      assert CellWritten(layout, g, before, after, data, slots, m, b, h, o);
      assert slots[t] in slots;
    }
  }

  /** A write leaves the tokens of all other slots alone. */
  lemma OthersStay<R>(layout: Layout, g: Geometry, before: seq<R>, after: seq<R>, data: seq<seq<R>>,
                      slots: seq<int>, m: nat,
                      slot: nat, row: seq<R>)
    requires Writable(g, data, slots, m) && Written(layout, g, before, after, data, slots, m)
    requires slot !in slots && Holds(layout, g, before, slot, m, row)
    ensures Holds(layout, g, after, slot, m, row)
  {
    hide At, Cells;
    GridSplit(slot, g.blocks, g.blockSize);
    var b, o := slot / g.blockSize, slot % g.blockSize;
    forall h | 0 <= h < g.heads
      ensures At(layout, g, after, b, h, o) == At(layout, g, before, b, h, o)
    {
      assert CellWritten(layout, g, before, after, data, slots, m, b, h, o);
    }
    assert TokenAt(layout, g, after, slot) == TokenAt(layout, g, before, slot);
  }

  // ----- many writes -----

  /** One call of the cache write. */
  datatype Call<R> = Call(data: seq<seq<R>>, slots: seq<int>)

  /** The caches before, between and after the calls. */
  ghost predicate Ran<R>(layout: Layout, g: Geometry, caches: seq<seq<R>>, calls: seq<Call<R>>, m: nat)
  {
    && |caches| == |calls| + 1 && (forall i :: 0 <= i < |caches| ==> |caches[i]| == Cells(g))
    && forall i :: 0 <= i < |calls| ==>
      && Writable(g, calls[i].data, calls[i].slots, m)
      && Written(layout, g, caches[i], caches[i + 1], calls[i].data, calls[i].slots, m)
  }

  /** Call i wrote the row to the slot, and no later call used the slot. */
  ghost predicate WroteLast<R>(calls: seq<Call<R>>, i: nat, slot: nat, row: seq<R>)
    requires i < |calls|
  {
    && DistinctSlots(calls[i].slots) && |calls[i].data| == |calls[i].slots|
    && (exists u :: 0 <= u < |calls[i].slots| && calls[i].slots[u] == slot && calls[i].data[u] == row)
    && forall j :: i < j < |calls| ==> slot !in calls[j].slots
  }

  ghost predicate LastWritten<R>(calls: seq<Call<R>>, slot: nat, row: seq<R>)
  {
    exists i :: 0 <= i < |calls| && WroteLast(calls, i, slot, row)
  }

  /** The last row written to a slot is there at the end, however many calls came between. */
  lemma {:induction false} LastRowStays<R>(layout: Layout, g: Geometry, caches: seq<seq<R>>, calls: seq<Call<R>>,
                                           m: nat,
                                           i: nat, slot: nat, row: seq<R>)
    requires Ran(layout, g, caches, calls, m) && i < |calls| && WroteLast(calls, i, slot, row)
    ensures Holds(layout, g, caches[|calls|], slot, m, row)
  {
    hide Holds, Written, Writable;
    var n := |calls| - 1;
    if i == n {
      var u :| 0 <= u < |calls[i].slots| && calls[i].slots[u] == slot && calls[i].data[u] == row;
      ReadBack(layout, g, caches[n], caches[n + 1], calls[n].data, calls[n].slots, m, u);
    } else {
      assert calls[..n][i] == calls[i];
      LastRowStays(layout, g, caches[..n + 1], calls[..n], m, i, slot, row);
      OthersStay(layout, g, caches[n], caches[n + 1], calls[n].data, calls[n].slots, m, slot, row);
    }
  }

  /** Two writes to different slots are one write of both token lists. */
  lemma WritesCompose<R>(layout: Layout, g: Geometry, before: seq<R>, mid: seq<R>, after: seq<R>, first: Call<R>,
                         second: Call<R>, m: nat)
    requires Writable(g, first.data, first.slots, m) && Writable(g, second.data, second.slots, m)
    requires Written(layout, g, before, mid, first.data, first.slots, m)
    requires Written(layout, g, mid, after, second.data, second.slots, m)
    requires forall slot :: slot >= 0 && slot in first.slots ==> slot !in second.slots
    ensures Writable(g, first.data + second.data, first.slots + second.slots, m)
    ensures Written(layout, g, before, after, first.data + second.data, first.slots + second.slots, m)
  {
    hide At, Cells, FromToken;
    var data, slots := first.data + second.data, first.slots + second.slots;
    forall b, h, o | InCache(g, b, h, o)
      ensures CellWritten(layout, g, before, after, data, slots, m, b, h, o)
    {
      assert CellWritten(layout, g, before, mid, first.data, first.slots, m, b, h, o);
      assert CellWritten(layout, g, mid, after, second.data, second.slots, m, b, h, o);
      MulNonNegative(b, g.blockSize);
      if h < m {
        FromEither(first, second, b * g.blockSize + o, h, At(layout, g, after, b, h, o), m);
      }
    }
  }

  lemma FromEither<R>(first: Call<R>, second: Call<R>, slot: nat, h: nat, row: R, m: nat)
    requires |first.data| == |first.slots| && |second.data| == |second.slots| && h < m
    requires forall t :: 0 <= t < |first.data| ==> |first.data[t]| == m
    requires forall t :: 0 <= t < |second.data| ==> |second.data[t]| == m
    ensures var data, slots := first.data + second.data, first.slots + second.slots;
      && (FromToken(first.data, first.slots, slot, h, row) ==> FromToken(data, slots, slot, h, row))
      && (FromToken(second.data, second.slots, slot, h, row) ==> FromToken(data, slots, slot, h, row))
  {
    var data, slots := first.data + second.data, first.slots + second.slots;
    if t :| 0 <= t < |first.slots| && first.slots[t] == slot && first.data[t][h] == row {
      assert slots[t] == slot && data[t][h] == row;
    }
    if t :| 0 <= t < |second.slots| && second.slots[t] == slot && second.data[t][h] == row {
      assert slots[|first.slots| + t] == slot && data[|first.slots| + t][h] == row;
    }
  }

  // ----- _prepare_paged_cache_for_fia -----

  function WithHeads(g: Geometry, m: nat): Geometry
  {
    Geometry(g.blocks, m, g.blockSize)
  }

  /** BnNBsD: the cache itself when its heads match, otherwise its first m heads. */
  function PrepareBnNBsD<R>(g: Geometry, cache: seq<R>, m: nat): (r: seq<R>)
    requires |cache| == Cells(g) && m <= g.heads
    ensures |r| == Cells(WithHeads(g, m))
  {
    if g.heads == m then cache else
      seq(Cells(WithHeads(g, m)), i requires 0 <= i < Cells(WithHeads(g, m)) =>
        var (b, h, o) := Coordinates(BnNBsD, WithHeads(g, m), i); At(BnNBsD, g, cache, b, h, o))
  }

  lemma PreparedAt<R>(g: Geometry, cache: seq<R>, m: nat, b: nat, h: nat, o: nat)
    requires |cache| == Cells(g) && m <= g.heads && InCache(WithHeads(g, m), b, h, o)
    ensures At(BnNBsD, WithHeads(g, m), PrepareBnNBsD(g, cache, m), b, h, o) == At(BnNBsD, g, cache, b, h, o)
  {
    hide Index, Coordinates, Cells;
    CoordinatesOfIndex(BnNBsD, WithHeads(g, m), b, h, o);
  }

  lemma PreparedToken<R>(g: Geometry, cache: seq<R>, m: nat, slot: nat)
    requires |cache| == Cells(g) && m <= g.heads && slot < g.blocks * g.blockSize
    ensures TokenAt(BnNBsD, WithHeads(g, m), PrepareBnNBsD(g, cache, m), slot) == TokenAt(BnNBsD, g, cache, slot)[..m]
  {
    hide At, Cells, PrepareBnNBsD;
    GridSplit(slot, g.blocks, g.blockSize);
    forall h | 0 <= h < m
      ensures At(BnNBsD, WithHeads(g, m), PrepareBnNBsD(g, cache, m), slot / g.blockSize, h, slot % g.blockSize) ==
        At(BnNBsD, g, cache, slot / g.blockSize, h, slot % g.blockSize)
    {
      PreparedAt(g, cache, m, slot / g.blockSize, h, slot % g.blockSize);
    }
  }

  // ----- view(-1, num_kv_heads, head_size) -----

  /** Rows regrouped m to a token; the view fails when they do not divide. */
  function Regroup<R>(rows: seq<R>, m: nat): Option<seq<seq<R>>>
    requires m > 0
  {
    if |rows| % m != 0 then None else
      Some(seq(|rows| / m, i requires 0 <= i < |rows| / m => (RegroupBound(|rows|, m, i); rows[i * m..i * m + m])))
  }

  lemma RegroupBound(n: nat, m: nat, i: nat)
    requires m > 0 && n % m == 0 && i < n / m
    ensures 0 <= i * m <= i * m + m <= n
  {
    MulNonNegative(i, m);
    MulMonotone(i, n / m, m);
    assert n == n / m * m;
  }

  lemma {:induction false} FlattenLength<R>(tokens: seq<seq<R>>, n: nat)
    requires forall t :: 0 <= t < |tokens| ==> |tokens[t]| == n
    ensures |Flatten(tokens)| == |tokens| * n
  {
    if tokens != [] {
      FlattenLength(tokens[..|tokens| - 1], n);
      MulDistributes(|tokens| - 1, 1, n);
    }
  }

  lemma {:induction false} FlattenAt<R>(tokens: seq<seq<R>>, n: nat, t: nat)
    requires t < |tokens| && forall u :: 0 <= u < |tokens| ==> |tokens[u]| == n
    ensures 0 <= t * n <= t * n + n <= |Flatten(tokens)|
    ensures Flatten(tokens)[t * n..t * n + n] == tokens[t]
  {
    var front := tokens[..|tokens| - 1];
    FlattenLength(front, n);
    MulNonNegative(t, n);
    MulMonotone(t, |tokens| - 1, n);
    if t < |front| {
      FlattenAt(front, n, t);
    }
  }

  lemma RegroupIs<R>(rows: seq<R>, m: nat, count: nat)
    requires m > 0 && |rows| == count * m
    ensures Regroup(rows, m).Some? && |Regroup(rows, m).value| == count
    ensures forall i :: 0 <= i < count ==>
      0 <= i * m <= i * m + m <= |rows| && Regroup(rows, m).value[i] == rows[i * m..i * m + m]
  {
    DivModUnique(count, 0, m);
    forall i | 0 <= i < count
      ensures 0 <= i * m <= i * m + m <= |rows|
    {
      RegroupBound(|rows|, m, i);
    }
  }

  lemma RegroupFlatten<R>(tokens: seq<seq<R>>, m: nat)
    requires m > 0 && forall t :: 0 <= t < |tokens| ==> |tokens[t]| == m
    ensures Regroup(Flatten(tokens), m) == Some(tokens)
  {
    hide Flatten, Regroup;
    FlattenLength(tokens, m);
    RegroupIs(Flatten(tokens), m, |tokens|);
    var value := Regroup(Flatten(tokens), m).value;
    forall t | 0 <= t < |tokens|
      ensures value[t] == tokens[t]
    {
      FlattenAt(tokens, m, t);
    }
    assert value == tokens;
  }

  /** Regrouping by another width than the rows were laid out with changes the number of tokens. */
  lemma RegroupCount<R>(tokens: seq<seq<R>>, n: nat, m: nat)
    requires m > 0 && n != m && tokens != [] && forall t :: 0 <= t < |tokens| ==> |tokens[t]| == n
    ensures Regroup(Flatten(tokens), m).Some? ==> |Regroup(Flatten(tokens), m).value| != |tokens|
  {
    hide Flatten;
    FlattenLength(tokens, n);
    MulMonotone(n, m, |tokens|);
    MulMonotone(m, n, |tokens|);
    if Regroup(Flatten(tokens), m).Some? {
      assert |tokens| * n == |tokens| * n / m * m;
    }
  }

  // ----- the dense keys of a batch -----

  /** Whether the 4-D cache itself is passed on, or what _prepare_paged_cache_for_fia made of it. */
  datatype Passed = Raw | Prepared

  /**
   The ND branch reads its row width from dimension 2: heads * d of a prepared
   3-D view, but only `heads` of a raw 4-D cache. The view to (batch, tokens,
   width) then asks for an equal number of elements.
   */
  predicate NdViewFits(passed: Passed, tokens: nat, heads: nat, d: nat)
  {
    passed == Prepared || tokens * heads == tokens * heads * d
  }

  /** The dense tokens, m heads each, before scale and offset. */
  function DenseKv<R>(layout: Layout, passed: Passed, g: Geometry, d: nat, cache: seq<R>, batch: Batch,
                      m: nat): Option<seq<seq<R>>>
    requires WellFormed(g, batch) && |cache| == Cells(g) && 0 < m <= g.heads
  {
    match layout
    case BnNBsD =>
      var seen := if passed == Prepared then WithHeads(g, m) else g;
      var rows := if passed == Prepared then PrepareBnNBsD(g, cache, m) else cache;
      GatheredLength(layout, seen, rows, batch);
      Regroup(Dense(seen, Gathered(layout, seen, rows, batch), batch, PaddedTokens(seen, batch)), m)
    case ND =>
      GatheredLength(layout, g, cache, batch);
      if NdViewFits(passed, PaddedTokens(g, batch), g.heads, d)
      then Regroup(Dense(g, Gathered(layout, g, cache, batch), batch, PaddedTokens(g, batch)), m)
      else None
  }

  /** The tokens of a batch in request order. */
  function BatchSlots(g: Geometry, batch: Batch): (slots: seq<nat>)
    requires WellFormed(g, batch)
    ensures forall t :: 0 <= t < |slots| ==> slots[t] < g.blocks * g.blockSize
  {
    Slots(g, batch, PaddedTokens(g, batch))
  }

  /** Each of the batch's slots holds its token. Requests may share blocks that hold the same tokens. */
  ghost predicate Stored<R>(layout: Layout, g: Geometry, cache: seq<R>, data: seq<seq<R>>, batch: Batch, m: nat)
    requires WellFormed(g, batch)
  {
    && |cache| == Cells(g) && |data| == |BatchSlots(g, batch)|
    && forall t :: 0 <= t < |data| ==> |data[t]| == m && Holds(layout, g, cache, BatchSlots(g, batch)[t], m, data[t])
  }

  /** One write of the whole batch stores it, when no used block is used twice. */
  lemma StoredByOneWrite<R>(layout: Layout, g: Geometry, before: seq<R>, cache: seq<R>, data: seq<seq<R>>,
                            batch: Batch, m: nat)
    requires WellFormed(g, batch) && UsedBlocksDistinct(g, batch) && Writable(g, data, BatchSlots(g, batch), m)
    requires Written(layout, g, before, cache, data, BatchSlots(g, batch), m)
    ensures Stored(layout, g, cache, data, batch, m)
  {
    hide Holds, Slots, UsedBlocksDistinct, CellWritten;
    SlotsDistinct(g, batch, PaddedTokens(g, batch));
    forall t | 0 <= t < |data|
      ensures Holds(layout, g, cache, BatchSlots(g, batch)[t], m, data[t])
    {
      ReadBack(layout, g, before, cache, data, BatchSlots(g, batch), m, t);
    }
  }

  /** So does any sequence of writes in which each token was the last one written to its slot. */
  lemma StoredByWrites<R>(layout: Layout, g: Geometry, caches: seq<seq<R>>, calls: seq<Call<R>>, data: seq<seq<R>>,
                          batch: Batch, m: nat)
    requires WellFormed(g, batch) && Ran(layout, g, caches, calls, m)
    requires |data| == |BatchSlots(g, batch)| && forall t :: 0 <= t < |data| ==> |data[t]| == m
    requires forall t :: 0 <= t < |data| ==>
      LastWritten(calls, BatchSlots(g, batch)[t], data[t])
    ensures Stored(layout, g, caches[|calls|], data, batch, m)
  {
    hide Holds, Slots, Written, Writable, WroteLast;
    forall t | 0 <= t < |data|
      ensures Holds(layout, g, caches[|calls|], BatchSlots(g, batch)[t], m, data[t])
    {
      var i :| 0 <= i < |calls| && WroteLast(calls, i, BatchSlots(g, batch)[t], data[t]);
      LastRowStays(layout, g, caches, calls, m, i, BatchSlots(g, batch)[t], data[t]);
    }
  }

  /** The slots of a batch do not depend on the number of heads. */
  lemma {:induction false} SlotsIgnoreHeads(g: Geometry, batch: Batch, m: nat, k: nat)
    requires WellFormed(g, batch) && k <= PaddedTokens(g, batch)
    ensures WellFormed(WithHeads(g, m), batch) && PaddedTokens(WithHeads(g, m), batch) == PaddedTokens(g, batch)
    ensures Slots(WithHeads(g, m), batch, k) == Slots(g, batch, k)
  {
    if k > 0 {
      SlotsIgnoreHeads(g, batch, m, k - 1);
    }
  }

  /** All heads of the stored tokens, as a gather without slicing sees them. */
  lemma RawTokens<R>(layout: Layout, g: Geometry, cache: seq<R>, data: seq<seq<R>>, batch: Batch, m: nat)
    requires WellFormed(g, batch) && Stored(layout, g, cache, data, batch, m)
    ensures |TokensAt(layout, g, cache, BatchSlots(g, batch))| == |data|
    ensures forall t :: 0 <= t < |data| ==>
      && |TokensAt(layout, g, cache, BatchSlots(g, batch))[t]| == g.heads
      && TokensAt(layout, g, cache, BatchSlots(g, batch))[t][..m] == data[t]
  {
    hide At, Cells, TokenAt, Slots;
  }

  /** Prepare and gather: BnNBsD gives back the stored tokens, with any number of padding heads. */
  lemma PreparedRoundTrip<R>(g: Geometry, d: nat, cache: seq<R>, data: seq<seq<R>>, batch: Batch, m: nat)
    requires WellFormed(g, batch) && 0 < m <= g.heads && Stored(BnNBsD, g, cache, data, batch, m)
    ensures DenseKv(BnNBsD, Prepared, g, d, cache, batch, m) == Some(data)
  {
    hide At, Cells, TokenAt, Slots, Gathered, Dense, Regroup, Flatten, PrepareBnNBsD;
    var seen, rows, slots := WithHeads(g, m), PrepareBnNBsD(g, cache, m), BatchSlots(g, batch);
    SlotsIgnoreHeads(g, batch, m, PaddedTokens(g, batch));
    DenseIsTokens(BnNBsD, seen, rows, batch, PaddedTokens(seen, batch));
    RawTokens(BnNBsD, g, cache, data, batch, m);
    var tokens := TokensAt(BnNBsD, seen, rows, slots);
    forall t | 0 <= t < |data|
      ensures tokens[t] == data[t]
    {
      PreparedToken(g, cache, m, slots[t]);
      assert TokensAt(BnNBsD, g, cache, slots)[t][..m] == data[t];
    }
    assert tokens == data;
    RegroupFlatten(tokens, m);
  }

  /** After prefill and decode writes in any order, the batch is read back as it was last written. */
  lemma RoundTripAfterWrites<R>(g: Geometry, d: nat, caches: seq<seq<R>>, calls: seq<Call<R>>, data: seq<seq<R>>,
                                batch: Batch, m: nat)
    requires WellFormed(g, batch) && 0 < m <= g.heads && Ran(BnNBsD, g, caches, calls, m)
    requires |data| == |BatchSlots(g, batch)| && forall t :: 0 <= t < |data| ==> |data[t]| == m
    requires forall t :: 0 <= t < |data| ==>
      LastWritten(calls, BatchSlots(g, batch)[t], data[t])
    ensures DenseKv(BnNBsD, Prepared, g, d, caches[|calls|], batch, m) == Some(data)
  {
    hide DenseKv, Stored, Written, Writable, LastWritten;
    StoredByWrites(BnNBsD, g, caches, calls, data, batch, m);
    PreparedRoundTrip(g, d, caches[|calls|], data, batch, m);
  }

  /** Without slicing, the tokens come back if and only if the cache has no padding heads. */
  lemma UnslicedIff<R>(layout: Layout, g: Geometry, cache: seq<R>, data: seq<seq<R>>, batch: Batch, m: nat)
    requires WellFormed(g, batch) && 0 < m <= g.heads && Stored(layout, g, cache, data, batch, m) && data != []
    ensures |Gathered(layout, g, cache, batch)| == PaddedTokens(g, batch) * g.heads
    ensures var rows := Dense(g, Gathered(layout, g, cache, batch), batch, PaddedTokens(g, batch));
      Regroup(rows, m) == Some(data) <==> g.heads == m
  {
    hide At, Cells, TokenAt, Slots, Gathered, Dense, Regroup, Flatten;
    var tokens := TokensAt(layout, g, cache, BatchSlots(g, batch));
    DenseIsTokens(layout, g, cache, batch, PaddedTokens(g, batch));
    RawTokens(layout, g, cache, data, batch, m);
    if g.heads == m {
      forall t | 0 <= t < |data|
        ensures tokens[t] == data[t]
      {
        assert tokens[t][..m] == data[t];
      }
      assert tokens == data;
      RegroupFlatten(tokens, m);
    } else {
      RegroupCount(tokens, g.heads, m);
    }
  }

  /** BnNBsD, cache passed raw: right if and only if there are no padding heads. */
  lemma RawBnNBsDIff<R>(g: Geometry, d: nat, cache: seq<R>, data: seq<seq<R>>, batch: Batch, m: nat)
    requires WellFormed(g, batch) && 0 < m <= g.heads && Stored(BnNBsD, g, cache, data, batch, m) && data != []
    ensures DenseKv(BnNBsD, Raw, g, d, cache, batch, m) == Some(data) <==> g.heads == m
  {
    hide Cells, Gathered, Dense, Regroup, Stored;
    UnslicedIff(BnNBsD, g, cache, data, batch, m);
  }

  /** ND: right if and only if there are no padding heads and a raw cache has head size 1. */
  lemma NdIff<R>(passed: Passed, g: Geometry, d: nat, cache: seq<R>, data: seq<seq<R>>, batch: Batch, m: nat)
    requires WellFormed(g, batch) && 0 < m <= g.heads && Stored(ND, g, cache, data, batch, m) && data != []
    ensures DenseKv(ND, passed, g, d, cache, batch, m) == Some(data) <==> g.heads == m && (passed == Prepared || d == 1)
  {
    hide Cells, Gathered, Dense, Regroup, Holds;
    UnslicedIff(ND, g, cache, data, batch, m);
    SomeTokens(g, batch);
    var n := PaddedTokens(g, batch) * g.heads;
    MulMonotone(1, PaddedTokens(g, batch), g.heads);
    MulMonotone(d, 1, n);
    MulMonotone(1, d, n);
  }

  /** ND after any writes: the batch is read back as it was last written exactly under the condition of NdIff. */
  lemma NdRoundTripAfterWritesIff<R>(passed: Passed, g: Geometry, d: nat, caches: seq<seq<R>>, calls: seq<Call<R>>,
                                     data: seq<seq<R>>, batch: Batch, m: nat)
    requires WellFormed(g, batch) && 0 < m <= g.heads && Ran(ND, g, caches, calls, m) && data != []
    requires |data| == |BatchSlots(g, batch)| && forall t :: 0 <= t < |data| ==> |data[t]| == m
    requires forall t :: 0 <= t < |data| ==>
      LastWritten(calls, BatchSlots(g, batch)[t], data[t])
    ensures DenseKv(ND, passed, g, d, caches[|calls|], batch, m) == Some(data) <==>
      g.heads == m && (passed == Prepared || d == 1)
  {
    hide DenseKv, Stored, Written, Writable, LastWritten;
    StoredByWrites(ND, g, caches, calls, data, batch, m);
    NdIff(passed, g, d, caches[|calls|], data, batch, m);
  }

  lemma SomeTokens(g: Geometry, batch: Batch)
    requires WellFormed(g, batch) && BatchSlots(g, batch) != []
    ensures PaddedTokens(g, batch) > 0
  {
  }

  /** The two gather branches read the same dense sequence from one cache in its two layouts. */
  lemma LayoutsAgree<R>(g: Geometry, cache: seq<R>, batch: Batch)
    requires WellFormed(g, batch) && |cache| == Cells(g)
    ensures |Gathered(BnNBsD, g, cache, batch)| == PaddedTokens(g, batch) * g.heads
    ensures |Gathered(ND, g, Relayout(BnNBsD, ND, g, cache), batch)| == PaddedTokens(g, batch) * g.heads
    ensures Dense(g, Gathered(BnNBsD, g, cache, batch), batch, PaddedTokens(g, batch)) ==
      Dense(g, Gathered(ND, g, Relayout(BnNBsD, ND, g, cache), batch), batch, PaddedTokens(g, batch))
  {
    hide At, Cells, Slots, Gathered, Dense, Flatten, Relayout, PaddedTokens;
    var nd, slots := Relayout(BnNBsD, ND, g, cache), BatchSlots(g, batch);
    DenseIsTokens(BnNBsD, g, cache, batch, PaddedTokens(g, batch));
    DenseIsTokens(ND, g, nd, batch, PaddedTokens(g, batch));
    forall t | 0 <= t < |slots|
      ensures TokenAt(BnNBsD, g, cache, slots[t]) == TokenAt(ND, g, nd, slots[t])
    {
      GridSplit(slots[t], g.blocks, g.blockSize);
      forall h | 0 <= h < g.heads
        ensures At(ND, g, nd, slots[t] / g.blockSize, h, slots[t] % g.blockSize) ==
          At(BnNBsD, g, cache, slots[t] / g.blockSize, h, slots[t] % g.blockSize)
      {
        RelayoutAt(BnNBsD, ND, g, cache, slots[t] / g.blockSize, h, slots[t] % g.blockSize);
      }
    }
    assert TokensAt(BnNBsD, g, cache, slots) == TokensAt(ND, g, nd, slots);
  }
}
