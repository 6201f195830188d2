/** swap_blocks and copy_blocks: whole blocks moved by index pairs, in place and in any layout. */
module BlockMoves {
  import opened Arith
  import opened PagedCache

  /** (source block, destination block). */
  type Pairs = seq<(nat, nat)>

  /** Source and destination may differ in their number of blocks only. */
  ghost predicate Movable(from: Geometry, to: Geometry, pairs: Pairs)
  {
    && from.heads == to.heads && from.blockSize == to.blockSize
    && forall i :: 0 <= i < |pairs| ==> pairs[i].0 < from.blocks && pairs[i].1 < to.blocks
  }

  ghost predicate IsDestination(pairs: Pairs, b: nat)
  {
    exists i :: 0 <= i < |pairs| && pairs[i].1 == b
  }

  ghost predicate CameFrom<R>(layout: Layout, from: Geometry, source: seq<R>, pairs: Pairs, b: nat, h: nat, o: nat,
                              row: R)
    requires |source| == Cells(from)
    requires forall i :: 0 <= i < |pairs| ==> InCache(from, pairs[i].0, h, o)
  {
    exists i :: 0 <= i < |pairs| && pairs[i].1 == b && At(layout, from, source, pairs[i].0, h, o) == row
  }

  ghost predicate CellMoved<R>(layout: Layout, from: Geometry, to: Geometry, source: seq<R>, before: seq<R>,
                               after: seq<R>, pairs: Pairs,
                               b: nat, h: nat, o: nat)
    requires Movable(from, to, pairs) && InCache(to, b, h, o)
    requires |source| == Cells(from) && |before| == |after| == Cells(to)
  {
    if IsDestination(pairs, b)
    then CameFrom(layout, from, source, pairs, b, h, o, At(layout, to, after, b, h, o))
    else At(layout, to, after, b, h, o) == At(layout, to, before, b, h, o)
  }

  /** Every destination block holds a block of the source paired with it; all other blocks stay. */
  ghost predicate Moved<R>(layout: Layout, from: Geometry, to: Geometry, source: seq<R>, before: seq<R>,
                           after: seq<R>, pairs: Pairs)
    requires Movable(from, to, pairs)
  {
    && |source| == Cells(from) && |before| == |after| == Cells(to)
    && forall b, h, o :: InCache(to, b, h, o) ==> CellMoved(layout, from, to, source, before, after, pairs, b, h, o)
  }

  /** The same in every layout. */
  ghost predicate MovedInAll<R>(from: Geometry, to: Geometry, source: seq<R>, before: seq<R>, after: seq<R>,
                                pairs: Pairs)
    requires Movable(from, to, pairs)
  {
    forall layout: Layout :: Moved(layout, from, to, source, before, after, pairs)
  }

  /** With distinct destinations the move is a function. */
  lemma MovedIsUnique<R>(layout: Layout, from: Geometry, to: Geometry, source: seq<R>, before: seq<R>, x: seq<R>,
                         y: seq<R>, pairs: Pairs)
    requires Movable(from, to, pairs)
    requires forall i, j :: 0 <= i < |pairs| && 0 <= j < |pairs| && pairs[i].1 == pairs[j].1 ==> i == j
    requires Moved(layout, from, to, source, before, x, pairs) && Moved(layout, from, to, source, before, y, pairs)
    ensures x == y
  {
    hide Cells, At;
    forall b, h, o | InCache(to, b, h, o)
      ensures At(layout, to, x, b, h, o) == At(layout, to, y, b, h, o)
    {
      assert CellMoved(layout, from, to, source, before, x, pairs, b, h, o);
      assert CellMoved(layout, from, to, source, before, y, pairs, b, h, o);
    }
    EqualByCells(layout, to, x, y);
  }

  /** Moving blocks commutes with the change of layout. */
  lemma MoveRelayouts<R>(f: Layout, t: Layout, from: Geometry, to: Geometry, source: seq<R>, before: seq<R>,
                         after: seq<R>, pairs: Pairs)
    requires Movable(from, to, pairs) && Moved(f, from, to, source, before, after, pairs)
    ensures Moved(t, from, to, Relayout(f, t, from, source),
                  Relayout(f, t, to, before), Relayout(f, t, to, after), pairs)
  {
    hide Cells, At, Relayout;
    var s, x, y := Relayout(f, t, from, source), Relayout(f, t, to, before), Relayout(f, t, to, after);
    forall b, h, o | InCache(to, b, h, o)
      ensures CellMoved(t, from, to, s, x, y, pairs, b, h, o)
    {
      assert CellMoved(f, from, to, source, before, after, pairs, b, h, o);
      RelayoutAt(f, t, to, before, b, h, o);
      RelayoutAt(f, t, to, after, b, h, o);
      forall i | 0 <= i < |pairs|
        ensures At(t, from, s, pairs[i].0, h, o) == At(f, from, source, pairs[i].0, h, o)
      {
        RelayoutAt(f, t, from, source, pairs[i].0, h, o);
      }
    }
  }

  // ----- the in-place assignment -----

  lemma BlockBounds(g: Geometry, b: nat)
    requires b < g.blocks
    ensures 0 <= b * BlockRows(g) <= b * BlockRows(g) + BlockRows(g) <= Cells(g)
  {
    MulNonNegative(b, BlockRows(g));
    MulMonotone(b, g.blocks, BlockRows(g));
  }

  /** cache[b]: one block as a run of rows. */
  function Block<R>(g: Geometry, cache: seq<R>, b: nat): (rows: seq<R>)
    requires |cache| == Cells(g) && b < g.blocks
    ensures |rows| == BlockRows(g)
  {
    BlockBounds(g, b);
    cache[b * BlockRows(g)..b * BlockRows(g) + BlockRows(g)]
  }

  ghost function WithBlock<R>(g: Geometry, cache: seq<R>, b: nat, rows: seq<R>): (r: seq<R>)
    requires |cache| == Cells(g) && b < g.blocks && |rows| == BlockRows(g)
    ensures |r| == Cells(g)
  {
    BlockBounds(g, b);
    cache[..b * BlockRows(g)] + rows + cache[b * BlockRows(g) + BlockRows(g)..]
  }

  /** Both layouts place a cell at the same distance from the start of its block. */
  function Inner(layout: Layout, g: Geometry, h: nat, o: nat): nat
  {
    match layout
    case BnNBsD => h * g.blockSize + o
    case ND => o * g.heads + h
  }

  lemma InnerBound(layout: Layout, g: Geometry, b: nat, h: nat, o: nat)
    requires InCache(g, b, h, o)
    ensures Inner(layout, g, h, o) < BlockRows(g)
    ensures Index(layout, g, b, h, o) == b * BlockRows(g) + Inner(layout, g, h, o)
  {
    GridBound(h, o, g.heads, g.blockSize);
    GridBound(o, h, g.blockSize, g.heads);
  }

  lemma WithBlockAt<R>(layout: Layout, from: Geometry, to: Geometry, source: seq<R>, cache: seq<R>, src: nat, dst: nat,
                       b: nat, h: nat, o: nat)
    requires from.heads == to.heads && from.blockSize == to.blockSize
    requires |source| == Cells(from) && |cache| == Cells(to)
    requires src < from.blocks && dst < to.blocks && InCache(to, b, h, o)
    ensures At(layout, to, WithBlock(to, cache, dst, Block(from, source, src)), b, h, o) ==
      if b == dst then At(layout, from, source, src, h, o) else At(layout, to, cache, b, h, o)
  {
    hide Inner, Cells, BlockRows, Index;
    InnerBound(layout, to, b, h, o);
    InnerBound(layout, from, src, h, o);
    IndexInRange(layout, to, b, h, o);
    BlockBounds(to, b);
    BlockBounds(to, dst);
    BlockBounds(from, src);
    MulMonotone(b, dst, BlockRows(to));
    MulMonotone(dst, b, BlockRows(to));
    SameRows(from, to);
    SameInner(layout, from, to, h, o);
  }

  lemma SameRows(from: Geometry, to: Geometry)
    requires from.heads == to.heads && from.blockSize == to.blockSize
    ensures BlockRows(from) == BlockRows(to)
  {
  }

  lemma SameInner(layout: Layout, from: Geometry, to: Geometry, h: nat, o: nat)
    requires from.heads == to.heads && from.blockSize == to.blockSize
    ensures Inner(layout, from, h, o) == Inner(layout, to, h, o)
  {
  }

  method SetBlock<R>(cache: array<R>, g: Geometry, dst: nat, rows: seq<R>)
    requires cache.Length == Cells(g) && dst < g.blocks && |rows| == BlockRows(g)
    modifies cache
    ensures cache[..] == WithBlock(g, old(cache[..]), dst, rows)
  {
    hide Cells, BlockRows;
    var n := BlockRows(g);
    BlockBounds(g, dst);
    for k := 0 to n
      invariant cache[dst * n..dst * n + k] == rows[..k]
      invariant cache[..dst * n] == old(cache[..dst * n])
      invariant cache[dst * n + n..] == old(cache[dst * n + n..])
    {
      cache[dst * n + k] := rows[k];
    }
    assert cache[..] == cache[..dst * n] + cache[dst * n..dst * n + n] + cache[dst * n + n..];
  }

  lemma OneMoreBlock<R>(layout: Layout, from: Geometry, to: Geometry, source: seq<R>, before: seq<R>, mid: seq<R>,
                        pairs: Pairs, i: nat)
    requires Movable(from, to, pairs) && i < |pairs|
    requires Moved(layout, from, to, source, before, mid, pairs[..i])
    ensures Moved(layout, from, to, source, before,
                  WithBlock(to, mid, pairs[i].1, Block(from, source, pairs[i].0)), pairs[..i + 1])
  {
    hide Cells, At, WithBlock, Block, BlockRows;
    SameRows(from, to);
    var after := WithBlock(to, mid, pairs[i].1, Block(from, source, pairs[i].0));
    var done, more := pairs[..i], pairs[..i + 1];
    assert more == done + [pairs[i]];
    forall b, h, o | InCache(to, b, h, o)
      ensures CellMoved(layout, from, to, source, before, after, more, b, h, o)
    {
      assert CellMoved(layout, from, to, source, before, mid, done, b, h, o);
      WithBlockAt(layout, from, to, source, mid, pairs[i].0, pairs[i].1, b, h, o);
      if b == pairs[i].1 {
        assert more[i].1 == b;
      } else if IsDestination(done, b) {
        var j :| 0 <= j < |done| && done[j].1 == b
          && At(layout, from, source, done[j].0, h, o) == At(layout, to, mid, b, h, o);
        assert more[j].1 == b;
      }
    }
  }

  lemma NothingMoved<R>(from: Geometry, to: Geometry, source: seq<R>, cache: seq<R>)
    requires Movable(from, to, []) && |source| == Cells(from) && |cache| == Cells(to)
    ensures MovedInAll(from, to, source, cache, cache, [])
  {
    hide Cells, At;
  }

  lemma OneMoreInAll<R>(from: Geometry, to: Geometry, source: seq<R>, before: seq<R>, mid: seq<R>, pairs: Pairs, i: nat)
    requires Movable(from, to, pairs) && i < |pairs| && |source| == Cells(from) && |mid| == Cells(to)
    requires MovedInAll(from, to, source, before, mid, pairs[..i])
    ensures MovedInAll(from, to, source, before,
                       WithBlock(to, mid, pairs[i].1, Block(from, source, pairs[i].0)), pairs[..i + 1])
  {
    hide Cells, At, WithBlock, Block, BlockRows, Moved;
    SameRows(from, to);
    var after := WithBlock(to, mid, pairs[i].1, Block(from, source, pairs[i].0));
    var next := pairs[..i + 1];
    forall layout: Layout ensures Moved(layout, from, to, source, before, after, next) {
      OneMoreBlock(layout, from, to, source, before, mid, pairs, i);
    }
  }

  /** dst_cache[dst_indices] = rows: the source blocks were read before. */
  method AssignBlocks<R>(cache: array<R>, g: Geometry, rows: seq<seq<R>>, pairs: Pairs, ghost from: Geometry,
                         ghost source: seq<R>)
    requires Movable(from, g, pairs) && cache.Length == Cells(g) && |source| == Cells(from)
    requires |rows| == |pairs| && forall i :: 0 <= i < |pairs| ==> rows[i] == Block(from, source, pairs[i].0)
    modifies cache
    ensures MovedInAll(from, g, source, old(cache[..]), cache[..], pairs)
  {
    hide Cells, At, WithBlock, Block, BlockRows, MovedInAll;
    SameRows(from, g);
    ghost var before := cache[..];
    NothingMoved(from, g, source, before);
    assert pairs[..0] == [];
    for i := 0 to |pairs|
      invariant MovedInAll(from, g, source, before, cache[..], pairs[..i])
    {
      ghost var mid := cache[..];
      SetBlock(cache, g, pairs[i].1, rows[i]);
      OneMoreInAll(from, g, source, before, mid, pairs, i);
    }
    assert pairs[..|pairs|] == pairs;
  }

  /** src_cache[src_indices]. */
  method ReadBlocks<R>(cache: array<R>, g: Geometry, pairs: Pairs) returns (rows: seq<seq<R>>)
    requires cache.Length == Cells(g) && forall i :: 0 <= i < |pairs| ==> pairs[i].0 < g.blocks
    ensures |rows| == |pairs| && forall i :: 0 <= i < |pairs| ==> rows[i] == Block(g, cache[..], pairs[i].0)
  {
    hide Cells, Block;
    rows := [];
    for i := 0 to |pairs|
      invariant |rows| == i && forall k :: 0 <= k < i ==> rows[k] == Block(g, cache[..], pairs[k].0)
    {
      rows := rows + [Block(g, cache[..], pairs[i].0)];
    }
  }

  /** dst_cache[dst_indices] = src_cache[src_indices]; the two may be one cache. */
  method MoveBlocks<R>(src: array<R>, dst: array<R>, from: Geometry, to: Geometry, pairs: Pairs)
    requires Movable(from, to, pairs) && src.Length == Cells(from) && dst.Length == Cells(to)
    modifies dst
    ensures MovedInAll(from, to, old(src[..]), old(dst[..]), dst[..], pairs)
  {
    hide Cells, Block, MovedInAll;
    ghost var source := src[..];
    var rows := ReadBlocks(src, from, pairs);
    AssignBlocks(dst, to, rows, pairs, from, source);
  }

  /** swap_blocks: between two caches. */
  method SwapBlocks<R>(srcKey: array<R>, srcValue: array<R>, dstKey: array<R>, dstValue: array<R>,
                       from: Geometry, to: Geometry, pairs: Pairs)
    requires Movable(from, to, pairs)
    requires srcKey.Length == srcValue.Length == Cells(from) && dstKey.Length == dstValue.Length == Cells(to)
    requires dstKey != dstValue && dstKey != srcValue
    modifies dstKey, dstValue
    ensures MovedInAll(from, to, old(srcKey[..]), old(dstKey[..]), dstKey[..], pairs)
    ensures MovedInAll(from, to, old(srcValue[..]), old(dstValue[..]), dstValue[..], pairs)
  {
    hide Cells, MovedInAll, Movable;
    ghost var source, before := srcValue[..], dstValue[..];
    MoveBlocks(srcKey, dstKey, from, to, pairs);
    assert srcValue[..] == source && dstValue[..] == before;
    MoveBlocks(srcValue, dstValue, from, to, pairs);
  }

  /** copy_blocks: within every key and value cache of every layer. */
  method CopyBlocks<R>(caches: seq<array<R>>, g: Geometry, pairs: Pairs)
    requires Movable(g, g, pairs)
    requires forall c :: 0 <= c < |caches| ==> caches[c].Length == Cells(g)
    requires forall c, d :: 0 <= c < d < |caches| ==> caches[c] != caches[d]
    modifies set c | 0 <= c < |caches| :: caches[c]
    ensures forall c :: 0 <= c < |caches| ==>
      MovedInAll(g, g, old(caches[c][..]), old(caches[c][..]), caches[c][..], pairs)
  {
    hide Cells, MovedInAll, Movable;
    for c := 0 to |caches|
      invariant forall d :: 0 <= d < c ==>
        MovedInAll(g, g, old(caches[d][..]), old(caches[d][..]), caches[d][..], pairs)
      invariant forall d :: c <= d < |caches| ==> caches[d][..] == old(caches[d][..])
    {
      MoveBlocks(caches[c], caches[c], g, g, pairs);
    }
  }
}
