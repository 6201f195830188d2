/**
 The fine-grained TP groups of `_create_or_get_group`: chunks of the data-parallel
 axis of a (pp, dp, tp) grid, kept in a cache by group size.
 */
module FineGroups {
  import opened Arith
  import opened Groups

  /** rank_grid[p][c * size + k][t]. */
  function Cell(dp: nat, tp: nat, size: nat, p: nat, c: nat, t: nat, k: nat): nat
  {
    (p * dp + (c * size + k)) * tp + t
  }

  /** stage_ranks[c * size : (c + 1) * size, t]. */
  function Chunk(dp: nat, tp: nat, size: nat, p: nat, c: nat, t: nat): (g: Group)
    ensures |g| == size
  {
    seq(size, k requires 0 <= k < size => Cell(dp, tp, size, p, c, t, k))
  }

  function GroupCount(pp: nat, dp: nat, tp: nat, size: nat): nat
    requires size > 0
  {
    pp * (dp / size) * tp
  }

  function FineGroups(pp: nat, dp: nat, tp: nat, size: nat): (gs: seq<Group>)
    requires size > 0
    ensures |gs| == GroupCount(pp, dp, tp, size)
  {
    var chunks := dp / size;
    seq(GroupCount(pp, dp, tp, size), g requires 0 <= g < GroupCount(pp, dp, tp, size) =>
      (GridSplit(g, pp * chunks, tp);
       GridSplit(g / tp, pp, chunks);
       Chunk(dp, tp, size, g / tp / chunks, g / tp % chunks, g % tp)))
  }

  /** A cell's coordinates are read back by division. */
  lemma CellCoordinates(dp: nat, tp: nat, size: nat, p: nat, c: nat, t: nat, k: nat)
    requires size > 0 && c < dp / size && t < tp && k < size
    ensures c * size + k < dp / size * size <= dp
    ensures Cell(dp, tp, size, p, c, t, k) / tp == p * dp + (c * size + k)
    ensures Cell(dp, tp, size, p, c, t, k) % tp == t
    ensures (p * dp + (c * size + k)) / dp == p && (p * dp + (c * size + k)) % dp == c * size + k
    ensures (c * size + k) / size == c && (c * size + k) % size == k
  {
    GridBound(c, k, dp / size, size);
    assert dp == dp / size * size + dp % size;
    DivModUnique(p * dp + (c * size + k), t, tp);
    DivModUnique(p, c * size + k, dp);
    DivModUnique(c, k, size);
  }

  lemma CellBound(pp: nat, dp: nat, tp: nat, size: nat, p: nat, c: nat, t: nat, k: nat)
    requires size > 0 && p < pp && c < dp / size && t < tp && k < size
    ensures Cell(dp, tp, size, p, c, t, k) < pp * dp * tp
  {
    CellCoordinates(dp, tp, size, p, c, t, k);
    GridBound(p, c * size + k, pp, dp);
    GridBound(p * dp + (c * size + k), t, pp * dp, tp);
  }

  lemma ChunkAt(pp: nat, dp: nat, tp: nat, size: nat, p: nat, c: nat, t: nat)
    requires size > 0 && p < pp && c < dp / size && t < tp
    ensures 0 <= (p * (dp / size) + c) * tp + t < |FineGroups(pp, dp, tp, size)|
    ensures FineGroups(pp, dp, tp, size)[(p * (dp / size) + c) * tp + t] == Chunk(dp, tp, size, p, c, t)
  {
    var chunks := dp / size;
    GridBound(p, c, pp, chunks);
    GridBound(p * chunks + c, t, pp * chunks, tp);
    DivModUnique(p * chunks + c, t, tp);
    DivModUnique(p, c, chunks);
  }

  /** Which chunk a group number stands for. */
  lemma GroupSplit(pp: nat, dp: nat, tp: nat, size: nat, g: nat) returns (p: nat, c: nat, t: nat)
    requires size > 0 && g < GroupCount(pp, dp, tp, size)
    ensures p < pp && c < dp / size && t < tp
    ensures g == (p * (dp / size) + c) * tp + t
  {
    var chunks := dp / size;
    MulNonNegative(pp, chunks);
    GridSplit(g, pp * chunks, tp);
    GridSplit(g / tp, pp, chunks);
    p, c, t := g / tp / chunks, g / tp % chunks, g % tp;
  }

  /** Which cell a rank lies in, when size divides dp. */
  lemma RankSplit(pp: nat, dp: nat, tp: nat, size: nat, r: nat) returns (p: nat, c: nat, t: nat, k: nat)
    requires size > 0 && dp % size == 0 && r < pp * dp * tp
    ensures p < pp && c < dp / size && t < tp && k < size
    ensures dp > 0 && p == r / tp / dp && c == r / tp % dp / size && t == r % tp && k == r / tp % dp % size
    ensures Cell(dp, tp, size, p, c, t, k) == r
  {
    MulNonNegative(pp, dp);
    GridSplit(r, pp * dp, tp);
    GridSplit(r / tp, pp, dp);
    assert dp / size * size == dp;
    GridSplit(r / tp % dp, dp / size, size);
    p, c, t, k := r / tp / dp, r / tp % dp / size, r % tp, r / tp % dp % size;
  }

  lemma FinePartition(pp: nat, dp: nat, tp: nat, size: nat)
    requires size > 0 && dp % size == 0
    ensures IsPartition(FineGroups(pp, dp, tp, size), pp * dp * tp)
  {
    hide FineGroups, GroupCount, Cell, IsPartition, SameGroup;
    var gs, n := FineGroups(pp, dp, tp, size), dp / size;
    MulNonNegative(pp, dp);
    MulNonNegative(pp * dp, tp);
    var home := (r: nat) =>
      if tp > 0 && dp > 0 then ((r / tp / dp * n + r / tp % dp / size) * tp + r % tp, r / tp % dp % size) else (0, 0);
    forall r: nat | r < pp * dp * tp
      ensures 0 <= home(r).0 < |gs| && 0 <= home(r).1 < |gs[home(r).0]| && gs[home(r).0][home(r).1] == r
    {
      var p, c, t, k := RankSplit(pp, dp, tp, size, r);
      ChunkAt(pp, dp, tp, size, p, c, t);
    }
    forall g, k | 0 <= g < |gs| && 0 <= k < |gs[g]|
      ensures gs[g][k] < pp * dp * tp && home(gs[g][k]) == (g, k)
    {
      var p, c, t := GroupSplit(pp, dp, tp, size, g);
      ChunkAt(pp, dp, tp, size, p, c, t);
      CellBound(pp, dp, tp, size, p, c, t, k);
      CellCoordinates(dp, tp, size, p, c, t, k);
    }
    PartitionFromHome(gs, pp * dp * tp, home);
  }

  /**
   Two ranks share a group exactly when they agree on the TP index, on the first axis
   of the grid and on a whole chunk of its second axis.
   */
  lemma FineMembers(pp: nat, dp: nat, tp: nat, size: nat, r: nat, s: nat)
    requires size > 0 && dp > 0 && tp > 0
    ensures SameGroup(FineGroups(pp, dp, tp, size), r, s) <==>
      && r < pp * dp * tp && s < pp * dp * tp
      && r % tp == s % tp && r / tp / dp == s / tp / dp
      && r / tp % dp / size == s / tp % dp / size < dp / size
  {
    hide FineGroups, GroupCount, Cell;
    var gs, n := FineGroups(pp, dp, tp, size), dp / size;
    if SameGroup(gs, r, s) {
      var g :| 0 <= g < |gs| && r in gs[g] && s in gs[g];
      var p, c, t := GroupSplit(pp, dp, tp, size, g);
      ChunkAt(pp, dp, tp, size, p, c, t);
      forall x | x in gs[g]
        ensures x < pp * dp * tp && x % tp == t && x / tp / dp == p && x / tp % dp / size == c
      {
        var k :| 0 <= k < size && gs[g][k] == x;
        CellBound(pp, dp, tp, size, p, c, t, k);
        CellCoordinates(dp, tp, size, p, c, t, k);
      }
    }
    if r < pp * dp * tp && s < pp * dp * tp && r % tp == s % tp && r / tp / dp == s / tp / dp
       && r / tp % dp / size == s / tp % dp / size < n {
      var g := InChunk(pp, dp, tp, size, r);
      var h := InChunk(pp, dp, tp, size, s);
    }
  }

  /** The chunk of a rank that a whole chunk covers. */
  lemma InChunk(pp: nat, dp: nat, tp: nat, size: nat, r: nat) returns (g: nat)
    requires size > 0 && dp > 0 && tp > 0 && r < pp * dp * tp && r / tp % dp / size < dp / size
    ensures g == (r / tp / dp * (dp / size) + r / tp % dp / size) * tp + r % tp
    ensures g < |FineGroups(pp, dp, tp, size)| && r in FineGroups(pp, dp, tp, size)[g]
  {
    hide FineGroups, GroupCount, Cell;
    MulNonNegative(pp, dp);
    GridSplit(r, pp * dp, tp);
    GridSplit(r / tp, pp, dp);
    var p, c, t, k := r / tp / dp, r / tp % dp / size, r % tp, r / tp % dp % size;
    ChunkAt(pp, dp, tp, size, p, c, t);
    g := (p * (dp / size) + c) * tp + t;
    CellOfDigits(dp, tp, size, r);
    assert Chunk(dp, tp, size, p, c, t)[k] == r;
  }

  lemma CellOfDigits(dp: nat, tp: nat, size: nat, r: nat)
    requires size > 0 && dp > 0 && tp > 0
    ensures Cell(dp, tp, size, r / tp / dp, r / tp % dp / size, r % tp, r / tp % dp % size) == r
  {
  }

  lemma CellIsNotLast(dp: nat, tp: nat, size: nat, p: nat, c: nat, u: nat, k: nat, t: nat)
    requires size > 0 && dp % size != 0 && c < dp / size && u < tp && k < size && t < tp
    ensures Cell(dp, tp, size, p, c, u, k) != (dp - 1) * tp + t
  {
    hide Cell;
    CellCoordinates(dp, tp, size, p, c, u, k);
    DivModUnique(dp - 1, t, tp);
    DivModUnique(0, dp - 1, dp);
    assert dp == dp / size * size + dp % size;
  }

  /** When size does not divide dp, the ranks of the last data-parallel index are in no group. */
  lemma LastIndexLeftOut(pp: nat, dp: nat, tp: nat, size: nat, t: nat)
    requires size > 0 && dp % size != 0 && t < tp
    ensures !Holds(FineGroups(pp, dp, tp, size), (dp - 1) * tp + t)
  {
    hide FineGroups, GroupCount, Cell;
    var gs, last := FineGroups(pp, dp, tp, size), (dp - 1) * tp + t;
    forall g, k | 0 <= g < |gs| && 0 <= k < |gs[g]|
      ensures gs[g][k] != last
    {
      var p, c, u := GroupSplit(pp, dp, tp, size, g);
      ChunkAt(pp, dp, tp, size, p, c, u);
      CellIsNotLast(dp, tp, size, p, c, u, k, t);
    }
  }

  /** The groups cover every rank exactly once if and only if the group size divides dp. */
  lemma FinePartitionIff(pp: nat, dp: nat, tp: nat, size: nat)
    requires size > 0 && pp > 0 && dp > 0 && tp > 0
    ensures IsPartition(FineGroups(pp, dp, tp, size), pp * dp * tp) <==> dp % size == 0
  {
    hide FineGroups, Disjoint, Holds;
    if dp % size == 0 {
      FinePartition(pp, dp, tp, size);
    } else {
      LastIndexLeftOut(pp, dp, tp, size, 0);
      GridBound(dp - 1, 0, dp, tp);
      MulMonotone(1, pp, dp);
      MulMonotone(dp, pp * dp, tp);
    }
  }

  /** The stage a rank really belongs to: every other family is built from a (dp, pp, tp) layout. */
  function StageOf(pp: nat, tp: nat, r: nat): nat
    requires pp > 0 && tp > 0
  {
    r / tp % pp
  }

  ghost predicate WithinOneStage(pp: nat, tp: nat, g: Group)
    requires pp > 0 && tp > 0
  {
    forall k, l :: 0 <= k < |g| && 0 <= l < |g| ==> StageOf(pp, tp, g[k]) == StageOf(pp, tp, g[l])
  }

  lemma NeighboursDiffer(x: nat, pp: nat)
    requires pp > 1
    ensures x % pp != (x + 1) % pp
  {
    var q := x / pp;
    if x % pp + 1 < pp {
      DivModUnique(q, x % pp + 1, pp);
    } else {
      MulDistributes(q, 1, pp);
      DivModUnique(q + 1, 0, pp);
    }
  }

  /** A group stays within one pipeline stage if and only if there is one stage or one member. */
  lemma OneStageIff(pp: nat, dp: nat, tp: nat, size: nat, g: nat)
    requires pp > 0 && tp > 0 && size > 0 && g < GroupCount(pp, dp, tp, size)
    ensures WithinOneStage(pp, tp, FineGroups(pp, dp, tp, size)[g]) <==> pp == 1 || size == 1
  {
    hide FineGroups, GroupCount, Cell;
    var p, c, t := GroupSplit(pp, dp, tp, size, g);
    ChunkAt(pp, dp, tp, size, p, c, t);
    if pp > 1 && size > 1 {
      CellCoordinates(dp, tp, size, p, c, t, 0);
      CellCoordinates(dp, tp, size, p, c, t, 1);
      NeighboursDiffer(p * dp + c * size, pp);
      var chunk := Chunk(dp, tp, size, p, c, t);
      assert StageOf(pp, tp, chunk[0]) != StageOf(pp, tp, chunk[1]);
    }
  }

  /** The three nested loops. */
  method BuildGroups(pp: nat, dp: nat, tp: nat, size: nat) returns (groups: seq<Group>)
    requires size > 0
    ensures groups == FineGroups(pp, dp, tp, size)
  {
    hide FineGroups, Chunk;
    var chunks := dp / size;
    groups := [];
    MulNonNegative(pp, chunks);
    MulNonNegative(pp * chunks, tp);
    for p := 0 to pp
      invariant |groups| == p * chunks * tp
      invariant groups <= FineGroups(pp, dp, tp, size)
    {
      MulDistributes(p, 1, chunks);
      for c := 0 to chunks
        invariant |groups| == (p * chunks + c) * tp
        invariant groups <= FineGroups(pp, dp, tp, size)
      {
        MulDistributes(p * chunks + c, 1, tp);
        for t := 0 to tp
          invariant |groups| == (p * chunks + c) * tp + t
          invariant groups <= FineGroups(pp, dp, tp, size)
        {
          ChunkAt(pp, dp, tp, size, p, c, t);
          groups := groups + [Chunk(dp, tp, size, p, c, t)];
        }
      }
    }
  }

  /** `_group_cache` with the grid it was filled for. */
  class GroupCache {
    const pp: nat
    const dp: nat
    const tp: nat
    var cache: map<nat, seq<Group>>

    ghost predicate Valid()
      reads this
    {
      forall size :: size in cache ==> size > 0 && cache[size] == FineGroups(pp, dp, tp, size)
    }

    constructor (pp: nat, dp: nat, tp: nat)
      ensures Valid() && cache == map[]
      ensures this.pp == pp && this.dp == dp && this.tp == tp
    {
      this.pp, this.dp, this.tp := pp, dp, tp;
      cache := map[];
    }

    /** Components that ask for the same size share one group; other entries stay. */
    method CreateOrGet(size: nat) returns (groups: seq<Group>)
      requires Valid() && size > 0
      modifies this
      ensures Valid()
      ensures groups == FineGroups(pp, dp, tp, size)
      ensures cache == old(cache)[size := groups]
      ensures size in old(cache) ==> cache == old(cache)
    {
      if size !in cache {
        var built := BuildGroups(pp, dp, tp, size);
        cache := cache[size := built];
      }
      groups := cache[size];
    }
  }
}
