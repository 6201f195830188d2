/** What the asymmetric groups and ranks guarantee. */
module AsymTheorems {
  import opened Wrappers
  import opened Arith
  import opened Groups
  import opened AsymGroups

  // ----- TP groups and single-rank groups -----

  lemma TpCell(sorted: seq<EngineConf>, g: nat, k: nat)
    requires g < |sorted| && k < sorted[g].newTp
    ensures TpGroupsOf(sorted)[g][k] == Offset(sorted, g) + k < World(sorted)
  {
    OffsetStep(sorted, g);
    SumOfTakesMonotone(Sizes(sorted), g + 1, |sorted|);
  }

  /** The executor and local rank behind a global rank. */
  lemma Owner(sorted: seq<EngineConf>, r: nat) returns (g: nat, k: nat)
    requires r < World(sorted)
    ensures g < |sorted| && k < sorted[g].newTp && r == Offset(sorted, g) + k
    ensures forall h :: 0 <= h < |sorted| && Offset(sorted, h) <= r < Offset(sorted, h) + sorted[h].newTp ==> h == g
  {
    assert Sizes(sorted)[..|sorted|] == Sizes(sorted);
    g := TileOf(Sizes(sorted), r);
    k := r - Offset(sorted, g);
    OffsetStep(sorted, g);
    forall h | 0 <= h < |sorted| && Offset(sorted, h) <= r < Offset(sorted, h) + sorted[h].newTp
      ensures h == g
    {
      OffsetStep(sorted, h);
    }
  }

  lemma TpGroupsPartition(sorted: seq<EngineConf>)
    ensures IsPartition(TpGroupsOf(sorted), World(sorted))
  {
    var groups := TpGroupsOf(sorted);
    forall g, k, h, l |
      && 0 <= g < |groups| && 0 <= k < |groups[g]|
      && 0 <= h < |groups| && 0 <= l < |groups[h]|
      && groups[g][k] == groups[h][l]
      ensures g == h && k == l
    {
      TpCell(sorted, g, k);
      TpCell(sorted, h, l);
      var x, y := Owner(sorted, groups[g][k]);
    }
    forall r: nat
      ensures Holds(groups, r) <==> r < World(sorted)
    {
      if r < World(sorted) {
        var g, k := Owner(sorted, r);
        assert groups[g][k] == r;
      }
      if Holds(groups, r) {
        var g :| 0 <= g < |groups| && r in groups[g];
        var k :| 0 <= k < |groups[g]| && groups[g][k] == r;
        TpCell(sorted, g, k);
      }
    }
  }

  lemma SingletonsPartition(n: nat)
    ensures IsPartition(Singletons(n), n)
  {
    forall r: nat
      ensures Holds(Singletons(n), r) <==> r < n
    {
      if r < n {
        assert r in Singletons(n)[r];
      }
    }
  }

  // ----- DP groups: the ragged transpose -----

  lemma {:induction false} LongerAscends(groups: seq<Group>, j: nat, p: nat, q: nat)
    requires p < q < |Longer(groups, j)|
    ensures Longer(groups, j)[p] < Longer(groups, j)[q]
  {
    var front := Longer(groups[..|groups| - 1], j);
    if q < |front| {
      LongerAscends(groups[..|groups| - 1], j, p, q);
    }
  }

  lemma {:induction false} LongerHolds(groups: seq<Group>, j: nat, g: nat)
    ensures g in Longer(groups, j) <==> g < |groups| && j < |groups[g]|
  {
    if groups != [] {
      var last := |groups| - 1;
      LongerHolds(groups[..last], j, g);
      assert g < last ==> groups[..last][g] == groups[g];
    }
  }

  lemma LongerIsExact(groups: seq<Group>, j: nat)
    ensures var m := Longer(groups, j);
      && (forall p, q :: 0 <= p < q < |m| ==> m[p] < m[q])
      && (forall g: nat :: g in m <==> g < |groups| && j < |groups[g]|)
  {
    hide Longer;
    var m := Longer(groups, j);
    forall p, q | 0 <= p < q < |m|
      ensures m[p] < m[q]
    {
      LongerAscends(groups, j, p, q);
    }
    forall g: nat
      ensures g in Longer(groups, j) <==> g < |groups| && j < |groups[g]|
    {
      LongerHolds(groups, j, g);
    }
  }

  lemma {:induction false} MaxLengthIsMax(groups: seq<Group>)
    ensures forall g :: 0 <= g < |groups| ==> |groups[g]| <= MaxLength(groups)
    ensures groups == [] ==> MaxLength(groups) == 0
    ensures groups != [] ==> exists g :: 0 <= g < |groups| && |groups[g]| == MaxLength(groups)
  {
    if groups != [] {
      var rest := groups[1..];
      MaxLengthIsMax(rest);
      assert forall g :: 1 <= g < |groups| ==> groups[g] == rest[g - 1];
      if |groups[0]| > MaxLength(rest) || rest == [] {
        assert |groups[0]| == MaxLength(groups);
      } else {
        var h :| 0 <= h < |rest| && |rest[h]| == MaxLength(rest);
        assert |groups[h + 1]| == MaxLength(groups);
      }
    }
  }

  /**
   Column j holds exactly the j-th members of the groups longer than j, in group
   order, and no column is empty.
   */
  lemma ColumnIsExact(groups: seq<Group>, j: nat)
    requires j < MaxLength(groups)
    ensures |DpGroupsOf(groups)| == MaxLength(groups)
    ensures var c, m := DpGroupsOf(groups)[j], Longer(groups, j);
      && c != []
      && |c| == |m|
      && (forall p :: 0 <= p < |c| ==> c[p] == groups[m[p]][j])
      && (forall p, q :: 0 <= p < q < |m| ==> m[p] < m[q])
      && (forall g: nat :: g in m <==> g < |groups| && j < |groups[g]|)
  {
    LongerIsExact(groups, j);
    MaxLengthIsMax(groups);
    var g: nat :| g < |groups| && |groups[g]| == MaxLength(groups);
    assert g in Longer(groups, j);
  }

  lemma ColumnsAreDisjoint(groups: seq<Group>)
    requires Disjoint(groups)
    ensures Disjoint(DpGroupsOf(groups))
  {
    hide Longer, MaxLength;
    var dp := DpGroupsOf(groups);
    forall j, p, i, q |
      && 0 <= j < |dp| && 0 <= p < |dp[j]|
      && 0 <= i < |dp| && 0 <= q < |dp[i]|
      && dp[j][p] == dp[i][q]
      ensures j == i && p == q
    {
      ColumnIsExact(groups, j);
      ColumnIsExact(groups, i);
      var m, l := Longer(groups, j), Longer(groups, i);
      assert m[p] in m && l[q] in l;
      assert groups[m[p]][j] == groups[l[q]][i];
      assert j == i && m[p] == l[q];
    }
  }

  lemma ColumnsHoldTheSame(groups: seq<Group>, r: nat)
    ensures Holds(DpGroupsOf(groups), r) <==> Holds(groups, r)
  {
    hide Longer, MaxLength;
    var dp := DpGroupsOf(groups);
    if Holds(dp, r) {
      var j :| 0 <= j < |dp| && r in dp[j];
      var p :| 0 <= p < |dp[j]| && dp[j][p] == r;
      ColumnIsExact(groups, j);
      assert Longer(groups, j)[p] in Longer(groups, j);
      assert r in groups[Longer(groups, j)[p]];
    }
    if Holds(groups, r) {
      var g :| 0 <= g < |groups| && r in groups[g];
      var j :| 0 <= j < |groups[g]| && groups[g][j] == r;
      MaxLengthIsMax(groups);
      ColumnIsExact(groups, j);
      var p :| 0 <= p < |Longer(groups, j)| && Longer(groups, j)[p] == g;
      assert dp[j][p] == r;
    }
  }

  /** The transpose of any partition into groups is a partition of the same ranks. */
  lemma DpGroupsPartition(groups: seq<Group>, n: nat)
    requires IsPartition(groups, n)
    ensures IsPartition(DpGroupsOf(groups), n)
  {
    ColumnsAreDisjoint(groups);
    forall r: nat
      ensures Holds(DpGroupsOf(groups), r) <==> r < n
    {
      ColumnsHoldTheSame(groups, r);
    }
  }

  /** All asymmetric families over one sorted list partition the same world. */
  lemma AsymmetricFamilies(confs: seq<EngineConf>)
    ensures var sorted := Sorted(confs);
      && IsPartition(TpGroupsOf(sorted), World(confs))
      && IsPartition(Singletons(World(sorted)), World(confs))
      && IsPartition(DpGroupsOf(TpGroupsOf(sorted)), World(confs))
  {
    var sorted := Sorted(confs);
    WorldIgnoresOrder(confs);
    TpGroupsPartition(sorted);
    SingletonsPartition(World(sorted));
    DpGroupsPartition(TpGroupsOf(sorted), World(sorted));
  }

  lemma {:induction false} InsertAddsSize(c: EngineConf, sorted: seq<EngineConf>)
    ensures Sum(Sizes(Insert(c, sorted))) == c.newTp + Sum(Sizes(sorted))
  {
    if sorted == [] || c.dataParallelRank <= sorted[0].dataParallelRank {
      assert Sizes([c] + sorted)[1..] == Sizes(sorted);
    } else {
      InsertAddsSize(c, sorted[1..]);
      assert Sizes([sorted[0]] + Insert(c, sorted[1..]))[1..] == Sizes(Insert(c, sorted[1..]));
      assert Sizes(sorted)[1..] == Sizes(sorted[1..]);
    }
  }

  /** asym_world_size, which does not sort, agrees with the sorted world. */
  lemma {:induction false} WorldIgnoresOrder(confs: seq<EngineConf>)
    ensures World(Sorted(confs)) == World(confs)
  {
    assert Sizes(confs)[..|confs|] == Sizes(confs);
    assert Sizes(Sorted(confs))[..|Sorted(confs)|] == Sizes(Sorted(confs));
    if confs != [] {
      WorldIgnoresOrder(confs[1..]);
      InsertAddsSize(confs[0], Sorted(confs[1..]));
      assert Sizes(confs)[1..] == Sizes(confs[1..]);
      assert Sizes(confs[1..])[..|confs[1..]|] == Sizes(confs[1..]);
      assert Sizes(Sorted(confs[1..]))[..|Sorted(confs[1..])|] == Sizes(Sorted(confs[1..]));
    }
  }

  // ----- agreement between processes -----

  lemma SortedKeepsExecutors(confs: seq<EngineConf>, executor: string)
    ensures (exists c :: c in confs && c.executorId == executor) <==>
      IndexOf(Sorted(confs), executor) < |Sorted(confs)|
  {
    SortedIsSorted(confs);
    if c :| c in confs && c.executorId == executor {
      assert c in multiset(Sorted(confs));
    }
    if IndexOf(Sorted(confs), executor) < |Sorted(confs)| {
      var c := Sorted(confs)[IndexOf(Sorted(confs), executor)];
      assert c in multiset(confs);
    }
  }

  /** With distinct executor ids, a configuration is found at its own place in the sorted list. */
  lemma FoundAtOwnPlace(confs: seq<EngineConf>, i: nat)
    requires DistinctExecutors(confs) && i < |Sorted(confs)|
    ensures IndexOf(Sorted(confs), Sorted(confs)[i].executorId) == i
  {
    hide Sorted;
    var s := Sorted(confs);
    SortedIsSorted(confs);
    ReorderingKeepsDistinct(confs, s, (c: EngineConf) => c.executorId);
  }

  lemma PlaceInSorted(confs: seq<EngineConf>, c: EngineConf) returns (i: nat)
    requires c in confs
    ensures i < |Sorted(confs)| && Sorted(confs)[i] == c
  {
    SortedIsSorted(confs);
    assert c in multiset(Sorted(confs));
    i :| 0 <= i < |Sorted(confs)| && Sorted(confs)[i] == c;
  }

  /** The rank a process computes for itself sits at its place in its executor's TP group. */
  lemma RankSitsInOwnGroup(confs: seq<EngineConf>, c: EngineConf, k: nat)
    requires DistinctExecutors(confs) && c in confs && k < c.newTp
    ensures var sorted := Sorted(confs);
      var g := IndexOf(sorted, c.executorId);
      && g < |sorted| && sorted[g] == c
      && k < |TpGroupsOf(sorted)[g]|
      && GlobalRank(confs, c.executorId, k) == Some(TpGroupsOf(sorted)[g][k])
      && TpGroupsOf(sorted)[g][k] < World(confs)
  {
    hide Sorted, IndexOf;
    var g := PlaceInSorted(confs, c);
    FoundAtOwnPlace(confs, g);
    TpCell(Sorted(confs), g, k);
    WorldIgnoresOrder(confs);
  }

  /** Different (executor, local rank) pairs get different global ranks. */
  lemma RanksAreDistinct(confs: seq<EngineConf>, c: EngineConf, k: nat, d: EngineConf, l: nat)
    requires DistinctExecutors(confs) && c in confs && k < c.newTp && d in confs && l < d.newTp
    requires GlobalRank(confs, c.executorId, k) == GlobalRank(confs, d.executorId, l)
    ensures c == d && k == l
  {
    RankSitsInOwnGroup(confs, c, k);
    RankSitsInOwnGroup(confs, d, l);
    TpGroupsPartition(Sorted(confs));
  }

  /** Every rank of the world is some process's rank. */
  lemma RanksCoverWorld(confs: seq<EngineConf>, r: nat) returns (c: EngineConf, k: nat)
    requires DistinctExecutors(confs) && r < World(confs)
    ensures c in confs && k < c.newTp && GlobalRank(confs, c.executorId, k) == Some(r)
  {
    var sorted := Sorted(confs);
    WorldIgnoresOrder(confs);
    var g;
    g, k := Owner(sorted, r);
    c := sorted[g];
    SortedIsSorted(confs);
    assert c in multiset(confs);
    FoundAtOwnPlace(confs, g);
  }
}
