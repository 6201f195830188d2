/** Exactly when all processes agree on the ranks, however the configurations are listed. */
module AsymAgreement {
  import opened Wrappers
  import opened Arith
  import opened Groups
  import opened AsymGroups
  import opened AsymTheorems

  /** No two executors with processes share a data-parallel rank. */
  ghost predicate NoLiveTies(confs: seq<EngineConf>)
  {
    forall i, j :: 0 <= i < j < |confs| && confs[i].newTp > 0 && confs[j].newTp > 0 ==>
      confs[i].dataParallelRank != confs[j].dataParallelRank
  }

  /** The processes of the executors with a smaller data-parallel rank. */
  function Below(confs: seq<EngineConf>, rank: int): nat
  {
    if confs == [] then 0 else
      (if confs[0].dataParallelRank < rank then confs[0].newTp else 0) + Below(confs[1..], rank)
  }

  lemma {:induction false} BelowAppend(a: seq<EngineConf>, b: seq<EngineConf>, rank: int)
    ensures Below(a + b, rank) == Below(a, rank) + Below(b, rank)
  {
    if a == [] {
      assert a + b == b;
    } else {
      assert (a + b)[1..] == a[1..] + b;
      BelowAppend(a[1..], b, rank);
    }
  }

  /** It depends on the configurations only. */
  lemma {:induction false} BelowIgnoresOrder(a: seq<EngineConf>, b: seq<EngineConf>, rank: int)
    requires multiset(a) == multiset(b)
    ensures Below(a, rank) == Below(b, rank)
    decreases |a|
  {
    assert |multiset(a)| == |multiset(b)| == |b|;
    if a != [] {
      assert a[0] in multiset(b);
      var i :| 0 <= i < |b| && b[i] == a[0];
      RemoveBoth(a, b, i);
      BelowIgnoresOrder(a[1..], b[..i] + b[i + 1..], rank);
      BelowWithout(b, i, rank);
    }
  }

  lemma RemoveBoth(a: seq<EngineConf>, b: seq<EngineConf>, i: nat)
    requires multiset(a) == multiset(b) && a != [] && i < |b| && b[i] == a[0]
    ensures multiset(a[1..]) == multiset(b[..i] + b[i + 1..])
  {
    assert a == [a[0]] + a[1..];
    assert b == b[..i] + [b[i]] + b[i + 1..];
    assert multiset(a[1..]) == multiset(a) - multiset{a[0]};
  }

  lemma BelowWithout(b: seq<EngineConf>, i: nat, rank: int)
    requires i < |b|
    ensures Below(b, rank) ==
      (if b[i].dataParallelRank < rank then b[i].newTp else 0) + Below(b[..i] + b[i + 1..], rank)
  {
    assert b == b[..i] + b[i..] && b[i..][1..] == b[i + 1..];
    BelowAppend(b[..i], b[i..], rank);
    BelowAppend(b[..i], b[i + 1..], rank);
  }

  /** In an ascending list, what stands before an executor and has processes has a smaller rank, and conversely. */
  lemma {:induction false} OffsetIsBelow(sorted: seq<EngineConf>, rank: int, i: nat)
    requires i <= |sorted|
    requires forall j :: 0 <= j < i ==> sorted[j].dataParallelRank < rank || sorted[j].newTp == 0
    ensures Offset(sorted, i) == Below(sorted[..i], rank)
  {
    if i > 0 {
      OffsetIsBelow(sorted, rank, i - 1);
      OffsetStep(sorted, i - 1);
      assert sorted[..i] == sorted[..i - 1] + [sorted[i - 1]];
      BelowAppend(sorted[..i - 1], [sorted[i - 1]], rank);
      assert [sorted[i - 1]][1..] == [];
    } else {
      assert Sizes(sorted)[..0] == [];
    }
  }

  lemma {:induction false} NothingBelow(confs: seq<EngineConf>, rank: int)
    requires forall c :: c in confs ==> c.dataParallelRank >= rank
    ensures Below(confs, rank) == 0
  {
    if confs != [] {
      NothingBelow(confs[1..], rank);
    }
  }

  lemma NoLiveTiesKept(a: seq<EngineConf>, b: seq<EngineConf>)
    requires multiset(a) == multiset(b) && NoLiveTies(a)
    ensures NoLiveTies(b)
  {
    forall i, j | 0 <= i < j < |b| && b[i].newTp > 0 && b[j].newTp > 0
      ensures b[i].dataParallelRank != b[j].dataParallelRank
    {
      assert b[i] in multiset(a) && b[j] in multiset(a);
      var k :| 0 <= k < |a| && a[k] == b[i];
      var l :| 0 <= l < |a| && a[l] == b[j];
      TwiceMeansTwo(b, i, j);
      if k == l {
        LiveOnce(a, k);
      }
    }
  }

  lemma LiveOnce(a: seq<EngineConf>, k: nat)
    requires NoLiveTies(a) && k < |a| && a[k].newTp > 0
    ensures multiset(a)[a[k]] == 1
  {
    assert a == a[..k] + [a[k]] + a[k + 1..];
    assert a[k] !in a[..k] && a[k] !in a[k + 1..];
  }

  /** Without live ties, a process's rank is given by the smaller data-parallel ranks alone. */
  lemma RankIsBelow(confs: seq<EngineConf>, c: EngineConf, k: nat)
    requires DistinctExecutors(confs) && NoLiveTies(confs) && c in confs && k < c.newTp
    ensures GlobalRank(confs, c.executorId, k) == Some(Below(confs, c.dataParallelRank) + k)
  {
    hide Sorted, IndexOf, Below, NoLiveTies, Offset;
    var s := Sorted(confs);
    var g := PlaceInSorted(confs, c);
    FoundAtOwnPlace(confs, g);
    SortedIsSorted(confs);
    NoLiveTiesKept(confs, s);
    OffsetInSorted(s, g);
    BelowIgnoresOrder(s, confs, c.dataParallelRank);
  }

  lemma OffsetInSorted(s: seq<EngineConf>, g: nat)
    requires Ascending(s) && NoLiveTies(s) && g < |s| && s[g].newTp > 0
    ensures Offset(s, g) == Below(s, s[g].dataParallelRank)
  {
    hide Below, Offset;
    OffsetIsBelow(s, s[g].dataParallelRank, g);
    NothingBelow(s[g..], s[g].dataParallelRank);
    assert s == s[..g] + s[g..];
    BelowAppend(s[..g], s[g..], s[g].dataParallelRank);
  }

  /** The index at which a stable insertion puts a rank. */
  function Slot(sorted: seq<EngineConf>, rank: int): (p: nat)
    ensures p <= |sorted|
  {
    if sorted == [] || rank <= sorted[0].dataParallelRank then 0 else 1 + Slot(sorted[1..], rank)
  }

  lemma {:induction false} InsertAtSlot(c: EngineConf, sorted: seq<EngineConf>)
    ensures var p := Slot(sorted, c.dataParallelRank); Insert(c, sorted) == sorted[..p] + [c] + sorted[p..]
  {
    if sorted != [] && c.dataParallelRank > sorted[0].dataParallelRank {
      InsertAtSlot(c, sorted[1..]);
    }
  }

  lemma {:induction false} InsertTwice(c: EngineConf, d: EngineConf, sorted: seq<EngineConf>)
    requires c.dataParallelRank == d.dataParallelRank
    ensures var p := Slot(sorted, c.dataParallelRank);
      Insert(c, Insert(d, sorted)) == sorted[..p] + [c, d] + sorted[p..]
  {
    if sorted != [] && c.dataParallelRank > sorted[0].dataParallelRank {
      InsertTwice(c, d, sorted[1..]);
      assert Insert(d, sorted)[1..] == Insert(d, sorted[1..]);
    }
  }

  lemma FrontPairRank(c: EngineConf, d: EngineConf, rest: seq<EngineConf>, k: int)
    requires c.dataParallelRank == d.dataParallelRank && DistinctExecutors([c, d] + rest)
    ensures var s := Sorted(rest); var p := Slot(s, c.dataParallelRank);
      && GlobalRank([c, d] + rest, c.executorId, k) == Some(Offset(s, p) + k)
      && GlobalRank([c, d] + rest, d.executorId, k) == Some(Offset(s, p) + c.newTp + k)
  {
    hide IndexOf, Sorted, Offset;
    var confs, s := [c, d] + rest, Sorted(rest);
    var p := Slot(s, c.dataParallelRank);
    SortedPair(c, d, rest);
    var t := Sorted(confs);
    FoundAtOwnPlace(confs, p);
    FoundAtOwnPlace(confs, p + 1);
    OffsetStep(t, p);
    OffsetOfPrefix(s, t, p);
  }

  lemma SortedPair(c: EngineConf, d: EngineConf, rest: seq<EngineConf>)
    requires c.dataParallelRank == d.dataParallelRank
    ensures var s := Sorted(rest); var p := Slot(s, c.dataParallelRank); var t := Sorted([c, d] + rest);
      |t| == |s| + 2 && t[..p] == s[..p] && t[p] == c && t[p + 1] == d
  {
    var confs := [c, d] + rest;
    assert confs[1..] == [d] + rest && ([d] + rest)[1..] == rest;
    InsertTwice(c, d, Sorted(rest));
  }

  lemma OffsetOfPrefix(s: seq<EngineConf>, t: seq<EngineConf>, p: nat)
    requires p <= |s| && p <= |t| && s[..p] == t[..p]
    ensures Offset(s, p) == Offset(t, p)
  {
    forall i | 0 <= i < p
      ensures Sizes(s)[i] == Sizes(t)[i]
    {
      assert s[..p][i] == t[..p][i];
    }
    assert Sizes(s)[..p] == Sizes(t)[..p];
  }

  /** Two executors with processes and one data-parallel rank: swapping them in the list changes ranks. */
  lemma LiveTieDisagrees(c: EngineConf, d: EngineConf, rest: seq<EngineConf>, k: int)
    requires c.dataParallelRank == d.dataParallelRank && c.newTp > 0 && d.newTp > 0
    requires DistinctExecutors([c, d] + rest)
    ensures multiset([c, d] + rest) == multiset([d, c] + rest)
    ensures GlobalRank([c, d] + rest, c.executorId, k) != GlobalRank([d, c] + rest, c.executorId, k)
  {
    hide GlobalRank, Sorted, Offset;
    assert multiset([c, d]) == multiset([d, c]);
    ReorderingKeepsDistinct([c, d] + rest, [d, c] + rest, (x: EngineConf) => x.executorId);
    FrontPairRank(c, d, rest, k);
    FrontPairRank(d, c, rest, k);
  }

  /** However the configurations are listed, every process computes the same rank for itself. */
  ghost predicate AllListingsAgree(a: seq<EngineConf>)
  {
    forall b, c, k: nat :: multiset(b) == multiset(a) && c in a && k < c.newTp ==>
      GlobalRank(b, c.executorId, k) == GlobalRank(a, c.executorId, k)
  }

  /** The configurations other than the i-th and the j-th. */
  function Others(a: seq<EngineConf>, i: nat, j: nat): seq<EngineConf>
    requires i < j < |a|
  {
    a[..i] + a[i + 1..j] + a[j + 1..]
  }

  lemma PullToFront(a: seq<EngineConf>, i: nat, j: nat)
    requires i < j < |a|
    ensures multiset(a) == multiset([a[i], a[j]] + Others(a, i, j))
  {
    assert a == a[..i] + [a[i]] + a[i + 1..j] + [a[j]] + a[j + 1..];
  }

  lemma TiesBreakAgreement(a: seq<EngineConf>, i: nat, j: nat)
    requires DistinctExecutors(a) && i < j < |a|
    requires a[i].newTp > 0 && a[j].newTp > 0 && a[i].dataParallelRank == a[j].dataParallelRank
    ensures !AllListingsAgree(a)
  {
    hide GlobalRank, Others;
    var c, d, rest := a[i], a[j], Others(a, i, j);
    PullToFront(a, i, j);
    ReorderingKeepsDistinct(a, [c, d] + rest, (e: EngineConf) => e.executorId);
    LiveTieDisagrees(c, d, rest, 0);
    assert c in a;
  }

  /** With distinct executors: all listings agree on all ranks exactly when no two executors with processes are tied. */
  lemma AgreementIff(a: seq<EngineConf>)
    requires DistinctExecutors(a)
    ensures AllListingsAgree(a) <==> NoLiveTies(a)
  {
    hide GlobalRank, Below;
    if NoLiveTies(a) {
      forall b, c, k: nat | multiset(b) == multiset(a) && c in a && k < c.newTp
        ensures GlobalRank(b, c.executorId, k) == GlobalRank(a, c.executorId, k)
      {
        assert c in multiset(b);
        ReorderingKeepsDistinct(a, b, (e: EngineConf) => e.executorId);
        NoLiveTiesKept(a, b);
        RankIsBelow(a, c, k);
        RankIsBelow(b, c, k);
        BelowIgnoresOrder(a, b, c.dataParallelRank);
      }
    } else {
      var i, j :| 0 <= i < j < |a| && a[i].newTp > 0 && a[j].newTp > 0
        && a[i].dataParallelRank == a[j].dataParallelRank;
      TiesBreakAgreement(a, i, j);
    }
  }

  /** With distinct data-parallel ranks the lists of groups are equal too, and so are failed lookups. */
  lemma AgreementAcrossListings(a: seq<EngineConf>, b: seq<EngineConf>, executor: string, rank: int)
    requires multiset(a) == multiset(b) && DistinctRanks(a)
    ensures GlobalRank(a, executor, rank) == GlobalRank(b, executor, rank)
    ensures TpGroupsOf(Sorted(a)) == TpGroupsOf(Sorted(b))
    ensures World(a) == World(b)
  {
    hide Sorted, IndexOf;
    SortedIgnoresListing(a, b);
    SameWorld(a, b);
  }

  lemma GroupAmongGroups(confs: seq<EngineConf>, g: Group)
    requires DistinctExecutors(confs) && NoLiveTies(confs) && g != []
    ensures g in TpGroupsOf(Sorted(confs)) <==>
      exists c :: c in confs && c.newTp > 0 && g == Range(Below(confs, c.dataParallelRank), c.newTp)
  {
    hide Sorted, IndexOf, Below;
    var s := Sorted(confs);
    SortedIsSorted(confs);
    forall i | 0 <= i < |s| && s[i].newTp > 0
      ensures s[i] in confs && TpGroupsOf(s)[i] == Range(Below(confs, s[i].dataParallelRank), s[i].newTp)
    {
      assert s[i] in multiset(confs);
      RankIsBelow(confs, s[i], 0);
      FoundAtOwnPlace(confs, i);
    }
    if c :| c in confs && c.newTp > 0 && g == Range(Below(confs, c.dataParallelRank), c.newTp) {
      var i := PlaceInSorted(confs, c);
      assert TpGroupsOf(s)[i] == g;
    }
    if g in TpGroupsOf(s) {
      var i :| 0 <= i < |s| && TpGroupsOf(s)[i] == g;
      assert s[i].newTp == |g| > 0;
    }
  }

  /** Then they also build the same TP groups, up to where the empty groups stand, over the same world. */
  lemma GroupsAgreeAcrossListings(a: seq<EngineConf>, b: seq<EngineConf>, g: Group)
    requires multiset(a) == multiset(b) && DistinctExecutors(a) && NoLiveTies(a) && g != []
    ensures g in TpGroupsOf(Sorted(a)) <==> g in TpGroupsOf(Sorted(b))
    ensures World(a) == World(b)
  {
    hide Sorted, Below, World, TpGroupsOf;
    ReorderingKeepsDistinct(a, b, (e: EngineConf) => e.executorId);
    NoLiveTiesKept(a, b);
    GroupAmongGroups(a, g);
    GroupAmongGroups(b, g);
    forall c: EngineConf
      ensures c in a <==> c in b
      ensures Below(a, c.dataParallelRank) == Below(b, c.dataParallelRank)
    {
      assert c in multiset(a) <==> c in multiset(b);
      BelowIgnoresOrder(a, b, c.dataParallelRank);
    }
    SameWorld(a, b);
  }

  lemma SameWorld(a: seq<EngineConf>, b: seq<EngineConf>)
    requires multiset(a) == multiset(b)
    ensures World(a) == World(b)
  {
    var top := AboveAll(a);
    WorldIsBelow(a, top);
    forall c | c in b
      ensures c.dataParallelRank < top
    {
      assert c in multiset(a);
    }
    WorldIsBelow(b, top);
    BelowIgnoresOrder(a, b, top);
  }

  lemma {:induction false} AboveAll(confs: seq<EngineConf>) returns (top: int)
    ensures forall c :: c in confs ==> c.dataParallelRank < top
  {
    top := 0;
    for i := 0 to |confs|
      invariant forall j :: 0 <= j < i ==> confs[j].dataParallelRank < top
    {
      top := if confs[i].dataParallelRank < top then top else confs[i].dataParallelRank + 1;
    }
  }

  lemma WorldIsBelow(confs: seq<EngineConf>, top: int)
    requires forall c :: c in confs ==> c.dataParallelRank < top
    ensures World(confs) == Below(confs, top)
  {
    OffsetIsBelow(confs, top, |confs|);
    assert confs[..|confs|] == confs;
  }

  /** A process has a rank exactly when its executor is configured. */
  lemma KnownExecutorsHaveRanks(confs: seq<EngineConf>, executor: string, rank: int)
    ensures GlobalRank(confs, executor, rank).Some? <==> exists c :: c in confs && c.executorId == executor
  {
    hide Sorted;
    SortedKeepsExecutors(confs, executor);
  }
}
