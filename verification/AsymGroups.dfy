/**
 Process groups after a rebuild with uneven tensor parallelism: every process
 sorts the engine configurations, then counts ranks off with a running offset.
 */
module AsymGroups {
  import opened Wrappers
  import opened Arith
  import opened Groups

  datatype EngineConf = EngineConf(executorId: string, dataParallelRank: int, newTp: nat)

  // ----- sorted(confs, key=data_parallel_rank), a stable sort -----

  function Insert(c: EngineConf, sorted: seq<EngineConf>): seq<EngineConf>
  {
    if sorted == [] || c.dataParallelRank <= sorted[0].dataParallelRank then [c] + sorted
    else [sorted[0]] + Insert(c, sorted[1..])
  }

  function Sorted(confs: seq<EngineConf>): seq<EngineConf>
  {
    if confs == [] then [] else Insert(confs[0], Sorted(confs[1..]))
  }

  ghost predicate Ascending(confs: seq<EngineConf>)
  {
    forall i, j :: 0 <= i < j < |confs| ==> confs[i].dataParallelRank <= confs[j].dataParallelRank
  }

  ghost predicate DistinctRanks(confs: seq<EngineConf>)
  {
    forall i, j :: 0 <= i < j < |confs| ==> confs[i].dataParallelRank != confs[j].dataParallelRank
  }

  ghost predicate DistinctExecutors(confs: seq<EngineConf>)
  {
    forall i, j :: 0 <= i < j < |confs| ==> confs[i].executorId != confs[j].executorId
  }

  lemma {:induction false} InsertKeepsMembers(c: EngineConf, sorted: seq<EngineConf>)
    ensures multiset(Insert(c, sorted)) == multiset{c} + multiset(sorted)
  {
    if sorted != [] && c.dataParallelRank > sorted[0].dataParallelRank {
      InsertKeepsMembers(c, sorted[1..]);
      assert sorted == [sorted[0]] + sorted[1..];
    }
  }

  lemma {:induction false} InsertKeepsOrder(c: EngineConf, sorted: seq<EngineConf>)
    requires Ascending(sorted)
    ensures Ascending(Insert(c, sorted))
    ensures Insert(c, sorted) != []
    ensures Insert(c, sorted)[0] == c || (sorted != [] && Insert(c, sorted)[0] == sorted[0])
  {
    if sorted != [] && c.dataParallelRank > sorted[0].dataParallelRank {
      InsertKeepsOrder(c, sorted[1..]);
      var rest := Insert(c, sorted[1..]);
      assert sorted[0].dataParallelRank <= rest[0].dataParallelRank;
    }
  }

  lemma {:induction false} SortedIsSorted(confs: seq<EngineConf>)
    ensures Ascending(Sorted(confs))
    ensures multiset(Sorted(confs)) == multiset(confs)
    ensures |Sorted(confs)| == |confs|
  {
    if confs != [] {
      SortedIsSorted(confs[1..]);
      InsertKeepsOrder(confs[0], Sorted(confs[1..]));
      InsertKeepsMembers(confs[0], Sorted(confs[1..]));
      assert confs == [confs[0]] + confs[1..];
    }
    assert |multiset(Sorted(confs))| == |multiset(confs)|;
  }

  lemma FirstOfBoth(a: seq<EngineConf>, b: seq<EngineConf>)
    requires Ascending(a) && Ascending(b) && DistinctRanks(a)
    requires multiset(a) == multiset(b) && a != [] && b != []
    ensures a[0] == b[0]
  {
    assert a[0] in multiset(b) && b[0] in multiset(a);
    var i :| 0 <= i < |b| && b[i] == a[0];
    var j :| 0 <= j < |a| && a[j] == b[0];
    assert a[0].dataParallelRank <= a[j].dataParallelRank;
    assert b[0].dataParallelRank <= b[i].dataParallelRank;
  }

  lemma DropFirst<T>(a: seq<T>, b: seq<T>)
    requires a != [] && b != [] && a[0] == b[0] && multiset(a) == multiset(b)
    ensures multiset(a[1..]) == multiset(b[1..])
  {
    assert a == [a[0]] + a[1..] && b == [b[0]] + b[1..];
    assert multiset(a[1..]) == multiset(a) - multiset{a[0]};
    assert multiset(b[1..]) == multiset(b) - multiset{b[0]};
  }

  /** Two ascending lists of the same configurations, no rank twice, are the same list. */
  lemma {:induction false} AscendingIsUnique(a: seq<EngineConf>, b: seq<EngineConf>)
    requires Ascending(a) && Ascending(b) && DistinctRanks(a)
    requires multiset(a) == multiset(b)
    ensures a == b
  {
    assert |multiset(a)| == |multiset(b)|;
    if a != [] {
      FirstOfBoth(a, b);
      DropFirst(a, b);
      AscendingIsUnique(a[1..], b[1..]);
      assert a == [a[0]] + a[1..] && b == [b[0]] + b[1..];
    }
  }

  lemma TwiceMeansTwo<T>(s: seq<T>, i: nat, j: nat)
    requires i < j < |s|
    ensures s[i] == s[j] ==> multiset(s)[s[i]] >= 2
  {
    assert s == s[..j] + s[j..];
    assert s[i] in s[..j] && s[j] in s[j..];
  }

  lemma OnceMeansOne<K>(s: seq<EngineConf>, key: EngineConf -> K, k: nat)
    requires k < |s|
    requires forall i, j :: 0 <= i < j < |s| ==> key(s[i]) != key(s[j])
    ensures multiset(s)[s[k]] == 1
  {
    assert s == s[..k] + [s[k]] + s[k + 1..];
    assert s[k] !in s[..k] && s[k] !in s[k + 1..];
  }

  /** Keys that are distinct in one list are distinct in every reordering of it. */
  lemma ReorderingKeepsDistinct<K>(a: seq<EngineConf>, b: seq<EngineConf>, key: EngineConf -> K)
    requires multiset(a) == multiset(b)
    requires forall i, j :: 0 <= i < j < |a| ==> key(a[i]) != key(a[j])
    ensures forall i, j :: 0 <= i < j < |b| ==> key(b[i]) != key(b[j])
  {
    forall i, j | 0 <= i < j < |b|
      ensures key(b[i]) != key(b[j])
    {
      assert b[i] in multiset(a) && b[j] in multiset(a);
      var k :| 0 <= k < |a| && a[k] == b[i];
      var l :| 0 <= l < |a| && a[l] == b[j];
      TwiceMeansTwo(b, i, j);
      OnceMeansOne(a, key, k);
    }
  }

  /** The sorted list depends on which configurations there are, not on how they were listed. */
  lemma SortedIgnoresListing(a: seq<EngineConf>, b: seq<EngineConf>)
    requires multiset(a) == multiset(b) && DistinctRanks(a)
    ensures Sorted(a) == Sorted(b)
  {
    SortedIsSorted(a);
    SortedIsSorted(b);
    ReorderingKeepsDistinct(a, Sorted(a), (c: EngineConf) => c.dataParallelRank);
    AscendingIsUnique(Sorted(a), Sorted(b));
  }

  // ----- sizes, offsets and the groups themselves -----

  function Sizes(confs: seq<EngineConf>): (s: seq<nat>)
    ensures |s| == |confs|
  {
    seq(|confs|, i requires 0 <= i < |confs| => confs[i].newTp)
  }

  function Offset(confs: seq<EngineConf>, i: nat): (r: nat)
    requires i <= |confs|
  {
    SumOfTakesMonotone(Sizes(confs), i, i);
    Sum(Sizes(confs)[..i])
  }

  lemma OffsetStep(confs: seq<EngineConf>, i: nat)
    requires i < |confs|
    ensures Offset(confs, i + 1) == Offset(confs, i) + confs[i].newTp
  {
    SumTake(Sizes(confs), i);
  }

  function World(confs: seq<EngineConf>): nat
  {
    Offset(confs, |confs|)
  }

  function Range(lo: nat, n: nat): Group
  {
    seq(n, k requires 0 <= k => lo + k)
  }

  /** Executor i of the sorted list owns the ranks from its offset on. */
  function TpGroupsOf(sorted: seq<EngineConf>): seq<Group>
  {
    seq(|sorted|, i requires 0 <= i < |sorted| => Range(Offset(sorted, i), sorted[i].newTp))
  }

  function Singletons(n: nat): seq<Group>
  {
    seq(n, k requires 0 <= k => [k])
  }

  /** The indices, in order, of the groups that have a j-th member. */
  function Longer(groups: seq<Group>, j: nat): (m: seq<nat>)
    ensures forall p :: 0 <= p < |m| ==> m[p] < |groups| && j < |groups[m[p]]|
  {
    if groups == [] then [] else
      var last := |groups| - 1;
      Longer(groups[..last], j) + if j < |groups[last]| then [last] else []
  }

  /** The j-th tuple of zip_longest over the groups, without its fill values. */
  function Column(groups: seq<Group>, j: nat): Group
  {
    var m := Longer(groups, j);
    seq(|m|, p requires 0 <= p < |m| => groups[m[p]][j])
  }

  function MaxLength(groups: seq<Group>): nat
  {
    if groups == [] then 0 else
      var rest := MaxLength(groups[1..]);
      if |groups[0]| > rest then |groups[0]| else rest
  }

  function DpGroupsOf(tp: seq<Group>): seq<Group>
  {
    seq(MaxLength(tp), j requires 0 <= j => Column(tp, j))
  }

  // ----- the loops -----

  method AsymWorldSize(confs: seq<EngineConf>) returns (r: Option<nat>)
    ensures r == if World(confs) > 0 then Some(World(confs)) else None
  {
    var size := 0;
    for i := 0 to |confs|
      invariant size == Offset(confs, i)
    {
      OffsetStep(confs, i);
      size := size + confs[i].newTp;
    }
    r := if size > 0 then Some(size) else None;
  }

  /** Where the first configuration of an executor stands, |confs| when it has none. */
  function IndexOf(confs: seq<EngineConf>, executor: string): (i: nat)
    ensures i <= |confs|
    ensures i < |confs| ==> confs[i].executorId == executor
    ensures forall j :: 0 <= j < i ==> confs[j].executorId != executor
  {
    if confs == [] || confs[0].executorId == executor then 0
    else 1 + IndexOf(confs[1..], executor)
  }

  function GlobalRank(confs: seq<EngineConf>, executor: string, rank: int): Option<int>
  {
    var sorted := Sorted(confs);
    var i := IndexOf(sorted, executor);
    if i < |sorted| then Some(Offset(sorted, i) + rank) else None
  }

  method GetGlobalRankAsym(confs: seq<EngineConf>, executor: string, rank: int) returns (r: Option<int>)
    ensures r == GlobalRank(confs, executor, rank)
  {
    var sorted := Sorted(confs);
    var next := 0;
    for i := 0 to |sorted|
      invariant next == Offset(sorted, i)
      invariant i <= IndexOf(sorted, executor)
    {
      if sorted[i].executorId == executor {
        return Some(next + rank);
      }
      OffsetStep(sorted, i);
      next := next + sorted[i].newTp;
    }
    r := None;
  }

  method BuildTpGroups(sorted: seq<EngineConf>) returns (groups: seq<Group>)
    ensures groups == TpGroupsOf(sorted)
  {
    groups := [];
    var next := 0;
    for i := 0 to |sorted|
      invariant next == Offset(sorted, i)
      invariant groups == TpGroupsOf(sorted)[..i]
    {
      groups := groups + [Range(next, sorted[i].newTp)];
      OffsetStep(sorted, i);
      next := next + sorted[i].newTp;
    }
  }

  /** The DCP, PCP and PP branches: every rank alone. */
  method BuildSingletons(sorted: seq<EngineConf>) returns (groups: seq<Group>)
    ensures groups == Singletons(World(sorted))
  {
    groups := [];
    var next := 0;
    for i := 0 to |sorted|
      invariant next == Offset(sorted, i)
      invariant groups == Singletons(next)
    {
      OffsetStep(sorted, i);
      for r := next to next + sorted[i].newTp
        invariant groups == Singletons(r)
      {
        groups := groups + [[r]];
      }
      next := next + sorted[i].newTp;
    }
  }

  method BuildDpGroups(tp: seq<Group>) returns (groups: seq<Group>)
    ensures groups == DpGroupsOf(tp)
  {
    groups := [];
    for j := 0 to MaxLength(tp)
      invariant groups == DpGroupsOf(tp)[..j]
    {
      var filtered := FilterColumn(tp, j);
      groups := groups + [filtered];
    }
  }

  /** One more group adds its j-th member to the column, if it has one. */
  lemma ColumnGrows(groups: seq<Group>, i: nat, j: nat)
    requires i < |groups|
    ensures Column(groups[..i + 1], j) == Column(groups[..i], j) + if j < |groups[i]| then [groups[i][j]] else []
  {
    var more, done := groups[..i + 1], groups[..i];
    assert more[..i] == done && more[i] == groups[i];
    var m, n := Longer(more, j), Longer(done, j);
    assert m == n + if j < |groups[i]| then [i] else [];
    forall p | 0 <= p < |n|
      ensures more[m[p]][j] == done[n[p]][j]
    {
      assert more[n[p]] == done[n[p]];
    }
  }

  /** One tuple of zip_longest without its fill values. */
  method FilterColumn(tp: seq<Group>, j: nat) returns (filtered: Group)
    ensures filtered == Column(tp, j)
  {
    hide Column;
    filtered := [];
    EmptyColumn(j);
    assert tp[..0] == [];
    for i := 0 to |tp|
      invariant filtered == Column(tp[..i], j)
    {
      ColumnGrows(tp, i, j);
      if j < |tp[i]| {
        filtered := filtered + [tp[i][j]];
      }
    }
    assert tp[..|tp|] == tp;
  }

  lemma EmptyColumn(j: nat)
    ensures Column([], j) == []
  {
  }
}
