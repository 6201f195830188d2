/** What it means for a list of process groups to be well formed. */
module Groups {
  type Group = seq<nat>

  ghost predicate Disjoint(groups: seq<Group>)
  {
    forall g, k, h, l ::
      (&& 0 <= g < |groups| && 0 <= k < |groups[g]|
       && 0 <= h < |groups| && 0 <= l < |groups[h]|
       && groups[g][k] == groups[h][l])
      ==> g == h && k == l
  }

  ghost predicate Holds(groups: seq<Group>, r: nat)
  {
    exists g :: 0 <= g < |groups| && r in groups[g]
  }

  /** Every rank below n sits at exactly one position of exactly one group, and nothing else does. */
  ghost predicate IsPartition(groups: seq<Group>, n: nat)
  {
    && Disjoint(groups)
    && (forall r: nat :: Holds(groups, r) <==> r < n)
  }

  ghost predicate SameGroup(groups: seq<Group>, r: nat, s: nat)
  {
    exists g :: 0 <= g < |groups| && r in groups[g] && s in groups[g]
  }

  /** Every group of `fine` lies inside one group of `coarse`. */
  ghost predicate Refines(fine: seq<Group>, coarse: seq<Group>)
  {
    forall r: nat, s: nat :: SameGroup(fine, r, s) ==> SameGroup(coarse, r, s)
  }

  /**
   A list of groups is a partition as soon as every rank has a home and every
   position holds a rank whose home it is.
   */
  lemma PartitionFromHome(groups: seq<Group>, n: nat, home: nat -> (int, int))
    requires forall r: nat :: r < n ==>
      (&& 0 <= home(r).0 < |groups|
       && 0 <= home(r).1 < |groups[home(r).0]|
       && groups[home(r).0][home(r).1] == r)
    requires forall g, k :: 0 <= g < |groups| && 0 <= k < |groups[g]| ==>
      groups[g][k] < n && home(groups[g][k]) == (g, k)
    ensures IsPartition(groups, n)
    ensures forall r: nat, s: nat :: r < n && s < n ==>
      (SameGroup(groups, r, s) <==> home(r).0 == home(s).0)
  {
    forall r: nat
      ensures Holds(groups, r) <==> r < n
    {
      if r < n {
        assert r in groups[home(r).0];
      }
    }
    forall r: nat, s: nat | r < n && s < n
      ensures SameGroup(groups, r, s) <==> home(r).0 == home(s).0
    {
      if home(r).0 == home(s).0 {
        assert r in groups[home(r).0] && s in groups[home(r).0];
      }
      if SameGroup(groups, r, s) {
        var g :| 0 <= g < |groups| && r in groups[g] && s in groups[g];
        var k :| 0 <= k < |groups[g]| && groups[g][k] == r;
        var l :| 0 <= l < |groups[g]| && groups[g][l] == s;
        assert home(groups[g][k]) == (g, k) && home(groups[g][l]) == (g, l);
      }
    }
  }
}
