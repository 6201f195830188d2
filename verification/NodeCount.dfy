/** Counting machines: group ranks by the same-node flags each of them broadcasts. */
module NodeCount {

  ghost predicate Equivalence(n: nat, same: (nat, nat) -> bool)
  {
    && (forall r: nat :: r < n ==> same(r, r))
    && (forall r: nat, s: nat :: r < n && s < n && same(r, s) ==> same(s, r))
    && (forall r: nat, s: nat, t: nat :: r < n && s < n && t < n && same(r, s) && same(s, t) ==> same(r, t))
  }

  /** The ranks on the same node as r. */
  ghost function Class(n: nat, same: (nat, nat) -> bool, r: nat): set<nat>
  {
    set s: nat | s < n && same(r, s)
  }

  /** The nodes, each as the set of its ranks. */
  ghost function Classes(n: nat, same: (nat, nat) -> bool): set<set<nat>>
  {
    set r: nat | r < n :: Class(n, same, r)
  }

  ghost function ClassesOf(n: nat, same: (nat, nat) -> bool, reps: seq<nat>): set<set<nat>>
  {
    set k | 0 <= k < |reps| :: Class(n, same, reps[k])
  }

  lemma {:induction false} OneClassPerRepresentative(n: nat, same: (nat, nat) -> bool, reps: seq<nat>)
    requires Equivalence(n, same)
    requires forall k :: 0 <= k < |reps| ==> reps[k] < n
    requires forall k, l :: 0 <= k < l < |reps| ==> !same(reps[k], reps[l])
    ensures |ClassesOf(n, same, reps)| == |reps|
  {
    if reps != [] {
      var last := |reps| - 1;
      var rest := reps[..last];
      OneClassPerRepresentative(n, same, rest);
      var c := Class(n, same, reps[last]);
      assert reps[last] in c;
      forall k | 0 <= k < last
        ensures Class(n, same, rest[k]) != c
      {
        assert reps[last] !in Class(n, same, reps[k]);
      }
      assert ClassesOf(n, same, reps) == ClassesOf(n, same, rest) + {c};
    }
  }

  lemma SameMeansSameClass(n: nat, same: (nat, nat) -> bool, r: nat, s: nat)
    requires Equivalence(n, same) && r < n && s < n && same(r, s)
    ensures Class(n, same, r) == Class(n, same, s)
  {
  }

  /** Rank r carries number k + 1 exactly when it is on the node of representative k. */
  ghost predicate Numbered(n: nat, same: (nat, nat) -> bool, reps: seq<nat>, node: seq<nat>)
  {
    && |node| == n
    && (forall k :: 0 <= k < |reps| ==> reps[k] < n)
    && (forall k, l :: 0 <= k < l < |reps| ==> !same(reps[k], reps[l]))
    && (forall r :: 0 <= r < n ==> node[r] <= |reps|)
    && (forall r, k :: 0 <= r < n && 0 <= k < |reps| ==> (node[r] == k + 1 <==> same(reps[k], r)))
  }

  /** One broadcast: unassigned ranks on the current node get its number. */
  function Marked(node: seq<nat>, same: (nat, nat) -> bool, current: nat, id: nat): (r: seq<nat>)
    ensures |r| == |node|
  {
    seq(|node|, r requires 0 <= r < |node| =>
      if node[r] == 0 && (r == current || same(current, r)) then id else node[r])
  }

  lemma MarkKeepsNumbered(n: nat, same: (nat, nat) -> bool, reps: seq<nat>, node: seq<nat>, current: nat)
    requires Equivalence(n, same) && Numbered(n, same, reps, node)
    requires current < n && node[current] == 0
    ensures Numbered(n, same, reps + [current], Marked(node, same, current, |reps| + 1))
  {
    forall r | 0 <= r < n && node[r] != 0
      ensures !same(current, r)
    {
      assert same(reps[node[r] - 1], r) && !same(reps[node[r] - 1], current);
    }
    forall k | 0 <= k < |reps|
      ensures !same(reps[k], current)
    {
      assert node[current] != k + 1;
    }
    forall r, k | 0 <= r < n && 0 <= k < |reps| && node[r] == 0
      ensures !same(reps[k], r)
    {
    }
  }

  method MarkNode(node: array<nat>, same: (nat, nat) -> bool, current: nat, id: nat)
    requires current < node.Length && node[current] == 0 && id != 0
    modifies node
    ensures node[..] == Marked(old(node[..]), same, current, id)
  {
    node[current] := id;
    for other := 0 to node.Length
      invariant forall r :: 0 <= r < other || r == current ==> node[r] == Marked(old(node[..]), same, current, id)[r]
      invariant forall r :: other <= r < node.Length && r != current ==> node[r] == old(node[r])
    {
      if same(current, other) && node[other] == 0 {
        node[other] := id;
      }
    }
  }

  method AssignNodes(n: nat, same: (nat, nat) -> bool) returns (count: nat, node: array<nat>)
    requires Equivalence(n, same)
    ensures count == |Classes(n, same)|
    ensures node.Length == n
    ensures forall r :: 0 <= r < n ==> 1 <= node[r] <= count
    ensures forall r, s :: 0 <= r < n && 0 <= s < n ==> (node[r] == node[s] <==> same(r, s))
  {
    node := new nat[n](_ => 0);
    count := 0;
    ghost var reps: seq<nat> := [];
    for current := 0 to n
      invariant |reps| == count
      invariant Numbered(n, same, reps, node[..])
      invariant forall r :: 0 <= r < current ==> node[r] != 0
    {
      if node[current] == 0 {
        MarkKeepsNumbered(n, same, reps, node[..], current);
        count := count + 1;
        MarkNode(node, same, current, count);
        reps := reps + [current];
      }
    }
    NodesAreClasses(n, same, reps, node[..]);
  }

  lemma NodesAreClasses(n: nat, same: (nat, nat) -> bool, reps: seq<nat>, node: seq<nat>)
    requires Equivalence(n, same) && Numbered(n, same, reps, node)
    requires forall r :: 0 <= r < n ==> node[r] != 0
    ensures |reps| == |Classes(n, same)|
    ensures forall r, s :: 0 <= r < n && 0 <= s < n ==> (node[r] == node[s] <==> same(r, s))
  {
    OneClassPerRepresentative(n, same, reps);
    forall r: nat | r < n
      ensures same(reps[node[r] - 1], r)
      ensures Class(n, same, r) == Class(n, same, reps[node[r] - 1])
    {
      SameMeansSameClass(n, same, reps[node[r] - 1], r);
    }
    forall c | c in Classes(n, same)
      ensures c in ClassesOf(n, same, reps)
    {
      var r: nat :| r < n && c == Class(n, same, r);
      var k := node[r] - 1;
      assert c == Class(n, same, reps[k]);
    }
    assert Classes(n, same) == ClassesOf(n, same, reps);
    forall r: nat, s: nat | r < n && s < n
      ensures node[r] == node[s] <==> same(r, s)
    {
      assert same(reps[node[r] - 1], r) && same(reps[node[s] - 1], s);
    }
  }

  /** With the shortcut for a single rank. */
  method Count(n: nat, same: (nat, nat) -> bool) returns (count: nat)
    requires Equivalence(n, same)
    ensures count == |Classes(n, same)|
  {
    if n == 1 {
      assert Classes(n, same) == {Class(n, same, 0)};
      return 1;
    }
    var node;
    count, node := AssignNodes(n, same);
  }
}
