/** Exact-arithmetic vectors and the all-reduce over a group of ranks. */
module Vectors {
  type Vec = seq<int>

  function Zero(n: nat): (v: Vec)
    ensures |v| == n
  {
    seq(n, _ => 0)
  }

  function Add(u: Vec, v: Vec): (w: Vec)
    requires |u| == |v|
    ensures |w| == |u|
  {
    seq(|u|, i requires 0 <= i < |u| => u[i] + v[i])
  }

  ghost predicate AllOfWidth(vs: seq<Vec>, n: nat)
  {
    forall i :: 0 <= i < |vs| ==> |vs[i]| == n
  }

  /** all_reduce: the element-wise sum of every rank's vector. */
  function AllReduce(parts: seq<Vec>, n: nat): (v: Vec)
    requires AllOfWidth(parts, n)
    ensures |v| == n
  {
    if parts == [] then Zero(n) else Add(parts[0], AllReduce(parts[1..], n))
  }

  lemma {:induction false} AllReduceOfZeros(parts: seq<Vec>, n: nat)
    requires AllOfWidth(parts, n)
    requires forall i :: 0 <= i < |parts| ==> parts[i] == Zero(n)
    ensures AllReduce(parts, n) == Zero(n)
  {
    if parts != [] {
      AllReduceOfZeros(parts[1..], n);
    }
  }

  /** When all ranks but one contribute zeros, the sum is that rank's vector. */
  lemma {:induction false} AllReduceOfOne(parts: seq<Vec>, n: nat, owner: nat)
    requires AllOfWidth(parts, n) && owner < |parts|
    requires forall i :: 0 <= i < |parts| && i != owner ==> parts[i] == Zero(n)
    ensures AllReduce(parts, n) == parts[owner]
  {
    if owner == 0 {
      AllReduceOfZeros(parts[1..], n);
    } else {
      AllReduceOfOne(parts[1..], n, owner - 1);
    }
  }
}
