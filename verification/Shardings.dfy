/** How much of a layer each tensor-parallel rank takes. */
module Shardings {
  import opened Wrappers
  import opened Arith

  /** get_tp_shardings. */
  function TpShardings(tp: nat): seq<nat>
  {
    if tp == 1 then [8]
    else if tp == 2 then [4, 4]
    else if tp == 3 then [3, 3, 2]
    else if tp == 4 then [2, 2, 2, 2]
    else if tp == 5 then [2, 2, 2, 1, 1]
    else if tp == 6 then [2, 2, 1, 1, 1, 1]
    else if tp == 7 then [2, 1, 1, 1, 1, 1, 1]
    else if tp == 8 then [1, 1, 1, 1, 1, 1, 1, 1]
    else seq(tp, _ => 1)
  }

  /** The sum of the shardings. */
  function Units(tp: nat): nat
  {
    if 1 <= tp <= 8 then 8 else tp
  }

  lemma SumOfTwo(x: nat, y: nat, rest: seq<nat>)
    ensures Sum([x, y] + rest) == x + y + Sum(rest)
  {
    SumAppend([x, y], rest);
    assert [x, y][1..] == [y] && [y][1..] == [];
  }

  lemma SumOfFour(w: nat, x: nat, y: nat, z: nat, rest: seq<nat>)
    ensures Sum([w, x, y, z] + rest) == w + x + y + z + Sum(rest)
  {
    hide Sum;
    SumOfTwo(w, x, [y, z] + rest);
    SumOfTwo(y, z, rest);
    assert [w, x, y, z] + rest == [w, x] + ([y, z] + rest);
  }

  lemma SumOfSmall(tp: nat)
    requires 1 <= tp <= 8
    ensures Sum(TpShardings(tp)) == 8
  {
    if tp == 2 {
      SumOfTwo(4, 4, []);
    } else if tp == 3 {
      SumOfTwo(3, 3, [2]);
    } else if tp == 4 {
      SumOfFour(2, 2, 2, 2, []);
      assert TpShardings(tp) == [2, 2, 2, 2] + [];
    } else if tp == 5 {
      SumOfFour(2, 2, 2, 1, [1]);
      assert TpShardings(tp) == [2, 2, 2, 1] + [1];
    } else if tp == 6 {
      SumOfFour(2, 2, 1, 1, [1, 1]);
      assert TpShardings(tp) == [2, 2, 1, 1] + [1, 1];
      SumOfTwo(1, 1, []);
      assert [1, 1] + [] == [1, 1];
    } else if tp == 7 {
      SumOfFour(2, 1, 1, 1, [1, 1, 1]);
      assert TpShardings(tp) == [2, 1, 1, 1] + [1, 1, 1];
      SumOfTwo(1, 1, [1]);
    } else if tp == 8 {
      SumOfFour(1, 1, 1, 1, [1, 1, 1, 1]);
      assert TpShardings(tp) == [1, 1, 1, 1] + [1, 1, 1, 1];
      SumOfFour(1, 1, 1, 1, []);
      assert [1, 1, 1, 1] + [] == [1, 1, 1, 1];
    }
  }

  lemma SumOfLarge(tp: nat)
    requires tp == 0 || tp > 8
    ensures Sum(TpShardings(tp)) == tp
  {
    assert TpShardings(tp) == seq(tp, _ => 1 as int);
    SumConstant(tp, 1);
  }

  lemma SharesShrink(tp: nat)
    ensures |TpShardings(tp)| == tp
    ensures forall r :: 0 <= r < tp ==> 1 <= TpShardings(tp)[r] <= TpShardings(tp)[0]
    ensures forall q, r :: 0 <= q <= r < tp ==> TpShardings(tp)[q] >= TpShardings(tp)[r]
  {
  }

  /** One share per rank, none empty, never growing, all units given out. */
  lemma ShardingsTile(tp: nat)
    ensures |TpShardings(tp)| == tp
    ensures forall r :: 0 <= r < tp ==> 1 <= TpShardings(tp)[r] <= TpShardings(tp)[0]
    ensures forall q, r :: 0 <= q <= r < tp ==> TpShardings(tp)[q] >= TpShardings(tp)[r]
    ensures Sum(TpShardings(tp)) == Units(tp)
    ensures tp > 0 ==> Units(tp) > 0
  {
    hide TpShardings;
    SharesShrink(tp);
    if 1 <= tp <= 8 {
      SumOfSmall(tp);
    } else {
      SumOfLarge(tp);
    }
  }

  /** divide(n, d): exact or an assertion failure. */
  function Divide(n: nat, d: nat): Option<nat>
    requires d > 0
  {
    if n % d == 0 then Some(n / d) else None
  }

  /** divide(n, sum(shardings)) * shardings[rank]. */
  function PartSize(n: nat, tp: nat, rank: nat): Option<nat>
    requires rank < tp
  {
    ShardingsTile(tp);
    match Divide(n, Units(tp))
    case Some(u) => Some(u * TpShardings(tp)[rank])
    case None => None
  }

  /** The sizes of all ranks, where the split exists. */
  function PartSizes(n: nat, tp: nat): (sizes: seq<nat>)
    requires tp > 0 && n % Units(tp) == 0
    ensures |sizes| == tp
  {
    ShardingsTile(tp);
    seq(tp, r requires 0 <= r < tp => n / Units(tp) * TpShardings(tp)[r])
  }

  lemma {:induction false} SumScaled(xs: seq<nat>, ys: seq<nat>, u: nat)
    requires |ys| == |xs| && forall i :: 0 <= i < |xs| ==> ys[i] == u * xs[i]
    ensures Sum(ys) == u * Sum(xs)
  {
    if xs != [] {
      SumScaled(xs[1..], ys[1..], u);
      MulDistributes(xs[0], Sum(xs[1..]), u);
    }
  }

  /** The construction succeeds on all ranks or on none, and the parts add up to the whole. */
  lemma PartsTile(n: nat, tp: nat)
    requires tp > 0
    ensures forall r :: 0 <= r < tp ==> (PartSize(n, tp, r).Some? <==> n % Units(tp) == 0)
    ensures n % Units(tp) == 0 ==>
      && Sum(PartSizes(n, tp)) == n
      && forall r :: 0 <= r < tp ==> PartSize(n, tp, r) == Some(PartSizes(n, tp)[r])
  {
    ShardingsTile(tp);
    if n % Units(tp) == 0 {
      SumScaled(TpShardings(tp), PartSizes(n, tp), n / Units(tp));
    }
  }

  /** The first and last shares are equal exactly for these group sizes. */
  lemma EqualSharesIff(tp: nat)
    requires tp > 0
    ensures |TpShardings(tp)| == tp
    ensures TpShardings(tp)[tp - 1] == TpShardings(tp)[0] <==> tp in {1, 2, 4} || tp >= 8
    ensures tp in {1, 2, 4} || tp >= 8 ==>
      Units(tp) == TpShardings(tp)[0] * tp && forall r :: 0 <= r < tp ==> TpShardings(tp)[r] == TpShardings(tp)[0]
  {
  }

  /**
   An even split of the input into tp chunks, as split_tensor_along_last_dim makes
   it, has the sizes of the uneven weight shards exactly when the shares are equal.
   */
  lemma EvenChunksFitIff(n: nat, tp: nat)
    requires tp > 0 && n > 0 && n % Units(tp) == 0 && n % tp == 0
    ensures (forall r :: 0 <= r < tp ==> PartSizes(n, tp)[r] == n / tp) <==>
      tp in {1, 2, 4} || tp >= 8
  {
    hide TpShardings, Units;
    ShardingsTile(tp);
    EqualSharesIff(tp);
    var u, s := n / Units(tp), TpShardings(tp);
    assert n == u * Units(tp);
    if tp in {1, 2, 4} || tp >= 8 {
      MulAssociative(u, s[0], tp);
      DivModUnique(u * s[0], 0, tp);
    } else {
      MulMonotone(s[tp - 1], s[0], u);
      assert u > 0;
      assert PartSizes(n, tp)[tp - 1] != PartSizes(n, tp)[0];
    }
  }
}
