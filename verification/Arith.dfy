/** Division facts, sums and partitions that the other modules share. */
module Arith {

  lemma MulMonotone(a: int, b: int, d: nat)
    ensures a <= b ==> a * d <= b * d
    ensures a < b ==> a * d + d <= b * d
  {
    if a < b {
      MulNonNegative(b - a - 1, d);
      MulDistributes(b - a - 1, a + 1, d);
      MulDistributes(a, 1, d);
    }
  }

  lemma MulNonNegative(a: nat, b: nat)
    ensures 0 <= a * b
  {
  }

  lemma MulAssociative(a: int, b: int, c: int)
    ensures a * (b * c) == (a * b) * c
  {
  }

  lemma MulDistributes(a: int, b: int, c: int)
    ensures (a + b) * c == a * c + b * c
  {
  }

  lemma DivModUnique(q: int, r: int, d: int)
    requires 0 <= r < d
    ensures (q * d + r) / d == q
    ensures (q * d + r) % d == r
  {
    var n := q * d + r;
    assert n == n / d * d + n % d;
    MulMonotone(n / d, q, d);
    MulMonotone(q, n / d, d);
  }

  lemma MultiplesAdd(x: nat, y: nat, d: nat)
    requires d > 0 && x % d == 0 && y % d == 0
    ensures (x + y) % d == 0
    ensures (x + y) / d == x / d + y / d
  {
    var p, q := x / d, y / d;
    assert x == p * d && y == q * d;
    MulDistributes(p, q, d);
    DivModUnique(p + q, 0, d);
  }

  /** Row-major position (g, k) of a grid with `rows` rows of width `d` is in range. */
  lemma GridBound(g: int, k: int, rows: int, d: int)
    requires 0 <= g < rows
    requires 0 <= k < d
    ensures 0 <= g * d + k < rows * d
  {
    MulMonotone(0, g, d);
    MulMonotone(g, rows, d);
  }

  /** The inverse of GridBound: a position below rows * d names one row and one column. */
  lemma GridSplit(n: int, rows: nat, d: nat)
    requires 0 <= n < rows * d
    ensures 0 < d && 0 < rows
    ensures 0 <= n / d < rows && 0 <= n % d < d
    ensures n / d * d + n % d == n
  {
    MulMonotone(rows, n / d, d);
  }

  function Sum(xs: seq<int>): int
  {
    if xs == [] then 0 else xs[0] + Sum(xs[1..])
  }

  lemma {:induction false} SumAppend(xs: seq<int>, ys: seq<int>)
    ensures Sum(xs + ys) == Sum(xs) + Sum(ys)
  {
    if xs == [] {
      assert xs + ys == ys;
    } else {
      assert (xs + ys)[1..] == xs[1..] + ys;
      SumAppend(xs[1..], ys);
    }
  }

  lemma SumTake(xs: seq<int>, i: nat)
    requires i < |xs|
    ensures Sum(xs[..i + 1]) == Sum(xs[..i]) + xs[i]
  {
    assert xs[..i + 1] == xs[..i] + [xs[i]];
    SumAppend(xs[..i], [xs[i]]);
    assert Sum([xs[i]]) == xs[i];
  }

  lemma {:induction false} SumOfTakesMonotone(xs: seq<nat>, i: nat, j: nat)
    requires i <= j <= |xs|
    ensures 0 <= Sum(xs[..i]) <= Sum(xs[..j])
    decreases j
  {
    if j > i {
      SumOfTakesMonotone(xs, i, j - 1);
      SumTake(xs, j - 1);
    } else if i > 0 {
      SumOfTakesMonotone(xs, 0, i - 1);
      SumTake(xs, i - 1);
    }
  }

  /**
   Contiguous tiles laid end to end: every position below the total size lies in
   the tile returned, and in no other.
   */
  lemma {:induction false} TileOf(sizes: seq<nat>, x: nat) returns (i: nat)
    requires x < Sum(sizes)
    ensures i < |sizes|
    ensures Sum(sizes[..i]) <= x < Sum(sizes[..i + 1])
    ensures forall j :: 0 <= j < |sizes| && Sum(sizes[..j]) <= x < Sum(sizes[..j + 1]) ==> j == i
  {
    i := 0;
    assert sizes[..|sizes|] == sizes;
    while i < |sizes| && Sum(sizes[..i + 1]) <= x
      invariant i <= |sizes|
      invariant Sum(sizes[..i]) <= x
    {
      i := i + 1;
    }
    forall j | 0 <= j < |sizes| && Sum(sizes[..j]) <= x < Sum(sizes[..j + 1])
      ensures j == i
    {
      if j < i {
        SumOfTakesMonotone(sizes, j + 1, i);
      } else if i < j {
        SumOfTakesMonotone(sizes, i + 1, j);
      }
    }
  }

  lemma {:induction false} SumConstant(n: nat, c: int)
    ensures Sum(seq(n, _ => c)) == n * c
  {
    if n > 0 {
      assert seq(n, _ => c)[1..] == seq(n - 1, _ => c);
      SumConstant(n - 1, c);
    }
  }
}
