/** Splitting query heads and key/value heads over uneven ranks. */
module QkvHeads {
  import opened Wrappers
  import opened Arith
  import opened Shardings

  datatype HeadSplit = HeadSplit(heads: nat, kvHeads: nat, replicas: nat)

  /** The key/value part of the constructor, for `units` units of which this rank has `share`. */
  function KvSplit(kv: nat, units: nat, share: nat): Option<(nat, nat)>
    requires kv > 0 && units > 0 && share > 0
  {
    if units >= kv then
      match Divide(units, kv)
      case None => None
      case Some(perKv) =>
        MulMonotone(1, perKv, kv);
        MulMonotone(1, kv, share);
        var replicas := Divide(units, kv * share);
        if share % perKv != 0 && perKv % share != 0 then
          (if replicas.Some? then Some((1, replicas.value)) else None)
        else if share * kv / units != 0 then
          match Divide(kv * share, units)
          case Some(n) => Some((n, 1))
          case None => None
        else
          (if replicas.Some? then Some((1, replicas.value)) else None)
    else
      match Divide(kv, units)
      case Some(n) => Some((n * share, 1))
      case None => None
  }

  /** The head counts, which __init__ computes first. */
  function HeadCounts(heads: nat, kv: nat, tp: nat, rank: nat): Option<HeadSplit>
    requires kv > 0 && rank < tp
  {
    ShardingsTile(tp);
    var share := TpShardings(tp)[rank];
    match Divide(heads, Units(tp))
    case None => None
    case Some(perUnit) =>
      match KvSplit(kv, Units(tp), share)
      case None => None
      case Some(k) => Some(HeadSplit(perUnit * share, k.0, k.1))
  }

  /** Rows of the fused query, key and value projection. */
  function FusedSize(heads: nat, kv: nat, headSize: nat): nat
  {
    MulNonNegative(heads + 2 * kv, headSize);
    (heads + 2 * kv) * headSize
  }

  /** The whole construction: the column-parallel parent divides the fused size as well. */
  function Split(heads: nat, kv: nat, headSize: nat, tp: nat, rank: nat): Option<HeadSplit>
    requires kv > 0 && rank < tp
  {
    ShardingsTile(tp);
    if Divide(FusedSize(heads, kv, headSize), Units(tp)).Some? then HeadCounts(heads, kv, tp, rank) else None
  }

  /** Shares and key/value spans fit together: one divides the other. */
  predicate Commensurate(kv: nat, units: nat, share: nat)
    requires share > 0
  {
    if kv == 0 then false
    else if kv <= units then
      units % kv == 0 && units / kv > 0 && (share % (units / kv) == 0 || (units / kv) % share == 0)
    else units > 0 && kv % units == 0
  }

  lemma ScaledParts(x: nat, y: nat, b: nat, c: nat)
    requires y < b && c > 0
    ensures b * c > 0
    ensures (x * b + y) * c / (b * c) == x
    ensures (x * b + y) * c % (b * c) == y * c
  {
    MulMonotone(y, b, c);
    MulNonNegative(y, c);
    MulDistributes(x * b, y, c);
    MulAssociative(x, b, c);
    DivModUnique(x, y * c, b * c);
  }

  lemma ScaledDivides(a: nat, b: nat, c: nat)
    requires b > 0 && c > 0
    ensures b * c > 0
    ensures (a * c) % (b * c) == 0 <==> a % b == 0
    ensures (a * c) / (b * c) == a / b
  {
    var x, y := a / b, a % b;
    assert a == x * b + y;
    ScaledParts(x, y, b, c);
    if y > 0 {
      MulMonotone(1, y, c);
    }
  }

  /** When the constructor gets through, and what it then sets. */
  lemma KvSplitSucceedsIff(kv: nat, units: nat, share: nat)
    requires kv > 0 && units > 0 && share > 0
    ensures KvSplit(kv, units, share).Some? <==> Commensurate(kv, units, share)
    ensures KvSplit(kv, units, share).Some? ==>
      var (n, replicas) := KvSplit(kv, units, share).value;
      && replicas >= 1
      && (replicas == 1 ==> n * units == kv * share)
      && (replicas > 1 ==> n == 1 && share * replicas * kv == units)
      && kv * share / units == (if replicas == 1 then n else 0)
  {
    if units >= kv {
      if units % kv == 0 {
        var perKv := units / kv;
        assert units == perKv * kv;
        MulMonotone(perKv, 0, kv);
        ScaledDivides(perKv, share, kv);
        ScaledDivides(share, perKv, kv);
        assert share * kv == kv * share;
        WholeShares(kv, perKv, share);
      }
    } else if kv % units == 0 {
      var n := kv / units;
      assert kv == n * units;
      assert kv * share == n * share * units;
      DivModUnique(n * share, 0, units);
    }
  }

  lemma ExactQuotient(a: nat, d: nat)
    requires a > 0 && d > 0 && a % d == 0
    ensures a / d >= 1 && a / d * d == a && a >= d
    ensures a / d == 1 <==> a == d
  {
    MulMonotone(a / d, 0, d);
    MulMonotone(1, a / d, d);
    MulMonotone(2, a / d, d);
  }

  lemma WholeShares(kv: nat, perKv: nat, share: nat)
    requires kv > 0 && perKv > 0 && share > 0
    ensures perKv % share == 0 ==> perKv >= share && share * (perKv / share) * kv == perKv * kv
    ensures share % perKv == 0 ==> share >= perKv && share / perKv * (perKv * kv) == share * kv
    ensures perKv % share == 0 && share < perKv ==> share / perKv == 0 && perKv / share >= 2
    ensures share % perKv == 0 ==> share / perKv >= 1
    ensures perKv == share ==> share / perKv == perKv / share == 1
  {
    if perKv % share == 0 {
      ExactQuotient(perKv, share);
    }
    if share % perKv == 0 {
      ExactQuotient(share, perKv);
      MulAssociative(share / perKv, perKv, kv);
    }
  }

  lemma CountsMeaning(heads: nat, kv: nat, tp: nat, rank: nat)
    requires kv > 0 && rank < tp
    ensures var units, share := Units(tp), TpShardings(tp)[rank];
      && (HeadCounts(heads, kv, tp, rank).Some? <==> heads % units == 0 && Commensurate(kv, units, share))
      && (HeadCounts(heads, kv, tp, rank).Some? ==>
          var s := HeadCounts(heads, kv, tp, rank).value;
          && s.heads * units == heads * share
          && s.replicas >= 1
          && (s.replicas == 1 ==> s.kvHeads * units == kv * share && heads * s.kvHeads == s.heads * kv)
          && (s.replicas > 1 ==> s.kvHeads == 1 && share * s.replicas * kv == units))
  {
    hide KvSplit, Commensurate, TpShardings;
    ShardingsTile(tp);
    var units, share := Units(tp), TpShardings(tp)[rank];
    KvSplitSucceedsIff(kv, units, share);
    if HeadCounts(heads, kv, tp, rank).Some? {
      var s := HeadCounts(heads, kv, tp, rank).value;
      HeadsScale(heads, units, share);
      if s.replicas == 1 {
        SameRatio(heads, kv, units, share, s.heads, s.kvHeads);
      }
    }
  }

  /** Given divisible query heads, the fused size divides exactly when the key and value rows do. */
  lemma FusedDividesIff(heads: nat, kv: nat, headSize: nat, units: nat)
    requires units > 0 && heads % units == 0
    ensures FusedSize(heads, kv, headSize) % units == 0 <==> 2 * kv * headSize % units == 0
  {
    var h, x := heads / units * headSize, 2 * kv * headSize;
    assert heads == heads / units * units;
    assert FusedSize(heads, kv, headSize) == heads * headSize + x by { MulDistributes(heads, 2 * kv, headSize); }
    assert heads * headSize == h * units;
    MulNonNegative(2 * kv, headSize);
    var q, r := x / units, x % units;
    assert x == q * units + r;
    MulDistributes(h, q, units);
    DivModUnique(h + q, r, units);
  }

  /**
   The constructor succeeds on a rank exactly when the query heads and the key and
   value rows divide into the units and the rank's share is commensurate with the
   key/value spans. A rank that does not replicate keeps the global ratio of query
   to key/value heads; one that does has a single key/value head, shared by as many
   ranks as it takes.
   */
  lemma SplitMeaning(heads: nat, kv: nat, headSize: nat, tp: nat, rank: nat)
    requires kv > 0 && rank < tp
    ensures Units(tp) > 0
    ensures var units, share := Units(tp), TpShardings(tp)[rank];
      && (Split(heads, kv, headSize, tp, rank).Some? <==>
          heads % units == 0 && Commensurate(kv, units, share) && 2 * kv * headSize % units == 0)
      && (Split(heads, kv, headSize, tp, rank).Some? ==>
          var s := Split(heads, kv, headSize, tp, rank).value;
          && s.heads * units == heads * share
          && s.replicas >= 1
          && (s.replicas == 1 ==> s.kvHeads * units == kv * share && heads * s.kvHeads == s.heads * kv)
          && (s.replicas > 1 ==> s.kvHeads == 1 && share * s.replicas * kv == units))
  {
    hide HeadCounts, Commensurate, TpShardings, Units, FusedSize;
    ShardingsTile(tp);
    CountsMeaning(heads, kv, tp, rank);
    if heads % Units(tp) == 0 {
      FusedDividesIff(heads, kv, headSize, Units(tp));
    }
  }

  lemma HeadsScale(heads: nat, units: nat, share: nat)
    requires units > 0 && heads % units == 0
    ensures heads / units * share * units == heads * share
  {
    assert heads / units * units == heads;
    MulAssociative(heads / units, share, units);
    MulAssociative(heads / units, units, share);
    assert share * units == units * share;
  }

  lemma SameRatio(heads: nat, kv: nat, units: nat, share: nat, h: nat, k: nat)
    requires units > 0 && h * units == heads * share && k * units == kv * share
    ensures heads * k == h * kv
  {
    assert heads * k * units == heads * (k * units) == heads * (kv * share) == heads * share * kv;
    assert h * kv * units == h * units * kv;
    MulMonotone(heads * k, h * kv, units);
    MulMonotone(h * kv, heads * k, units);
  }

  /** Over all ranks the query heads add up to the total. */
  lemma QueryHeadsTile(heads: nat, kv: nat, headSize: nat, tp: nat)
    requires kv > 0 && tp > 0
    requires forall r :: 0 <= r < tp ==> Split(heads, kv, headSize, tp, r).Some?
    ensures heads % Units(tp) == 0 && Sum(PartSizes(heads, tp)) == heads
    ensures forall r :: 0 <= r < tp ==> Split(heads, kv, headSize, tp, r).value.heads == PartSizes(heads, tp)[r]
  {
    hide KvSplit, FusedSize;
    assert Split(heads, kv, headSize, tp, 0).Some?;
    PartsTile(heads, tp);
  }

  /**
   Up to 8 ranks, a model with 1, 2, 4 or 8 key/value heads fits exactly when 4
   divides its key rows and, for the [3, 3, 2] split, it has 8 key/value heads.
   */
  lemma RebuildSizesThatFit(heads: nat, kv: nat, headSize: nat, tp: nat)
    requires 1 <= tp <= 8 && heads % 8 == 0 && kv in {1, 2, 4, 8}
    ensures (forall r :: 0 <= r < tp ==> Split(heads, kv, headSize, tp, r).Some?) <==>
      (tp != 3 || kv == 8) && kv * headSize % 4 == 0
  {
    hide Split;
    var s := TpShardings(tp);
    forall r | 0 <= r < tp
      ensures Split(heads, kv, headSize, tp, r).Some? <==> Commensurate(kv, 8, s[r]) && 2 * kv * headSize % 8 == 0
    {
      SplitMeaning(heads, kv, headSize, tp, r);
    }
    HalfDivides(kv * headSize);
    assert 2 * kv * headSize == 2 * (kv * headSize);
    if tp == 3 && kv != 8 {
      assert s[0] == 3 && !Commensurate(kv, 8, 3);
      assert Split(heads, kv, headSize, tp, 0).None?;
    } else {
      forall r | 0 <= r < tp
        ensures Commensurate(kv, 8, s[r])
      {
        assert s[r] in {1, 2, 4, 8} || (s[r] == 3 && kv == 8);
      }
      assert Split(heads, kv, headSize, tp, 0).Some? ==> kv * headSize % 4 == 0;
    }
  }

  lemma HalfDivides(n: nat)
    ensures 2 * n % 8 == 0 <==> n % 4 == 0
  {
  }

  /** With a multiple of 8 key/value heads every rebuild up to 8 ranks fits. */
  lemma ManyKvHeadsAlwaysFit(heads: nat, kv: nat, headSize: nat, tp: nat, rank: nat)
    requires rank < tp <= 8 && heads % 8 == 0 && kv >= 8 && kv % 8 == 0
    ensures Split(heads, kv, headSize, tp, rank).Some?
  {
    hide Split;
    SplitMeaning(heads, kv, headSize, tp, rank);
    EightTimes(kv / 8, headSize);
  }

  lemma EightTimes(n: nat, headSize: nat)
    ensures 2 * (8 * n) * headSize % 8 == 0
  {
    MulAssociative(8, 2 * n, headSize);
    assert 2 * (8 * n) * headSize == 8 * (2 * n * headSize);
    DivModUnique(2 * n * headSize, 0, 8);
  }

  // ----- the key/value heads a rank holds are those its query heads need -----

  /** The sharding units before a rank. */
  function UnitsBefore(tp: nat, rank: nat): (n: nat)
    requires rank < tp
  {
    ShardingsTile(tp);
    SumOfTakesMonotone(TpShardings(tp), rank, rank);
    Sum(TpShardings(tp)[..rank])
  }

  lemma UnitsBeforeStep(tp: nat, rank: nat)
    requires rank + 1 < tp
    ensures |TpShardings(tp)| == tp
    ensures UnitsBefore(tp, rank + 1) == UnitsBefore(tp, rank) + TpShardings(tp)[rank]
  {
    ShardingsTile(tp);
    SumTake(TpShardings(tp), rank);
  }

  function UnitsTable(tp: nat): seq<nat>
    requires 1 <= tp <= 8
  {
    if tp == 1 then [0]
    else if tp == 2 then [0, 4]
    else if tp == 3 then [0, 3, 6]
    else if tp == 4 then [0, 2, 4, 6]
    else if tp == 5 then [0, 2, 4, 6, 7]
    else if tp == 6 then [0, 2, 4, 5, 6, 7]
    else if tp == 7 then [0, 2, 3, 4, 5, 6, 7]
    else [0, 1, 2, 3, 4, 5, 6, 7]
  }

  lemma {:induction false} UnitsBeforeIs(tp: nat, rank: nat)
    requires rank < tp <= 8
    ensures |UnitsTable(tp)| == tp && UnitsBefore(tp, rank) == UnitsTable(tp)[rank]
  {
    if rank > 0 {
      UnitsBeforeIs(tp, rank - 1);
      UnitsBeforeStep(tp, rank - 1);
    }
  }

  lemma SmallWindow(tp: nat, rank: nat, kv: nat)
    requires rank < tp <= 8 && kv in {1, 2, 4, 8}
    requires |TpShardings(tp)| == tp && TpShardings(tp)[rank] > 0 && Commensurate(kv, 8, TpShardings(tp)[rank])
    ensures var (first, share, perKv) := (UnitsTable(tp)[rank], TpShardings(tp)[rank], 8 / kv);
      (first + share - 1) / perKv - first / perKv + 1 == (if share <= perKv then 1 else share / perKv)
  {
    assert 8 / kv in {1, 2, 4, 8};
  }

  lemma Window(tp: nat, rank: nat, kv: nat)
    requires rank < tp && kv > 0 && kv <= Units(tp) && Units(tp) % kv == 0
    requires |TpShardings(tp)| == tp && TpShardings(tp)[rank] > 0 && Commensurate(kv, Units(tp), TpShardings(tp)[rank])
    ensures Units(tp) / kv > 0
    ensures var (first, share, perKv) := (UnitsBefore(tp, rank), TpShardings(tp)[rank], Units(tp) / kv);
      (first + share - 1) / perKv - first / perKv + 1 == (if share <= perKv then 1 else share / perKv)
  {
    hide UnitsBefore, TpShardings, Commensurate, UnitsTable;
    ExactQuotient(Units(tp), kv);
    if tp <= 8 {
      DivisorsOfEight(kv);
      UnitsBeforeIs(tp, rank);
      SmallWindow(tp, rank, kv);
    } else {
      OneUnitEach(tp, rank);
    }
  }

  /** The key/value head that serves a query head: heads / kv query heads share one, in order. */
  function KvHeadOf(heads: nat, kv: nat, queryHead: nat): nat
    requires kv > 0 && heads / kv > 0
  {
    queryHead / (heads / kv)
  }

  /** First and last query head of a rank under in-order placement. */
  function QueryHeads(heads: nat, tp: nat, rank: nat): (int, int)
    requires rank < tp && Units(tp) > 0
  {
    ShardingsTile(tp);
    var (q, first) := (heads / Units(tp), UnitsBefore(tp, rank));
    (first * q, (first + TpShardings(tp)[rank]) * q - 1)
  }

  lemma FloorOfMultiple(x: nat, y: nat, q: nat, d: nat)
    requires q > 0 && d > 0 && y < q
    ensures q * d > 0 && (x * q + y) / (q * d) == x / d
  {
    var u, v := x / d, x % d;
    MulMonotone(1, q, d);
    assert x == u * d + v;
    MulDistributes(u * d, v, q);
    MulAssociative(u, d, q);
    GridBound(v, y, d, q);
    assert d * q == q * d;
    DivModUnique(u, v * q + y, q * d);
  }

  lemma FewKvHeads(q: nat, perKv: nat, first: nat, share: nat)
    requires q > 0 && perKv > 0 && share > 0
    ensures q * perKv > 0
    ensures first * q / (q * perKv) == first / perKv
    ensures (first + share) * q - 1 >= 0 && ((first + share) * q - 1) / (q * perKv) == (first + share - 1) / perKv
  {
    FloorOfMultiple(first, 0, q, perKv);
    MulDistributes(first + share - 1, 1, q);
    MulNonNegative(first + share - 1, q);
    FloorOfMultiple(first + share - 1, q - 1, q, perKv);
  }

  lemma ManyKvHeads(g: nat, m: nat, first: nat, share: nat)
    requires g > 0 && m > 0 && share > 0
    ensures first * (g * m) / g == first * m
    ensures (first + share) * (g * m) - 1 >= 0 && ((first + share) * (g * m) - 1) / g == (first + share) * m - 1
  {
    MulMonotone(1, first + share, m);
    RegroupRight(first, g, m);
    RegroupRight(first + share, g, m);
    MulNonNegative(first, m);
    DivModUnique(first * m, 0, g);
    LastOfBlock((first + share) * m, g);
  }

  lemma RegroupRight(a: nat, b: nat, c: nat)
    ensures a * (b * c) == a * c * b
  {
    assert b * c == c * b;
    MulAssociative(a, c, b);
  }

  lemma LastOfBlock(n: nat, g: nat)
    requires g > 0 && n > 0
    ensures n * g - 1 >= 0 && (n * g - 1) / g == n - 1
  {
    MulDistributes(n - 1, 1, g);
    MulNonNegative(n - 1, g);
    DivModUnique(n - 1, g - 1, g);
  }

  /**
   Wherever the construction succeeds, the query heads of a rank, placed in order,
   are served by exactly as many key/value heads as the rank holds: for every number
   of ranks and heads, replicated or not.
   */
  lemma RankHoldsTheHeadsItNeeds(heads: nat, kv: nat, headSize: nat, tp: nat, rank: nat)
    requires kv > 0 && rank < tp && heads > 0 && heads % kv == 0
    requires Split(heads, kv, headSize, tp, rank).Some?
    ensures heads / kv > 0 && Units(tp) > 0
    ensures var (low, high) := QueryHeads(heads, tp, rank);
      && 0 <= low <= high
      && KvHeadOf(heads, kv, high) - KvHeadOf(heads, kv, low) + 1 == Split(heads, kv, headSize, tp, rank).value.kvHeads
  {
    hide Split, UnitsBefore, TpShardings, Units, Commensurate;
    ShardingsTile(tp);
    SplitMeaning(heads, kv, headSize, tp, rank);
    var units, share, first := Units(tp), TpShardings(tp)[rank], UnitsBefore(tp, rank);
    ExactQuotient(heads, kv);
    ExactQuotient(heads, units);
    var q := heads / units;
    MulMonotone(first, first + share, q);
    MulNonNegative(first, q);
    MulDistributes(first, share, q);
    MulMonotone(1, share, q);
    var s := Split(heads, kv, headSize, tp, rank).value;
    CommensurateCases(kv, units, share);
    if kv <= units {
      var perKv := units / kv;
      ExactQuotient(units, kv);
      SameGroupSize(heads, kv, units, q, perKv);
      FewKvHeads(q, perKv, first, share);
      Window(tp, rank, kv);
      HeldWhenFew(kv, perKv, share, s.kvHeads, s.replicas, units);
    } else {
      var m, g := kv / units, heads / kv;
      ExactQuotient(kv, units);
      assert q == g * m by { LargeGroupSize(heads, kv, units, q, m, g); }
      ManyKvHeads(g, m, first, share);
      MulDistributes(first, share, m);
      HeldWhenMany(kv, m, share, s.kvHeads, s.replicas, units);
    }
  }

  lemma CommensurateCases(kv: nat, units: nat, share: nat)
    requires kv > 0 && units > 0 && share > 0 && Commensurate(kv, units, share)
    ensures kv <= units ==> units % kv == 0 && (share % (units / kv) == 0 || (units / kv) % share == 0)
    ensures kv > units ==> kv % units == 0
  {
  }

  lemma SameGroupSize(heads: nat, kv: nat, units: nat, q: nat, perKv: nat)
    requires kv > 0 && heads == q * units && units == perKv * kv
    ensures heads / kv == q * perKv
  {
    MulAssociative(q, perKv, kv);
    DivModUnique(q * perKv, 0, kv);
  }

  lemma LargeGroupSize(heads: nat, kv: nat, units: nat, q: nat, m: nat, g: nat)
    requires units > 0 && heads == q * units == g * kv && kv == m * units
    ensures q == g * m
  {
    MulAssociative(g, m, units);
    MulMonotone(q, g * m, units);
    MulMonotone(g * m, q, units);
  }

  lemma HeldWhenFew(kv: nat, perKv: nat, share: nat, held: nat, replicas: nat, units: nat)
    requires kv > 0 && perKv > 0 && share > 0 && units == perKv * kv && replicas >= 1
    requires share % perKv == 0 || perKv % share == 0
    requires replicas == 1 ==> held * units == kv * share
    requires replicas > 1 ==> held == 1 && share * replicas * kv == units
    ensures held == if share <= perKv then 1 else share / perKv
  {
    if replicas == 1 {
      MulAssociative(held, perKv, kv);
      assert share * kv == kv * share;
      MulMonotone(held * perKv, share, kv);
      MulMonotone(share, held * perKv, kv);
      assert held * perKv == share;
      DivModUnique(held, 0, perKv);
      MulMonotone(2, held, perKv);
    } else {
      MulMonotone(share * replicas, perKv, kv);
      MulMonotone(perKv, share * replicas, kv);
      assert share * replicas == replicas * share == perKv;
      MulMonotone(1, replicas, share);
    }
  }

  lemma HeldWhenMany(kv: nat, m: nat, share: nat, held: nat, replicas: nat, units: nat)
    requires units > 0 && m > 0 && share > 0 && kv == m * units && kv > units && replicas >= 1
    requires replicas == 1 ==> held * units == kv * share
    requires replicas > 1 ==> held == 1 && share * replicas * kv == units
    ensures held == share * m
  {
    if replicas == 1 {
      assert kv * share == share * m * units;
      MulMonotone(held, share * m, units);
      MulMonotone(share * m, held, units);
    } else {
      MulMonotone(1, share, replicas);
      MulMonotone(1, share * replicas, kv);
      assert false;
    }
  }

  // ----- the recorded offset -----

  lemma {:induction false} LargerBefore(s: seq<nat>, r: nat, k: nat)
    requires 0 < k <= r < |s|
    requires forall i, j :: 0 <= i <= j < |s| ==> s[i] >= s[j]
    ensures Sum(s[..k]) >= (k - 1) * s[r] + s[0]
    ensures s[0] == s[r] ==> Sum(s[..k]) == k * s[r]
  {
    SumTake(s, k - 1);
    MulDistributes(k - 1, 1, s[r]);
    if k > 1 {
      LargerBefore(s, r, k - 1);
      MulDistributes(k - 2, 1, s[r]);
    } else {
      assert s[..0] == [];
    }
  }

  /**
   The recorded query offset, rank times the rank's own size, is where a contiguous
   placement puts the rank exactly when its share is as large as rank 0's (or all
   sizes are 0). Those are the ranks that keep the ND cache layout.
   */
  lemma RecordedOffsetIsTileIff(perUnit: nat, headSize: nat, tp: nat, rank: nat)
    requires rank < tp
    ensures |TpShardings(tp)| == tp
    ensures rank * (perUnit * TpShardings(tp)[rank] * headSize) == perUnit * UnitsBefore(tp, rank) * headSize <==>
      TpShardings(tp)[rank] == TpShardings(tp)[0] || perUnit * headSize == 0
  {
    hide TpShardings;
    ShardingsTile(tp);
    var s := TpShardings(tp);
    var unit := perUnit * headSize;
    RegroupFactors(rank, perUnit, s[rank], headSize);
    RegroupFactors(1, perUnit, UnitsBefore(tp, rank), headSize);
    var mine, tiled := rank * s[rank], UnitsBefore(tp, rank);
    if rank > 0 {
      LargerBefore(s, rank, rank);
      MulDistributes(rank - 1, 1, s[rank]);
    } else {
      assert s[..0] == [];
    }
    assert mine <= tiled && (mine == tiled <==> s[rank] == s[0]);
    MulMonotone(mine, tiled, unit);
  }

  lemma RegroupFactors(a: nat, b: nat, c: nat, d: nat)
    ensures a * (b * c * d) == a * c * (b * d)
  {
    assert b * c * d == c * (b * d);
    MulAssociative(a, c, b * d);
  }

  /** What __init__ records as the offset of the key and value shards. */
  function RecordedKvOffset(kv: nat, tp: nat, held: nat, headSize: nat): nat
  {
    MulNonNegative(held, headSize);
    if kv >= tp then held * headSize else 0
  }

  /** Up to 8 ranks, with at least as many key/value heads as ranks. */
  lemma OwnSpanIffSecond(kv: nat, tp: nat, rank: nat)
    requires rank < tp <= kv && kv in {1, 2, 4, 8} && |TpShardings(tp)| == tp && TpShardings(tp)[rank] > 0
    requires Commensurate(kv, 8, TpShardings(tp)[rank])
    ensures var (first, share, perKv) := (UnitsBefore(tp, rank), TpShardings(tp)[rank], 8 / kv);
      first / perKv == (if share <= perKv then 1 else share / perKv) <==> rank == 1 && share == TpShardings(tp)[0]
  {
    UnitsBeforeIs(tp, rank);
    assert 8 / kv in {1, 2, 4, 8};
  }

  lemma FirstUnitsIff(tp: nat, rank: nat)
    requires rank < tp
    ensures |TpShardings(tp)| == tp
    ensures UnitsBefore(tp, rank) == TpShardings(tp)[rank] <==> rank == 1 && TpShardings(tp)[1] == TpShardings(tp)[0]
  {
    hide TpShardings;
    ShardingsTile(tp);
    var s := TpShardings(tp);
    if rank > 0 {
      LargerBefore(s, rank, rank);
      MulMonotone(1, rank - 1, s[rank]);
      assert rank == 1 ==> s[..1] == [s[0]] && Sum(s[..1]) == s[0] by { SumTake(s, 0); assert s[..0] == []; }
    } else {
      assert s[..0] == [];
    }
  }

  /** The key/value head that a rank's first query head needs. */
  function FirstKvHead(kv: nat, tp: nat, rank: nat): nat
    requires kv > 0 && rank < tp && Units(tp) > 0
  {
    if kv <= Units(tp) && Units(tp) / kv > 0 then UnitsBefore(tp, rank) / (Units(tp) / kv)
    else MulNonNegative(UnitsBefore(tp, rank), kv / Units(tp)); UnitsBefore(tp, rank) * (kv / Units(tp))
  }

  /** That head serves the rank's first query head under in-order placement. */
  lemma FirstKvHeadServes(heads: nat, kv: nat, headSize: nat, tp: nat, rank: nat)
    requires kv > 0 && rank < tp && heads > 0 && heads % kv == 0
    requires Split(heads, kv, headSize, tp, rank).Some?
    ensures heads / kv > 0 && Units(tp) > 0
    ensures QueryHeads(heads, tp, rank).0 >= 0
    ensures KvHeadOf(heads, kv, QueryHeads(heads, tp, rank).0) == FirstKvHead(kv, tp, rank)
  {
    hide Split, UnitsBefore, TpShardings, Units, Commensurate;
    ShardingsTile(tp);
    SplitMeaning(heads, kv, headSize, tp, rank);
    var units, share, first := Units(tp), TpShardings(tp)[rank], UnitsBefore(tp, rank);
    ExactQuotient(heads, kv);
    ExactQuotient(heads, units);
    var q := heads / units;
    MulNonNegative(first, q);
    CommensurateCases(kv, units, share);
    if kv <= units {
      ExactQuotient(units, kv);
      SameGroupSize(heads, kv, units, q, units / kv);
      FewKvHeads(q, units / kv, first, share);
    } else {
      ExactQuotient(kv, units);
      LargeGroupSize(heads, kv, units, q, kv / units, heads / kv);
      ManyKvHeads(heads / kv, kv / units, first, share);
    }
  }

  /**
   The recorded key/value offset is the in-order placement exactly on the second rank
   of an equal pair when there are at least as many key/value heads as ranks, and
   otherwise on the ranks that use the first head.
   */
  lemma RecordedKvOffsetIsTileIff(heads: nat, kv: nat, headSize: nat, tp: nat, rank: nat)
    requires kv > 0 && rank < tp && Split(heads, kv, headSize, tp, rank).Some?
    ensures |TpShardings(tp)| == tp && Units(tp) > 0
    ensures var held := Split(heads, kv, headSize, tp, rank).value.kvHeads;
      FirstKvHead(kv, tp, rank) * headSize == RecordedKvOffset(kv, tp, held, headSize) <==>
      headSize == 0
      || (if kv >= tp then rank == 1 && TpShardings(tp)[1] == TpShardings(tp)[0]
          else UnitsBefore(tp, rank) < Units(tp) / kv)
  {
    hide Split, UnitsBefore, TpShardings, Commensurate;
    ShardingsTile(tp);
    SplitMeaning(heads, kv, headSize, tp, rank);
    var held := Split(heads, kv, headSize, tp, rank).value.kvHeads;
    MulMonotone(FirstKvHead(kv, tp, rank), held, headSize);
    MulMonotone(held, FirstKvHead(kv, tp, rank), headSize);
    MulMonotone(0, FirstKvHead(kv, tp, rank), headSize);
    assert FirstKvHead(kv, tp, rank) * headSize == RecordedKvOffset(kv, tp, held, headSize) <==>
      headSize == 0 || FirstKvHead(kv, tp, rank) == if kv >= tp then held else 0;
    if kv >= tp {
      FirstIsHeldIff(heads, kv, headSize, tp, rank);
    } else {
      FirstIsZeroIff(heads, kv, headSize, tp, rank);
    }
  }

  lemma FirstIsZeroIff(heads: nat, kv: nat, headSize: nat, tp: nat, rank: nat)
    requires 0 < kv < tp && rank < tp && Split(heads, kv, headSize, tp, rank).Some?
    ensures Units(tp) > 0
    ensures FirstKvHead(kv, tp, rank) == 0 <==> UnitsBefore(tp, rank) < Units(tp) / kv
  {
    hide Split, UnitsBefore, TpShardings, Commensurate;
    ShardingsTile(tp);
    SplitMeaning(heads, kv, headSize, tp, rank);
    CommensurateCases(kv, Units(tp), TpShardings(tp)[rank]);
    ExactQuotient(Units(tp), kv);
    QuotientIsZeroIff(UnitsBefore(tp, rank), Units(tp) / kv);
  }

  lemma QuotientIsZeroIff(n: nat, d: nat)
    requires d > 0
    ensures n / d == 0 <==> n < d
  {
    if n < d {
      DivModUnique(0, n, d);
    }
  }

  lemma FirstIsHeldIff(heads: nat, kv: nat, headSize: nat, tp: nat, rank: nat)
    requires kv >= tp && rank < tp && Split(heads, kv, headSize, tp, rank).Some?
    ensures |TpShardings(tp)| == tp && Units(tp) > 0
    ensures FirstKvHead(kv, tp, rank) == Split(heads, kv, headSize, tp, rank).value.kvHeads <==>
      rank == 1 && TpShardings(tp)[1] == TpShardings(tp)[0]
  {
    hide Split, UnitsBefore, TpShardings, Commensurate;
    ShardingsTile(tp);
    SplitMeaning(heads, kv, headSize, tp, rank);
    var units, share, s := Units(tp), TpShardings(tp)[rank], Split(heads, kv, headSize, tp, rank).value;
    CommensurateCases(kv, units, share);
    FirstUnitsIff(tp, rank);
    if kv <= units {
      ExactQuotient(units, kv);
      HeldWhenFew(kv, units / kv, share, s.kvHeads, s.replicas, units);
      if tp <= 8 {
        DivisorsOfEight(kv);
        OwnSpanIffSecond(kv, tp, rank);
      } else {
        OneUnitEach(tp, rank);
      }
    } else {
      ExactQuotient(kv, units);
      HeldWhenMany(kv, kv / units, share, s.kvHeads, s.replicas, units);
      MulMonotone(UnitsBefore(tp, rank), share, kv / units);
      MulMonotone(share, UnitsBefore(tp, rank), kv / units);
    }
  }

  lemma DivisorsOfEight(kv: nat)
    requires 0 < kv <= 8 && 8 % kv == 0
    ensures kv in {1, 2, 4, 8}
  {
  }

  lemma OneUnitEach(tp: nat, rank: nat)
    requires rank < tp && tp > 8
    ensures |TpShardings(tp)| == tp && TpShardings(tp)[rank] == 1
  {
  }

  // ----- the bias -----

  /** output_size_per_partition, the length of the bias that the parent allocates. */
  function BiasSize(heads: nat, kv: nat, headSize: nat, tp: nat, rank: nat): nat
    requires rank < tp
  {
    ShardingsTile(tp);
    MulNonNegative(FusedSize(heads, kv, headSize) / Units(tp), TpShardings(tp)[rank]);
    FusedSize(heads, kv, headSize) / Units(tp) * TpShardings(tp)[rank]
  }

  lemma BiasArithmetic(heads: nat, kv: nat, headSize: nat, units: nat, share: nat, fused: nat, h: nat, k: nat)
    requires units > 0 && fused == (heads + 2 * kv) * headSize && fused % units == 0
    requires h * units == heads * share
    ensures fused / units * share == (h + 2 * k) * headSize <==> headSize == 0 || k * units == kv * share
  {
    var left, right := fused / units * share, (h + 2 * k) * headSize;
    assert left * units == fused * share by {
      assert fused / units * units == fused;
      MulAssociative(fused / units, share, units);
      MulAssociative(fused / units, units, share);
      assert share * units == units * share;
    }
    assert fused * share == (heads * share + 2 * (kv * share)) * headSize;
    assert right * units == (h * units + 2 * (k * units)) * headSize;
    MulMonotone(left, right, units);
    MulMonotone(right, left, units);
    MulMonotone(kv * share, k * units, headSize);
    MulMonotone(k * units, kv * share, headSize);
    MulDistributes(heads * share, 2 * (kv * share), headSize);
    MulDistributes(heads * share, 2 * (k * units), headSize);
  }

  /** A rank replicates its key/value head exactly when its share of the key/value heads is less than one. */
  lemma ReplicatesIff(heads: nat, kv: nat, headSize: nat, tp: nat, rank: nat)
    requires kv > 0 && rank < tp && Split(heads, kv, headSize, tp, rank).Some?
    ensures |TpShardings(tp)| == tp
    ensures Split(heads, kv, headSize, tp, rank).value.replicas == 1 <==> kv * TpShardings(tp)[rank] >= Units(tp)
  {
    hide Split, TpShardings, Commensurate, Units;
    ShardingsTile(tp);
    SplitMeaning(heads, kv, headSize, tp, rank);
    var s, units, share := Split(heads, kv, headSize, tp, rank).value, Units(tp), TpShardings(tp)[rank];
    if s.replicas == 1 {
      MulMonotone(1, kv, share);
      MulMonotone(1, s.kvHeads, units);
      MulMonotone(s.kvHeads, 0, units);
    } else {
      ReplicasShrink(kv, share, s.replicas, units);
    }
  }

  /**
   The bias is as long as the rank's output exactly when the rank's share of the
   key/value heads is at least one whole head, so that it does not replicate one.
   */
  lemma BiasFitsIff(heads: nat, kv: nat, headSize: nat, tp: nat, rank: nat)
    requires kv > 0 && rank < tp && Split(heads, kv, headSize, tp, rank).Some?
    ensures |TpShardings(tp)| == tp
    ensures var s := Split(heads, kv, headSize, tp, rank).value;
      BiasSize(heads, kv, headSize, tp, rank) == (s.heads + 2 * s.kvHeads) * headSize <==>
      headSize == 0 || kv * TpShardings(tp)[rank] >= Units(tp)
  {
    hide HeadCounts, TpShardings, Commensurate, Units;
    ShardingsTile(tp);
    SplitMeaning(heads, kv, headSize, tp, rank);
    ReplicatesIff(heads, kv, headSize, tp, rank);
    var s, units, share := Split(heads, kv, headSize, tp, rank).value, Units(tp), TpShardings(tp)[rank];
    BiasArithmetic(heads, kv, headSize, units, share, FusedSize(heads, kv, headSize), s.heads, s.kvHeads);
    if s.replicas > 1 {
      ReplicasShrink(kv, share, s.replicas, units);
    }
  }

  lemma ReplicasShrink(kv: nat, share: nat, replicas: nat, units: nat)
    requires kv > 0 && share > 0 && replicas > 1 && share * replicas * kv == units
    ensures kv * share < units
  {
    assert share * replicas == replicas * share && share * kv == kv * share;
    MulAssociative(replicas, share, kv);
    MulMonotone(1, kv, share);
    MulMonotone(2, replicas, kv * share);
  }

  // ----- the constructor -----

  class QkvParallelLinear {
    var numHeads: nat
    var numKvHeads: nat
    var numKvHeadReplicas: nat
    var qShardSize: nat
    var qShardOffset: nat
    var kvShardSize: nat
    var kvShardOffset: nat
    var outputSizePerPartition: nat
    var outputPartitionSizes: seq<nat>

    method SetKvHeads(kv: nat, units: nat, share: nat) returns (ok: bool)
      requires kv > 0 && units > 0 && share > 0
      modifies this`numKvHeads, this`numKvHeadReplicas
      ensures ok == KvSplit(kv, units, share).Some?
      ensures ok ==> KvSplit(kv, units, share).value == (numKvHeads, numKvHeadReplicas)
    {
      if units >= kv {
        var perKv := Divide(units, kv);
        if perKv.None? {
          return false;
        }
        MulMonotone(1, perKv.value, kv);
        MulMonotone(1, kv, share);
        var replicas := Divide(units, kv * share);
        if share % perKv.value != 0 && perKv.value % share != 0 {
          if replicas.None? {
            return false;
          }
          numKvHeads, numKvHeadReplicas := 1, replicas.value;
        } else if share * kv / units != 0 {
          var n := Divide(kv * share, units);
          if n.None? {
            return false;
          }
          numKvHeads, numKvHeadReplicas := n.value, 1;
        } else {
          if replicas.None? {
            return false;
          }
          numKvHeads, numKvHeadReplicas := 1, replicas.value;
        }
      } else {
        var n := Divide(kv, units);
        if n.None? {
          return false;
        }
        numKvHeads, numKvHeadReplicas := n.value * share, 1;
      }
      ok := true;
    }

    /** The uneven branch of __init__; false stands for a failed exact division. */
    method Init(heads: nat, kv: nat, headSize: nat, tp: nat, rank: nat) returns (ok: bool)
      requires kv > 0 && rank < tp
      modifies this
      ensures ok == Split(heads, kv, headSize, tp, rank).Some?
      ensures ok ==>
        && Split(heads, kv, headSize, tp, rank).value == HeadSplit(numHeads, numKvHeads, numKvHeadReplicas)
        && qShardSize == numHeads * headSize && qShardOffset == rank * qShardSize
        && kvShardSize == numKvHeads * headSize && kvShardOffset == RecordedKvOffset(kv, tp, numKvHeads, headSize)
        && outputSizePerPartition == BiasSize(heads, kv, headSize, tp, rank)
        && outputPartitionSizes == [qShardSize, kvShardSize, kvShardSize]
    {
      hide KvSplit, TpShardings, FusedSize;
      ShardingsTile(tp);
      var units, share := Units(tp), TpShardings(tp)[rank];
      var perUnit := Divide(heads, units);
      if perUnit.None? {
        return false;
      }
      numHeads := perUnit.value * share;
      ok := SetKvHeads(kv, units, share);
      if !ok {
        return;
      }
      qShardSize := numHeads * headSize;
      qShardOffset := rank * qShardSize;
      kvShardSize := numKvHeads * headSize;
      kvShardOffset := if kv >= tp then numKvHeads * headSize else 0;
      var fused := Divide(FusedSize(heads, kv, headSize), units);
      if fused.None? {
        return false;
      }
      outputSizePerPartition := fused.value * share;
      outputPartitionSizes := [numHeads * headSize, numKvHeads * headSize, numKvHeads * headSize];
    }
  }
}
