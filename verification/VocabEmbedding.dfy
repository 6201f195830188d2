/** The vocab-parallel embedding lookup with masks, offsets and padding. */
module VocabEmbedding {
  import opened Wrappers
  import opened Arith
  import opened Vectors
  import Shardings

  // ----- contiguous splits -----

  /** Size and offset of a rank's part; the remainder goes to the last rank. */
  function AsymmetricDivide(total: nat, world: nat, rank: nat): (nat, nat)
    requires rank < world
  {
    var base, remainder := total / world, total % world;
    if rank < world - 1 then
      MulNonNegative(rank, base);
      (base, rank * base)
    else
      MulNonNegative(world - 1, base);
      (base + remainder, (world - 1) * base)
  }

  ghost predicate InPart(total: nat, world: nat, rank: nat, x: int)
    requires rank < world
  {
    var (size, offset) := AsymmetricDivide(total, world, rank);
    offset <= x < offset + size
  }

  /**
   The parts lie end to end from 0 to total. All but the last are as large as an equal
   share can be, and the last one has less than `world` more.
   */
  lemma PartsAreContiguous(total: nat, world: nat, rank: nat)
    requires rank < world
    ensures var (size, offset) := AsymmetricDivide(total, world, rank);
      && (rank == 0 ==> offset == 0)
      && (rank + 1 < world ==> AsymmetricDivide(total, world, rank + 1).1 == offset + size)
      && (rank + 1 == world ==> offset + size == total)
      && offset + size <= total
      && (rank + 1 < world ==> size * world <= total < (size + 1) * world)
      && size <= AsymmetricDivide(total, world, world - 1).0 < size + world
  {
    hide AsymmetricDivide;
    OffsetsMeet(total, world, rank);
    EqualShares(total, world, rank);
  }

  lemma OffsetsMeet(total: nat, world: nat, rank: nat)
    requires rank < world
    ensures var (size, offset) := AsymmetricDivide(total, world, rank);
      && (rank == 0 ==> offset == 0)
      && (rank + 1 < world ==> AsymmetricDivide(total, world, rank + 1).1 == offset + size)
      && (rank + 1 == world ==> offset + size == total)
      && offset + size <= total
  {
    ContiguousSteps(total, world, total / world, total % world, rank);
  }

  lemma EqualShares(total: nat, world: nat, rank: nat)
    requires rank < world
    ensures var (size, last) := (AsymmetricDivide(total, world, rank).0, AsymmetricDivide(total, world, world - 1).0);
      && (rank + 1 < world ==> size * world <= total < (size + 1) * world)
      && size <= last < size + world
  {
    MulDistributes(total / world, 1, world);
  }

  lemma ContiguousSteps(total: nat, world: nat, base: nat, remainder: nat, rank: nat)
    requires rank < world && total == base * world + remainder
    ensures (rank + 1) * base == rank * base + base
    ensures total == (world - 1) * base + base + remainder
    ensures rank < world - 1 ==> rank * base + base <= (world - 1) * base
    ensures 0 <= (world - 1) * base
  {
    MulDistributes(rank, 1, base);
    MulDistributes(world - 1, 1, base);
    MulMonotone(rank, world - 1, base);
    MulNonNegative(world - 1, base);
  }

  lemma OffsetsGrow(total: nat, world: nat, q: nat, r: nat)
    requires q < r < world
    ensures AsymmetricDivide(total, world, q).1 + AsymmetricDivide(total, world, q).0 <=
      AsymmetricDivide(total, world, r).1
  {
    MulMonotone(q, r, total / world);
  }

  /** Every position below total lies in exactly one rank's part. */
  lemma PartsTile(total: nat, world: nat, x: nat) returns (owner: nat)
    requires world > 0 && x < total
    ensures owner < world && InPart(total, world, owner, x)
    ensures forall r: nat :: r < world && InPart(total, world, r, x) ==> r == owner
  {
    hide AsymmetricDivide;
    owner := 0;
    PartsAreContiguous(total, world, 0);
    while owner + 1 < world && AsymmetricDivide(total, world, owner + 1).1 <= x
      invariant owner < world
      invariant AsymmetricDivide(total, world, owner).1 <= x
    {
      owner := owner + 1;
    }
    PartsAreContiguous(total, world, owner);
    forall r: nat | r < world && InPart(total, world, r, x)
      ensures r == owner
    {
      if r < owner {
        OffsetsGrow(total, world, r, owner);
      } else if owner < r {
        OffsetsGrow(total, world, owner, r);
      }
    }
  }

  /** Start and end of a rank's vocabulary range: exact division, or the uneven split. */
  function VocabRange(total: nat, rank: nat, tp: nat, offset: nat, uneven: bool): Option<(nat, nat)>
    requires rank < tp
  {
    if uneven then
      var (size, start) := AsymmetricDivide(total, tp, rank);
      Some((offset + start, offset + start + size))
    else
      match Shardings.Divide(total, tp)
      case None => None
      case Some(per) =>
        MulNonNegative(rank, per);
        Some((rank * per + offset, rank * per + offset + per))
  }

  /** The even range is the uneven one, where it exists. */
  lemma VocabRangeIs(total: nat, rank: nat, tp: nat, offset: nat, uneven: bool)
    requires rank < tp
    ensures VocabRange(total, rank, tp, offset, uneven).Some? <==> uneven || total % tp == 0
    ensures uneven || total % tp == 0 ==>
      var (size, start) := AsymmetricDivide(total, tp, rank);
      VocabRange(total, rank, tp, offset, uneven).value == (offset + start, offset + start + size)
  {
  }

  // ----- the layer's sizes -----

  /** num_embeddings, org_vocab_size and padding_size. */
  datatype Vocab = Vocab(size: nat, org: nat, padding: nat)

  ghost predicate Valid(v: Vocab)
  {
    v.org <= v.size && v.padding > 0
  }

  /** A missing or zero org_num_embeddings means that no embedding was added. */
  function MakeVocab(numEmbeddings: nat, orgNumEmbeddings: Option<nat>, padding: nat): Vocab
  {
    Vocab(numEmbeddings,
          if orgNumEmbeddings.Some? && orgNumEmbeddings.value != 0 then orgNumEmbeddings.value else numEmbeddings,
          padding)
  }

  function PadVocab(n: nat, padding: nat): (p: nat)
    requires padding > 0
    ensures LeastMultiple(p, n, padding)
  {
    var q := (n + padding - 1) / padding;
    assert n + padding - 1 == q * padding + (n + padding - 1) % padding;
    DivModUnique(q, 0, padding);
    MulNonNegative(q, padding);
    q * padding
  }

  /** The smallest multiple of `padding` that is at least n. */
  predicate LeastMultiple(p: nat, n: nat, padding: nat)
    requires padding > 0
  {
    n <= p < n + padding && p % padding == 0
  }

  function OrgPadded(v: Vocab): (p: nat)
    requires Valid(v)
    ensures v.org <= p
  {
    PadVocab(v.org, v.padding)
  }

  function AddedPadded(v: Vocab): (p: nat)
    requires Valid(v)
    ensures v.size - v.org <= p
  {
    PadVocab(OrgPadded(v) + (v.size - v.org), v.padding) - OrgPadded(v)
  }

  datatype ShardIndices = ShardIndices(
    paddedOrgStart: nat, paddedOrgEnd: nat, paddedAddedStart: nat, paddedAddedEnd: nat,
    orgStart: nat, orgEnd: nat, addedStart: nat, addedEnd: nat)

  function Min(a: nat, b: nat): nat
  {
    if a < b then a else b
  }

  /** _get_indices. */
  function GetIndices(v: Vocab, rank: nat, tp: nat, uneven: bool): Option<ShardIndices>
    requires Valid(v) && rank < tp
  {
    match (VocabRange(OrgPadded(v), rank, tp, 0, uneven), VocabRange(AddedPadded(v), rank, tp, v.org, uneven))
    case (Some(o), Some(a)) =>
      Some(ShardIndices(o.0, o.1, a.0, a.1,
                        Min(o.0, v.org), Min(o.1, v.org), Min(a.0, v.size), Min(a.1, v.size)))
    case _ => None
  }

  predicate Splits(v: Vocab, tp: nat, uneven: bool)
    requires Valid(v) && tp > 0
  {
    uneven || (OrgPadded(v) % tp == 0 && AddedPadded(v) % tp == 0)
  }

  function Indices(v: Vocab, rank: nat, tp: nat, uneven: bool): ShardIndices
    requires Valid(v) && rank < tp && Splits(v, tp, uneven)
  {
    VocabRangeIs(OrgPadded(v), rank, tp, 0, uneven);
    VocabRangeIs(AddedPadded(v), rank, tp, v.org, uneven);
    GetIndices(v, rank, tp, uneven).value
  }

  function OrgRows(s: ShardIndices): int
  {
    s.paddedOrgEnd - s.paddedOrgStart
  }

  function ShardRows(s: ShardIndices): int
  {
    OrgRows(s) + (s.paddedAddedEnd - s.paddedAddedStart)
  }

  function NumOrgVocabPadding(s: ShardIndices): int
  {
    OrgRows(s) - (s.orgEnd - s.orgStart)
  }

  // ----- the mask -----

  /** A boolean tensor times an integer. */
  function Times(b: bool, n: int): int
  {
    if b then n else 0
  }

  /** Local index and mask of one token, from both vocabulary ranges. */
  function MaskedByBoth(x: int, s: ShardIndices): (int, bool)
  {
    var orgMask := s.orgStart <= x < s.orgEnd;
    var addedMask := s.addedStart <= x < s.addedEnd;
    var addedOffset := s.addedStart - (s.orgEnd - s.orgStart) - NumOrgVocabPadding(s);
    var offset := Times(orgMask, s.orgStart) + Times(addedMask, addedOffset);
    (Times(orgMask || addedMask, x - offset), !(orgMask || addedMask))
  }

  /** _get_masked_input_and_mask for one token, with its shortcut for an empty added range. */
  function MaskedInput(x: int, s: ShardIndices): (int, bool)
  {
    if s.addedStart == s.addedEnd then
      var orgMask := s.orgStart <= x < s.orgEnd;
      (Times(orgMask, x - Times(orgMask, s.orgStart)), !orgMask)
    else
      MaskedByBoth(x, s)
  }

  /** The shortcut changes nothing. */
  lemma ShortcutAgrees(x: int, s: ShardIndices)
    ensures MaskedInput(x, s) == MaskedByBoth(x, s)
  {
  }

  /** The rank whose padded range holds the id: by original position, or by position among the added ids. */
  ghost predicate Owns(v: Vocab, tp: nat, rank: nat, x: int)
    requires Valid(v) && rank < tp
  {
    || (0 <= x < v.org && InPart(OrgPadded(v), tp, rank, x))
    || (v.org <= x < v.size && InPart(AddedPadded(v), tp, rank, x - v.org))
  }

  /** The shard's row for an id: original rows first, then padding, then added rows. */
  function RowOf(v: Vocab, s: ShardIndices, x: int): int
  {
    if x < v.org then x - s.paddedOrgStart else OrgRows(s) + (x - s.paddedAddedStart)
  }

  lemma PartIsNat(total: nat, world: nat, rank: nat)
    requires rank < world
    ensures AsymmetricDivide(total, world, rank).0 >= 0
  {
  }

  lemma IndicesAre(v: Vocab, rank: nat, tp: nat, uneven: bool)
    requires Valid(v) && rank < tp && Splits(v, tp, uneven)
    ensures var s := Indices(v, rank, tp, uneven);
      var (size, start) := AsymmetricDivide(OrgPadded(v), tp, rank);
      var (addedSize, addedStart) := AsymmetricDivide(AddedPadded(v), tp, rank);
      && s.paddedOrgStart == start && s.paddedOrgEnd == start + size
      && s.paddedAddedStart == v.org + addedStart && s.paddedAddedEnd == v.org + addedStart + addedSize
      && 0 <= size && 0 <= addedSize
      && s.orgStart == Min(start, v.org) && s.orgEnd == Min(start + size, v.org)
      && s.addedStart == Min(v.org + addedStart, v.size) && s.addedEnd == Min(v.org + addedStart + addedSize, v.size)
  {
    hide PadVocab, OrgPadded, AddedPadded, VocabRange, AsymmetricDivide;
    PartIsNat(OrgPadded(v), tp, rank);
    PartIsNat(AddedPadded(v), tp, rank);
    VocabRangeIs(OrgPadded(v), rank, tp, 0, uneven);
    VocabRangeIs(AddedPadded(v), rank, tp, v.org, uneven);
  }

  lemma MaskArithmetic(v: Vocab, s: ShardIndices, start: nat, size: nat, addedStart: nat, addedSize: nat, x: int)
    requires Valid(v)
    requires s == ShardIndices(start, start + size, v.org + addedStart, v.org + addedStart + addedSize,
                               Min(start, v.org), Min(start + size, v.org),
                               Min(v.org + addedStart, v.size), Min(v.org + addedStart + addedSize, v.size))
    ensures var (index, masked) := MaskedInput(x, s);
      && (!masked <==> (0 <= x < v.org && start <= x < start + size)
                       || (v.org <= x < v.size && addedStart <= x - v.org < addedStart + addedSize))
      && (!masked ==> 0 <= index < ShardRows(s) && index == RowOf(v, s, x))
      && (masked ==> index == 0)
  {
  }

  /** An id is unmasked exactly on its owner, and its index is the id's own row, in bounds. */
  lemma MaskMeaning(v: Vocab, rank: nat, tp: nat, uneven: bool, x: int)
    requires Valid(v) && rank < tp && Splits(v, tp, uneven)
    ensures var s := Indices(v, rank, tp, uneven); var (index, masked) := MaskedInput(x, s);
      && (!masked <==> Owns(v, tp, rank, x))
      && (!masked ==> 0 <= index < ShardRows(s) && index == RowOf(v, s, x))
      && (masked ==> index == 0)
  {
    hide PadVocab, OrgPadded, AddedPadded, AsymmetricDivide, Indices, Splits, MaskedInput, Min, Times, RowOf, ShardRows;
    IndicesAre(v, rank, tp, uneven);
    var (size, start) := AsymmetricDivide(OrgPadded(v), tp, rank);
    var (addedSize, addedStart) := AsymmetricDivide(AddedPadded(v), tp, rank);
    MaskArithmetic(v, Indices(v, rank, tp, uneven), start, size, addedStart, addedSize, x);
  }

  /** Every id of the vocabulary has exactly one owner; no other id has any. */
  lemma OneOwner(v: Vocab, tp: nat, x: int)
    requires Valid(v) && tp > 0
    ensures 0 <= x < v.size ==>
      exists r: nat :: r < tp && Owns(v, tp, r, x) && forall q: nat :: q < tp && Owns(v, tp, q, x) ==> q == r
    ensures !(0 <= x < v.size) ==> forall r: nat :: r < tp ==> !Owns(v, tp, r, x)
  {
    hide PadVocab, OrgPadded, AddedPadded, InPart;
    if 0 <= x < v.org {
      var owner := PartsTile(OrgPadded(v), tp, x);
      assert Owns(v, tp, owner, x);
    } else if v.org <= x < v.size {
      var owner := PartsTile(AddedPadded(v), tp, x - v.org);
      assert Owns(v, tp, owner, x);
    }
  }

  // ----- one rank's lookup -----

  /** What a shard's weight holds; the content of the padding rows is left open. */
  ghost predicate HoldsShard(weight: seq<Vec>, table: seq<Vec>, s: ShardIndices, d: nat)
  {
    && |weight| == ShardRows(s) && AllOfWidth(weight, d)
    && s.orgEnd <= |table| && s.addedEnd <= |table|
    && (forall x :: s.orgStart <= x < s.orgEnd ==>
      0 <= x - s.orgStart < |weight| && weight[x - s.orgStart] == table[x])
    && (forall x :: s.addedStart <= x < s.addedEnd ==>
      0 <= OrgRows(s) + (x - s.addedStart) < |weight| && weight[OrgRows(s) + (x - s.addedStart)] == table[x])
  }

  function LocalIndex(x: int, s: ShardIndices, mask: bool): int
  {
    if mask then MaskedInput(x, s).0 else x
  }

  /** The row a rank contributes for one token. */
  function ShardRow(weight: seq<Vec>, x: int, s: ShardIndices, mask: bool, d: nat): Vec
    requires 0 <= LocalIndex(x, s, mask) < |weight|
  {
    if mask && MaskedInput(x, s).1 then Zero(d) else weight[LocalIndex(x, s, mask)]
  }

  /** masked_fill_: zero the rows of the masked tokens, in place. */
  method MaskedFill(output: array<Vec>, mask: seq<bool>, d: nat)
    requires |mask| == output.Length
    modifies output
    ensures forall i :: 0 <= i < output.Length ==> output[i] == if mask[i] then Zero(d) else old(output[i])
  {
    for i := 0 to output.Length
      invariant forall k :: 0 <= k < i ==> output[k] == if mask[k] then Zero(d) else old(output[k])
      invariant forall k :: i <= k < output.Length ==> output[k] == old(output[k])
    {
      if mask[i] {
        output[i] := Zero(d);
      }
    }
  }

  /** Up to the reduction; `mask` is tp > 1 in _forward_origin and always set in _forward_embed_tp. */
  method Forward(weight: seq<Vec>, tokens: seq<int>, s: ShardIndices, mask: bool, d: nat)
    returns (out: Option<seq<Vec>>)
    ensures out.Some? <==> forall t :: 0 <= t < |tokens| ==> 0 <= LocalIndex(tokens[t], s, mask) < |weight|
    ensures out.Some? ==> |out.value| == |tokens|
    ensures out.Some? ==> forall t :: 0 <= t < |tokens| ==> out.value[t] == ShardRow(weight, tokens[t], s, mask, d)
  {
    hide MaskedInput;
    var rows, masks := [], [];
    for t := 0 to |tokens|
      invariant |rows| == |masks| == t
      invariant forall k :: 0 <= k < t ==> 0 <= LocalIndex(tokens[k], s, mask) < |weight|
      invariant forall k :: 0 <= k < t ==> rows[k] == weight[LocalIndex(tokens[k], s, mask)]
      invariant forall k :: 0 <= k < t ==> masks[k] == (mask && MaskedInput(tokens[k], s).1)
    {
      var index := if mask then MaskedInput(tokens[t], s).0 else tokens[t];
      assert index == LocalIndex(tokens[t], s, mask);
      if index < 0 || |weight| <= index {
        return None;
      }
      rows, masks := rows + [weight[index]], masks + [mask && MaskedInput(tokens[t], s).1];
    }
    var output := new Vec[|tokens|](i requires 0 <= i < |rows| => rows[i]);
    if mask {
      MaskedFill(output, masks, d);
    }
    out := Some(output[..]);
  }

  /** With the mask on, a rank can look up every token if and only if its shard has a row. */
  lemma MaskedReadsIff(v: Vocab, rank: nat, tp: nat, uneven: bool, x: int)
    requires Valid(v) && rank < tp && Splits(v, tp, uneven)
    ensures var s := Indices(v, rank, tp, uneven);
      0 <= LocalIndex(x, s, true) < ShardRows(s) <==> ShardRows(s) > 0
  {
    hide Indices, MaskedInput, Owns;
    MaskMeaning(v, rank, tp, uneven, x);
  }

  /** Every rank has a row if and only if one of the two padded sizes reaches tp. */
  lemma EveryRankHasRowsIff(v: Vocab, tp: nat, uneven: bool)
    requires Valid(v) && tp > 0 && Splits(v, tp, uneven)
    ensures (forall r :: 0 <= r < tp ==> ShardRows(Indices(v, r, tp, uneven)) > 0) <==>
      OrgPadded(v) >= tp || AddedPadded(v) >= tp
  {
    hide PadVocab, OrgPadded, AddedPadded, VocabRange;
    forall r | 0 <= r < tp
      ensures ShardRows(Indices(v, r, tp, uneven)) ==
        AsymmetricDivide(OrgPadded(v), tp, r).0 + AsymmetricDivide(AddedPadded(v), tp, r).0
    {
      VocabRangeIs(OrgPadded(v), r, tp, 0, uneven);
      VocabRangeIs(AddedPadded(v), r, tp, v.org, uneven);
    }
    QuotientPositiveIff(OrgPadded(v), tp);
    QuotientPositiveIff(AddedPadded(v), tp);
    assert ShardRows(Indices(v, 0, tp, uneven)) > 0 || tp > 1 || OrgPadded(v) + AddedPadded(v) == 0;
  }

  lemma QuotientPositiveIff(n: nat, d: nat)
    requires d > 0
    ensures n / d > 0 <==> n >= d
    ensures n < d ==> n % d == n
  {
    if n < d {
      DivModUnique(0, n, d);
    }
  }

  // ----- the whole group -----

  /** The weights of all ranks of a group. */
  ghost predicate HoldsTable(weights: seq<seq<Vec>>, table: seq<Vec>, v: Vocab, tp: nat, uneven: bool, d: nat)
    requires Valid(v) && tp > 0 && Splits(v, tp, uneven)
  {
    && |weights| == tp && |table| == v.size && AllOfWidth(table, d)
    && forall r :: 0 <= r < tp ==> weights[r] != [] && HoldsShard(weights[r], table, Indices(v, r, tp, uneven), d)
  }

  /** One shard's masked row is the table's row on the owner and zeros elsewhere. */
  lemma OneShardRow(weight: seq<Vec>, table: seq<Vec>, v: Vocab, rank: nat, tp: nat, uneven: bool, d: nat, x: int)
    requires Valid(v) && rank < tp && Splits(v, tp, uneven) && |table| == v.size
    requires weight != [] && HoldsShard(weight, table, Indices(v, rank, tp, uneven), d)
    ensures 0 <= LocalIndex(x, Indices(v, rank, tp, uneven), true) < |weight|
    ensures !Owns(v, tp, rank, x) ==> ShardRow(weight, x, Indices(v, rank, tp, uneven), true, d) == Zero(d)
    ensures 0 <= x < v.size && Owns(v, tp, rank, x) ==>
      ShardRow(weight, x, Indices(v, rank, tp, uneven), true, d) == table[x]
  {
    hide PadVocab, OrgPadded, AddedPadded, AsymmetricDivide, AllOfWidth, Indices, Splits, MaskedInput;
    IndicesAre(v, rank, tp, uneven);
    MaskMeaning(v, rank, tp, uneven, x);
  }

  lemma ShardRowMeaning(weights: seq<seq<Vec>>, table: seq<Vec>, v: Vocab, rank: nat, tp: nat, uneven: bool, d: nat,
                        x: int)
    requires Valid(v) && rank < tp && Splits(v, tp, uneven) && HoldsTable(weights, table, v, tp, uneven, d)
    ensures 0 <= LocalIndex(x, Indices(v, rank, tp, uneven), true) < |weights[rank]|
    ensures !Owns(v, tp, rank, x) ==> ShardRow(weights[rank], x, Indices(v, rank, tp, uneven), true, d) == Zero(d)
    ensures 0 <= x < v.size && Owns(v, tp, rank, x) ==>
      ShardRow(weights[rank], x, Indices(v, rank, tp, uneven), true, d) == table[x]
  {
    hide Indices, Splits, HoldsShard, Owns, ShardRow, LocalIndex;
    OneShardRow(weights[rank], table, v, rank, tp, uneven, d, x);
  }

  /** No rank's lookup goes out of range. */
  ghost predicate AllRead(weights: seq<seq<Vec>>, v: Vocab, tp: nat, uneven: bool, d: nat, x: int)
    requires Valid(v) && tp > 0 && Splits(v, tp, uneven)
  {
    && |weights| == tp
    && forall r :: 0 <= r < tp ==>
      && AllOfWidth(weights[r], d)
      && 0 <= LocalIndex(x, Indices(v, r, tp, uneven), true) < |weights[r]|
  }

  ghost function Contributions(weights: seq<seq<Vec>>, v: Vocab, tp: nat, uneven: bool, d: nat,
                               x: int): (rows: seq<Vec>)
    requires Valid(v) && tp > 0 && Splits(v, tp, uneven) && AllRead(weights, v, tp, uneven, d, x)
    ensures |rows| == tp && AllOfWidth(rows, d)
  {
    seq(tp, r requires 0 <= r < tp => ShardRow(weights[r], x, Indices(v, r, tp, uneven), true, d))
  }

  lemma HoldersRead(weights: seq<seq<Vec>>, table: seq<Vec>, v: Vocab, tp: nat, uneven: bool, d: nat, x: int)
    requires Valid(v) && tp > 0 && Splits(v, tp, uneven) && HoldsTable(weights, table, v, tp, uneven, d)
    ensures AllRead(weights, v, tp, uneven, d, x)
  {
    hide Indices, MaskedInput, Splits, Owns, ShardRow, LocalIndex, AllOfWidth;
    forall r | 0 <= r < tp
      ensures 0 <= LocalIndex(x, Indices(v, r, tp, uneven), true) < |weights[r]|
    {
      ShardRowMeaning(weights, table, v, r, tp, uneven, d, x);
    }
  }

  /** The sum over the ranks is the plain lookup; ids outside the vocabulary give zeros. */
  lemma LookupIsPlain(weights: seq<seq<Vec>>, table: seq<Vec>, v: Vocab, tp: nat, uneven: bool, d: nat, x: int)
    requires Valid(v) && tp > 0 && Splits(v, tp, uneven) && HoldsTable(weights, table, v, tp, uneven, d)
    ensures AllRead(weights, v, tp, uneven, d, x)
    ensures AllReduce(Contributions(weights, v, tp, uneven, d, x), d) ==
      if 0 <= x < v.size then table[x] else Zero(d)
  {
    hide AllReduce, Owns, Indices, MaskedInput, Splits, ShardRow, LocalIndex;
    HoldersRead(weights, table, v, tp, uneven, d, x);
    OneOwner(v, tp, x);
    var rows := Contributions(weights, v, tp, uneven, d, x);
    forall r | 0 <= r < tp
      ensures 0 <= x < v.size && Owns(v, tp, r, x) ==> rows[r] == table[x]
      ensures !Owns(v, tp, r, x) ==> rows[r] == Zero(d)
    {
      ShardRowMeaning(weights, table, v, r, tp, uneven, d, x);
    }
    if 0 <= x < v.size {
      var owner: nat :| owner < tp && Owns(v, tp, owner, x)
        && forall q: nat :: q < tp && Owns(v, tp, q, x) ==> q == owner;
      AllReduceOfOne(rows, d, owner);
    } else {
      AllReduceOfZeros(rows, d);
    }
  }

  /** all_gather of equally long token lists along dimension 0. */
  function Gathered(tokens: seq<seq<int>>, m: nat): (all: seq<int>)
    requires forall r :: 0 <= r < |tokens| ==> |tokens[r]| == m
    ensures |all| == |tokens| * m
  {
    MulNonNegative(|tokens|, m);
    seq(|tokens| * m, i requires 0 <= i < |tokens| * m => (GridSplit(i, |tokens|, m); tokens[i / m][i % m]))
  }

  /**
   _forward_embed_tp: the ranks' tokens are gathered, looked up, summed, and block
   `rank` of m rows goes back to that rank. It is the plain lookup of its own tokens.
   */
  lemma EmbedTpIsPlain(weights: seq<seq<Vec>>, table: seq<Vec>, v: Vocab, tp: nat, uneven: bool, d: nat,
                       tokens: seq<seq<int>>, m: nat, rank: nat, k: nat)
    requires Valid(v) && tp > 0 && Splits(v, tp, uneven) && HoldsTable(weights, table, v, tp, uneven, d)
    requires |tokens| == tp && forall r :: 0 <= r < tp ==> |tokens[r]| == m
    requires rank < tp && k < m
    ensures 0 <= rank * m + k < |Gathered(tokens, m)|
    ensures var x := Gathered(tokens, m)[rank * m + k];
      && AllRead(weights, v, tp, uneven, d, x)
      && AllReduce(Contributions(weights, v, tp, uneven, d, x), d) ==
         if 0 <= tokens[rank][k] < v.size then table[tokens[rank][k]] else Zero(d)
  {
    hide AllReduce, Contributions, HoldsShard, Indices, Splits, AllRead;
    GridBound(rank, k, tp, m);
    DivModUnique(rank, k, m);
    LookupIsPlain(weights, table, v, tp, uneven, d, tokens[rank][k]);
  }

  // ----- the layer -----

  lemma SharesMeet(v: Vocab, rank: nat, tp: nat, uneven: bool)
    requires Valid(v) && rank < tp && Splits(v, tp, uneven)
    ensures var s := Indices(v, rank, tp, uneven);
      && s.orgStart <= s.orgEnd && s.addedStart <= s.addedEnd
      && (rank == 0 ==> s.orgStart == 0 && s.addedStart == v.org)
      && (rank + 1 < tp ==> s.orgEnd == Indices(v, rank + 1, tp, uneven).orgStart)
      && (rank + 1 < tp ==> s.addedEnd == Indices(v, rank + 1, tp, uneven).addedStart)
      && (rank + 1 == tp ==> s.orgEnd == v.org && s.addedEnd == v.size)
  {
    hide PadVocab, OrgPadded, AddedPadded, VocabRange, AsymmetricDivide, Indices, Splits;
    IndicesAre(v, rank, tp, uneven);
    PartsAreContiguous(OrgPadded(v), tp, rank);
    PartsAreContiguous(AddedPadded(v), tp, rank);
    if rank + 1 < tp {
      IndicesAre(v, rank + 1, tp, uneven);
    }
  }

  /** num_org_embeddings_per_partition and num_added_embeddings_per_partition of the first n ranks. */
  function Owned(v: Vocab, n: nat, tp: nat, uneven: bool): (int, int)
    requires Valid(v) && n <= tp && tp > 0 && Splits(v, tp, uneven)
  {
    if n == 0 then (0, 0) else
      var (before, s) := (Owned(v, n - 1, tp, uneven), Indices(v, n - 1, tp, uneven));
      (before.0 + (s.orgEnd - s.orgStart), before.1 + (s.addedEnd - s.addedStart))
  }

  lemma {:induction false} OwnedSoFar(v: Vocab, n: nat, tp: nat, uneven: bool)
    requires Valid(v) && 0 < n <= tp && Splits(v, tp, uneven)
    ensures var s := Indices(v, n - 1, tp, uneven);
      Owned(v, n, tp, uneven) == (s.orgEnd, s.addedEnd - v.org)
  {
    hide Indices, Splits;
    SharesMeet(v, n - 1, tp, uneven);
    if n > 1 {
      OwnedSoFar(v, n - 1, tp, uneven);
      SharesMeet(v, n - 2, tp, uneven);
    }
  }

  /** The ranks' unpadded shares add up to the original and the added vocabulary. */
  lemma OwnedAddsUp(v: Vocab, tp: nat, uneven: bool)
    requires Valid(v) && tp > 0 && Splits(v, tp, uneven)
    ensures Owned(v, tp, tp, uneven) == (v.org, v.size - v.org)
  {
    hide Indices, Splits, Owned;
    OwnedSoFar(v, tp, tp, uneven);
    SharesMeet(v, tp - 1, tp, uneven);
  }

  class VocabParallelEmbedding {
    var tpSize: nat
    var orgVocabSize: nat
    var orgVocabSizePadded: nat
    var numEmbeddingsPadded: nat
    var shard: ShardIndices
    var numEmbeddingsPerPartition: int
    var numOrgPerPartition: int
    var numAddedPerPartition: int

    /** __init__; false stands for a failed exact division. */
    method Init(numEmbeddings: nat, orgNumEmbeddings: Option<nat>, padding: nat, rank: nat, tp: nat, uneven: bool)
      returns (ok: bool)
      requires padding > 0 && rank < tp && (orgNumEmbeddings.Some? ==> orgNumEmbeddings.value <= numEmbeddings)
      modifies this
      ensures Valid(MakeVocab(numEmbeddings, orgNumEmbeddings, padding))
      ensures ok <==> Splits(MakeVocab(numEmbeddings, orgNumEmbeddings, padding), tp, uneven)
      ensures ok ==>
        var v := MakeVocab(numEmbeddings, orgNumEmbeddings, padding);
        && tpSize == tp && shard == Indices(v, rank, tp, uneven)
        && orgVocabSize == v.org && orgVocabSizePadded == OrgPadded(v)
        && numEmbeddingsPadded == OrgPadded(v) + AddedPadded(v)
        && orgVocabSize == (if orgNumEmbeddings in {None, Some(0)} then numEmbeddings else orgNumEmbeddings.value)
        && LeastMultiple(orgVocabSizePadded, orgVocabSize, padding)
        && LeastMultiple(numEmbeddingsPadded, orgVocabSizePadded + (numEmbeddings - orgVocabSize), padding)
        && numEmbeddingsPerPartition == ShardRows(shard) >= numOrgPerPartition + numAddedPerPartition
        && numOrgPerPartition == Owned(v, rank + 1, tp, uneven).0 - Owned(v, rank, tp, uneven).0
        && numAddedPerPartition == Owned(v, rank + 1, tp, uneven).1 - Owned(v, rank, tp, uneven).1
    {
      hide AsymmetricDivide, PadVocab;
      var v := MakeVocab(numEmbeddings, orgNumEmbeddings, padding);
      tpSize, orgVocabSize := tp, v.org;
      orgVocabSizePadded := PadVocab(v.org, padding);
      numEmbeddingsPadded := PadVocab(orgVocabSizePadded + (numEmbeddings - v.org), padding);
      var indices := GetIndices(v, rank, tp, uneven);
      VocabRangeIs(OrgPadded(v), rank, tp, 0, uneven);
      VocabRangeIs(AddedPadded(v), rank, tp, v.org, uneven);
      if indices.None? {
        return false;
      }
      ok, shard := true, indices.value;
      numEmbeddingsPerPartition := ShardRows(shard);
      numOrgPerPartition := shard.orgEnd - shard.orgStart;
      numAddedPerPartition := shard.addedEnd - shard.addedStart;
      PaddingIsNonNegative(v, rank, tp, uneven);
    }

    /**
     _forward_origin up to the reduction. With more than one rank, a shard that has a
     row gives the table's rows for the tokens it owns and zeros for all others; a
     single rank looks every token up unmapped.
     */
    method ForwardOrigin(weight: seq<Vec>, tokens: seq<int>, d: nat, ghost v: Vocab, ghost rank: nat,
                         ghost uneven: bool,
                         ghost table: seq<Vec>) returns (out: Option<seq<Vec>>)
      requires Valid(v) && rank < tpSize && Splits(v, tpSize, uneven) && shard == Indices(v, rank, tpSize, uneven)
      requires |table| == v.size && HoldsShard(weight, table, shard, d)
      ensures out.Some? ==> |out.value| == |tokens|
      ensures tpSize > 1 ==> (out.Some? <==> weight != [] || tokens == [])
      ensures tpSize > 1 && out.Some? ==> forall t :: 0 <= t < |tokens| ==>
        && (!Owns(v, tpSize, rank, tokens[t]) ==> out.value[t] == Zero(d))
        && (0 <= tokens[t] < v.size && Owns(v, tpSize, rank, tokens[t]) ==> out.value[t] == table[tokens[t]])
      ensures tpSize == 1 ==> (out.Some? <==> forall t :: 0 <= t < |tokens| ==> 0 <= tokens[t] < |weight|)
      ensures tpSize == 1 && out.Some? ==> forall t :: 0 <= t < |tokens| ==> out.value[t] == weight[tokens[t]]
    {
      hide Indices, Splits, HoldsShard, Owns, MaskedInput;
      out := Forward(weight, tokens, shard, tpSize > 1, d);
      if tpSize > 1 && weight != [] {
        forall t | 0 <= t < |tokens|
          ensures 0 <= LocalIndex(tokens[t], shard, true) < |weight|
          ensures !Owns(v, tpSize, rank, tokens[t]) ==> ShardRow(weight, tokens[t], shard, true, d) == Zero(d)
          ensures 0 <= tokens[t] < v.size && Owns(v, tpSize, rank, tokens[t]) ==>
            ShardRow(weight, tokens[t], shard, true, d) == table[tokens[t]]
        {
          OneShardRow(weight, table, v, rank, tpSize, uneven, d, tokens[t]);
        }
      }
      if weight == [] && tokens != [] {
        assert !(0 <= LocalIndex(tokens[0], shard, tpSize > 1) < |weight|);
      }
    }
  }

  lemma PaddingIsNonNegative(v: Vocab, rank: nat, tp: nat, uneven: bool)
    requires Valid(v) && rank < tp && Splits(v, tp, uneven)
    ensures var s := Indices(v, rank, tp, uneven);
      s.orgEnd - s.orgStart <= OrgRows(s) && ShardRows(s) >= (s.orgEnd - s.orgStart) + (s.addedEnd - s.addedStart)
  {
    hide PadVocab, OrgPadded, AddedPadded, VocabRange, AsymmetricDivide, Indices, Splits;
    IndicesAre(v, rank, tp, uneven);
  }

  // ----- one rank: no mask, no remapping -----

  lemma SingleRankIndices(v: Vocab, uneven: bool)
    requires Valid(v)
    ensures Splits(v, 1, uneven)
    ensures Indices(v, 0, 1, uneven) ==
      ShardIndices(0, OrgPadded(v), v.org, v.org + AddedPadded(v), 0, v.org, v.org, v.size)
  {
    hide PadVocab, OrgPadded, AddedPadded, VocabRange, AsymmetricDivide;
    IndicesAre(v, 0, 1, uneven);
    PartsAreContiguous(OrgPadded(v), 1, 0);
    PartsAreContiguous(AddedPadded(v), 1, 0);
  }

  /** With tp == 1 the unmapped index is the id's own row for original ids, and for added ids only without padding. */
  lemma SingleRankRowIff(v: Vocab, uneven: bool, x: nat)
    requires Valid(v) && x < v.size
    ensures Splits(v, 1, uneven)
    ensures LocalIndex(x, Indices(v, 0, 1, uneven), false) == RowOf(v, Indices(v, 0, 1, uneven), x) <==>
      x < v.org || OrgPadded(v) == v.org
  {
    hide PadVocab, OrgPadded, AddedPadded, Indices, Splits;
    SingleRankIndices(v, uneven);
  }

  /** A table with all rows different, and the one shard that holds it. */
  ghost function NumberedTable(v: Vocab): (t: seq<Vec>)
    ensures |t| == v.size
  {
    seq(v.size, x => [x])
  }

  ghost function NumberedShard(v: Vocab): (w: seq<Vec>)
    requires Valid(v)
    ensures |w| == OrgPadded(v) + AddedPadded(v)
  {
    seq(OrgPadded(v) + AddedPadded(v), k =>
      if k < v.org then [k]
      else if OrgPadded(v) <= k < OrgPadded(v) + (v.size - v.org) then [k - OrgPadded(v) + v.org]
      else [-1])
  }

  lemma NumberedShardHolds(v: Vocab, uneven: bool)
    requires Valid(v)
    ensures HoldsShard(NumberedShard(v), NumberedTable(v), Indices(v, 0, 1, uneven), 1)
  {
    hide PadVocab, OrgPadded, AddedPadded, Indices, Splits;
    SingleRankIndices(v, uneven);
    var s, w, table := Indices(v, 0, 1, uneven), NumberedShard(v), NumberedTable(v);
    assert AllOfWidth(w, 1);
    forall x | s.orgStart <= x < s.orgEnd
      ensures w[x - s.orgStart] == table[x]
    {
    }
    forall x | s.addedStart <= x < s.addedEnd
      ensures w[OrgRows(s) + (x - s.addedStart)] == table[x]
    {
    }
  }

  /** So, with padding, every added id really is looked up wrongly. */
  lemma SingleRankMissesAddedIds(v: Vocab, uneven: bool, x: nat)
    requires Valid(v) && v.org <= x < v.size && OrgPadded(v) != v.org
    ensures Splits(v, 1, uneven)
    ensures HoldsTable([NumberedShard(v)], NumberedTable(v), v, 1, uneven, 1)
    ensures x < |NumberedShard(v)|
    ensures ShardRow(NumberedShard(v), x, Indices(v, 0, 1, uneven), false, 1) != NumberedTable(v)[x]
  {
    hide PadVocab, OrgPadded, AddedPadded, Indices, Splits, HoldsShard;
    SingleRankIndices(v, uneven);
    NumberedShardHolds(v, uneven);
    assert AllOfWidth(NumberedTable(v), 1);
  }
}
