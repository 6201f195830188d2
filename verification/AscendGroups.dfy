/** The extra process groups of the Ascend backend, built by strided loops. */
module AscendGroups {
  import opened Arith
  import opened Groups

  // ----- flashcomm2: output-projection TP and DP groups -----

  /** Global rank of strand j of group i in a TP block, with `n` groups a block. */
  function StrandRank(block: nat, tp: nat, n: nat, i: nat, j: nat): nat
  {
    block * tp + i + j * n
  }

  function OtpGroup(block: nat, tp: nat, otp: nat, i: nat): (g: Group)
    requires otp > 0
    ensures |g| == otp
  {
    seq(otp, j requires 0 <= j < otp => StrandRank(block, tp, tp / otp, i, j))
  }

  function OdpGroup(block: nat, tp: nat, otp: nat, j: nat): (g: Group)
    requires otp > 0
    ensures |g| == tp / otp
  {
    seq(tp / otp, i requires 0 <= i < tp / otp => StrandRank(block, tp, tp / otp, i, j))
  }

  /** All OTP groups, tp / otp of them for each block. */
  function OtpGroups(blocks: nat, tp: nat, otp: nat): (gs: seq<Group>)
    requires otp > 0
    ensures |gs| == blocks * (tp / otp) && forall g :: 0 <= g < |gs| ==> |gs[g]| == otp
  {
    var n := tp / otp;
    MulNonNegative(blocks, n);
    seq(blocks * n, g requires 0 <= g < blocks * n => (GridSplit(g, blocks, n); OtpGroup(g / n, tp, otp, g % n)))
  }

  /** All ODP groups, otp of them for each block. */
  function OdpGroups(blocks: nat, tp: nat, otp: nat): (gs: seq<Group>)
    requires otp > 0
    ensures |gs| == blocks * otp && forall g :: 0 <= g < |gs| ==> |gs[g]| == tp / otp
  {
    MulNonNegative(blocks, otp);
    seq(blocks * otp, g requires 0 <= g < blocks * otp =>
      (GridSplit(g, blocks, otp); OdpGroup(g / otp, tp, otp, g % otp)))
  }

  lemma OtpGroupAt(blocks: nat, tp: nat, otp: nat, b: nat, i: nat)
    requires otp > 0 && b < blocks && i < tp / otp
    ensures b * (tp / otp) + i < |OtpGroups(blocks, tp, otp)|
    ensures OtpGroups(blocks, tp, otp)[b * (tp / otp) + i] == OtpGroup(b, tp, otp, i)
  {
    GridBound(b, i, blocks, tp / otp);
    DivModUnique(b, i, tp / otp);
  }

  lemma OdpGroupAt(blocks: nat, tp: nat, otp: nat, b: nat, j: nat)
    requires otp > 0 && b < blocks && j < otp
    ensures b * otp + j < |OdpGroups(blocks, tp, otp)|
    ensures OdpGroups(blocks, tp, otp)[b * otp + j] == OdpGroup(b, tp, otp, j)
  {
    GridBound(b, j, blocks, otp);
    DivModUnique(b, j, otp);
  }

  /** Position within the block of a strand: below otp * n, and it names i and j. */
  lemma StrandInBlock(block: nat, tp: nat, otp: nat, i: nat, j: nat)
    requires otp > 0 && i < tp / otp && j < otp
    ensures i + j * (tp / otp) < otp * (tp / otp) <= tp
    ensures StrandRank(block, tp, tp / otp, i, j) / tp == block
    ensures StrandRank(block, tp, tp / otp, i, j) % tp == i + j * (tp / otp)
    ensures (i + j * (tp / otp)) / (tp / otp) == j && (i + j * (tp / otp)) % (tp / otp) == i
  {
    var n := tp / otp;
    GridBound(j, i, otp, n);
    assert otp * n <= tp by { assert tp == n * otp + tp % otp; }
    DivModUnique(block, i + j * n, tp);
    DivModUnique(j, i, n);
  }

  /** The strand a rank lies on, when otp divides tp. */
  lemma RankOnStrand(blocks: nat, tp: nat, otp: nat, r: nat) returns (b: nat, i: nat, j: nat)
    requires otp > 0 && tp % otp == 0 && r < blocks * tp
    ensures b < blocks && i < tp / otp && j < otp
    ensures b == r / tp && j == r % tp / (tp / otp) && i == r % tp % (tp / otp)
    ensures StrandRank(b, tp, tp / otp, i, j) == r
  {
    GridSplit(r, blocks, tp);
    var n := tp / otp;
    assert otp * n == tp;
    GridSplit(r % tp, otp, n);
    b, j, i := r / tp, r % tp / n, r % tp % n;
  }

  lemma StrandIs(block: nat, tp: nat, n: nat, i: nat, j: nat)
    ensures StrandRank(block, tp, n, i, j) == block * tp + (i + j * n)
  {
  }

  function OtpHome(tp: nat, otp: nat, r: nat): (int, int)
    requires otp > 0
  {
    var n := tp / otp;
    if n == 0 then (0, 0) else (r / tp * n + r % tp % n, r % tp / n)
  }

  function OdpHome(tp: nat, otp: nat, r: nat): (int, int)
    requires otp > 0
  {
    var n := tp / otp;
    if n == 0 then (0, 0) else (r / tp * otp + r % tp / n, r % tp % n)
  }

  lemma StrandHome(blocks: nat, tp: nat, otp: nat, b: nat, i: nat, j: nat)
    requires otp > 0 && b < blocks && i < tp / otp && j < otp
    ensures StrandRank(b, tp, tp / otp, i, j) < blocks * tp
    ensures OtpHome(tp, otp, StrandRank(b, tp, tp / otp, i, j)) == (b * (tp / otp) + i, j)
    ensures OdpHome(tp, otp, StrandRank(b, tp, tp / otp, i, j)) == (b * otp + j, i)
  {
    StrandInBlock(b, tp, otp, i, j);
    GridBound(b, i + j * (tp / otp), blocks, tp);
    StrandIs(b, tp, tp / otp, i, j);
  }

  lemma OtpPosition(blocks: nat, tp: nat, otp: nat, g: nat, k: nat)
    requires otp > 0 && g < |OtpGroups(blocks, tp, otp)| && k < otp
    ensures OtpGroups(blocks, tp, otp)[g][k] < blocks * tp
    ensures OtpHome(tp, otp, OtpGroups(blocks, tp, otp)[g][k]) == (g, k)
  {
    hide OtpGroups, StrandRank, OtpHome, OdpHome;
    var n := tp / otp;
    GridSplit(g, blocks, n);
    OtpGroupAt(blocks, tp, otp, g / n, g % n);
    StrandHome(blocks, tp, otp, g / n, g % n, k);
  }

  lemma OdpPosition(blocks: nat, tp: nat, otp: nat, g: nat, k: nat)
    requires otp > 0 && g < |OdpGroups(blocks, tp, otp)| && k < tp / otp
    ensures OdpGroups(blocks, tp, otp)[g][k] < blocks * tp
    ensures OdpHome(tp, otp, OdpGroups(blocks, tp, otp)[g][k]) == (g, k)
  {
    hide OdpGroups, StrandRank, OtpHome, OdpHome;
    GridSplit(g, blocks, otp);
    OdpGroupAt(blocks, tp, otp, g / otp, g % otp);
    StrandHome(blocks, tp, otp, g / otp, k, g % otp);
  }

  /** Every rank below blocks * tp is at its home in both families, when otp divides tp. */
  lemma RankIsHome(blocks: nat, tp: nat, otp: nat, r: nat)
    requires otp > 0 && tp % otp == 0 && r < blocks * tp
    ensures var (g, k) := OtpHome(tp, otp, r);
      0 <= g < |OtpGroups(blocks, tp, otp)| && 0 <= k < otp && OtpGroups(blocks, tp, otp)[g][k] == r
    ensures var (g, k) := OdpHome(tp, otp, r);
      0 <= g < |OdpGroups(blocks, tp, otp)| && 0 <= k < tp / otp && OdpGroups(blocks, tp, otp)[g][k] == r
  {
    hide OtpGroups, OdpGroups, StrandRank, OtpHome, OdpHome;
    var b, i, j := RankOnStrand(blocks, tp, otp, r);
    StrandHome(blocks, tp, otp, b, i, j);
    OtpGroupAt(blocks, tp, otp, b, i);
    OdpGroupAt(blocks, tp, otp, b, j);
  }

  lemma OtpPartition(blocks: nat, tp: nat, otp: nat)
    requires otp > 0 && tp % otp == 0
    ensures IsPartition(OtpGroups(blocks, tp, otp), blocks * tp)
    ensures forall r: nat, s: nat :: r < blocks * tp && s < blocks * tp ==>
      (SameGroup(OtpGroups(blocks, tp, otp), r, s) <==> OtpHome(tp, otp, r).0 == OtpHome(tp, otp, s).0)
  {
    hide *;
    var gs := OtpGroups(blocks, tp, otp);
    MulNonNegative(blocks, tp);
    forall r: nat | r < blocks * tp
      ensures var (g, k) := OtpHome(tp, otp, r); 0 <= g < |gs| && 0 <= k < |gs[g]| && gs[g][k] == r
    {
      RankIsHome(blocks, tp, otp, r);
    }
    forall g, k | 0 <= g < |gs| && 0 <= k < |gs[g]|
      ensures gs[g][k] < blocks * tp && OtpHome(tp, otp, gs[g][k]) == (g, k)
    {
      OtpPosition(blocks, tp, otp, g, k);
    }
    PartitionFromHome(gs, blocks * tp, (r: nat) => OtpHome(tp, otp, r));
  }

  /**
   When otp divides tp, two ranks share an OTP group exactly when they lie on one
   strand of one TP block, and an ODP group when they lie in one run of it.
   */
  lemma StrandMembers(blocks: nat, tp: nat, otp: nat, r: nat, s: nat)
    requires otp > 0 && tp > 0 && tp % otp == 0 && r < blocks * tp && s < blocks * tp
    ensures tp / otp > 0
    ensures SameGroup(OtpGroups(blocks, tp, otp), r, s) <==>
      r / tp == s / tp && r % tp % (tp / otp) == s % tp % (tp / otp)
    ensures SameGroup(OdpGroups(blocks, tp, otp), r, s) <==>
      r / tp == s / tp && r % tp / (tp / otp) == s % tp / (tp / otp)
  {
    hide OtpGroups, OdpGroups, StrandRank, OtpHome, OdpHome, IsPartition, SameGroup;
    OtpPartition(blocks, tp, otp);
    OdpPartition(blocks, tp, otp);
    var b, i, j := RankOnStrand(blocks, tp, otp, r);
    var c, k, l := RankOnStrand(blocks, tp, otp, s);
    StrandHome(blocks, tp, otp, b, i, j);
    StrandHome(blocks, tp, otp, c, k, l);
    SameCell(b, i, c, k, tp / otp);
    SameCell(b, j, c, l, otp);
  }

  lemma SameCell(b: nat, i: nat, c: nat, k: nat, n: nat)
    requires i < n && k < n
    ensures b * n + i == c * n + k <==> b == c && i == k
  {
    DivModUnique(b, i, n);
    DivModUnique(c, k, n);
  }

  lemma OdpPartition(blocks: nat, tp: nat, otp: nat)
    requires otp > 0 && tp % otp == 0
    ensures IsPartition(OdpGroups(blocks, tp, otp), blocks * tp)
    ensures forall r: nat, s: nat :: r < blocks * tp && s < blocks * tp ==>
      (SameGroup(OdpGroups(blocks, tp, otp), r, s) <==> OdpHome(tp, otp, r).0 == OdpHome(tp, otp, s).0)
  {
    hide *;
    var gs := OdpGroups(blocks, tp, otp);
    MulNonNegative(blocks, tp);
    forall r: nat | r < blocks * tp
      ensures var (g, k) := OdpHome(tp, otp, r); 0 <= g < |gs| && 0 <= k < |gs[g]| && gs[g][k] == r
    {
      RankIsHome(blocks, tp, otp, r);
    }
    forall g, k | 0 <= g < |gs| && 0 <= k < |gs[g]|
      ensures gs[g][k] < blocks * tp && OdpHome(tp, otp, gs[g][k]) == (g, k)
    {
      OdpPosition(blocks, tp, otp, g, k);
    }
    PartitionFromHome(gs, blocks * tp, (r: nat) => OdpHome(tp, otp, r));
  }

  /** When otp does not divide tp, the last rank of the first block is in no group. */
  lemma LastRankLeftOut(blocks: nat, tp: nat, otp: nat)
    requires otp > 0 && tp > 0 && blocks > 0 && tp % otp != 0
    ensures !Holds(OtpGroups(blocks, tp, otp), tp - 1)
    ensures !Holds(OdpGroups(blocks, tp, otp), tp - 1)
  {
    hide OtpGroups, OdpGroups, StrandRank;
    var n := tp / otp;
    assert tp == n * otp + tp % otp;
    DivModUnique(0, tp - 1, tp);
    forall g, k | 0 <= g < |OtpGroups(blocks, tp, otp)| && 0 <= k < |OtpGroups(blocks, tp, otp)[g]|
      ensures OtpGroups(blocks, tp, otp)[g][k] != tp - 1
    {
      GridSplit(g, blocks, n);
      OtpGroupAt(blocks, tp, otp, g / n, g % n);
      StrandInBlock(g / n, tp, otp, g % n, k);
    }
    forall g, k | 0 <= g < |OdpGroups(blocks, tp, otp)| && 0 <= k < |OdpGroups(blocks, tp, otp)[g]|
      ensures OdpGroups(blocks, tp, otp)[g][k] != tp - 1
    {
      GridSplit(g, blocks, otp);
      OdpGroupAt(blocks, tp, otp, g / otp, g % otp);
      StrandInBlock(g / otp, tp, otp, k, g % otp);
    }
  }

  /** Both families partition all ranks exactly when otp divides tp. */
  lemma Flashcomm2PartitionIff(blocks: nat, tp: nat, otp: nat)
    requires otp > 0 && tp > 0 && blocks > 0
    ensures IsPartition(OtpGroups(blocks, tp, otp), blocks * tp) <==> tp % otp == 0
    ensures IsPartition(OdpGroups(blocks, tp, otp), blocks * tp) <==> tp % otp == 0
  {
    hide OtpGroups, OdpGroups, Disjoint, Holds;
    if tp % otp == 0 {
      OtpPartition(blocks, tp, otp);
      OdpPartition(blocks, tp, otp);
    } else {
      LastRankLeftOut(blocks, tp, otp);
      MulMonotone(1, blocks, tp);
    }
  }

  /** In one block, an OTP group and an ODP group have exactly one rank in common. */
  lemma OtpMeetsOdpOnce(tp: nat, otp: nat, block: nat, i: nat, j: nat, r: nat)
    requires otp > 0 && i < tp / otp && j < otp
    ensures r in OtpGroup(block, tp, otp, i) && r in OdpGroup(block, tp, otp, j) <==>
      r == StrandRank(block, tp, tp / otp, i, j)
  {
    var n := tp / otp;
    if r in OtpGroup(block, tp, otp, i) && r in OdpGroup(block, tp, otp, j) {
      var l :| 0 <= l < otp && OtpGroup(block, tp, otp, i)[l] == r;
      var k :| 0 <= k < n && OdpGroup(block, tp, otp, j)[k] == r;
      StrandInBlock(block, tp, otp, i, l);
      StrandInBlock(block, tp, otp, k, j);
    }
    assert OtpGroup(block, tp, otp, i)[j] == OdpGroup(block, tp, otp, j)[i] == StrandRank(block, tp, n, i, j);
  }

  /** With one OTP rank no loop runs and the TP groups stand in: they are the ODP groups it would build. */
  lemma OneOtpRank(blocks: nat, tp: nat, b: nat)
    requires b < blocks
    ensures |OdpGroups(blocks, tp, 1)| == blocks
    ensures OdpGroups(blocks, tp, 1)[b] == seq(tp, k => b * tp + k)
  {
    OdpGroupAt(blocks, tp, 1, b, 0);
  }

  /** The groups of the first b + 1 blocks are those of the first b, then those of block b. */
  lemma NextBlock(blocks: nat, tp: nat, otp: nat, b: nat, otps: seq<Group>, odps: seq<Group>)
    requires otp > 0 && b < blocks
    requires |otps| == tp / otp && forall i :: 0 <= i < |otps| ==> otps[i] == OtpGroup(b, tp, otp, i)
    requires |odps| == otp && forall j :: 0 <= j < |odps| ==> odps[j] == OdpGroup(b, tp, otp, j)
    ensures 0 <= b * (tp / otp) <= (b + 1) * (tp / otp) <= |OtpGroups(blocks, tp, otp)|
    ensures 0 <= b * otp <= (b + 1) * otp <= |OdpGroups(blocks, tp, otp)|
    ensures OtpGroups(blocks, tp, otp)[..b * (tp / otp)] + otps == OtpGroups(blocks, tp, otp)[..(b + 1) * (tp / otp)]
    ensures OdpGroups(blocks, tp, otp)[..b * otp] + odps == OdpGroups(blocks, tp, otp)[..(b + 1) * otp]
  {
    hide OtpGroups, OdpGroups, OtpGroup, OdpGroup;
    var n, all, alls := tp / otp, OtpGroups(blocks, tp, otp), OdpGroups(blocks, tp, otp);
    MulDistributes(b, 1, n);
    MulDistributes(b, 1, otp);
    MulMonotone(b + 1, blocks, n);
    MulMonotone(b + 1, blocks, otp);
    MulNonNegative(b, n);
    MulNonNegative(b, otp);
    assert all[b * n..(b + 1) * n] == otps by {
      forall i | 0 <= i < n
        ensures all[b * n + i] == otps[i]
      {
        OtpGroupAt(blocks, tp, otp, b, i);
      }
    }
    assert alls[b * otp..(b + 1) * otp] == odps by {
      forall j | 0 <= j < otp
        ensures alls[b * otp + j] == odps[j]
      {
        OdpGroupAt(blocks, tp, otp, b, j);
      }
    }
  }

  /** The nested loops over data-parallel index, stage, group and strand. */
  method BuildFlashcomm2Groups(dp: nat, pp: nat, tp: nat, otp: nat)
    returns (otpGroups: seq<Group>, odpGroups: seq<Group>)
    requires otp > 0
    ensures otpGroups == OtpGroups(dp * pp, tp, otp)
    ensures odpGroups == OdpGroups(dp * pp, tp, otp)
  {
    hide OtpGroups, OdpGroups, OtpGroup, OdpGroup;
    var n := tp / otp;
    MulNonNegative(dp, pp);
    otpGroups, odpGroups := [], [];
    ghost var done := 0;
    for d := 0 to dp
      invariant done == d * pp
      invariant 0 <= done * n <= |OtpGroups(dp * pp, tp, otp)| && 0 <= done * otp <= |OdpGroups(dp * pp, tp, otp)|
      invariant otpGroups == OtpGroups(dp * pp, tp, otp)[..done * n]
      invariant odpGroups == OdpGroups(dp * pp, tp, otp)[..done * otp]
    {
      MulDistributes(d, 1, pp);
      for p := 0 to pp
        invariant done == d * pp + p
        invariant 0 <= done * n <= |OtpGroups(dp * pp, tp, otp)| && 0 <= done * otp <= |OdpGroups(dp * pp, tp, otp)|
        invariant otpGroups == OtpGroups(dp * pp, tp, otp)[..done * n]
        invariant odpGroups == OdpGroups(dp * pp, tp, otp)[..done * otp]
      {
        GridBound(d, p, dp, pp);
        var otps, odps := BuildBlock(d * pp + p, tp, otp);
        NextBlock(dp * pp, tp, otp, done, otps, odps);
        otpGroups, odpGroups := otpGroups + otps, odpGroups + odps;
        done := done + 1;
      }
    }
  }

  /** The two innermost loops, for one TP block. */
  method BuildBlock(serial: nat, tp: nat, otp: nat) returns (otps: seq<Group>, odps: seq<Group>)
    requires otp > 0
    ensures |otps| == tp / otp && forall i :: 0 <= i < |otps| ==> otps[i] == OtpGroup(serial, tp, otp, i)
    ensures |odps| == otp && forall j :: 0 <= j < |odps| ==> odps[j] == OdpGroup(serial, tp, otp, j)
  {
    var n := tp / otp;
    otps, odps := [], seq(otp, _ => []);
    for i := 0 to n
      invariant |otps| == i && forall k :: 0 <= k < i ==> otps[k] == OtpGroup(serial, tp, otp, k)
      invariant |odps| == otp && forall j :: 0 <= j < otp ==> odps[j] == OdpGroup(serial, tp, otp, j)[..i]
    {
      var ranks := [];
      for j := 0 to otp
        invariant ranks == OtpGroup(serial, tp, otp, i)[..j]
        invariant |odps| == otp
        invariant forall l :: 0 <= l < j ==> odps[l] == OdpGroup(serial, tp, otp, l)[..i + 1]
        invariant forall l :: j <= l < otp ==> odps[l] == OdpGroup(serial, tp, otp, l)[..i]
      {
        StrandInBlock(serial, tp, otp, i, j);
        var local := i + j * n;
        assert local < tp;
        ranks := ranks + [serial * tp + local];
        odps := odps[j := odps[j] + [serial * tp + local]];
      }
      otps := otps + [ranks];
    }
  }

  /** get_flashcomm2_reorgnized_batch_ids: the OTP groups of the first block. */
  method ReorganizedBatchIds(tp: nat, otp: nat) returns (ids: seq<Group>)
    requires otp > 0
    ensures |ids| == tp / otp && forall i :: 0 <= i < |ids| ==> ids[i] == OtpGroup(0, tp, otp, i)
    ensures forall blocks: nat :: blocks > 0 ==> ids <= OtpGroups(blocks, tp, otp)
  {
    var n := tp / otp;
    ids := [];
    for i := 0 to n
      invariant |ids| == i && forall k :: 0 <= k < i ==> ids[k] == OtpGroup(0, tp, otp, k)
    {
      var ranks := [];
      for j := 0 to otp
        invariant ranks == OtpGroup(0, tp, otp, i)[..j]
      {
        ranks := ranks + [i + j * n];
      }
      ids := ids + [ranks];
    }
    forall blocks: nat | blocks > 0
      ensures ids <= OtpGroups(blocks, tp, otp)
    {
      MulMonotone(1, blocks, n);
      forall i | 0 <= i < n
        ensures OtpGroups(blocks, tp, otp)[i] == ids[i]
      {
        OtpGroupAt(blocks, tp, otp, 0, i);
      }
    }
  }
}
