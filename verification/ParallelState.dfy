/**
 The module globals of the process groups on one rank: `initialize_model_parallel`
 sets them one by one, `destroy_model_parallel` clears them.
 */
module ParallelState {
  import opened Wrappers
  import opened Groups
  import opened RankGroups
  import opened Families
  import opened AsymGroups
  import opened AsymTheorems

  datatype Family = TP | DCP | PCP | PP | DP | EP | EPLB

  /** The globals that are not None. */
  type Globals = map<Family, seq<Group>>

  /** Check that a global is None; then build its groups, build nothing, or fail while building. */
  datatype Step = Build(family: Family, groups: seq<Group>) | CheckOnly(family: Family) | CheckThenFail(family: Family)

  /** Building a group coordinator asserts that the calling rank is in one of the groups. */
  predicate Possible(step: Step, rank: nat)
  {
    match step
    case Build(_, groups) => exists i :: 0 <= i < |groups| && rank in groups[i]
    case CheckOnly(_) => true
    case CheckThenFail(_) => false
  }

  /** The globals after the steps, and whether all of them went through. */
  function Run(rank: nat, g: Globals, steps: seq<Step>): (Globals, bool)
    decreases steps
  {
    if steps == [] then (g, true)
    else if steps[0].family in g || !Possible(steps[0], rank) then (g, false)
    else Run(rank, if steps[0].Build? then g[steps[0].family := steps[0].groups] else g, steps[1..])
  }

  /**
   The expert groups exist for mixture-of-experts models, or when there is no model
   configuration (isMoe covers both); EPLB copies them when enabled.
   */
  datatype Model = Model(isMoe: bool, enableEplb: bool)

  function SymmetricPlan(l: Layout, dcp: nat, model: Model): seq<Step>
    requires Positive(l) && dcp > 0
  {
    [Build(TP, TpGroups(l)),
     if WorldSize(l) % dcp == 0 then Build(DCP, DcpGroups(l, dcp)) else CheckThenFail(DCP),
     Build(PCP, PcpGroups(l)), Build(PP, PpGroups(l)), Build(DP, DpGroups(l))] +
    (if !model.isMoe then [CheckOnly(EP)] else
       [Build(EP, EpGroups(l)), if model.enableEplb then Build(EPLB, EpGroups(l)) else CheckOnly(EPLB)])
  }

  function AsymmetricPlan(confs: seq<EngineConf>, model: Model): seq<Step>
  {
    var sorted := Sorted(confs);
    var singles := Singletons(World(sorted));
    [Build(TP, TpGroupsOf(sorted)), Build(DCP, singles), Build(PCP, singles), Build(PP, singles),
     Build(DP, DpGroupsOf(TpGroupsOf(sorted)))] +
    (if !model.isMoe then [CheckOnly(EP)]
     else if World(confs) == 0 then [CheckThenFail(EP)]
     else [Build(EP, [Range(0, World(confs))]), CheckOnly(EPLB)])
  }

  // ----- runs of steps -----

  ghost predicate DistinctFamilies(steps: seq<Step>)
  {
    forall i, j :: 0 <= i < j < |steps| ==> steps[i].family != steps[j].family
  }

  /** A run goes through exactly when every family it touches was None and every build is possible on the rank. */
  lemma {:induction false} RunSucceedsIff(rank: nat, g: Globals, steps: seq<Step>)
    requires DistinctFamilies(steps)
    ensures Run(rank, g, steps).1 <==>
      forall i :: 0 <= i < |steps| ==> steps[i].family !in g && Possible(steps[i], rank)
    decreases steps
  {
    hide Possible;
    if steps != [] && steps[0].family !in g && Possible(steps[0], rank) {
      var h := if steps[0].Build? then g[steps[0].family := steps[0].groups] else g;
      RunSucceedsIff(rank, h, steps[1..]);
      assert forall i :: 1 <= i < |steps| ==>
        steps[i] == steps[1..][i - 1] && (steps[i].family in h <==> steps[i].family in g);
    }
  }

  /** No run overwrites or removes a group that is already there, whether it goes through or not. */
  lemma {:induction false} RunKeepsOld(rank: nat, g: Globals, steps: seq<Step>)
    ensures forall f :: f in g ==> f in Run(rank, g, steps).0 && Run(rank, g, steps).0[f] == g[f]
    decreases steps
  {
    hide Possible;
    if steps != [] && steps[0].family !in g && Possible(steps[0], rank) {
      RunKeepsOld(rank, if steps[0].Build? then g[steps[0].family := steps[0].groups] else g, steps[1..]);
    }
  }

  /** What a run adds are the groups of its own build steps; a full run adds all of them. */
  lemma {:induction false} RunAdds(rank: nat, g: Globals, steps: seq<Step>)
    ensures forall f :: f in Run(rank, g, steps).0 && f !in g ==> Build(f, Run(rank, g, steps).0[f]) in steps
    ensures Run(rank, g, steps).1 ==> forall i :: 0 <= i < |steps| && steps[i].Build? ==>
      steps[i].family in Run(rank, g, steps).0 && Run(rank, g, steps).0[steps[i].family] == steps[i].groups
    decreases steps
  {
    hide Possible;
    if steps != [] && steps[0].family !in g && Possible(steps[0], rank) {
      var h := if steps[0].Build? then g[steps[0].family := steps[0].groups] else g;
      RunAdds(rank, h, steps[1..]);
      RunKeepsOld(rank, h, steps[1..]);
    }
  }

  ghost predicate Builds(steps: seq<Step>, f: Family)
  {
    exists i :: 0 <= i < |steps| && steps[i].Build? && steps[i].family == f
  }

  /** A full run from cleared globals sets exactly the families it builds. */
  lemma FullRunSets(rank: nat, steps: seq<Step>, f: Family)
    requires Run(rank, map[], steps).1
    ensures f in Run(rank, map[], steps).0 <==> Builds(steps, f)
  {
    hide Run;
    RunAdds(rank, map[], steps);
    var g := Run(rank, map[], steps).0;
    if f in g {
      var i :| 0 <= i < |steps| && steps[i] == Build(f, g[f]);
      assert steps[i].Build?;
    }
  }

  // ----- the two kinds of start -----

  /** Every global that is set partitions one and the same world. */
  ghost predicate Coherent(g: Globals, world: nat)
  {
    forall f :: f in g ==> IsPartition(g[f], world)
  }

  lemma BuildsAreCoherent(rank: nat, steps: seq<Step>, world: nat)
    requires forall i :: 0 <= i < |steps| && steps[i].Build? ==> IsPartition(steps[i].groups, world)
    ensures Coherent(Run(rank, map[], steps).0, world)
  {
    hide IsPartition, Run;
    RunAdds(rank, map[], steps);
    var g := Run(rank, map[], steps).0;
    forall f | f in g
      ensures IsPartition(g[f], world)
    {
      var i :| 0 <= i < |steps| && steps[i] == Build(f, g[f]);
      assert steps[i].Build?;
    }
  }

  /** A partition can be built on exactly the ranks of its world. */
  lemma PossibleIff(step: Step, rank: nat, world: nat)
    requires step.Build? && IsPartition(step.groups, world)
    ensures Possible(step, rank) <==> rank < world
  {
    assert Possible(step, rank) <==> Holds(step.groups, rank);
  }

  lemma WholeWorld(n: nat)
    requires n > 0
    ensures IsPartition([Range(0, n)], n)
  {
    var groups := [Range(0, n)];
    forall r: nat
      ensures Holds(groups, r) <==> r < n
    {
      if r < n {
        assert groups[0][r] == r;
      }
    }
  }

  // ----- what a full start sets -----

  /** Every rank below n has a group of its own. */
  ghost predicate Alone(groups: seq<Group>, n: nat)
  {
    forall r: nat, s: nat :: r < n && s < n ==> (SameGroup(groups, r, s) <==> r == s)
  }

  /** All ranks below n are in one group. */
  ghost predicate Together(groups: seq<Group>, n: nat)
  {
    forall r: nat, s: nat :: r < n && s < n ==> SameGroup(groups, r, s)
  }

  /**
   The globals of an asymmetric world: TP groups by executor and DP groups across
   them, single ranks for DCP, PCP and PP, and one group of all ranks for the experts.
   */
  ghost predicate AsymmetricGroups(g: Globals, confs: seq<EngineConf>, model: Model)
  {
    && (forall f :: f in g <==> f != EPLB && (f == EP ==> model.isMoe))
    && g[TP] == TpGroupsOf(Sorted(confs)) && g[DP] == DpGroupsOf(TpGroupsOf(Sorted(confs)))
    && Alone(g[DCP], World(confs)) && Alone(g[PCP], World(confs)) && Alone(g[PP], World(confs))
    && (model.isMoe ==> Together(g[EP], World(confs)))
  }

  /** Rows of `width` consecutive ranks. */
  ghost predicate Consecutive(groups: seq<Group>, n: nat, width: nat)
    requires width > 0
  {
    forall r: nat, s: nat :: r < n && s < n ==> (SameGroup(groups, r, s) <==> r / width == s / width)
  }

  /** Ranks of one external data-parallel index and one pipeline stage are together. */
  ghost predicate ByReplicaAndStage(groups: seq<Group>, l: Layout)
  {
    forall r: nat, s: nat :: r < WorldSize(l) && s < WorldSize(l) ==>
      (SameGroup(groups, r, s) <==> Coords(l, r)[0] == Coords(l, s)[0] && Coords(l, r)[2] == Coords(l, s)[2])
  }

  /** The globals of a symmetric world: every family cuts along its own axis. */
  ghost predicate SymmetricGroups(g: Globals, l: Layout, dcp: nat, model: Model)
    requires dcp > 0
  {
    && (forall f :: f in g <==> (f in {EP, EPLB} ==> model.isMoe) && (f == EPLB ==> model.enableEplb))
    && CutsAlong(g[TP], l, 4) && CutsAlong(g[PCP], l, 3) && CutsAlong(g[PP], l, 2) && CutsAlong(g[DP], l, 1)
    && Consecutive(g[DCP], WorldSize(l), dcp)
    && (model.isMoe ==> ByReplicaAndStage(g[EP], l))
    && (model.isMoe && model.enableEplb ==> g[EPLB] == g[EP])
  }

  lemma SinglesAreAlone(n: nat)
    ensures Alone(Singletons(n), n)
  {
    forall r: nat, s: nat | r < n && s < n
      ensures SameGroup(Singletons(n), r, s) <==> r == s
    {
      assert Singletons(n)[r] == [r];
    }
  }

  lemma OneGroupIsTogether(n: nat)
    ensures Together([Range(0, n)], n)
  {
    var groups := [Range(0, n)];
    forall r: nat, s: nat | r < n && s < n
      ensures SameGroup(groups, r, s)
    {
      assert groups[0][r] == r && groups[0][s] == s;
    }
  }

  lemma AsymmetricPlanPartitions(confs: seq<EngineConf>, model: Model)
    ensures forall i :: 0 <= i < |AsymmetricPlan(confs, model)| && AsymmetricPlan(confs, model)[i].Build? ==>
      IsPartition(AsymmetricPlan(confs, model)[i].groups, World(confs))
  {
    hide Sorted, IsPartition, TpGroupsOf, DpGroupsOf, Singletons, World, Range;
    AsymmetricFamilies(confs);
    if World(confs) > 0 {
      WholeWorld(World(confs));
    }
  }

  lemma SymmetricPlanPartitions(l: Layout, dcp: nat, model: Model)
    requires Positive(l) && dcp > 0
    ensures forall i :: 0 <= i < |SymmetricPlan(l, dcp, model)| && SymmetricPlan(l, dcp, model)[i].Build? ==>
      IsPartition(SymmetricPlan(l, dcp, model)[i].groups, WorldSize(l))
  {
    hide IsPartition, WorldSize, TpGroups, PcpGroups, PpGroups, DpGroups, EpGroups;
    SymmetricFamilies(l);
    ExpertFamily(l);
    if WorldSize(l) % dcp == 0 {
      ContiguousRows(l, dcp);
    }
  }

  lemma AsymmetricPlanShape(confs: seq<EngineConf>, model: Model)
    ensures DistinctFamilies(AsymmetricPlan(confs, model))
    ensures |AsymmetricPlan(confs, model)| >= 6
    ensures AsymmetricPlan(confs, model)[0] == Build(TP, TpGroupsOf(Sorted(confs)))
    ensures AsymmetricPlan(confs, model)[4] == Build(DP, DpGroupsOf(TpGroupsOf(Sorted(confs))))
    ensures forall i :: 0 <= i < |AsymmetricPlan(confs, model)| && AsymmetricPlan(confs, model)[i].CheckThenFail? ==>
      World(confs) == 0
  {
    hide Sorted, TpGroupsOf, DpGroupsOf, Singletons, World, Range;
  }

  lemma AsymmetricPlanBuilds(confs: seq<EngineConf>, model: Model, f: Family)
    requires World(confs) > 0
    ensures Builds(AsymmetricPlan(confs, model), f) <==> f != EPLB && (f == EP ==> model.isMoe)
  {
    hide Sorted, TpGroupsOf, DpGroupsOf, Singletons, World, Range;
    var plan := AsymmetricPlan(confs, model);
    assert plan[0].family == TP && plan[1].family == DCP && plan[2].family == PCP;
    assert plan[3].family == PP && plan[4].family == DP;
    assert plan[5].family == EP && (plan[5].Build? <==> model.isMoe);
  }

  /** A full run over the plan sets exactly these globals. */
  lemma AsymmetricPlanSets(rank: nat, confs: seq<EngineConf>, model: Model)
    requires Run(rank, map[], AsymmetricPlan(confs, model)).1 && World(confs) > 0
    ensures AsymmetricGroups(Run(rank, map[], AsymmetricPlan(confs, model)).0, confs, model)
  {
    hide Sorted, TpGroupsOf, DpGroupsOf, Singletons, World, Range, Run, Alone, Together, Builds;
    var plan := AsymmetricPlan(confs, model);
    forall f: Family
      ensures f in Run(rank, map[], plan).0 <==> f != EPLB && (f == EP ==> model.isMoe)
    {
      FullRunSets(rank, plan, f);
      AsymmetricPlanBuilds(confs, model, f);
    }
    AsymmetricPlanValues(rank, confs, model);
  }

  lemma AsymmetricPlanValues(rank: nat, confs: seq<EngineConf>, model: Model)
    requires Run(rank, map[], AsymmetricPlan(confs, model)).1 && World(confs) > 0
    ensures var g := Run(rank, map[], AsymmetricPlan(confs, model)).0;
      && {TP, DCP, PCP, PP, DP} <= g.Keys && (model.isMoe ==> EP in g)
      && g[TP] == TpGroupsOf(Sorted(confs)) && g[DP] == DpGroupsOf(TpGroupsOf(Sorted(confs)))
      && Alone(g[DCP], World(confs)) && Alone(g[PCP], World(confs)) && Alone(g[PP], World(confs))
      && (model.isMoe ==> Together(g[EP], World(confs)))
  {
    hide Sorted, TpGroupsOf, DpGroupsOf, Singletons, World, Range, Run, Alone, Together;
    var plan := AsymmetricPlan(confs, model);
    RunAdds(rank, map[], plan);
    var singles := Singletons(World(Sorted(confs)));
    WorldIgnoresOrder(confs);
    SinglesAreAlone(World(confs));
    OneGroupIsTogether(World(confs));
    assert plan[0] == Build(TP, TpGroupsOf(Sorted(confs)));
    assert plan[1] == Build(DCP, singles) && plan[2] == Build(PCP, singles) && plan[3] == Build(PP, singles);
    assert plan[4] == Build(DP, DpGroupsOf(TpGroupsOf(Sorted(confs))));
    assert model.isMoe ==> plan[5] == Build(EP, [Range(0, World(confs))]);
  }

  /**
   From cleared globals the asymmetric start goes through on exactly the ranks of the
   new world. What it sets is coherent even when it fails; a full start sets all
   families but EPLB, and EP for experts only.
   */
  lemma AsymmetricStart(rank: nat, confs: seq<EngineConf>, model: Model)
    ensures var (g, ok) := Run(rank, map[], AsymmetricPlan(confs, model));
      && (ok <==> rank < World(confs))
      && Coherent(g, World(confs))
      && (ok ==> AsymmetricGroups(g, confs, model))
  {
    hide AsymmetricPlan, IsPartition, DistinctFamilies, Run, World, Possible, Sorted, TpGroupsOf, DpGroupsOf,
         AsymmetricGroups;
    var plan := AsymmetricPlan(confs, model);
    AsymmetricPlanShape(confs, model);
    AsymmetricPlanPartitions(confs, model);
    forall i | 0 <= i < |plan|
      ensures plan[i].Build? ==> (Possible(plan[i], rank) <==> rank < World(confs))
      ensures plan[i].CheckOnly? ==> Possible(plan[i], rank)
    {
      StepPossible(plan[i], rank, World(confs));
    }
    RunSucceedsIff(rank, map[], plan);
    BuildsAreCoherent(rank, plan, World(confs));
    var (g, ok) := Run(rank, map[], plan);
    assert ok ==> Possible(plan[0], rank);
    if ok {
      AsymmetricPlanSets(rank, confs, model);
    }
  }

  lemma StepPossible(step: Step, rank: nat, world: nat)
    requires step.Build? ==> IsPartition(step.groups, world)
    ensures step.Build? ==> (Possible(step, rank) <==> rank < world)
    ensures step.CheckOnly? ==> Possible(step, rank)
    ensures step.CheckThenFail? ==> !Possible(step, rank)
  {
    hide IsPartition;
    if step.Build? {
      PossibleIff(step, rank, world);
    }
  }

  lemma SymmetricPlanSets(rank: nat, l: Layout, dcp: nat, model: Model)
    requires Positive(l) && dcp > 0 && WorldSize(l) % dcp == 0
    requires Run(rank, map[], SymmetricPlan(l, dcp, model)).1
    ensures SymmetricGroups(Run(rank, map[], SymmetricPlan(l, dcp, model)).0, l, dcp, model)
  {
    hide WorldSize, Run, CutsAlong, Builds, SymmetricPlan, Consecutive, ByReplicaAndStage;
    var plan := SymmetricPlan(l, dcp, model);
    forall f: Family
      ensures f in Run(rank, map[], plan).0 <==>
        (f in {EP, EPLB} ==> model.isMoe) && (f == EPLB ==> model.enableEplb)
    {
      FullRunSets(rank, plan, f);
      SymmetricPlanBuilds(l, dcp, model, f);
    }
    SymmetricPlanValues(rank, l, dcp, model);
    SymmetricFamilies(l);
    SymmetricPlanCuts(l, dcp);
  }

  lemma SymmetricPlanBuilds(l: Layout, dcp: nat, model: Model, f: Family)
    requires Positive(l) && dcp > 0 && WorldSize(l) % dcp == 0
    ensures Builds(SymmetricPlan(l, dcp, model), f) <==>
      (f in {EP, EPLB} ==> model.isMoe) && (f == EPLB ==> model.enableEplb)
  {
    hide WorldSize, TpGroups, PcpGroups, PpGroups, DpGroups, EpGroups, DcpGroups;
    var plan := SymmetricPlan(l, dcp, model);
    assert plan[0].family == TP && plan[1].family == DCP && plan[2].family == PCP;
    assert plan[3].family == PP && plan[4].family == DP && plan[5].family == EP;
    assert model.isMoe ==> plan[6].family == EPLB && (plan[6].Build? <==> model.enableEplb);
  }

  lemma SymmetricPlanValues(rank: nat, l: Layout, dcp: nat, model: Model)
    requires Positive(l) && dcp > 0 && WorldSize(l) % dcp == 0
    requires Run(rank, map[], SymmetricPlan(l, dcp, model)).1
    ensures var g := Run(rank, map[], SymmetricPlan(l, dcp, model)).0;
      && {TP, DCP, PCP, PP, DP} <= g.Keys
      && (model.isMoe ==> EP in g) && (model.isMoe && model.enableEplb ==> EPLB in g)
      && g[TP] == TpGroups(l) && g[DCP] == DcpGroups(l, dcp) && g[PCP] == PcpGroups(l)
      && g[PP] == PpGroups(l) && g[DP] == DpGroups(l)
      && (model.isMoe ==> g[EP] == EpGroups(l))
      && (model.isMoe && model.enableEplb ==> g[EPLB] == EpGroups(l))
  {
    hide WorldSize, TpGroups, PcpGroups, PpGroups, DpGroups, EpGroups, DcpGroups, Run;
    var plan := SymmetricPlan(l, dcp, model);
    RunAdds(rank, map[], plan);
    assert plan[0] == Build(TP, TpGroups(l)) && plan[1] == Build(DCP, DcpGroups(l, dcp));
    assert plan[2] == Build(PCP, PcpGroups(l)) && plan[3] == Build(PP, PpGroups(l));
    assert plan[4] == Build(DP, DpGroups(l));
    assert model.isMoe ==> plan[5] == Build(EP, EpGroups(l));
    assert model.isMoe && model.enableEplb ==> plan[6] == Build(EPLB, EpGroups(l));
  }

  lemma SymmetricPlanCuts(l: Layout, dcp: nat)
    requires Positive(l) && dcp > 0 && WorldSize(l) % dcp == 0
    ensures Consecutive(DcpGroups(l, dcp), WorldSize(l), dcp)
    ensures ByReplicaAndStage(EpGroups(l), l)
  {
    hide WorldSize, EpGroups, DcpGroups, Coords, SameGroup;
    DcpIsRows(l, dcp);
    ContiguousRows(l, dcp);
    ExpertFamily(l);
  }

  /**
   From cleared globals the symmetric start goes through on exactly the ranks of a
   world that dcp divides, and then every family cuts the world along its own axis.
   */
  lemma SymmetricStart(rank: nat, l: Layout, dcp: nat, model: Model)
    requires Positive(l) && dcp > 0
    ensures var (g, ok) := Run(rank, map[], SymmetricPlan(l, dcp, model));
      && (ok <==> rank < WorldSize(l) && WorldSize(l) % dcp == 0)
      && Coherent(g, WorldSize(l))
      && (ok ==> SymmetricGroups(g, l, dcp, model))
  {
    hide IsPartition, WorldSize, TpGroups, PcpGroups, PpGroups, DpGroups, EpGroups, DcpGroups, Run, Possible,
         SymmetricGroups;
    var plan := SymmetricPlan(l, dcp, model);
    SymmetricPlanPartitions(l, dcp, model);
    forall i | 0 <= i < |plan|
      ensures plan[i].Build? ==> (Possible(plan[i], rank) <==> rank < WorldSize(l))
      ensures plan[i].CheckOnly? ==> Possible(plan[i], rank)
      ensures plan[i].CheckThenFail? ==> !Possible(plan[i], rank)
    {
      StepPossible(plan[i], rank, WorldSize(l));
    }
    RunSucceedsIff(rank, map[], plan);
    BuildsAreCoherent(rank, plan, WorldSize(l));
    assert plan[0] == Build(TP, TpGroups(l));
    assert plan[1].CheckThenFail? <==> WorldSize(l) % dcp != 0;
    if Run(rank, map[], plan).1 {
      SymmetricPlanSets(rank, l, dcp, model);
    }
  }

  /** A second start without a destroy fails at once and changes nothing. */
  lemma StartTwice(rank: nat, g: Globals, l: Layout, dcp: nat, confs: seq<EngineConf>, model: Model)
    requires Positive(l) && dcp > 0 && TP in g
    ensures Run(rank, g, SymmetricPlan(l, dcp, model)) == (g, false)
    ensures Run(rank, g, AsymmetricPlan(confs, model)) == (g, false)
  {
  }

  /** Every process of a configured executor can start on the rank it computes for itself. */
  lemma OwnRankStarts(confs: seq<EngineConf>, c: EngineConf, k: nat, model: Model)
    requires DistinctExecutors(confs) && c in confs && k < c.newTp
    ensures GlobalRank(confs, c.executorId, k).Some? && GlobalRank(confs, c.executorId, k).value >= 0
    ensures Run(GlobalRank(confs, c.executorId, k).value, map[], AsymmetricPlan(confs, model)).1
  {
    hide AsymmetricPlan, Run, World, GlobalRank, Sorted;
    RankSitsInOwnGroup(confs, c, k);
    AsymmetricStart(GlobalRank(confs, c.executorId, k).value, confs, model);
  }

  // ----- the imperative form -----

  class State {
    const rank: nat
    var globals: Globals

    constructor (rank: nat)
      ensures globals == map[] && this.rank == rank
    {
      this.rank := rank;
      globals := map[];
    }

    /** One assertion that a global is None, then its assignment. */
    method Take(step: Step) returns (ok: bool)
      modifies this
      ensures (globals, ok) == Run(rank, old(globals), [step])
    {
      ok := step.family !in globals && Possible(step, rank);
      if ok && step.Build? {
        globals := globals[step.family := step.groups];
      }
    }

    /** The statements of the start, in order, up to the first failed assertion. */
    method TakeAll(steps: seq<Step>) returns (ok: bool)
      modifies this
      ensures (globals, ok) == Run(rank, old(globals), steps)
    {
      hide Possible;
      ok := true;
      for i := 0 to |steps|
        invariant ok
        invariant Run(rank, globals, steps[i..]) == Run(rank, old(globals), steps)
      {
        ghost var before := globals;
        ok := Take(steps[i]);
        TakeFirst(rank, before, steps[i..]);
        assert steps[i..][1..] == steps[i + 1..];
        if !ok {
          return;
        }
      }
    }

    /** The symmetric branch, statement by statement. */
    method InitializeSymmetric(l: Layout, dcp: nat, model: Model) returns (ok: bool)
      requires Positive(l) && dcp > 0
      modifies this
      ensures (globals, ok) == Run(rank, old(globals), SymmetricPlan(l, dcp, model))
      ensures old(globals) == map[] ==> (ok <==> rank < WorldSize(l) && WorldSize(l) % dcp == 0)
      ensures old(globals) == map[] ==> Coherent(globals, WorldSize(l))
      ensures old(globals) == map[] && ok ==> SymmetricGroups(globals, l, dcp, model)
      ensures TP in old(globals) ==> !ok && globals == old(globals)
    {
      hide Run, TpGroups, DcpGroups, PcpGroups, PpGroups, DpGroups, EpGroups, WorldSize, Coherent, SymmetricGroups;
      var dcpStep := CheckThenFail(DCP);
      if WorldSize(l) % dcp == 0 {
        dcpStep := Build(DCP, DcpGroups(l, dcp));
      }
      var steps := [Build(TP, TpGroups(l)), dcpStep, Build(PCP, PcpGroups(l)), Build(PP, PpGroups(l)),
                    Build(DP, DpGroups(l))];
      if model.isMoe {
        var experts := EpGroups(l);
        steps := steps + [Build(EP, experts), if model.enableEplb then Build(EPLB, experts) else CheckOnly(EPLB)];
      } else {
        steps := steps + [CheckOnly(EP)];
      }
      assert steps == SymmetricPlan(l, dcp, model);
      ok := TakeAll(steps);
      SymmetricStart(rank, l, dcp, model);
      if TP in old(globals) {
        StartTwice(rank, old(globals), l, dcp, [], model);
      }
    }

    /** The asymmetric branch, with its groups built by the loops over the sorted configurations. */
    method InitializeAsymmetric(confs: seq<EngineConf>, model: Model) returns (ok: bool)
      modifies this
      ensures (globals, ok) == Run(rank, old(globals), AsymmetricPlan(confs, model))
      ensures old(globals) == map[] ==> (ok <==> rank < World(confs)) && Coherent(globals, World(confs))
      ensures old(globals) == map[] && ok ==> AsymmetricGroups(globals, confs, model)
      ensures TP in old(globals) ==> !ok && globals == old(globals)
    {
      hide Run, Possible, TpGroupsOf, DpGroupsOf, Singletons, Range, World, Sorted, Coherent, AsymmetricGroups;
      var sorted := Sorted(confs);
      var tp := BuildTpGroups(sorted);
      var singles := BuildSingletons(sorted);
      var dp := BuildDpGroups(tp);
      var world := AsymWorldSize(confs);
      var experts :=
        if !model.isMoe then [CheckOnly(EP)]
        else if world.None? then [CheckThenFail(EP)]
        else [Build(EP, [Range(0, world.value)]), CheckOnly(EPLB)];
      var families := [Build(TP, tp), Build(DCP, singles), Build(PCP, singles), Build(PP, singles), Build(DP, dp)];
      ok := TakeAll(families + experts);
      AsymmetricStart(rank, confs, model);
      if TP in old(globals) {
        StartTwice(rank, old(globals), Layout(1, 1, 1, 1, 1), 1, confs, model);
      }
    }

    method Destroy()
      modifies this
      ensures globals == map[]
    {
      globals := map[];
    }

    /** Destroy, then start again over the surviving executors: it goes through on exactly the new world's ranks. */
    method Rebuild(confs: seq<EngineConf>, model: Model) returns (ok: bool)
      modifies this
      ensures ok <==> rank < World(confs)
      ensures Coherent(globals, World(confs))
      ensures ok ==> AsymmetricGroups(globals, confs, model)
    {
      hide Run, AsymmetricPlan, World, Coherent, AsymmetricGroups;
      Destroy();
      ok := InitializeAsymmetric(confs, model);
    }
  }

  lemma TakeFirst(rank: nat, g: Globals, steps: seq<Step>)
    requires steps != []
    ensures var (h, ok) := Run(rank, g, [steps[0]]);
      Run(rank, g, steps) == if ok then Run(rank, h, steps[1..]) else (h, false)
  {
    hide Possible;
    assert [steps[0]][1..] == [];
  }
}
