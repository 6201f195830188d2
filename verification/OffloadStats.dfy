/** What the statistics of the offload say about a run: each counter counts one kind of step. */
module OffloadStats {
  import opened Wrappers
  import opened OffloadState
  import opened OffloadProtocol

  ghost function Count(steps: seq<Step>, kind: Step -> bool): nat
  {
    if steps == [] then 0 else
      Count(steps[..|steps| - 1], kind) + if kind(steps[|steps| - 1]) then 1 else 0
  }

  lemma CountersMove(limit: int, s: State, step: Step)
    requires Enabled(s, step)
    ensures var (before, after) := (s.shared.stats, Apply(limit, s, step).shared.stats);
      && after.submitted == before.submitted + (if step.Return? then 1 else 0)
      && after.rejected == before.rejected + (if step.GiveUp? then 1 else 0)
      && after.errors == before.errors + (if step.SubmitFails? || step.Raise? then 1 else 0)
      && after.completed == before.completed + (if step.RunCount? || step.InlineCount? then 1 else 0)
    ensures Apply(limit, s, step).shared.taskCounter == s.shared.taskCounter + if step.Label? then 1 else 0
  {
    hide Busy;
  }

  /**
   In every run: submitted counts the calls that returned a future, rejected those that
   gave up, errors the failed submissions and tasks, completed the callbacks that ran
   through, and the task counter the numbers drawn.
   */
  lemma {:induction false} StatsCountSteps(limit: int, workers: nat, callers: set<Caller>, steps: seq<Step>)
    requires After(limit, Init(workers, callers), steps).Some?
    ensures var g := After(limit, Init(workers, callers), steps).value.shared;
      && g.stats.submitted == Count(steps, (step: Step) => step.Return?)
      && g.stats.rejected == Count(steps, (step: Step) => step.GiveUp?)
      && g.stats.errors == Count(steps, (step: Step) => step.SubmitFails? || step.Raise?)
      && g.stats.completed == Count(steps, (step: Step) => step.RunCount? || step.InlineCount?)
      && g.taskCounter == Count(steps, (step: Step) => step.Label?)
  {
    hide Apply, Enabled;
    if steps != [] {
      var n := |steps| - 1;
      StatsCountSteps(limit, workers, callers, steps[..n]);
      CountersMove(limit, After(limit, Init(workers, callers), steps[..n]).value, steps[n]);
    }
  }

  // ----- the high-water mark -----

  /** The i-th step is a slot check that finds k futures pending. */
  ghost predicate Sees(limit: int, start: State, steps: seq<Step>, i: nat, k: nat)
  {
    && i < |steps| && steps[i].Poll? && After(limit, start, steps[..i]).Some?
    && |After(limit, start, steps[..i]).value.shared.pending| == k
  }

  lemma MarkMoves(limit: int, s: State, step: Step)
    requires Enabled(s, step)
    ensures var (before, after) := (s.shared.stats.maxInflight, Apply(limit, s, step).shared.stats.maxInflight);
      if step.Poll? then after >= before && after >= |s.shared.pending| && after in {before, |s.shared.pending|}
      else after == before
  {
    hide Busy;
  }

  lemma SeenInPrefix(limit: int, start: State, steps: seq<Step>, i: nat, k: nat)
    requires steps != []
    ensures Sees(limit, start, steps, i, k) && i < |steps| - 1 <==> Sees(limit, start, steps[..|steps| - 1], i, k)
  {
    if i < |steps| - 1 {
      assert steps[..|steps| - 1][..i] == steps[..i];
    }
  }

  /** The high-water mark is the largest number of pending futures that any slot check of the run has seen. */
  lemma {:induction false} HighWaterMark(limit: int, workers: nat, callers: set<Caller>, steps: seq<Step>)
    requires After(limit, Init(workers, callers), steps).Some?
    ensures var start := Init(workers, callers);
      var mark := After(limit, start, steps).value.shared.stats.maxInflight;
      && (forall i: nat, k: nat :: Sees(limit, start, steps, i, k) ==> k <= mark)
      && (mark > 0 ==> exists i: nat :: Sees(limit, start, steps, i, mark))
  {
    hide Apply, Enabled, Sees;
    var start := Init(workers, callers);
    if steps == [] {
      forall i: nat, k: nat
        ensures !Sees(limit, start, steps, i, k)
      {
        NothingSeen(limit, start, i, k);
      }
    } else {
      var n := |steps| - 1;
      var s := After(limit, start, steps[..n]).value;
      HighWaterMark(limit, workers, callers, steps[..n]);
      MarkMoves(limit, s, steps[n]);
      forall i: nat, k: nat
        ensures Sees(limit, start, steps, i, k) <==>
          Sees(limit, start, steps[..n], i, k) || (i == n && steps[n].Poll? && k == |s.shared.pending|)
      {
        SeenInPrefix(limit, start, steps, i, k);
        LastSeen(limit, start, steps, i, k);
      }
      var mark := After(limit, start, steps).value.shared.stats.maxInflight;
      if mark > 0 && mark == s.shared.stats.maxInflight {
        var i: nat :| Sees(limit, start, steps[..n], i, mark);
        assert Sees(limit, start, steps, i, mark);
      } else if mark > 0 {
        assert Sees(limit, start, steps, n, mark);
      }
    }
  }

  lemma NothingSeen(limit: int, start: State, i: nat, k: nat)
    ensures !Sees(limit, start, [], i, k)
  {
  }

  lemma LastSeen(limit: int, start: State, steps: seq<Step>, i: nat, k: nat)
    requires steps != [] && After(limit, start, steps[..|steps| - 1]).Some?
    ensures i >= |steps| - 1 ==> (Sees(limit, start, steps, i, k) <==>
      i == |steps| - 1 && steps[i].Poll? && k == |After(limit, start, steps[..i]).value.shared.pending|)
    ensures i >= |steps| - 1 ==> !Sees(limit, start, steps[..|steps| - 1], i, k)
  {
  }

  // ----- the worker pool -----

  lemma BusyMoves(limit: int, s: State, step: Step)
    requires Enabled(s, step)
    ensures Apply(limit, s, step).workers == s.workers
    ensures Busy(Apply(limit, s, step).tasks) <= Busy(s.tasks) + if step.Start? then {step.f} else {}
  {
  }

  /** In no run are more tasks with workers than there are workers. */
  lemma {:induction false} PoolBound(limit: int, workers: nat, callers: set<Caller>, steps: seq<Step>)
    requires After(limit, Init(workers, callers), steps).Some?
    ensures var s := After(limit, Init(workers, callers), steps).value;
      s.workers == workers && |Busy(s.tasks)| <= workers
  {
    hide Apply, Busy;
    if steps == [] {
      NobodyBusy(workers, callers);
    } else {
      var n := |steps| - 1;
      var s := After(limit, Init(workers, callers), steps[..n]).value;
      PoolBound(limit, workers, callers, steps[..n]);
      BusyMoves(limit, s, steps[n]);
      var more := if steps[n].Start? then {steps[n].f} else {};
      Cardinality(Busy(Apply(limit, s, steps[n]).tasks), Busy(s.tasks) + more);
    }
  }

  lemma NobodyBusy(workers: nat, callers: set<Caller>)
    ensures Busy(Init(workers, callers).tasks) == {}
  {
  }

  /** The futures of the submitting steps, and of the starting steps, in order. */
  ghost function Submissions(steps: seq<Step>): seq<Future>
  {
    if steps == [] then [] else
      var last := steps[|steps| - 1];
      Submissions(steps[..|steps| - 1]) + if last.Submit? then [last.f] else []
  }

  ghost function Starts(steps: seq<Step>): seq<Future>
  {
    if steps == [] then [] else
      var last := steps[|steps| - 1];
      Starts(steps[..|steps| - 1]) + if last.Start? then [last.f] else []
  }

  lemma QueueMoves(limit: int, s: State, step: Step)
    requires Enabled(s, step)
    ensures (if step.Start? then [step.f] else []) + Apply(limit, s, step).queue ==
      s.queue + if step.Submit? then [step.f] else []
  {
    hide Busy;
  }

  /** Tasks start in the order of their submission, and the queue holds those that have not started. */
  lemma {:induction false} FirstInFirstOut(limit: int, workers: nat, callers: set<Caller>, steps: seq<Step>)
    requires After(limit, Init(workers, callers), steps).Some?
    ensures Starts(steps) + After(limit, Init(workers, callers), steps).value.queue == Submissions(steps)
  {
    hide Apply, Enabled;
    if steps != [] {
      var n := |steps| - 1;
      FirstInFirstOut(limit, workers, callers, steps[..n]);
      var s := After(limit, Init(workers, callers), steps[..n]).value;
      var t := Apply(limit, s, steps[n]);
      QueueMoves(limit, s, steps[n]);
      var started := if steps[n].Start? then [steps[n].f] else [];
      assert Starts(steps) + t.queue == Starts(steps[..n]) + (started + t.queue);
    }
  }
}
