/** Exactly when the background offload can never admit another task. */
module OffloadProgress {
  import opened Wrappers
  import opened OffloadState
  import opened OffloadProtocol
  import opened OffloadTheorems

  /** The call will add its future too late: the task ended before the registration, or the callback has run. */
  predicate Doomed(s: State, c: Caller)
  {
    && c in s.callers && BeforeAdd(s.callers[c]) && s.callers[c].f in s.tasks
    && var t := s.tasks[s.callers[c].f];
       if s.callers[c].Hooked? then t.callback.RanDiscard? || t.callback.RanCount? else t.work.Done?
  }

  ghost predicate AllDoomed(s: State)
  {
    forall c :: c in s.callers ==> Doomed(s, c)
  }

  /** The leaked futures fill the slots, or will when the first call goes on. */
  ghost predicate Starves(limit: int, s: State)
  {
    |s.log.late| + (if AllDoomed(s) then 1 else 0) >= limit
  }

  /** In no continuation does a slot check succeed. */
  ghost predicate NoCheckSucceeds(limit: int, s: State)
  {
    forall more, c ::
      After(limit, s, more).Some? && Enabled(After(limit, s, more).value, Poll(c)) ==>
        !HasSlot(limit, After(limit, s, more).value.shared)
  }

  // ----- starvation is for good -----

  lemma LateGrows(limit: int, s: State, step: Step)
    requires Enabled(s, step)
    ensures |s.log.late| <= |Apply(limit, s, step).log.late|
  {
    hide Apply, Enabled;
    LateStays(limit, s, step);
    Cardinality(s.log.late, Apply(limit, s, step).log.late);
  }

  lemma DoomedTrackLeaks(limit: int, s: State, c: Caller)
    requires Owned(s) && PendingExact(s) && Doomed(s, c) && Enabled(s, Track(c))
    ensures |Apply(limit, s, Track(c)).log.late| == |s.log.late| + 1
  {
  }

  /** A doomed call stays doomed whatever the workers and the other calls do. */
  lemma WorkerKeepsDoom(limit: int, s: State, step: Step, c: Caller)
    requires Owned(s) && Doomed(s, c) && Enabled(s, step) && OfWorker(step)
    ensures Doomed(Apply(limit, s, step), c)
  {
    hide Busy;
  }

  lemma CallerKeepsDoom(limit: int, s: State, step: Step, c: Caller)
    requires !OfWorker(step) && !step.Track? && Enabled(s, step) && Owned(s) && Doomed(s, c) && Doomed(s, step.c)
    ensures Doomed(Apply(limit, s, step), c)
  {
    hide Busy;
  }

  lemma StepKeepsStarving(limit: int, s: State, step: Step)
    requires Owned(s) && PendingExact(s) && Starves(limit, s) && Enabled(s, step)
    ensures Starves(limit, Apply(limit, s, step))
  {
    hide Apply, Enabled, Owned, PendingExact, Doomed;
    var t := Apply(limit, s, step);
    LateGrows(limit, s, step);
    if |s.log.late| < limit {
      SameKeys(limit, s, step);
      if step.Track? {
        assert Doomed(s, step.c) by { StepOfCaller(s, step); }
        DoomedTrackLeaks(limit, s, step.c);
      } else {
        forall c | c in t.callers
          ensures Doomed(t, c)
        {
          if OfWorker(step) {
            WorkerKeepsDoom(limit, s, step, c);
          } else {
            StepOfCaller(s, step);
            CallerKeepsDoom(limit, s, step, c);
          }
        }
      }
    }
  }

  lemma StepOfCaller(s: State, step: Step)
    requires Enabled(s, step) && !OfWorker(step)
    ensures step.c in s.callers
  {
  }

  lemma SameKeys(limit: int, s: State, step: Step)
    requires Enabled(s, step)
    ensures Apply(limit, s, step).callers.Keys == s.callers.Keys
    ensures Apply(limit, s, step).workers == s.workers
  {
    hide Busy;
  }

  lemma {:induction false} RunKeepsStarving(limit: int, s: State, more: seq<Step>)
    requires Inv(limit, s) && Starves(limit, s) && After(limit, s, more).Some?
    ensures Inv(limit, After(limit, s, more).value) && Starves(limit, After(limit, s, more).value)
  {
    hide Inv, Starves, Apply, Enabled;
    RunKeepsInv(limit, s, more);
    if more != [] {
      var n := |more| - 1;
      RunKeepsStarving(limit, s, more[..n]);
      InvParts(limit, After(limit, s, more[..n]).value);
      StepKeepsStarving(limit, After(limit, s, more[..n]).value, more[n]);
    }
  }

  lemma InvParts(limit: int, s: State)
    requires Inv(limit, s)
    ensures Owned(s) && PendingExact(s) && Workable(s)
  {
    hide Owned, PendingExact, Workable, SlotsBounded, Accounted;
  }

  lemma StarvedCheckFails(limit: int, s: State, c: Caller)
    requires PendingExact(s) && Starves(limit, s) && Enabled(s, Poll(c))
    ensures !HasSlot(limit, s.shared)
  {
    assert !Doomed(s, c);
    Cardinality(s.log.late, s.shared.pending);
  }

  // ----- otherwise some continuation admits -----

  /** A future that can still be added before its discard. */
  predicate Loose(s: State, c: Caller)
  {
    c in s.callers && BeforeAdd(s.callers[c]) && !Doomed(s, c)
  }

  function AllLoose(s: State): set<Caller>
  {
    set c | c in s.callers && Loose(s, c)
  }

  /** Adding one such future leaks nothing and dooms nobody. */
  lemma AddLoose(limit: int, s: State, steps: seq<Step>, t: State, c: Caller) returns (more: seq<Step>, u: State)
    requires After(limit, s, steps) == Some(t) && Owned(t) && Loose(t, c)
    ensures After(limit, s, more) == Some(u)
    ensures u.log.late == t.log.late && u.workers == t.workers
    ensures u.callers == t.callers[c := Tracked(t.callers[c].f)]
    ensures t.callers[c].f in t.tasks
    ensures u.tasks == t.tasks[t.callers[c].f := t.tasks[t.callers[c].f].(callback := Registered)]
  {
    hide After, Busy;
    more, u := steps, t;
    if t.callers[c].Submitted? {
      more, u := Extend(limit, s, more, u, Register(c));
    }
    more, u := Extend(limit, s, more, u, Track(c));
  }

  lemma AddLooseKeepsOthers(t: State, u: State, c: Caller)
    requires Owned(t) && Loose(t, c) && t.callers[c].f in t.tasks
    requires u.callers == t.callers[c := Tracked(t.callers[c].f)]
    requires u.tasks == t.tasks[t.callers[c].f := t.tasks[t.callers[c].f].(callback := Registered)]
    ensures forall d :: d in t.callers && d != c ==> u.callers[d] == t.callers[d] && (Doomed(u, d) <==> Doomed(t, d))
    ensures !Doomed(u, c) && AllLoose(u) == AllLoose(t) - {c}
  {
  }

  /** All futures that can be added before their discard are added. */
  lemma {:induction false} Settle(limit: int, s: State, steps: seq<Step>, t: State) returns (more: seq<Step>, u: State)
    requires Inv(limit, s) && After(limit, s, steps) == Some(t)
    ensures After(limit, s, more) == Some(u)
    ensures u.log.late == t.log.late && u.workers == t.workers && AllLoose(u) == {}
    ensures u.callers.Keys == t.callers.Keys && forall c :: c in t.callers && !Doomed(t, c) ==> !Doomed(u, c)
    decreases |AllLoose(t)|
  {
    hide After, Inv, Doomed, Owned, Loose;
    more, u := steps, t;
    if c :| c in AllLoose(t) {
      RunKeepsInv(limit, s, steps);
      InvParts(limit, t);
      more, u := AddLoose(limit, s, steps, t, c);
      AddLooseKeepsOthers(t, u, c);
      var v := u;
      assert v.callers.Keys == t.callers.Keys;
      more, u := Settle(limit, s, more, v);
    }
  }

  // ----- the workers can then finish everything -----

  function Working(tasks: map<Future, Task>): set<Future>
  {
    set f | f in tasks && (tasks[f].work.Running? || tasks[f].work.Raised?)
  }

  function Ended(tasks: map<Future, Task>, callback: Callback): set<Future>
  {
    set f | f in tasks && tasks[f] == Task(Done, callback)
  }

  /** One step of a worker, in the order of the queue and within the number of workers. */
  lemma WorkerStep(limit: int, t: State) returns (step: Step)
    requires Workable(t) && t.workers > 0 && (Busy(t.tasks) != {} || t.queue != [])
    ensures OfWorker(step) && Enabled(t, step)
    ensures var u := Apply(limit, t, step);
      && u.callers == t.callers && u.log.late == t.log.late && u.workers == t.workers
      && |u.queue| <= |t.queue|
      && (|u.queue| < |t.queue|
          || |Working(u.tasks)| < |Working(t.tasks)|
          || (|Working(u.tasks)| == |Working(t.tasks)| && |Ended(u.tasks, Registered)| < |Ended(t.tasks, Registered)|)
          || (|Working(u.tasks)| == |Working(t.tasks)| && |Ended(u.tasks, Registered)| == |Ended(t.tasks, Registered)|
              && |Ended(u.tasks, RanDiscard)| < |Ended(t.tasks, RanDiscard)|))
  {
    if f :| f in Busy(t.tasks) {
      step := OfBusy(t, f);
      BusyStepCounts(limit, t, step);
    } else {
      step := Start(t.queue[0]);
    }
  }

  lemma OfBusy(t: State, f: Future) returns (step: Step)
    requires f in t.tasks && OnWorker(t.tasks[f])
    ensures Enabled(t, step) && (step == Finish(f) || step == RunDiscard(f) || step == RunCount(f))
  {
    if !t.tasks[f].work.Done? {
      step := Finish(f);
    } else if t.tasks[f].callback.Registered? {
      step := RunDiscard(f);
    } else {
      step := RunCount(f);
    }
  }

  lemma FinishCounts(tasks: map<Future, Task>, f: Future)
    requires f in Working(tasks)
    ensures |Working(tasks[f := tasks[f].(work := Done)])| < |Working(tasks)|
  {
    assert Working(tasks[f := tasks[f].(work := Done)]) == Working(tasks) - {f};
  }

  lemma DiscardCounts(tasks: map<Future, Task>, f: Future)
    requires f in Ended(tasks, Registered)
    ensures var after := tasks[f := tasks[f].(callback := RanDiscard)];
      |Working(after)| == |Working(tasks)| && |Ended(after, Registered)| < |Ended(tasks, Registered)|
  {
    var after := tasks[f := tasks[f].(callback := RanDiscard)];
    assert Working(after) == Working(tasks);
    assert Ended(after, Registered) == Ended(tasks, Registered) - {f};
  }

  lemma CountCounts(tasks: map<Future, Task>, f: Future)
    requires f in Ended(tasks, RanDiscard)
    ensures var after := tasks[f := tasks[f].(callback := RanCount)];
      && |Working(after)| == |Working(tasks)| && |Ended(after, Registered)| == |Ended(tasks, Registered)|
      && |Ended(after, RanDiscard)| < |Ended(tasks, RanDiscard)|
  {
    var after := tasks[f := tasks[f].(callback := RanCount)];
    assert Working(after) == Working(tasks);
    assert Ended(after, Registered) == Ended(tasks, Registered);
    assert Ended(after, RanDiscard) == Ended(tasks, RanDiscard) - {f};
  }

  lemma BusyStepCounts(limit: int, t: State, step: Step)
    requires Enabled(t, step) && (step.Finish? || step.RunDiscard? || step.RunCount?)
    ensures var u := Apply(limit, t, step);
      && u.callers == t.callers && u.log.late == t.log.late && u.workers == t.workers && u.queue == t.queue
      && (step.Finish? ==> |Working(u.tasks)| < |Working(t.tasks)|)
      && (step.RunDiscard? ==> |Working(u.tasks)| == |Working(t.tasks)|)
      && (step.RunDiscard? ==> |Ended(u.tasks, Registered)| < |Ended(t.tasks, Registered)|)
      && (step.RunCount? ==> |Working(u.tasks)| == |Working(t.tasks)|
                             && |Ended(u.tasks, Registered)| == |Ended(t.tasks, Registered)|
                             && |Ended(u.tasks, RanDiscard)| < |Ended(t.tasks, RanDiscard)|)
  {
    hide Busy;
    match step {
      case Finish(f) => FinishCounts(t.tasks, f);
      case RunDiscard(f) => DiscardCounts(t.tasks, f);
      case RunCount(f) => CountCounts(t.tasks, f);
    }
  }

  lemma {:induction false} Work(limit: int, s: State, steps: seq<Step>, t: State) returns (more: seq<Step>, u: State)
    requires Inv(limit, s) && After(limit, s, steps) == Some(t) && t.workers > 0
    ensures After(limit, s, more) == Some(u)
    ensures u.callers == t.callers && u.log.late == t.log.late && Busy(u.tasks) == {} && u.queue == []
    decreases |t.queue|, |Working(t.tasks)|, |Ended(t.tasks, Registered)|, |Ended(t.tasks, RanDiscard)|
  {
    hide After, Inv, Busy, Working, Ended, Workable, Apply, Enabled;
    more, u := steps, t;
    if Busy(t.tasks) != {} || t.queue != [] {
      RunKeepsInv(limit, s, steps);
      InvParts(limit, t);
      var step := WorkerStep(limit, t);
      var v;
      more, v := Extend(limit, s, steps, t, step);
      more, u := Work(limit, s, more, v);
    }
  }

  /** Then only the leaked futures are pending. */
  lemma OnlyLeaksPending(s: State)
    requires PendingExact(s) && Workable(s) && Busy(s.tasks) == {} && s.queue == []
    ensures s.shared.pending <= s.log.late
  {
    forall f | f in s.shared.pending
      ensures f in s.log.late
    {
      assert f !in Busy(s.tasks) && f !in s.queue;
    }
  }

  /** A call that holds no future before its add can come to its next slot check. */
  lemma ToWaiting(limit: int, s: State, steps: seq<Step>, t: State, c: Caller) returns (more: seq<Step>, u: State)
    requires After(limit, s, steps) == Some(t) && c in t.callers && !BeforeAdd(t.callers[c])
    ensures After(limit, s, more) == Some(u)
    ensures At(u, c, Waiting) && u.log.late == t.log.late && u.shared.pending == t.shared.pending
  {
    hide After, Busy;
    match t.callers[c] {
      case Waiting => more, u := steps, t;
      case Idle => more, u := Extend(limit, s, steps, t, Call(c));
      case Full => more, u := Extend(limit, s, steps, t, Retry(c));
      case Admitted =>
        more, u := Extend(limit, s, steps, t, SubmitFails(c));
        more, u := Extend(limit, s, more, u, Call(c));
      case Tracked(f) =>
        more, u := Extend(limit, s, steps, t, Label(c));
        more, u := Extend(limit, s, more, u, Return(c));
        more, u := Extend(limit, s, more, u, Call(c));
      case Labelled(f) =>
        more, u := Extend(limit, s, steps, t, Return(c));
        more, u := Extend(limit, s, more, u, Call(c));
    }
  }

  /** A doomed call comes to its add with the callback already run. */
  lemma RunInline(limit: int, s: State, c: Caller) returns (more: seq<Step>, u: State)
    requires Owned(s) && Doomed(s, c)
    ensures After(limit, s, more) == Some(u)
    ensures u.callers == s.callers[c := Hooked(s.callers[c].f)] && u.log == s.log
    ensures s.callers[c].f in u.tasks && !u.tasks[s.callers[c].f].callback.Registered?
  {
    NoStepsYet(limit, s);
    hide After, Busy;
    more, u := [], s;
    if u.callers[c].Submitted? {
      more, u := Extend(limit, s, more, u, Register(c));
    }
    if u.callers[c].Inline? {
      more, u := Extend(limit, s, more, u, InlineDiscard(c));
    }
    if u.callers[c].InlineDiscarded? {
      more, u := Extend(limit, s, more, u, InlineCount(c));
    }
    assert u.callers == s.callers[c := Hooked(s.callers[c].f)];
  }

  /** A doomed call goes on: its future leaks and it is free. */
  lemma GoOn(limit: int, s: State, c: Caller) returns (more: seq<Step>, u: State)
    requires Owned(s) && PendingExact(s) && Doomed(s, c)
    ensures After(limit, s, more) == Some(u)
    ensures c in u.callers && !Doomed(u, c) && |u.log.late| == |s.log.late| + 1
  {
    hide After, Busy;
    var f := s.callers[c].f;
    assert f !in s.log.late;
    more, u := RunInline(limit, s, c);
    hide Owned, PendingExact;
    more, u := Extend(limit, s, more, u, Track(c));
    assert u.log.late == s.log.late + {f};
  }

  /** Some call is not doomed, at the latest after one doomed call has gone on. */
  lemma FreeCall(limit: int, s: State) returns (more: seq<Step>, u: State, c: Caller)
    requires Owned(s) && PendingExact(s) && s.callers.Keys != {} && !Starves(limit, s)
    ensures After(limit, s, more) == Some(u)
    ensures c in u.callers && !Doomed(u, c) && |u.log.late| < limit
  {
    hide Owned, PendingExact, Doomed;
    more, u := [], s;
    if AllDoomed(s) {
      c :| c in s.callers.Keys;
      more, u := GoOn(limit, s, c);
    } else {
      c :| c in s.callers && !Doomed(s, c);
    }
  }

  lemma Recovers(limit: int, s: State) returns (more: seq<Step>, c: Caller)
    requires Inv(limit, s) && s.workers > 0 && s.callers.Keys != {} && !Starves(limit, s)
    ensures After(limit, s, more).Some?
    ensures Enabled(After(limit, s, more).value, Poll(c)) && HasSlot(limit, After(limit, s, more).value.shared)
  {
    hide After, Inv, Doomed, Starves, Owned, PendingExact, Workable, Busy;
    InvParts(limit, s);
    var t;
    more, t, c := FreeCall(limit, s);
    RunKeepsWorkers(limit, s, more);
    var u;
    more, u := Settle(limit, s, more, t);
    var v;
    more, v := Work(limit, s, more, u);
    assert !BeforeAdd(v.callers[c]) by {
      assert c !in AllLoose(u);
    }
    RunKeepsInv(limit, s, more);
    InvParts(limit, v);
    OnlyLeaksPending(v);
    var w;
    more, w := ToWaiting(limit, s, more, v, c);
    Cardinality(w.shared.pending, w.log.late);
  }

  lemma {:induction false} RunKeepsWorkers(limit: int, s: State, steps: seq<Step>)
    requires After(limit, s, steps).Some?
    ensures After(limit, s, steps).value.workers == s.workers
    ensures After(limit, s, steps).value.callers.Keys == s.callers.Keys
  {
    hide Apply, Enabled;
    if steps != [] {
      var n := |steps| - 1;
      RunKeepsWorkers(limit, s, steps[..n]);
      SameKeys(limit, After(limit, s, steps[..n]).value, steps[n]);
    }
  }

  lemma InitKeys(workers: nat, callers: set<Caller>)
    ensures Init(workers, callers).callers.Keys == callers && Init(workers, callers).workers == workers
  {
  }

  /** From every reachable state: no slot check can ever succeed again if and only if the state starves. */
  lemma StarvationIff(limit: int, workers: nat, callers: set<Caller>, steps: seq<Step>)
    requires workers > 0 && callers != {} && After(limit, Init(workers, callers), steps).Some?
    ensures NoCheckSucceeds(limit, After(limit, Init(workers, callers), steps).value) <==>
      Starves(limit, After(limit, Init(workers, callers), steps).value)
  {
    hide After, Inv, Starves, Init, Enabled;
    InitInv(limit, workers, callers);
    InitKeys(workers, callers);
    RunKeepsInv(limit, Init(workers, callers), steps);
    RunKeepsWorkers(limit, Init(workers, callers), steps);
    var s := After(limit, Init(workers, callers), steps).value;
    if Starves(limit, s) {
      forall more, c | After(limit, s, more).Some? && Enabled(After(limit, s, more).value, Poll(c))
        ensures !HasSlot(limit, After(limit, s, more).value.shared)
      {
        RunKeepsStarving(limit, s, more);
        InvParts(limit, After(limit, s, more).value);
        StarvedCheckFails(limit, After(limit, s, more).value, c);
      }
    } else {
      var more, c := Recovers(limit, s);
    }
  }

  /** At rest: exactly when the leaked futures are as many as the slots. */
  lemma RestStarvesIff(limit: int, workers: nat, callers: set<Caller>, steps: seq<Step>)
    requires workers > 0 && callers != {} && After(limit, Init(workers, callers), steps).Some?
    requires Quiescent(After(limit, Init(workers, callers), steps).value)
    ensures NoCheckSucceeds(limit, After(limit, Init(workers, callers), steps).value) <==>
      |After(limit, Init(workers, callers), steps).value.log.late| >= limit
  {
    hide After, Init, NoCheckSucceeds;
    StarvationIff(limit, workers, callers, steps);
    InitKeys(workers, callers);
    RunKeepsWorkers(limit, Init(workers, callers), steps);
    var s := After(limit, Init(workers, callers), steps).value;
    var c :| c in callers;
    assert c in s.callers.Keys && !Doomed(s, c);
  }

  /** The last slot can be lost before its future has leaked: one slot, one call whose task has already ended. */
  lemma StarvesBeforeTheLeak(workers: nat, c: Caller, f: Future) returns (steps: seq<Step>, s: State)
    requires workers > 0
    ensures After(1, Init(workers, {c}), steps) == Some(s)
    ensures At(s, c, Submitted(f)) && f in s.tasks && s.tasks[f] == Task(Done, Unregistered)
    ensures s.log.late == {} && Starves(1, s)
  {
    hide After;
    var start := Init(workers, {c});
    NoStepsYet(1, start);
    steps, s := SubmitFirst(1, start, [], start, c, f);
    steps, s := FinishQueued(1, start, steps, s, f);
  }

  lemma NoStepsYet(limit: int, s: State)
    ensures After(limit, s, []) == Some(s)
  {
  }
}
