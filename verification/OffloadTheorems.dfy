/** Safety of the background offload over every interleaving, and the futures it leaks. */
module OffloadTheorems {
  import opened Wrappers
  import opened OffloadState
  import opened OffloadProtocol

  predicate InSet(pc: Pc)
  {
    pc.Tracked? || pc.Labelled?
  }

  predicate IsLabelled(pc: Pc)
  {
    pc.Labelled?
  }

  /** The callback is still the submitter's business. */
  predicate Unhooked(pc: Pc)
  {
    pc.Submitted? || pc.Inline? || pc.InlineDiscarded?
  }

  /** Who owns which future, and how far it has come. */
  ghost predicate Owned(s: State)
  {
    && (forall c :: c in s.callers && HasFuture(s.callers[c]) ==> s.callers[c].f in s.tasks)
    && (forall c, d :: (&& c in s.callers && d in s.callers
                        && HasFuture(s.callers[c]) && HasFuture(s.callers[d])
                        && s.callers[c].f == s.callers[d].f) ==> c == d)
    && (forall c :: c in s.callers && BeforeAdd(s.callers[c]) ==>
          s.callers[c].f !in s.log.added
          && (s.tasks[s.callers[c].f].callback.Unregistered? <==> Unhooked(s.callers[c])))
    && (forall c :: c in s.callers && (s.callers[c].Inline? || s.callers[c].InlineDiscarded?) ==>
          s.tasks[s.callers[c].f].work.Done?)
    && (forall c :: c in s.callers && InSet(s.callers[c]) ==> s.callers[c].f in s.log.added)
  }

  /** The pending set holds the added futures whose discard is still to come, or came too early. */
  ghost predicate PendingExact(s: State)
  {
    && s.log.late <= s.log.added <= s.tasks.Keys
    && (forall f :: f in s.log.added ==> !s.tasks[f].callback.Unregistered?)
    && (forall f :: f in s.log.late ==> !s.tasks[f].callback.Registered?)
    && (forall f :: f in s.shared.pending <==>
          f in s.log.added && (s.tasks[f].callback.Registered? || f in s.log.late))
  }

  /** The queue holds the tasks no worker has taken; unregistered tasks have a submitter; callbacks follow the work. */
  ghost predicate Workable(s: State)
  {
    && (forall i, j :: 0 <= i < j < |s.queue| ==> s.queue[i] != s.queue[j])
    && (forall f :: f in s.queue <==> f in s.tasks && s.tasks[f].work.Queued?)
    && (forall f :: f in s.tasks && s.tasks[f].callback.RanDiscard? ==> s.tasks[f].work.Done?)
    && (forall f :: f in s.tasks && s.tasks[f].callback.RanCount? ==> s.tasks[f].work.Done?)
    && (forall f :: f in s.tasks && s.tasks[f].callback.Unregistered? ==> HasSubmitter(s, f))
  }

  ghost predicate HasSubmitter(s: State, f: Future)
  {
    exists c :: c in s.callers && Unhooked(s.callers[c]) && s.callers[c].f == f
  }

  function CountedTasks(tasks: map<Future, Task>): set<Future>
  {
    set f | f in tasks && tasks[f].callback.RanCount?
  }

  ghost predicate Accounted(s: State)
  {
    var stats := s.shared.stats;
    && s.log.returned == stats.submitted + stats.rejected + s.log.submitFailures
    && stats.errors == s.log.submitFailures + s.log.taskErrors
    && |s.tasks| == stats.submitted + |Those(s.callers, HasFuture)|
    && |s.log.added| == stats.submitted + |Those(s.callers, InSet)|
    && s.shared.taskCounter == stats.submitted + |Those(s.callers, IsLabelled)|
    && stats.completed == |CountedTasks(s.tasks)|
  }

  ghost predicate Inv(limit: int, s: State)
  {
    SlotsBounded(limit, s) && Owned(s) && PendingExact(s) && Workable(s) && Accounted(s)
  }

  /** A caller that gives up its future, or keeps it without touching the set, disturbs nobody. */
  lemma CallerMoves(s: State, t: State, c: Caller)
    requires Owned(s) && c in s.callers && c in t.callers
    requires t.callers == s.callers[c := t.callers[c]] && t.tasks == s.tasks && t.log.added == s.log.added
    requires HasFuture(t.callers[c]) ==>
      InSet(s.callers[c]) && InSet(t.callers[c]) && t.callers[c].f == s.callers[c].f
    ensures Owned(t)
  {
  }

  lemma TaskMoves(s: State, t: State, f: Future)
    requires Owned(s) && f in s.tasks && f in t.tasks
    requires t.callers == s.callers && t.log.added == s.log.added
    requires t.tasks == s.tasks[f := t.tasks[f]]
    requires t.tasks[f].callback.Unregistered? <==> s.tasks[f].callback.Unregistered?
    requires s.tasks[f].work.Done? ==> t.tasks[f].work.Done?
    ensures Owned(t)
  {
  }

  lemma SubmitKeepsOwned(limit: int, s: State, c: Caller, f: Future)
    requires Owned(s) && PendingExact(s) && Enabled(s, Submit(c, f))
    ensures Owned(Apply(limit, s, Submit(c, f)))
  {
  }

  lemma RegisterKeepsOwned(limit: int, s: State, c: Caller)
    requires Owned(s) && Enabled(s, Register(c))
    ensures Owned(Apply(limit, s, Register(c)))
  {
  }

  lemma InlineKeepsOwned(limit: int, s: State, step: Step)
    requires Owned(s) && Enabled(s, step) && (step.InlineDiscard? || step.InlineCount?)
    ensures Owned(Apply(limit, s, step))
  {
  }

  lemma TrackKeepsOwned(limit: int, s: State, c: Caller)
    requires Owned(s) && Enabled(s, Track(c))
    ensures Owned(Apply(limit, s, Track(c)))
  {
  }

  lemma StepKeepsOwned(limit: int, s: State, step: Step)
    requires Owned(s) && PendingExact(s) && Enabled(s, step)
    ensures Owned(Apply(limit, s, step))
  {
    hide Owned, PendingExact, Busy;
    match step {
      case Submit(c, f) => SubmitKeepsOwned(limit, s, c, f);
      case Register(c) => RegisterKeepsOwned(limit, s, c);
      case InlineDiscard(c) => InlineKeepsOwned(limit, s, step);
      case InlineCount(c) => InlineKeepsOwned(limit, s, step);
      case Track(c) => TrackKeepsOwned(limit, s, c);
      case Start(f) => TaskMoves(s, Apply(limit, s, step), f);
      case Raise(f) => TaskMoves(s, Apply(limit, s, step), f);
      case Finish(f) => TaskMoves(s, Apply(limit, s, step), f);
      case RunDiscard(f) => TaskMoves(s, Apply(limit, s, step), f);
      case RunCount(f) => TaskMoves(s, Apply(limit, s, step), f);
      case _ => CallerMoves(s, Apply(limit, s, step), step.c);
    }
  }

  lemma CallerStepKeepsPending(limit: int, s: State, step: Step)
    requires Owned(s) && PendingExact(s) && Enabled(s, step) && !OfWorker(step)
    ensures PendingExact(Apply(limit, s, step))
  {
  }

  lemma WorkerStepKeepsPending(limit: int, s: State, step: Step)
    requires PendingExact(s) && Enabled(s, step) && OfWorker(step)
    ensures PendingExact(Apply(limit, s, step))
  {
    hide Busy;
  }

  lemma StepKeepsPending(limit: int, s: State, step: Step)
    requires Owned(s) && PendingExact(s) && Enabled(s, step)
    ensures PendingExact(Apply(limit, s, step))
  {
    hide Owned, PendingExact, Apply, Enabled;
    if OfWorker(step) {
      WorkerStepKeepsPending(limit, s, step);
    } else {
      CallerStepKeepsPending(limit, s, step);
    }
  }

  // ----- the queue -----

  lemma SubmittersStay(s: State, t: State, c: Caller)
    requires Workable(s) && c in s.callers && c in t.callers && t.callers == s.callers[c := t.callers[c]]
    requires t.queue == s.queue && t.tasks == s.tasks
    requires Unhooked(s.callers[c]) ==> Unhooked(t.callers[c]) && t.callers[c].f == s.callers[c].f
    ensures Workable(t)
  {
    forall f | f in t.tasks && t.tasks[f].callback.Unregistered?
      ensures HasSubmitter(t, f)
    {
      var d :| d in s.callers && Unhooked(s.callers[d]) && s.callers[d].f == f;
      assert d in t.callers && Unhooked(t.callers[d]) && t.callers[d].f == f;
    }
  }

  lemma SubmitKeepsWorkable(limit: int, s: State, c: Caller, f: Future)
    requires Workable(s) && Enabled(s, Submit(c, f))
    ensures Workable(Apply(limit, s, Submit(c, f)))
  {
    var t := Apply(limit, s, Submit(c, f));
    forall g | g in t.tasks && t.tasks[g].callback.Unregistered?
      ensures HasSubmitter(t, g)
    {
      if g == f {
        assert t.callers[c] == Submitted(f);
      } else {
        var d :| d in s.callers && Unhooked(s.callers[d]) && s.callers[d].f == g;
        assert d in t.callers && Unhooked(t.callers[d]) && t.callers[d].f == g;
      }
    }
  }

  /** The callback of the caller's own future is no longer unregistered. */
  lemma HookKeepsWorkable(limit: int, s: State, step: Step)
    requires Owned(s) && Workable(s) && Enabled(s, step)
    requires (step.Register? && !s.tasks[s.callers[step.c].f].work.Done?) || step.InlineCount?
    ensures Workable(Apply(limit, s, step))
  {
    var t, c := Apply(limit, s, step), step.c;
    forall f | f in t.tasks && t.tasks[f].callback.Unregistered?
      ensures HasSubmitter(t, f)
    {
      var d :| d in s.callers && Unhooked(s.callers[d]) && s.callers[d].f == f;
      assert d != c;
      assert d in t.callers && Unhooked(t.callers[d]) && t.callers[d].f == f;
    }
  }

  lemma StartKeepsWorkable(limit: int, s: State, f: Future)
    requires Workable(s) && Enabled(s, Start(f))
    ensures Workable(Apply(limit, s, Start(f)))
  {
    hide Busy;
    var t := Apply(limit, s, Start(f));
    assert s.queue == [f] + t.queue;
    forall g | g in t.tasks && t.tasks[g].callback.Unregistered?
      ensures HasSubmitter(t, g)
    {
      assert HasSubmitter(s, g);
    }
  }

  lemma WorkerKeepsWorkable(limit: int, s: State, step: Step)
    requires Workable(s) && Enabled(s, step) && OfWorker(step) && !step.Start?
    ensures Workable(Apply(limit, s, step))
  {
    hide Busy;
    var t := Apply(limit, s, step);
    assert t.queue == s.queue && t.callers == s.callers;
    forall f | f in t.tasks && t.tasks[f].callback.Unregistered?
      ensures HasSubmitter(t, f)
    {
      assert HasSubmitter(s, f);
    }
  }

  lemma StepKeepsWorkable(limit: int, s: State, step: Step)
    requires Owned(s) && Workable(s) && Enabled(s, step)
    ensures Workable(Apply(limit, s, step))
  {
    hide Owned, Workable, Busy;
    match step {
      case Submit(c, f) => SubmitKeepsWorkable(limit, s, c, f);
      case InlineCount(c) => HookKeepsWorkable(limit, s, step);
      case Register(c) =>
        if s.tasks[s.callers[c].f].work.Done? {
          SubmittersStay(s, Apply(limit, s, step), c);
        } else {
          HookKeepsWorkable(limit, s, step);
        }
      case Start(f) => StartKeepsWorkable(limit, s, f);
      case Raise(f) => WorkerKeepsWorkable(limit, s, step);
      case Finish(f) => WorkerKeepsWorkable(limit, s, step);
      case RunDiscard(f) => WorkerKeepsWorkable(limit, s, step);
      case RunCount(f) => WorkerKeepsWorkable(limit, s, step);
      case _ => SubmittersStay(s, Apply(limit, s, step), step.c);
    }
  }

  // ----- the accounts -----

  lemma TaskUpdated(tasks: map<Future, Task>, f: Future, t: Task)
    requires f in tasks && !tasks[f].callback.RanCount?
    ensures |tasks[f := t]| == |tasks|
    ensures |CountedTasks(tasks[f := t])| == |CountedTasks(tasks)| + if t.callback.RanCount? then 1 else 0
  {
    assert tasks[f := t].Keys == tasks.Keys;
    assert CountedTasks(tasks[f := t]) == CountedTasks(tasks) + if t.callback.RanCount? then {f} else {};
  }

  lemma TaskWorked(tasks: map<Future, Task>, f: Future, t: Task)
    requires f in tasks && t.callback == tasks[f].callback
    ensures |tasks[f := t]| == |tasks|
    ensures CountedTasks(tasks[f := t]) == CountedTasks(tasks)
  {
    assert tasks[f := t].Keys == tasks.Keys;
  }

  lemma SubmitKeepsAccounts(limit: int, s: State, c: Caller, f: Future)
    requires Accounted(s) && Enabled(s, Submit(c, f))
    ensures Accounted(Apply(limit, s, Submit(c, f)))
  {
    hide Those;
    var t := Apply(limit, s, Submit(c, f));
    ThoseUpdated(s.callers, HasFuture, c, t.callers[c]);
    ThoseUpdated(s.callers, InSet, c, t.callers[c]);
    ThoseUpdated(s.callers, IsLabelled, c, t.callers[c]);
    assert t.tasks.Keys == s.tasks.Keys + {f};
    assert CountedTasks(t.tasks) == CountedTasks(s.tasks);
  }

  lemma RegisterKeepsAccounts(limit: int, s: State, step: Step)
    requires Owned(s) && Accounted(s) && Enabled(s, step) && (step.Register? || step.InlineCount?)
    ensures Accounted(Apply(limit, s, step))
  {
    hide Those, CountedTasks, Busy;
    var t, c := Apply(limit, s, step), step.c;
    ThoseUpdated(s.callers, HasFuture, c, t.callers[c]);
    ThoseUpdated(s.callers, InSet, c, t.callers[c]);
    ThoseUpdated(s.callers, IsLabelled, c, t.callers[c]);
    if t.tasks != s.tasks {
      TaskUpdated(s.tasks, s.callers[c].f, t.tasks[s.callers[c].f]);
    }
  }

  lemma CallerStepKeepsAccounts(limit: int, s: State, step: Step)
    requires Owned(s) && Accounted(s) && Enabled(s, step) && !OfWorker(step)
    ensures Accounted(Apply(limit, s, step))
  {
    hide Those, CountedTasks, Busy;
    if step.Submit? {
      SubmitKeepsAccounts(limit, s, step.c, step.f);
    } else if step.Register? || step.InlineCount? {
      RegisterKeepsAccounts(limit, s, step);
    } else {
      var t, c := Apply(limit, s, step), step.c;
      ThoseUpdated(s.callers, HasFuture, c, t.callers[c]);
      ThoseUpdated(s.callers, InSet, c, t.callers[c]);
      ThoseUpdated(s.callers, IsLabelled, c, t.callers[c]);
    }
  }

  lemma StepKeepsAccounts(limit: int, s: State, step: Step)
    requires Owned(s) && Accounted(s) && Enabled(s, step)
    ensures Accounted(Apply(limit, s, step))
  {
    hide Busy, CountedTasks, Those, Owned;
    if step.Start? || step.Raise? || step.Finish? {
      TaskWorked(s.tasks, step.f, Apply(limit, s, step).tasks[step.f]);
    } else if step.RunDiscard? || step.RunCount? {
      TaskUpdated(s.tasks, step.f, Apply(limit, s, step).tasks[step.f]);
    } else {
      CallerStepKeepsAccounts(limit, s, step);
    }
  }

  lemma InitInv(limit: int, workers: nat, callers: set<Caller>)
    requires callers != {}
    ensures Inv(limit, Init(workers, callers)) && |Init(workers, callers).callers| == |callers|
  {
    var s := Init(workers, callers);
    assert s.callers.Keys == callers;
    assert Those(s.callers, Holding) == Those(s.callers, HasFuture) == {};
    assert Those(s.callers, InSet) == Those(s.callers, IsLabelled) == {};
  }

  /** Every run from a state that satisfies the invariant ends in one that does. */
  lemma {:induction false} RunKeepsInv(limit: int, s: State, steps: seq<Step>)
    requires Inv(limit, s) && After(limit, s, steps).Some?
    ensures Inv(limit, After(limit, s, steps).value)
    ensures |After(limit, s, steps).value.callers| == |s.callers|
    ensures s.log.late <= After(limit, s, steps).value.log.late
  {
    hide Apply, Enabled, SlotsBounded, Owned, PendingExact, Workable, Accounted;
    if steps != [] {
      var n := |steps| - 1;
      RunKeepsInv(limit, s, steps[..n]);
      var t := After(limit, s, steps[..n]).value;
      StepKeepsSlots(limit, t, steps[n]);
      StepKeepsOwned(limit, t, steps[n]);
      StepKeepsPending(limit, t, steps[n]);
      StepKeepsWorkable(limit, t, steps[n]);
      StepKeepsAccounts(limit, t, steps[n]);
      LateStays(limit, t, steps[n]);
    }
  }

  lemma LateStays(limit: int, s: State, step: Step)
    requires Enabled(s, step)
    ensures s.log.late <= Apply(limit, s, step).log.late
  {
    hide Busy;
  }

  // ----- the theorems -----

  /**
   In every interleaving of k submitters: tracked futures, plus calls that passed
   the slot check and have not added theirs, never exceed limit + k - 1. The
   high-water mark obeys the same bound.
   */
  lemma SlotBound(limit: int, workers: nat, callers: set<Caller>, steps: seq<Step>)
    requires callers != {} && After(limit, Init(workers, callers), steps).Some?
    ensures var s := After(limit, Init(workers, callers), steps).value;
      && |s.shared.pending| + |Those(s.callers, Holding)| <= (if limit <= 0 then 0 else limit + |callers| - 1)
      && s.shared.stats.maxInflight <= (if limit <= 0 then 0 else limit + |callers| - 1)
  {
    InitInv(limit, workers, callers);
    RunKeepsInv(limit, Init(workers, callers), steps);
  }

  /** One submitter alone respects the limit. */
  lemma OneSubmitterRespectsLimit(limit: nat, workers: nat, c: Caller, steps: seq<Step>)
    requires After(limit, Init(workers, {c}), steps).Some?
    ensures |After(limit, Init(workers, {c}), steps).value.shared.pending| <= limit
  {
    SlotBound(limit, workers, {c}, steps);
  }

  /** An added future whose callback has not discarded it is always in the pending set. */
  lemma NothingGoesMissing(limit: int, workers: nat, callers: set<Caller>, steps: seq<Step>, f: Future)
    requires callers != {} && After(limit, Init(workers, callers), steps).Some?
    requires var s := After(limit, Init(workers, callers), steps).value;
      f in s.log.added && f in s.tasks && s.tasks[f].callback.Registered?
    ensures f in After(limit, Init(workers, callers), steps).value.shared.pending
  {
    InitInv(limit, workers, callers);
    RunKeepsInv(limit, Init(workers, callers), steps);
  }

  ghost predicate Quiescent(s: State)
  {
    && (forall c :: c in s.callers ==> s.callers[c].Idle?)
    && (forall f :: f in s.tasks ==> s.tasks[f] == Task(Done, RanCount))
  }

  lemma SubsetOfSameSize<T>(a: set<T>, b: set<T>)
    requires a <= b && |a| == |b|
    ensures a == b
  {
    if x :| x in b && x !in a {
      Cardinality(a, b - {x});
    }
  }

  /**
   Once all calls have returned and all callbacks have run: every call was counted
   once, completed equals submitted, and what is left in the pending set is exactly
   the futures that were added after their own discard.
   */
  lemma AtQuiescence(limit: int, workers: nat, callers: set<Caller>, steps: seq<Step>)
    requires callers != {} && After(limit, Init(workers, callers), steps).Some?
    requires Quiescent(After(limit, Init(workers, callers), steps).value)
    ensures var s := After(limit, Init(workers, callers), steps).value;
      var stats := s.shared.stats;
      && s.log.returned == stats.submitted + stats.rejected + s.log.submitFailures
      && stats.errors == s.log.submitFailures + s.log.taskErrors
      && stats.completed == stats.submitted == s.shared.taskCounter == |s.tasks|
      && s.log.added == s.tasks.Keys
      && s.shared.pending == s.log.late
  {
    InitInv(limit, workers, callers);
    RunKeepsInv(limit, Init(workers, callers), steps);
    var s := After(limit, Init(workers, callers), steps).value;
    assert Those(s.callers, HasFuture) == Those(s.callers, InSet) == Those(s.callers, IsLabelled) == {};
    assert CountedTasks(s.tasks) == s.tasks.Keys;
    SubsetOfSameSize(s.log.added, s.tasks.Keys);
  }

  /** A future added after its discard stays in the pending set for good. */
  lemma LeaksArePermanent(limit: int, workers: nat, callers: set<Caller>, steps: seq<Step>, more: seq<Step>, f: Future)
    requires callers != {} && After(limit, Init(workers, callers), steps).Some?
    requires var s := After(limit, Init(workers, callers), steps).value;
      f in s.log.late && After(limit, s, more).Some?
    ensures f in After(limit, After(limit, Init(workers, callers), steps).value, more).value.shared.pending
  {
    InitInv(limit, workers, callers);
    RunKeepsInv(limit, Init(workers, callers), steps);
    RunKeepsInv(limit, After(limit, Init(workers, callers), steps).value, more);
  }

  /** Once as many futures have leaked as there are slots, no slot check ever succeeds again. */
  lemma LeaksStarve(limit: int, workers: nat, callers: set<Caller>, steps: seq<Step>, more: seq<Step>, c: Caller)
    requires callers != {} && After(limit, Init(workers, callers), steps).Some?
    requires |After(limit, Init(workers, callers), steps).value.log.late| >= limit
    requires After(limit, After(limit, Init(workers, callers), steps).value, more).Some?
    requires Enabled(After(limit, After(limit, Init(workers, callers), steps).value, more).value, Poll(c))
    ensures var t := After(limit, After(limit, Init(workers, callers), steps).value, more).value;
      Apply(limit, t, Poll(c)).callers[c] == Full
  {
    InitInv(limit, workers, callers);
    RunKeepsInv(limit, Init(workers, callers), steps);
    var s := After(limit, Init(workers, callers), steps).value;
    RunKeepsInv(limit, s, more);
    var t := After(limit, s, more).value;
    Cardinality(s.log.late, t.shared.pending);
  }

  // ----- runs that show the bounds and the leak are real -----

  lemma Extend(limit: int, s: State, steps: seq<Step>, t: State, step: Step) returns (more: seq<Step>, u: State)
    requires After(limit, s, steps) == Some(t) && Enabled(t, step)
    ensures u == Apply(limit, t, step) && After(limit, s, more) == Some(u)
  {
    more, u := steps + [step], Apply(limit, t, step);
    assert more[..|more| - 1] == steps;
  }

  /** One whole call whose callback does not run before it returns. */
  lemma CompleteCall(limit: int, s: State, steps: seq<Step>, t: State, c: Caller, f: Future)
    returns (more: seq<Step>, u: State)
    requires After(limit, s, steps) == Some(t)
    requires At(t, c, Idle) && HasSlot(limit, t.shared) && f !in t.tasks
    ensures After(limit, s, more) == Some(u)
    ensures u.callers == t.callers && u.tasks == t.tasks[f := Task(Queued, Registered)]
    ensures u.shared.pending == t.shared.pending + {f}
  {
    hide After;
    more, u := Extend(limit, s, steps, t, Call(c));
    more, u := Extend(limit, s, more, u, Poll(c));
    more, u := Extend(limit, s, more, u, Submit(c, f));
    more, u := Extend(limit, s, more, u, Register(c));
    more, u := Extend(limit, s, more, u, Track(c));
    more, u := Extend(limit, s, more, u, Label(c));
    more, u := Extend(limit, s, more, u, Return(c));
    assert u.callers == t.callers;
  }

  /** One whole call whose task ends before the callback is registered, so that the submitter runs it before the add. */
  lemma LeakingCall(limit: int, s: State, steps: seq<Step>, t: State, c: Caller, f: Future)
    returns (more: seq<Step>, u: State)
    requires After(limit, s, steps) == Some(t) && t.workers > 0 && t.queue == [] && Busy(t.tasks) == {}
    requires At(t, c, Idle) && HasSlot(limit, t.shared) && f !in t.tasks
    ensures After(limit, s, more) == Some(u) && u.workers == t.workers
    ensures u.callers == t.callers && u.tasks == t.tasks[f := Task(Done, RanCount)] && u.queue == []
    ensures u.shared.pending == t.shared.pending + {f} && u.log.late == t.log.late + {f}
  {
    hide After, Busy;
    more, u := SubmitFirst(limit, s, steps, t, c, f);
    more, u := FinishQueued(limit, s, more, u, f);
    more, u := LeakDone(limit, s, more, u, c);
    more, u := Extend(limit, s, more, u, Label(c));
    more, u := Extend(limit, s, more, u, Return(c));
    assert u.callers == t.callers;
  }

  lemma SubmitFirst(limit: int, s: State, steps: seq<Step>, t: State, c: Caller, f: Future)
    returns (more: seq<Step>, u: State)
    requires After(limit, s, steps) == Some(t) && t.queue == [] && Busy(t.tasks) == {}
    requires At(t, c, Idle) && HasSlot(limit, t.shared) && f !in t.tasks
    ensures After(limit, s, more) == Some(u) && u.workers == t.workers
    ensures u.callers == t.callers[c := Submitted(f)]
    ensures u.tasks == t.tasks[f := Task(Queued, Unregistered)] && u.queue == [f]
    ensures u.shared.pending == t.shared.pending && u.log.late == t.log.late && Busy(u.tasks) == {}
  {
    hide After;
    more, u := Extend(limit, s, steps, t, Call(c));
    more, u := Extend(limit, s, more, u, Poll(c));
    more, u := Extend(limit, s, more, u, Submit(c, f));
    assert u.callers == t.callers[c := Submitted(f)];
    assert Busy(u.tasks) == Busy(t.tasks);
  }

  lemma FinishQueued(limit: int, s: State, steps: seq<Step>, t: State, f: Future) returns (more: seq<Step>, u: State)
    requires After(limit, s, steps) == Some(t)
    requires t.workers > 0 && Busy(t.tasks) == {} && t.queue == [f] && f in t.tasks && t.tasks[f].work.Queued?
    ensures After(limit, s, more) == Some(u)
    ensures u == t.(tasks := t.tasks[f := t.tasks[f].(work := Done)], queue := [])
  {
    hide After;
    more, u := Extend(limit, s, steps, t, Start(f));
    hide Busy;
    more, u := Extend(limit, s, more, u, Finish(f));
  }

  /** A submitter whose task has ended has no choice but to leak its future. */
  lemma LeakDone(limit: int, s: State, steps: seq<Step>, t: State, c: Caller) returns (more: seq<Step>, u: State)
    requires After(limit, s, steps) == Some(t) && c in t.callers && t.callers[c].Submitted?
    requires t.callers[c].f in t.tasks && t.tasks[t.callers[c].f].work.Done?
    ensures After(limit, s, more) == Some(u)
    ensures var f := t.callers[c].f;
      && u.workers == t.workers && u.queue == t.queue
      && u.callers == t.callers[c := Tracked(f)] && u.tasks == t.tasks[f := t.tasks[f].(callback := RanCount)]
      && u.shared.pending == t.shared.pending + {f} && u.log.late == t.log.late + {f}
  {
    hide After, Busy;
    more, u := Extend(limit, s, steps, t, Register(c));
    more, u := Extend(limit, s, more, u, InlineDiscard(c));
    more, u := Extend(limit, s, more, u, InlineCount(c));
    more, u := Extend(limit, s, more, u, Track(c));
  }

  /** Even one submitter can leak every slot and come to rest with the limit used up. */
  lemma {:induction false} EverySlotCanLeak(limit: nat, workers: nat, c: Caller, n: nat)
    returns (steps: seq<Step>, s: State)
    requires workers > 0 && n <= limit
    ensures After(limit, Init(workers, {c}), steps) == Some(s) && s.workers == workers && s.queue == []
    ensures Quiescent(s) && s.shared.pending == s.log.late == s.tasks.Keys && |s.log.late| == n
    ensures s.callers == map[c := Idle] && forall f :: f in s.tasks ==> f < n
  {
    if n == 0 {
      steps, s := [], Init(workers, {c});
    } else {
      hide After;
      steps, s := EverySlotCanLeak(limit, workers, c, n - 1);
      steps, s := LeakingCall(limit, Init(workers, {c}), steps, s, c, n - 1);
    }
  }

  /** Callers 0 to k - 1. */
  function Crew(k: nat): (cs: set<Caller>)
    ensures forall c: Caller :: c in cs <==> c < k
    ensures |cs| == k
  {
    if k == 0 then {} else
      var rest := Crew(k - 1);
      assert k - 1 !in rest;
      rest + {k - 1}
  }

  lemma {:induction false} FillSlots(limit: nat, workers: nat, k: nat, n: nat) returns (steps: seq<Step>, s: State)
    requires k > 0 && n < limit
    ensures After(limit, Init(workers, Crew(k)), steps) == Some(s)
    ensures s.callers == Init(workers, Crew(k)).callers && |s.shared.pending| == n
    ensures s.shared.pending <= s.tasks.Keys && forall f :: f in s.tasks ==> f < n
  {
    if n == 0 {
      steps, s := [], Init(workers, Crew(k));
      assert s.shared.pending == {};
    } else {
      hide Apply, Enabled, After;
      steps, s := FillSlots(limit, workers, k, n - 1);
      assert 0 in s.callers;
      steps, s := CompleteCall(limit, Init(workers, Crew(k)), steps, s, 0, n - 1);
    }
  }

  lemma AdmitOne(limit: int, s: State, steps: seq<Step>, t: State, c: Caller) returns (more: seq<Step>, u: State)
    requires After(limit, s, steps) == Some(t) && At(t, c, Idle) && HasSlot(limit, t.shared)
    ensures After(limit, s, more) == Some(u)
    ensures u.callers == t.callers[c := Admitted] && u.tasks == t.tasks && u.shared.pending == t.shared.pending
  {
    more, u := Extend(limit, s, steps, t, Call(c));
    more, u := Extend(limit, s, more, u, Poll(c));
  }

  lemma TrackOne(limit: int, s: State, steps: seq<Step>, t: State, c: Caller, f: Future)
    returns (more: seq<Step>, u: State)
    requires After(limit, s, steps) == Some(t) && At(t, c, Admitted) && f !in t.tasks
    ensures After(limit, s, more) == Some(u)
    ensures u.callers == t.callers[c := Tracked(f)] && u.tasks == t.tasks[f := Task(Queued, Registered)]
    ensures u.shared.pending == t.shared.pending + {f}
  {
    more, u := Extend(limit, s, steps, t, Submit(c, f));
    more, u := Extend(limit, s, more, u, Register(c));
    more, u := Extend(limit, s, more, u, Track(c));
  }

  /** With all slots but one taken, j callers are admitted one after the other. */
  lemma {:induction false} AdmitTogether(limit: nat, workers: nat, k: nat, j: nat) returns (steps: seq<Step>, s: State)
    requires limit > 0 && 0 < k && j <= k
    ensures After(limit, Init(workers, Crew(k)), steps) == Some(s)
    ensures s.callers.Keys == Crew(k) && forall c :: c in s.callers ==> s.callers[c] == if c < j then Admitted else Idle
    ensures |s.shared.pending| == limit - 1
    ensures s.shared.pending <= s.tasks.Keys && forall f :: f in s.tasks ==> f < limit
  {
    hide Apply, Enabled, After, Busy, Crew;
    if j == 0 {
      steps, s := FillSlots(limit, workers, k, limit - 1);
    } else {
      hide Init;
      var t;
      steps, t := AdmitTogether(limit, workers, k, j - 1);
      steps, s := AdmitOne(limit, Init(workers, Crew(k)), steps, t, j - 1);
    }
  }

  /** The bound of SlotBound is reached: k submitters can track limit + k - 1 futures at once. */
  lemma {:induction false} BoundIsReached(limit: nat, workers: nat, k: nat, j: nat) returns (steps: seq<Step>, s: State)
    requires limit > 0 && 0 < k && j <= k
    ensures After(limit, Init(workers, Crew(k)), steps) == Some(s)
    ensures s.callers.Keys == Crew(k) && forall c :: c in s.callers && c >= j ==> s.callers[c] == Admitted
    ensures |s.shared.pending| == limit - 1 + j
    ensures s.shared.pending <= s.tasks.Keys && forall f :: f in s.tasks ==> f < limit + j
  {
    hide Apply, Enabled, After, Busy;
    if j == 0 {
      steps, s := AdmitTogether(limit, workers, k, k);
    } else {
      steps, s := BoundIsReached(limit, workers, k, j - 1);
      steps, s := TrackOne(limit, Init(workers, Crew(k)), steps, s, j - 1, limit + j - 1);
    }
  }
}
