/**
 Submitters, workers and completion callbacks interleaved. One step is one
 lock-protected block (or one unlocked action) of one thread. Tasks wait in one
 queue for a fixed number of worker threads. The callback of a future runs on its
 worker when it was registered before the task ended, and inside the submitter,
 before the registration returns, when the task had ended already.
 */
module OffloadProtocol {
  import opened Wrappers
  import opened OffloadState

  type Caller = nat

  /** Where a call of _submit_task stands. */
  datatype Pc =
    | Idle
    | Waiting
    | Full                        // the last slot check failed
    | Admitted                    // passed the slot check
    | Submitted(f: Future)        // the executor accepted the task
    | Inline(f: Future)           // the submitter is about to run the callback itself
    | InlineDiscarded(f: Future)  // and has run its first half
    | Hooked(f: Future)           // the registration has returned
    | Tracked(f: Future)          // the future is in the pending set
    | Labelled(f: Future)         // the task number is drawn

  datatype Work = Queued | Running | Raised | Done
  datatype Callback = Unregistered | Registered | RanDiscard | RanCount
  datatype Task = Task(work: Work, callback: Callback)

  /** History that no thread reads. */
  datatype Log = Log(returned: nat, submitFailures: nat, taskErrors: nat, added: set<Future>, late: set<Future>)

  datatype State = State(workers: nat, shared: Shared, callers: map<Caller, Pc>, tasks: map<Future, Task>,
                         queue: seq<Future>, log: Log)

  datatype Step =
    | Call(c: Caller)
    | Poll(c: Caller)
    | Retry(c: Caller)
    | GiveUp(c: Caller)
    | Submit(c: Caller, f: Future)
    | SubmitFails(c: Caller)
    | Register(c: Caller)
    | InlineDiscard(c: Caller)
    | InlineCount(c: Caller)
    | Track(c: Caller)
    | Label(c: Caller)
    | Return(c: Caller)
    | Start(f: Future)
    | Raise(f: Future)
    | Finish(f: Future)
    | RunDiscard(f: Future)
    | RunCount(f: Future)

  /** The step of a worker thread, callbacks included. */
  predicate OfWorker(step: Step)
  {
    step.Start? || step.Raise? || step.Finish? || step.RunDiscard? || step.RunCount?
  }

  function Init(workers: nat, callers: set<Caller>): State
  {
    State(workers, FRESH, map c | c in callers :: Idle, map[], [], Log(0, 0, 0, {}, {}))
  }

  predicate At(s: State, c: Caller, pc: Pc)
  {
    c in s.callers && s.callers[c] == pc
  }

  /** A worker keeps its task until the callback it found registered has run. */
  predicate OnWorker(t: Task)
  {
    t.work.Running? || t.work.Raised? || (t.work.Done? && (t.callback.Registered? || t.callback.RanDiscard?))
  }

  function Busy(tasks: map<Future, Task>): set<Future>
  {
    set f | f in tasks && OnWorker(tasks[f])
  }

  predicate Enabled(s: State, step: Step)
  {
    match step
    case Call(c) => At(s, c, Idle)
    case Poll(c) => At(s, c, Waiting)
    case Retry(c) => At(s, c, Full)
    case GiveUp(c) => At(s, c, Full)
    case Submit(c, f) => At(s, c, Admitted) && f !in s.tasks
    case SubmitFails(c) => At(s, c, Admitted)
    case Register(c) => c in s.callers && s.callers[c].Submitted? && s.callers[c].f in s.tasks
    case InlineDiscard(c) => c in s.callers && s.callers[c].Inline?
    case InlineCount(c) => c in s.callers && s.callers[c].InlineDiscarded? && s.callers[c].f in s.tasks
    case Track(c) => c in s.callers && s.callers[c].Hooked? && s.callers[c].f in s.tasks
    case Label(c) => c in s.callers && s.callers[c].Tracked?
    case Return(c) => c in s.callers && s.callers[c].Labelled?
    case Start(f) =>
      && s.queue != [] && s.queue[0] == f && f in s.tasks && s.tasks[f].work.Queued?
      && |Busy(s.tasks)| < s.workers
    case Raise(f) => f in s.tasks && s.tasks[f].work.Running?
    case Finish(f) => f in s.tasks && (s.tasks[f].work.Running? || s.tasks[f].work.Raised?)
    case RunDiscard(f) => f in s.tasks && s.tasks[f] == Task(Done, Registered)
    case RunCount(f) => f in s.tasks && s.tasks[f] == Task(Done, RanDiscard)
  }

  function Apply(limit: int, s: State, step: Step): State
    requires Enabled(s, step)
  {
    var g, log := s.shared, s.log;
    match step
    case Call(c) => s.(callers := s.callers[c := Waiting])
    case Poll(c) => s.(shared := Polled(g), callers := s.callers[c := if HasSlot(limit, g) then Admitted else Full])
    case Retry(c) => s.(callers := s.callers[c := Waiting])
    case GiveUp(c) =>
      s.(shared := CountedRejected(g), callers := s.callers[c := Idle], log := log.(returned := log.returned + 1))
    case Submit(c, f) =>
      s.(callers := s.callers[c := Submitted(f)],
         tasks := s.tasks[f := Task(Queued, Unregistered)], queue := s.queue + [f])
    case SubmitFails(c) =>
      s.(shared := CountedError(g), callers := s.callers[c := Idle],
         log := log.(returned := log.returned + 1, submitFailures := log.submitFailures + 1))
    case Register(c) =>
      var f := s.callers[c].f;
      if s.tasks[f].work.Done? then s.(callers := s.callers[c := Inline(f)])
      else s.(callers := s.callers[c := Hooked(f)], tasks := s.tasks[f := s.tasks[f].(callback := Registered)])
    case InlineDiscard(c) =>
      var f := s.callers[c].f;
      s.(shared := Discarded(g, f), callers := s.callers[c := InlineDiscarded(f)])
    case InlineCount(c) =>
      var f := s.callers[c].f;
      s.(shared := CountedCompleted(g), callers := s.callers[c := Hooked(f)],
         tasks := s.tasks[f := s.tasks[f].(callback := RanCount)])
    case Track(c) =>
      var f := s.callers[c].f;
      s.(shared := Added(g, f), callers := s.callers[c := Tracked(f)],
         log := log.(added := log.added + {f},
                     late := if s.tasks[f].callback.Registered? then log.late else log.late + {f}))
    case Label(c) => s.(shared := Numbered(g), callers := s.callers[c := Labelled(s.callers[c].f)])
    case Return(c) =>
      s.(shared := CountedSubmitted(g), callers := s.callers[c := Idle], log := log.(returned := log.returned + 1))
    case Start(f) => s.(tasks := s.tasks[f := s.tasks[f].(work := Running)], queue := s.queue[1..])
    case Raise(f) =>
      s.(shared := CountedError(g), tasks := s.tasks[f := s.tasks[f].(work := Raised)],
         log := log.(taskErrors := log.taskErrors + 1))
    case Finish(f) => s.(tasks := s.tasks[f := s.tasks[f].(work := Done)])
    case RunDiscard(f) => s.(shared := Discarded(g, f), tasks := s.tasks[f := s.tasks[f].(callback := RanDiscard)])
    case RunCount(f) => s.(shared := CountedCompleted(g), tasks := s.tasks[f := s.tasks[f].(callback := RanCount)])
  }

  /** The state after a run, None when some step was not possible where it was taken. */
  function After(limit: int, s: State, steps: seq<Step>): Option<State>
  {
    if steps == [] then Some(s) else
      var n := |steps| - 1;
      var before := After(limit, s, steps[..n]);
      if before.Some? && Enabled(before.value, steps[n]) then Some(Apply(limit, before.value, steps[n])) else None
  }

  // ----- what every step keeps -----

  /** Past the slot check, future not yet in the pending set. */
  predicate Holding(pc: Pc)
  {
    pc.Admitted? || BeforeAdd(pc)
  }

  /** The executor has the task, the pending set does not have the future. */
  predicate BeforeAdd(pc: Pc)
  {
    pc.Submitted? || pc.Inline? || pc.InlineDiscarded? || pc.Hooked?
  }

  /** The executor has the task, the call has not returned. */
  predicate HasFuture(pc: Pc)
  {
    BeforeAdd(pc) || pc.Tracked? || pc.Labelled?
  }

  function Those(callers: map<Caller, Pc>, p: Pc -> bool): set<Caller>
  {
    set c | c in callers && p(callers[c])
  }

  lemma ThoseUpdated(callers: map<Caller, Pc>, p: Pc -> bool, c: Caller, pc: Pc)
    requires c in callers
    ensures |Those(callers[c := pc], p)| ==
      |Those(callers, p)| - (if p(callers[c]) then 1 else 0) + (if p(pc) then 1 else 0)
  {
    var before, after := Those(callers, p), Those(callers[c := pc], p);
    assert after == (before - {c}) + if p(pc) then {c} else {};
  }

  function Bound(limit: int, k: nat): nat
  {
    if limit <= 0 then 0 else limit + k - 1
  }

  ghost predicate SlotsBounded(limit: int, s: State)
  {
    && |s.shared.pending| + |Those(s.callers, Holding)| <= Bound(limit, |s.callers|)
    && s.shared.stats.maxInflight <= Bound(limit, |s.callers|)
  }

  lemma ThoseWithin(callers: map<Caller, Pc>, p: Pc -> bool, c: Caller)
    requires c in callers && !p(callers[c])
    ensures |Those(callers, p)| <= |callers| - 1
  {
    var others := callers.Keys - {c};
    assert Those(callers, p) <= others;
    Cardinality(Those(callers, p), others);
  }

  lemma Cardinality<T>(a: set<T>, b: set<T>)
    requires a <= b
    ensures |a| <= |b|
  {
    if a != {} {
      var x :| x in a;
      Cardinality(a - {x}, b - {x});
    }
  }

  lemma SameCallers(callers: map<Caller, Pc>, c: Caller, pc: Pc)
    requires c in callers
    ensures |callers[c := pc]| == |callers|
  {
    assert callers[c := pc].Keys == callers.Keys;
  }

  lemma WorkerKeepsSlots(limit: int, s: State, step: Step)
    requires SlotsBounded(limit, s) && Enabled(s, step) && OfWorker(step)
    ensures SlotsBounded(limit, Apply(limit, s, step))
    ensures |Apply(limit, s, step).callers| == |s.callers|
  {
    hide Busy, Those;
    Cardinality(Apply(limit, s, step).shared.pending, s.shared.pending);
  }

  lemma PollKeepsSlots(limit: int, s: State, c: Caller)
    requires SlotsBounded(limit, s) && Enabled(s, Poll(c))
    ensures SlotsBounded(limit, Apply(limit, s, Poll(c)))
  {
    hide Busy, Those;
    var t := Apply(limit, s, Poll(c));
    ThoseUpdated(s.callers, Holding, c, t.callers[c]);
    SameCallers(s.callers, c, t.callers[c]);
    ThoseWithin(s.callers, Holding, c);
  }

  /** Every other step of a submitter moves its future along or gives up its place. */
  lemma HolderMoves(limit: int, s: State, step: Step)
    requires Enabled(s, step) && !OfWorker(step) && !step.Poll?
    ensures var t, c := Apply(limit, s, step), step.c;
      && c in s.callers && c in t.callers && t.callers == s.callers[c := t.callers[c]]
      && t.shared.stats.maxInflight == s.shared.stats.maxInflight
      && |t.shared.pending| + (if Holding(t.callers[c]) then 1 else 0) <=
         |s.shared.pending| + (if Holding(s.callers[c]) then 1 else 0)
  {
    hide Busy;
    if step.InlineDiscard? {
      Cardinality(Apply(limit, s, step).shared.pending, s.shared.pending);
    }
  }

  /** A slot check that is not atomic with the add overshoots by at most k - 1. */
  lemma StepKeepsSlots(limit: int, s: State, step: Step)
    requires SlotsBounded(limit, s) && Enabled(s, step)
    ensures SlotsBounded(limit, Apply(limit, s, step))
    ensures |Apply(limit, s, step).callers| == |s.callers|
  {
    if OfWorker(step) {
      WorkerKeepsSlots(limit, s, step);
    } else {
      var c, t := step.c, Apply(limit, s, step);
      SameCallers(s.callers, c, t.callers[c]);
      if step.Poll? {
        PollKeepsSlots(limit, s, c);
      } else {
        HolderMoves(limit, s, step);
        hide Apply, Enabled, Those, Holding;
        ThoseUpdated(s.callers, Holding, c, t.callers[c]);
      }
    }
  }
}
