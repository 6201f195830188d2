/**
 The offload protocol carried out on the shared globals in place: every step of
 OffloadProtocol, and one whole call of _submit_task.
 */
module OffloadMachine {
  import opened Wrappers
  import opened OffloadState
  import opened OffloadProtocol

  class Machine {
    const limit: int
    const workers: nat
    const tracker: Tracker
    var callers: map<Caller, Pc>
    var tasks: map<Future, Task>
    var queue: seq<Future>
    ghost var log: Log

    ghost predicate Valid()
      reads this
    {
      tracker.limit == limit
    }

    /** The protocol state that the machine is in. */
    ghost function Now(): State
      reads this, tracker
    {
      State(workers, tracker.Snapshot(), callers, tasks, queue, log)
    }

    constructor (limit: int, workers: nat, cs: set<Caller>)
      ensures Valid() && fresh(tracker) && this.limit == limit && Now() == Init(workers, cs)
    {
      this.limit, this.workers := limit, workers;
      tracker := new Tracker(limit);
      callers := map c | c in cs :: Idle;
      tasks, queue := map[], [];
      log := Log(0, 0, 0, {}, {});
    }

    /** The step of a submitter, on the lock-protected globals. */
    method Submitter(step: Step)
      requires Valid() && Enabled(Now(), step)
      requires !OfWorker(step)
      modifies this, tracker
      ensures Valid() && Now() == Apply(limit, old(Now()), step)
    {
      match step {
        case Call(c) =>
          callers := callers[c := Waiting];
        case Poll(c) =>
          var ok := tracker.PollSlot();
          callers := callers[c := if ok then Admitted else Full];
        case Retry(c) =>
          callers := callers[c := Waiting];
        case GiveUp(c) =>
          tracker.CountRejected();
          callers := callers[c := Idle];
          log := log.(returned := log.returned + 1);
        case Submit(c, f) =>
          callers, tasks, queue := callers[c := Submitted(f)], tasks[f := Task(Queued, Unregistered)], queue + [f];
        case SubmitFails(c) =>
          tracker.CountError();
          callers := callers[c := Idle];
          log := log.(returned := log.returned + 1, submitFailures := log.submitFailures + 1);
        case Register(c) =>
          var f := callers[c].f;
          if tasks[f].work.Done? {
            callers := callers[c := Inline(f)];
          } else {
            callers, tasks := callers[c := Hooked(f)], tasks[f := tasks[f].(callback := Registered)];
          }
        case InlineDiscard(c) =>
          var f := callers[c].f;
          tracker.Discard(f);
          callers := callers[c := InlineDiscarded(f)];
        case InlineCount(c) =>
          var f := callers[c].f;
          tracker.CountCompleted();
          callers, tasks := callers[c := Hooked(f)], tasks[f := tasks[f].(callback := RanCount)];
        case Track(c) =>
          var f := callers[c].f;
          tracker.Add(f);
          callers := callers[c := Tracked(f)];
          log := log.(added := log.added + {f},
                      late := if tasks[f].callback.Registered? then log.late else log.late + {f});
        case Label(c) =>
          var _ := tracker.NextTaskId();
          callers := callers[c := Labelled(callers[c].f)];
        case Return(c) =>
          tracker.CountSubmitted();
          callers := callers[c := Idle];
          log := log.(returned := log.returned + 1);
      }
    }

    /** The step of a worker or of a done-callback. */
    method Worker(step: Step)
      requires Valid() && Enabled(Now(), step)
      requires OfWorker(step)
      modifies this, tracker
      ensures Valid() && Now() == Apply(limit, old(Now()), step)
    {
      match step {
        case Start(f) =>
          tasks, queue := tasks[f := tasks[f].(work := Running)], queue[1..];
        case Raise(f) =>
          tracker.CountError();
          tasks := tasks[f := tasks[f].(work := Raised)];
          log := log.(taskErrors := log.taskErrors + 1);
        case Finish(f) =>
          tasks := tasks[f := tasks[f].(work := Done)];
        case RunDiscard(f) =>
          tracker.Discard(f);
          tasks := tasks[f := tasks[f].(callback := RanDiscard)];
        case RunCount(f) =>
          tracker.CountCompleted();
          tasks := tasks[f := tasks[f].(callback := RanCount)];
      }
    }

    /** Any interleaving, carried out in place, ends in the state the protocol says. */
    method Execute(steps: seq<Step>)
      requires Valid() && After(limit, Now(), steps).Some?
      modifies this, tracker
      ensures Valid() && After(limit, old(Now()), steps) == Some(Now())
    {
      hide Apply, Enabled, Busy;
      ghost var start := Now();
      for i := 0 to |steps|
        invariant Valid()
        invariant After(limit, start, steps[..i]) == Some(Now())
      {
        PrefixRuns(limit, start, steps, i + 1);
        assert steps[..i + 1][..i] == steps[..i];
        if OfWorker(steps[i]) {
          Worker(steps[i]);
        } else {
          Submitter(steps[i]);
        }
      }
      assert steps[..|steps|] == steps;
    }

    /** _wait_for_slot with at most `polls` slot checks, while no other thread moves. */
    method WaitForSlot(c: Caller, polls: nat, ghost start: State, ghost steps: seq<Step>)
      returns (ok: bool, ghost more: seq<Step>)
      requires Valid() && At(Now(), c, Waiting) && polls > 0 && After(limit, start, steps) == Some(Now())
      modifies this, tracker
      ensures Valid() && After(limit, start, more) == Some(Now())
      ensures ok == HasSlot(limit, old(Now()).shared)
      ensures Now() == old(Now()).(
        shared := Polled(old(Now()).shared), callers := old(callers)[c := if ok then Admitted else Full])
    {
      hide After, Busy;
      ghost var before := Now();
      ok := |tracker.pending| < limit;
      more := Take(Poll(c), start, steps);
      var left := polls - 1;
      while !ok && left > 0
        invariant Valid() && After(limit, start, more) == Some(Now())
        invariant ok == HasSlot(limit, before.shared)
        invariant Now() == before.(
          shared := Polled(before.shared), callers := before.callers[c := if ok then Admitted else Full])
      {
        more := Take(Retry(c), start, more);
        ok := |tracker.pending| < limit;
        more := Take(Poll(c), start, more);
        assert Now().callers == before.callers[c := if ok then Admitted else Full];
        left := left - 1;
      }
    }

    /** The call begins and asks for a slot. */
    method Enter(c: Caller, polls: nat) returns (ok: bool, ghost steps: seq<Step>)
      requires Valid() && At(Now(), c, Idle) && polls > 0
      modifies this, tracker
      ensures Valid() && After(limit, old(Now()), steps) == Some(Now())
      ensures ok == HasSlot(limit, old(Now()).shared)
      ensures Now() == old(Now()).(
        shared := Polled(old(Now()).shared), callers := old(callers)[c := if ok then Admitted else Full])
    {
      hide After, Busy;
      ghost var start := Now();
      NoSteps(limit, start);
      steps := Take(Call(c), start, []);
      ok, steps := WaitForSlot(c, polls, start, steps);
      assert callers == start.callers[c := if ok then Admitted else Full];
    }

    /** The executor accepts, and the callback is registered. */
    method Hook(c: Caller, f: Future, ghost start: State, ghost steps: seq<Step>) returns (ghost more: seq<Step>)
      requires Valid() && At(Now(), c, Admitted) && f !in tasks && After(limit, start, steps) == Some(Now())
      modifies this, tracker
      ensures Valid() && After(limit, start, more) == Some(Now())
      ensures Now() == old(Now()).(
        callers := old(callers)[c := Hooked(f)],
        tasks := old(tasks)[f := Task(Queued, Registered)], queue := old(queue) + [f])
    {
      hide After, Busy;
      more := Take(Submit(c, f), start, steps);
      more := Take(Register(c), start, more);
    }

    /** From the add to the return. */
    method AddAndReturn(c: Caller, f: Future, ghost start: State, ghost steps: seq<Step>)
      returns (ghost more: seq<Step>)
      requires Valid() && At(Now(), c, Hooked(f)) && f in tasks && tasks[f].callback.Registered?
      requires After(limit, start, steps) == Some(Now())
      modifies this, tracker
      ensures Valid() && After(limit, start, more) == Some(Now())
      ensures callers == old(callers)[c := Idle] && tasks == old(tasks) && queue == old(queue)
      ensures Now().shared == CountedSubmitted(Numbered(Added(old(Now()).shared, f)))
      ensures log.late == old(log.late)
    {
      hide After, Busy;
      more := Take(Track(c), start, steps);
      more := Take(Label(c), start, more);
      more := Take(Return(c), start, more);
    }

    /**
     One call of _submit_task that no other thread interrupts: it is a run of the
     protocol, it gets its future exactly when a slot is free and the executor
     accepts, and it never leaks.
     */
    method SubmitTask(c: Caller, f: Future, polls: nat, accepted: bool)
      returns (result: Option<Future>, ghost steps: seq<Step>)
      requires Valid() && At(Now(), c, Idle) && f !in tasks && polls > 0
      modifies this, tracker
      ensures Valid() && After(limit, old(Now()), steps) == Some(Now())
      ensures callers == old(callers) && log.late == old(log.late)
      ensures result == if |old(tracker.pending)| < limit && accepted then Some(f) else None
      ensures result.Some? ==>
        && tracker.pending == old(tracker.pending) + {f}
        && tasks == old(tasks)[f := Task(Queued, Registered)] && queue == old(queue) + [f]
        && tracker.submitted == old(tracker.submitted) + 1 && tracker.taskCounter == old(tracker.taskCounter) + 1
        && tracker.rejected == old(tracker.rejected) && tracker.errors == old(tracker.errors)
      ensures result.None? ==>
        && tracker.pending == old(tracker.pending) && tasks == old(tasks) && queue == old(queue)
        && tracker.submitted == old(tracker.submitted) && tracker.taskCounter == old(tracker.taskCounter)
        && (if |old(tracker.pending)| < limit
            then tracker.errors == old(tracker.errors) + 1 && tracker.rejected == old(tracker.rejected)
            else tracker.rejected == old(tracker.rejected) + 1 && tracker.errors == old(tracker.errors))
    {
      hide After, Busy;
      ghost var start := Now();
      var admitted;
      admitted, steps := Enter(c, polls);
      if !admitted {
        steps := Take(GiveUp(c), start, steps);
        result := None;
      } else if !accepted {
        steps := Take(SubmitFails(c), start, steps);
        result := None;
      } else {
        steps := Hook(c, f, start, steps);
        steps := AddAndReturn(c, f, start, steps);
        result := Some(f);
      }
      assert callers == start.callers;
    }

    /** One submitter step, recorded. */
    method Take(step: Step, ghost start: State, ghost steps: seq<Step>) returns (ghost more: seq<Step>)
      requires Valid() && Enabled(Now(), step) && After(limit, start, steps) == Some(Now())
      requires !OfWorker(step)
      modifies this, tracker
      ensures Valid() && Now() == Apply(limit, old(Now()), step)
      ensures After(limit, start, more) == Some(Now())
    {
      hide Apply, Enabled, Busy;
      more := steps + [step];
      assert more[..|more| - 1] == steps;
      Submitter(step);
    }
  }

  lemma NoSteps(limit: int, s: State)
    ensures After(limit, s, []) == Some(s)
  {
  }

  lemma {:induction false} PrefixRuns(limit: int, s: State, steps: seq<Step>, i: nat)
    requires i <= |steps| && After(limit, s, steps).Some?
    ensures After(limit, s, steps[..i]).Some?
    decreases |steps|
  {
    hide Apply, Enabled, Busy;
    if i == |steps| {
      assert steps[..i] == steps;
    } else {
      var n := |steps| - 1;
      PrefixRuns(limit, s, steps[..n], i);
      assert steps[..n][..i] == steps[..i];
    }
  }
}
