/**
 The shared globals of the background KV offload and their lock-protected updates.
 Each update is a function on a snapshot; the class below performs it in place.
 */
module OffloadState {
  type Future = nat

  datatype Stats = Stats(submitted: nat, completed: nat, errors: nat, rejected: nat, maxInflight: nat)
  datatype Shared = Shared(pending: set<Future>, taskCounter: nat, stats: Stats)

  const FRESH := Shared({}, 0, Stats(0, 0, 0, 0, 0))

  /** The slot check: record the high-water mark, admit below the limit. */
  function Polled(g: Shared): Shared
  {
    var n := |g.pending|;
    g.(stats := g.stats.(maxInflight := if n > g.stats.maxInflight then n else g.stats.maxInflight))
  }

  predicate HasSlot(limit: int, g: Shared)
  {
    |g.pending| < limit
  }

  function Added(g: Shared, f: Future): Shared
  {
    g.(pending := g.pending + {f})
  }

  function Discarded(g: Shared, f: Future): Shared
  {
    g.(pending := g.pending - {f})
  }

  function Numbered(g: Shared): Shared
  {
    g.(taskCounter := g.taskCounter + 1)
  }

  function CountedSubmitted(g: Shared): Shared
  {
    g.(stats := g.stats.(submitted := g.stats.submitted + 1))
  }

  function CountedCompleted(g: Shared): Shared
  {
    g.(stats := g.stats.(completed := g.stats.completed + 1))
  }

  function CountedError(g: Shared): Shared
  {
    g.(stats := g.stats.(errors := g.stats.errors + 1))
  }

  function CountedRejected(g: Shared): Shared
  {
    g.(stats := g.stats.(rejected := g.stats.rejected + 1))
  }

  class Tracker {
    const limit: int
    var pending: set<Future>
    var taskCounter: nat
    var submitted: nat
    var completed: nat
    var errors: nat
    var rejected: nat
    var maxInflight: nat

    ghost function Snapshot(): Shared
      reads this
    {
      Shared(pending, taskCounter, Stats(submitted, completed, errors, rejected, maxInflight))
    }

    constructor (limit: int)
      ensures this.limit == limit && Snapshot() == FRESH
    {
      this.limit := limit;
      pending, taskCounter := {}, 0;
      submitted, completed, errors, rejected, maxInflight := 0, 0, 0, 0, 0;
    }

    method PollSlot() returns (ok: bool)
      modifies this
      ensures ok == HasSlot(limit, old(Snapshot()))
      ensures Snapshot() == Polled(old(Snapshot()))
    {
      var inflight := |pending|;
      if inflight > maxInflight {
        maxInflight := inflight;
      }
      ok := inflight < limit;
    }

    method Add(f: Future)
      modifies this
      ensures Snapshot() == Added(old(Snapshot()), f)
    {
      pending := pending + {f};
    }

    method Discard(f: Future)
      modifies this
      ensures Snapshot() == Discarded(old(Snapshot()), f)
    {
      pending := pending - {f};
    }

    method NextTaskId() returns (id: nat)
      modifies this
      ensures Snapshot() == Numbered(old(Snapshot()))
      ensures id == Snapshot().taskCounter
    {
      taskCounter := taskCounter + 1;
      id := taskCounter;
    }

    method CountSubmitted()
      modifies this
      ensures Snapshot() == CountedSubmitted(old(Snapshot()))
    {
      submitted := submitted + 1;
    }

    method CountCompleted()
      modifies this
      ensures Snapshot() == CountedCompleted(old(Snapshot()))
    {
      completed := completed + 1;
    }

    method CountError()
      modifies this
      ensures Snapshot() == CountedError(old(Snapshot()))
    {
      errors := errors + 1;
    }

    method CountRejected()
      modifies this
      ensures Snapshot() == CountedRejected(old(Snapshot()))
    {
      rejected := rejected + 1;
    }
  }
}
