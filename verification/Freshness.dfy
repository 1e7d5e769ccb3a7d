/** When a root reads as fresh: what one finished run marks, and what the run of the last batch leaves to do. */
module Freshness {
  import opened Options
  import opened ChangeScopes
  import opened ChangeSets
  import opened Revisions
  import opened Coordination

  // ----- One event

  /** A run moves the indexed revision up to its batch's revision exactly when it completed, or had nothing to do and
      was not a full one; only a completed full run also settles every demand raised so far. Nothing else changes. */
  lemma FinishMarksExactly(c: Counters, b: Batch, outcome: Outcome)
    requires c.reconciled <= c.full
    ensures
      var d := FinishCounters(c, b, outcome);
      && d.indexed == (if outcome == Completed || (outcome == Noop && !b.snapshot.force) then Max(c.indexed, b.revision)
                       else c.indexed)
      && d.reconciled == (if outcome == Completed && b.snapshot.force then c.full else c.reconciled)
      && d.dirty == c.dirty && d.full == c.full && d.nonProbeable == c.nonProbeable
  {
  }

  /** An enqueue always shows: its revision is new and not indexed yet, and one that forces a full reconcile raises a
      demand that blocks the probe. */
  lemma EnqueueShows(s: Coord, root: Path, budget: nat, changes: Scopes, accepted: bool)
    requires Inv(s, root) && Enabled(s, root, Enqueue(changes, accepted))
    ensures
      var t := EnqueueStep(s, root, budget, changes, accepted);
      && t.target == t.counters.dirty == s.counters.dirty + 1 && NeedsReconciliation(t.counters)
      && t.counters.indexed == s.counters.indexed < t.target
      && t.counters.full == (if changes.force then s.counters.full + 1 else s.counters.full)
      && t.counters.nonProbeable == (if changes.force then s.counters.full + 1 else s.counters.nonProbeable)
      && (changes.force ==> OwesFull(t.counters)) && t.counters.reconciled == s.counters.reconciled
      && |t.handoffs| == (if accepted then |s.handoffs| + 1 else |s.handoffs|)
  {
  }

  // ----- The last batch

  /** The indexed revision comes from the batches, so it is not past the last one. */
  ghost predicate IndexedFromBatches(s: Coord) {
    s.counters.indexed == 0 || exists k :: 0 <= k < |s.batches| && s.counters.indexed <= s.batches[k].revision
  }

  lemma IndexedFromBatchesStep(s: Coord, root: Path, budget: nat, e: Event)
    requires Inv(s, root) && IndexedFromBatches(s) && Enabled(s, root, e)
    ensures IndexedFromBatches(Step(s, root, budget, e))
  {
    var t := Step(s, root, budget, e);
    if s.counters.indexed > 0 {
      var k :| 0 <= k < |s.batches| && s.counters.indexed <= s.batches[k].revision;
      assert t.batches[k] == s.batches[k];
    }
    if e.Finish? {
      FinishMarksExactly(s.counters, s.batches[s.handoffs[e.job].value], e.outcome);
    }
  }

  lemma {:induction false} IndexedFromBatchesRun(s: Coord, root: Path, budget: nat, es: seq<Event>)
    requires Inv(s, root) && IndexedFromBatches(s) && Valid(s, root, budget, es)
    ensures IndexedFromBatches(Run(s, root, budget, es))
    decreases |es|
  {
    if es == [] {
    } else {
      InvStep(s, root, budget, es[0]);
      IndexedFromBatchesStep(s, root, budget, es[0]);
      IndexedFromBatchesRun(Step(s, root, budget, es[0]), root, budget, es[1..]);
    }
  }

  predicate Enqueues(es: seq<Event>) {
    exists i :: 0 <= i < |es| && es[i].Enqueue?
  }

  predicate Demands(es: seq<Event>) {
    exists i :: 0 <= i < |es| && es[i].WatcherLost?
  }

  /** Without a drain the batches stay, and the dirty revision moves exactly when something is enqueued. */
  lemma {:induction false} DirtyMovesExactly(s: Coord, root: Path, budget: nat, es: seq<Event>)
    requires Inv(s, root) && Valid(s, root, budget, es) && NoDrain(s, root, budget, es)
    ensures
      var u := Run(s, root, budget, es);
      && u.batches == s.batches && u.counters.dirty >= s.counters.dirty
      && (u.counters.dirty == s.counters.dirty <==> !Enqueues(es))
    decreases |es|
  {
    if es == [] {
    } else {
      var next := Step(s, root, budget, es[0]);
      InvStep(s, root, budget, es[0]);
      DirtyMovesExactly(next, root, budget, es[1..]);
      if i :| 0 <= i < |es| && es[i].Enqueue? {
        assert i > 0 ==> es[1..][i - 1] == es[i];
      }
      if i :| 0 <= i < |es[1..]| && es[1..][i].Enqueue? {
        assert es[i + 1].Enqueue?;
      }
    }
  }

  /** From the start, take any run to the first take of a job, and on to where that job's run ends well with no further
      batch drained: then the root needs reconciling exactly when something was enqueued since the take, or a full
      reconcile was owed and this run was not a completed full one. */
  lemma LastBatchLeavesExactly(
      root: Path, budget: nat, es: seq<Event>, job: nat, during: seq<Event>, outcome: Outcome)
    requires root != [] && Valid(IDLE, root, budget, es) && Drains(Run(IDLE, root, budget, es), Take(job))
    requires
      var t := TakeStep(Run(IDLE, root, budget, es), job);
      && Valid(t, root, budget, during) && NoDrain(t, root, budget, during)
      && Enabled(Run(t, root, budget, during), root, Finish(job, outcome)) && outcome != Failed
    ensures
      var s := Run(IDLE, root, budget, es);
      var u := Run(TakeStep(s, job), root, budget, during);
      NeedsReconciliation(FinishStep(u, job, outcome).counters) <==>
        Enqueues(during) || (OwesFull(u.counters) && !(outcome == Completed && s.pending.force))
  {
    var s := Run(IDLE, root, budget, es);
    InvRun(IDLE, root, budget, es);
    IndexedFromBatchesRun(IDLE, root, budget, es);
    IndexedFromBatchesStep(s, root, budget, Take(job));
    AfterLastTake(s, root, budget, job, during, outcome);
  }

  lemma AfterLastTake(s: Coord, root: Path, budget: nat, job: nat, during: seq<Event>, outcome: Outcome)
    requires Inv(s, root) && Drains(s, Take(job)) && IndexedFromBatches(TakeStep(s, job)) && outcome != Failed
    requires
      var t := TakeStep(s, job);
      && Valid(t, root, budget, during) && NoDrain(t, root, budget, during)
      && Enabled(Run(t, root, budget, during), root, Finish(job, outcome))
    ensures
      var u := Run(TakeStep(s, job), root, budget, during);
      NeedsReconciliation(FinishStep(u, job, outcome).counters) <==>
        Enqueues(during) || (OwesFull(u.counters) && !(outcome == Completed && s.pending.force))
  {
    var t := TakeStep(s, job);
    var u := Run(t, root, budget, during);
    TakeInv(s, root, job);
    InvRun(t, root, budget, during);
    IndexedFromBatchesRun(t, root, budget, during);
    DirtyMovesExactly(t, root, budget, during);
    BatchIsFixed(t, root, budget, during, job);
    CollapseIsNormal(s.pending);
    LastFinish(u, root, job, outcome, |s.batches|);
  }

  lemma LastFinish(u: Coord, root: Path, job: nat, outcome: Outcome, home: nat)
    requires Inv(u, root) && IndexedFromBatches(u) && Enabled(u, root, Finish(job, outcome)) && outcome != Failed
    requires u.handoffs[job] == Some(home) && home == |u.batches| - 1
    ensures NeedsReconciliation(FinishStep(u, job, outcome).counters) <==>
      || u.batches[home].revision < u.counters.dirty
      || (OwesFull(u.counters) && !(outcome == Completed && u.batches[home].snapshot.force))
  {
    FinishMarksExactly(u.counters, u.batches[home], outcome);
    if u.counters.indexed > 0 {
      var k :| 0 <= k < |u.batches| && u.counters.indexed <= u.batches[k].revision;
      assert u.batches[k].revision <= u.batches[home].revision;
    }
  }

  /** So the root reads as fresh once the run of the last batch completes with nothing enqueued or demanded since its
      take, if it was a full run or none was owed at the take. */
  lemma LastRunFreshens(root: Path, budget: nat, es: seq<Event>, job: nat, during: seq<Event>)
    requires root != [] && Valid(IDLE, root, budget, es) && Drains(Run(IDLE, root, budget, es), Take(job))
    requires
      var s := Run(IDLE, root, budget, es);
      var t := TakeStep(s, job);
      && Valid(t, root, budget, during) && NoDrain(t, root, budget, during)
      && Enabled(Run(t, root, budget, during), root, Finish(job, Completed))
      && !Enqueues(during) && !Demands(during) && (s.pending.force || !OwesFull(s.counters))
    ensures
      var u := Run(TakeStep(Run(IDLE, root, budget, es), job), root, budget, during);
      !NeedsReconciliation(FinishStep(u, job, Completed).counters)
  {
    var s := Run(IDLE, root, budget, es);
    InvRun(IDLE, root, budget, es);
    TakeInv(s, root, job);
    OwesNoMore(TakeStep(s, job), root, budget, during);
    LastBatchLeavesExactly(root, budget, es, job, during, Completed);
  }

  lemma {:induction false} OwesNoMore(s: Coord, root: Path, budget: nat, es: seq<Event>)
    requires Inv(s, root) && Valid(s, root, budget, es) && !Enqueues(es) && !Demands(es)
    ensures OwesFull(Run(s, root, budget, es).counters) ==> OwesFull(s.counters)
    decreases |es|
  {
    if es == [] {
    } else {
      assert !es[0].Enqueue? && !es[0].WatcherLost?;
      assert forall i :: 0 <= i < |es[1..]| ==> es[1..][i] == es[i + 1];
      InvStep(s, root, budget, es[0]);
      OwesNoMore(Step(s, root, budget, es[0]), root, budget, es[1..]);
    }
  }
}
