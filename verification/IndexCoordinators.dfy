/** The coordinator and the jobs it hands out, updated in place. */
module IndexCoordinators {
  import opened Options
  import opened ChangeScopes
  import opened ChangeSets
  import opened ChangeAccumulator
  import opened Revisions
  import opened Coordination

  /** One submitted job's handoff cell: empty until its first take. */
  class Job {
    var handoff: Option<Batch>

    constructor ()
      ensures handoff == None
    {
      handoff := None;
    }
  }

  class IndexCoordinator {
    var pending: ChangeSet
    var target: Generation
    const root: Path
    const budget: nat

    predicate Valid()
      reads this, pending
    {
      pending.root == Some(root) && pending.maxChangedPaths == budget
    }

    constructor (root: Path, budget: nat)
      ensures Valid() && fresh(pending)
      ensures this.root == root && this.budget == budget
      ensures pending.Value() == NOTHING && target == 0
    {
      pending := new ChangeSet(Some(root), budget);
      target := 0;
      this.root, this.budget := root, budget;
    }

    method HasPending() returns (waiting: bool)
      ensures waiting <==> !IsEmpty(pending.Value())
    {
      waiting := HasPaths(pending.Value()) || pending.forceFullReconcile;
    }

    /** Merges `changes`, bumps the dirty revision and submits one job; `job` is absent when the scheduler is
        closed, but the changes are pending all the same. */
    method Enqueue(changes: Scopes, runtime: RootRuntime, schedulerOpen: bool) returns (job: Option<Job>)
      requires Valid()
      modifies this`target, pending, runtime
      ensures Valid()
      ensures pending.Value() == Merge(old(pending.Value()), Some(root), budget, changes)
      ensures runtime.Value() ==
        AfterDirty(if changes.force then AfterDemand(old(runtime.Value()), false) else old(runtime.Value()))
      ensures target == runtime.Value().dirty
      ensures job.Some? <==> schedulerOpen
      ensures job.Some? ==> fresh(job.value) && job.value.handoff == None
    {
      if changes.force {
        runtime.RequireFullReconciliation(false);
      }
      pending.Merge(changes);
      target := runtime.MarkDirty();
      if !schedulerOpen {
        return None;
      }
      var submitted := new Job();
      job := Some(submitted);
    }

    /** The take handle of `job`: the first call drains the pending set into the job, later calls replay. */
    method Take(job: Job) returns (batch: Batch)
      requires Valid()
      modifies this`pending, pending, job
      ensures Valid() && target == old(target)
      ensures job.handoff == Some(batch)
      ensures old(job.handoff).Some? ==>
        batch == old(job.handoff).value && pending == old(pending) && pending.Value() == old(pending.Value())
      ensures old(job.handoff) == None ==>
        batch == Batch(Collapse(old(pending.Value())), target) && pending.Value() == NOTHING && fresh(pending)
    {
      if job.handoff.Some? {
        return job.handoff.value;
      }
      var snapshot := pending.Snapshot();
      batch := Batch(snapshot, target);
      pending := new ChangeSet(Some(root), budget);
      job.handoff := Some(batch);
    }

    /** What the actor does when a run reports back. */
    static method ApplyFinished(runtime: RootRuntime, batch: Batch, outcome: Outcome)
      modifies runtime
      ensures runtime.Value() == FinishCounters(old(runtime.Value()), batch, outcome)
    {
      match outcome {
        case Completed =>
          if batch.snapshot.force {
            runtime.MarkReconciled(batch.revision, runtime.fullEpoch);
          } else {
            runtime.MarkIndexed(batch.revision);
          }
        case Noop =>
          if !batch.snapshot.force {
            runtime.MarkIndexed(batch.revision);
          }
        case Failed =>
      }
    }
  }
}
