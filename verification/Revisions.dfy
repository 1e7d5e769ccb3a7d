/** The revision and epoch counters of one root: what is dirty, what is indexed, what is owed. */
module Revisions {
  type Generation = nat

  /** Counters saturate here instead of wrapping. */
  const MAX_GENERATION: Generation := 0xFFFF_FFFF_FFFF_FFFF

  function Next(g: Generation): Generation {
    if g >= MAX_GENERATION then MAX_GENERATION else g + 1
  }

  datatype Counters = Counters(
    dirty: Generation, indexed: Generation, full: Generation, reconciled: Generation, nonProbeable: Generation)

  const FRESH := Counters(0, 0, 0, 0, 0)

  function AfterDirty(c: Counters): Counters {
    c.(dirty := Next(c.dirty))
  }

  function AfterIndexed(c: Counters, revision: Generation): Counters {
    if revision > c.indexed then c.(indexed := revision) else c
  }

  function AfterDemand(c: Counters, probeAllowed: bool): Counters {
    var full := Next(c.full);
    c.(full := full, nonProbeable := if probeAllowed then c.nonProbeable else full)
  }

  function AfterReconciled(c: Counters, revision: Generation, epoch: Generation): Counters {
    var marked := AfterIndexed(c, revision);
    if epoch > marked.reconciled then marked.(reconciled := epoch) else marked
  }

  predicate OwesFull(c: Counters) {
    c.reconciled < c.full
  }

  predicate NeedsReconciliation(c: Counters) {
    OwesFull(c) || c.indexed < c.dirty
  }

  /** One call on the runtime. */
  datatype Mark =
    | Dirty
    | Indexed(revision: Generation)
    | Demand(probeAllowed: bool)
    | Reconciled(revision: Generation, epoch: Generation)

  function ApplyMark(c: Counters, m: Mark): Counters {
    match m
    case Dirty => AfterDirty(c)
    case Indexed(revision) => AfterIndexed(c, revision)
    case Demand(probeAllowed) => AfterDemand(c, probeAllowed)
    case Reconciled(revision, epoch) => AfterReconciled(c, revision, epoch)
  }

  function ApplyMarks(c: Counters, ms: seq<Mark>): Counters
    decreases |ms|
  {
    if ms == [] then c else ApplyMarks(ApplyMark(c, ms[0]), ms[1..])
  }

  /** The mark says that revision `r` has been indexed. */
  predicate ReachesRevision(m: Mark, r: Generation) {
    (m.Indexed? || m.Reconciled?) && m.revision >= r
  }

  predicate ReachesEpoch(m: Mark, e: Generation) {
    m.Reconciled? && m.epoch >= e
  }

  /** Nothing runs ahead of what was demanded, and no counter is past saturation. */
  predicate InOrder(c: Counters) {
    c.indexed <= c.dirty <= MAX_GENERATION && c.reconciled <= c.full <= MAX_GENERATION
  }

  lemma {:induction false} IndexedByMarks(c: Counters, ms: seq<Mark>, r: Generation)
    requires c.indexed < r
    ensures ApplyMarks(c, ms).indexed >= r <==> exists i :: 0 <= i < |ms| && ReachesRevision(ms[i], r)
    decreases |ms|
  {
    if ms == [] {
    } else {
      var next := ApplyMark(c, ms[0]);
      if next.indexed >= r {
        IndexedNeverDrops(next, ms[1..]);
        assert ReachesRevision(ms[0], r);
      } else {
        IndexedByMarks(next, ms[1..], r);
        if i :| 0 <= i < |ms| && ReachesRevision(ms[i], r) {
          assert ms[1..][i - 1] == ms[i];
        }
      }
    }
  }

  lemma {:induction false} IndexedNeverDrops(c: Counters, ms: seq<Mark>)
    ensures ApplyMarks(c, ms).indexed >= c.indexed && ApplyMarks(c, ms).reconciled >= c.reconciled
    ensures c.dirty <= MAX_GENERATION ==> ApplyMarks(c, ms).dirty >= c.dirty
    ensures c.full <= MAX_GENERATION ==> ApplyMarks(c, ms).full >= c.full
    decreases |ms|
  {
    if ms == [] {
    } else {
      IndexedNeverDrops(ApplyMark(c, ms[0]), ms[1..]);
    }
  }

  lemma {:induction false} ReconciledByMarks(c: Counters, ms: seq<Mark>, e: Generation)
    requires c.reconciled < e
    ensures ApplyMarks(c, ms).reconciled >= e <==> exists i :: 0 <= i < |ms| && ReachesEpoch(ms[i], e)
    decreases |ms|
  {
    if ms == [] {
    } else {
      var next := ApplyMark(c, ms[0]);
      if next.reconciled >= e {
        IndexedNeverDrops(next, ms[1..]);
        assert ReachesEpoch(ms[0], e);
      } else {
        ReconciledByMarks(next, ms[1..], e);
        if i :| 0 <= i < |ms| && ReachesEpoch(ms[i], e) {
          assert ms[1..][i - 1] == ms[i];
        }
      }
    }
  }

  /** Below saturation a recorded change stays visibly unindexed until some mark reaches its revision: marks
      with an older revision never discharge it. */
  lemma StaleRevisionNeverDischarges(c: Counters, ms: seq<Mark>)
    requires InOrder(c) && c.dirty < MAX_GENERATION
    ensures
      var r := AfterDirty(c).dirty;
      var after := ApplyMarks(AfterDirty(c), ms);
      && after.dirty >= r
      && (after.indexed < r <==> forall i :: 0 <= i < |ms| ==> !ReachesRevision(ms[i], r))
      && (after.indexed < r ==> NeedsReconciliation(after))
  {
    var d := AfterDirty(c);
    IndexedNeverDrops(d, ms);
    IndexedByMarks(d, ms, d.dirty);
  }

  /** Likewise a full reconciliation stays owed until some mark reaches the epoch of the demand. */
  lemma StaleEpochNeverDischarges(c: Counters, probeAllowed: bool, ms: seq<Mark>)
    requires InOrder(c) && c.full < MAX_GENERATION
    ensures
      var e := AfterDemand(c, probeAllowed).full;
      var after := ApplyMarks(AfterDemand(c, probeAllowed), ms);
      && after.full >= e
      && (after.reconciled < e <==> forall i :: 0 <= i < |ms| ==> !ReachesEpoch(ms[i], e))
      && (after.reconciled < e ==> OwesFull(after))
  {
    var d := AfterDemand(c, probeAllowed);
    IndexedNeverDrops(d, ms);
    ReconciledByMarks(d, ms, d.full);
  }

  /** Saturation is the exact limit: a new change fails to show only when both counters are already at the top
      and nothing else is owed. */
  lemma DirtyShowsExactly(c: Counters)
    requires InOrder(c)
    ensures NeedsReconciliation(AfterDirty(c)) <==>
      OwesFull(c) || c.indexed < MAX_GENERATION
  {
  }

  // ----- What the counters are after any calls

  function Max(a: Generation, b: Generation): Generation {
    if a < b then b else a
  }

  function Saturated(n: nat): Generation {
    if n < 0xFFFF_FFFF_FFFF_FFFF then n else 0xFFFF_FFFF_FFFF_FFFF
  }

  function DirtyCalls(ms: seq<Mark>): nat {
    if ms == [] then 0 else (if ms[0].Dirty? then 1 else 0) + DirtyCalls(ms[1..])
  }

  function DemandCalls(ms: seq<Mark>): nat {
    if ms == [] then 0 else (if ms[0].Demand? then 1 else 0) + DemandCalls(ms[1..])
  }

  /** The demands up to the last one that blocks the probe; none if none does. */
  function DemandsToBlock(ms: seq<Mark>): nat {
    if forall i :: 0 <= i < |ms| ==> ms[i] != Demand(false) then 0
    else (if ms[0].Demand? then 1 else 0) + DemandsToBlock(ms[1..])
  }

  /** The counters summarise the calls so far: how many changes and demands there were, the largest revision and epoch
      reported done, and which demand was the last to block the probe. */
  lemma {:induction false} CountersSummarise(c: Counters, ms: seq<Mark>)
    requires c.dirty <= MAX_GENERATION && c.full <= MAX_GENERATION
    ensures
      var d := ApplyMarks(c, ms);
      && d.dirty == Saturated(c.dirty + DirtyCalls(ms)) && d.full == Saturated(c.full + DemandCalls(ms))
      && d.nonProbeable == (if DemandsToBlock(ms) == 0 then c.nonProbeable else Saturated(c.full + DemandsToBlock(ms)))
    decreases |ms|
  {
    if ms == [] {
    } else {
      CountersSummarise(ApplyMark(c, ms[0]), ms[1..]);
      BlockStep(ms);
    }
  }

  lemma BlockStep(ms: seq<Mark>)
    requires ms != []
    ensures DemandsToBlock(ms) ==
      if DemandsToBlock(ms[1..]) > 0 then (if ms[0].Demand? then 1 else 0) + DemandsToBlock(ms[1..])
      else if ms[0] == Demand(false) then 1 else 0
  {
    NoBlockExactly(ms[1..]);
    if i :| 0 <= i < |ms| && ms[i] == Demand(false) {
      assert i > 0 ==> ms[1..][i - 1] == ms[i];
    }
  }

  lemma {:induction false} NoBlockExactly(ms: seq<Mark>)
    ensures DemandsToBlock(ms) == 0 <==> forall i :: 0 <= i < |ms| ==> ms[i] != Demand(false)
  {
    if i :| 0 <= i < |ms| && ms[i] == Demand(false) {
      NoBlockExactly(ms[1..]);
      assert i > 0 ==> ms[1..][i - 1] == ms[i];
    }
  }

  /** The indexed revision and the reconciled epoch are the largest ever reported. */
  lemma DoneIsLargest(c: Counters, ms: seq<Mark>, r: Generation)
    ensures ApplyMarks(c, ms).indexed >= r <==>
      c.indexed >= r || exists i :: 0 <= i < |ms| && ReachesRevision(ms[i], r)
    ensures ApplyMarks(c, ms).reconciled >= r <==>
      c.reconciled >= r || exists i :: 0 <= i < |ms| && ReachesEpoch(ms[i], r)
  {
    IndexedNeverDrops(c, ms);
    if c.indexed < r {
      IndexedByMarks(c, ms, r);
    }
    if c.reconciled < r {
      ReconciledByMarks(c, ms, r);
    }
  }

  /** The runtime's counters, updated in place by the one task that owns them. */
  class RootRuntime {
    var dirtyRevision: Generation
    var indexedRevision: Generation
    var fullEpoch: Generation
    var reconciledEpoch: Generation
    var nonProbeableEpoch: Generation

    function Value(): Counters
      reads this
    {
      Counters(dirtyRevision, indexedRevision, fullEpoch, reconciledEpoch, nonProbeableEpoch)
    }

    constructor ()
      ensures Value() == FRESH
    {
      dirtyRevision, indexedRevision, fullEpoch, reconciledEpoch, nonProbeableEpoch := 0, 0, 0, 0, 0;
    }

    method MarkDirty() returns (revision: Generation)
      modifies this
      ensures Value() == AfterDirty(old(Value())) && revision == Value().dirty
    {
      dirtyRevision := Next(dirtyRevision);
      revision := dirtyRevision;
    }

    method MarkIndexed(revision: Generation)
      modifies this
      ensures Value() == AfterIndexed(old(Value()), revision)
    {
      if revision > indexedRevision {
        indexedRevision := revision;
      }
    }

    method RequireFullReconciliation(probeAllowed: bool)
      modifies this
      ensures Value() == AfterDemand(old(Value()), probeAllowed)
    {
      fullEpoch := Next(fullEpoch);
      if !probeAllowed {
        nonProbeableEpoch := fullEpoch;
      }
    }

    method MarkReconciled(revision: Generation, epoch: Generation)
      modifies this
      ensures Value() == AfterReconciled(old(Value()), revision, epoch)
    {
      MarkIndexed(revision);
      if epoch > reconciledEpoch {
        reconciledEpoch := epoch;
      }
    }
  }
}
