/** From enqueued changes to indexed revisions: batching, lazy takes, and what a finished run proves. */
module Coordination {
  import opened Options
  import opened ChangeScopes
  import opened ChangeSets
  import opened Revisions

  /** What a job takes: the collapsed pending changes and the revision they reach. */
  datatype Batch = Batch(snapshot: Scopes, revision: Generation)

  /** One enqueue: what it reported, the revision it was given, and the batch that drained it, if any yet. */
  datatype Entry = Entry(changes: Scopes, revision: Generation, home: Option<nat>)

  datatype Outcome = Completed | Noop | Failed

  /** `handoffs[j]` is the batch job `j` took, by position in `batches`; `done` are the batches whose run
      completed (or had nothing to do); `log` records every enqueue. */
  datatype Coord = Coord(
    pending: Scopes, target: Generation, counters: Counters,
    handoffs: seq<Option<nat>>, batches: seq<Batch>, done: set<nat>, log: seq<Entry>)

  const IDLE := Coord(NOTHING, 0, FRESH, [], [], {}, [])

  datatype Event =
    | Enqueue(changes: Scopes, accepted: bool)
    | Take(job: nat)
    | WatcherLost
    | Finish(job: nat, outcome: Outcome)

  predicate IsEmpty(s: Scopes) {
    !HasPaths(s) && !s.force
  }

  /** `accepted` is false when the scheduler refuses the job because it is shutting down. Reports lie under the
      root, counters are below saturation, and a run ends as a no-op exactly when its batch was empty. */
  predicate Enabled(s: Coord, root: Path, e: Event) {
    match e
    case Enqueue(changes, _) =>
      Rooted(changes, Some(root)) && s.counters.dirty < MAX_GENERATION && s.counters.full < MAX_GENERATION
    case Take(job) => job < |s.handoffs|
    case WatcherLost => s.counters.full < MAX_GENERATION
    case Finish(job, outcome) =>
      && job < |s.handoffs| && s.handoffs[job].Some? && s.handoffs[job].value < |s.batches|
      && (outcome.Noop? ==> IsEmpty(s.batches[s.handoffs[job].value].snapshot))
      && (outcome.Completed? ==> !IsEmpty(s.batches[s.handoffs[job].value].snapshot))
  }

  ghost function EnqueueStep(s: Coord, root: Path, budget: nat, changes: Scopes, accepted: bool): Coord {
    var counters := AfterDirty(if changes.force then AfterDemand(s.counters, false) else s.counters);
    s.(pending := Merge(s.pending, Some(root), budget, changes),
       target := counters.dirty, counters := counters,
       handoffs := if accepted then s.handoffs + [None] else s.handoffs,
       log := s.log + [Entry(changes, counters.dirty, None)])
  }

  function Drained(log: seq<Entry>, home: nat): seq<Entry> {
    seq(|log|, i requires 0 <= i < |log| => if log[i].home == None then log[i].(home := Some(home)) else log[i])
  }

  /** Only the first take of a job drains; later ones replay its batch. */
  ghost function TakeStep(s: Coord, job: nat): Coord
    requires job < |s.handoffs|
  {
    if s.handoffs[job].Some? then s
    else
      s.(pending := NOTHING,
         handoffs := s.handoffs[job := Some(|s.batches|)],
         batches := s.batches + [Batch(Collapse(s.pending), s.target)],
         log := Drained(s.log, |s.batches|))
  }

  /** A completed full run reconciles with the epoch current when it finishes. */
  function FinishCounters(c: Counters, b: Batch, outcome: Outcome): Counters {
    match outcome
    case Completed =>
      if b.snapshot.force then AfterReconciled(c, b.revision, c.full) else AfterIndexed(c, b.revision)
    case Noop => if b.snapshot.force then c else AfterIndexed(c, b.revision)
    case Failed => c
  }

  function FinishStep(s: Coord, job: nat, outcome: Outcome): Coord
    requires job < |s.handoffs| && s.handoffs[job].Some? && s.handoffs[job].value < |s.batches|
  {
    var home := s.handoffs[job].value;
    s.(counters := FinishCounters(s.counters, s.batches[home], outcome),
       done := if outcome.Failed? then s.done else s.done + {home})
  }

  ghost function Step(s: Coord, root: Path, budget: nat, e: Event): Coord
    requires Enabled(s, root, e)
  {
    match e
    case Enqueue(changes, accepted) => EnqueueStep(s, root, budget, changes, accepted)
    case Take(job) => TakeStep(s, job)
    case WatcherLost => s.(counters := AfterDemand(s.counters, false))
    case Finish(job, outcome) => FinishStep(s, job, outcome)
  }

  ghost predicate Valid(s: Coord, root: Path, budget: nat, es: seq<Event>)
    decreases |es|
  {
    es == [] || (Enabled(s, root, es[0]) && Valid(Step(s, root, budget, es[0]), root, budget, es[1..]))
  }

  ghost function Run(s: Coord, root: Path, budget: nat, es: seq<Event>): Coord
    requires Valid(s, root, budget, es)
    decreases |es|
  {
    if es == [] then s else Run(Step(s, root, budget, es[0]), root, budget, es[1..])
  }

  // ----- The invariant

  /** An enqueue is covered by the pending set until it is drained, and by its batch ever after; revisions
      order the batches around it. */
  ghost predicate EntryOk(s: Coord, x: Entry) {
    && x.revision <= s.target
    && match x.home
       case None =>
         CoversAll(s.pending, x.changes) && forall k :: 0 <= k < |s.batches| ==> s.batches[k].revision < x.revision
       case Some(home) =>
         && home < |s.batches|
         && CoversAll(s.batches[home].snapshot, x.changes)
         && x.revision <= s.batches[home].revision
         && forall k :: 0 <= k < home ==> s.batches[k].revision < x.revision
  }

  ghost predicate Inv(s: Coord, root: Path) {
    && Rooted(s.pending, Some(root)) && root != []
    && InOrder(s.counters) && s.target == s.counters.dirty
    && (forall i :: 0 <= i < |s.log| ==> EntryOk(s, s.log[i]))
    && (forall i, j :: 0 <= i <= j < |s.batches| ==> s.batches[i].revision <= s.batches[j].revision)
    && (forall k :: 0 <= k < |s.batches| ==> s.batches[k].revision <= s.target)
    && (forall j :: 0 <= j < |s.handoffs| && s.handoffs[j].Some? ==> s.handoffs[j].value < |s.batches|)
  }

  lemma EnqueueInv(s: Coord, root: Path, budget: nat, changes: Scopes, accepted: bool)
    requires Inv(s, root) && Enabled(s, root, Enqueue(changes, accepted))
    ensures Inv(EnqueueStep(s, root, budget, changes, accepted), root)
  {
    var t := EnqueueStep(s, root, budget, changes, accepted);
    MergeCovers(s.pending, Some(root), budget, changes);
    forall i | 0 <= i < |t.log| ensures EntryOk(t, t.log[i]) {
      if i < |s.log| {
        assert EntryOk(s, s.log[i]);
      }
    }
  }

  lemma TakeInv(s: Coord, root: Path, job: nat)
    requires Inv(s, root) && job < |s.handoffs|
    ensures Inv(TakeStep(s, job), root)
  {
    var t := TakeStep(s, job);
    CollapseStaysRooted(s.pending, Some(root));
    if s.handoffs[job] == None {
      forall i | 0 <= i < |t.log| ensures EntryOk(t, t.log[i]) {
        assert EntryOk(s, s.log[i]);
      }
    }
  }

  lemma InvStep(s: Coord, root: Path, budget: nat, e: Event)
    requires Inv(s, root) && Enabled(s, root, e)
    ensures Inv(Step(s, root, budget, e), root)
  {
    var t := Step(s, root, budget, e);
    match e
    case Enqueue(changes, accepted) => EnqueueInv(s, root, budget, changes, accepted);
    case Take(job) => TakeInv(s, root, job);
    case WatcherLost =>
      forall i | 0 <= i < |t.log| ensures EntryOk(t, t.log[i]) {
        assert EntryOk(s, s.log[i]);
      }
    case Finish(job, outcome) =>
      forall i | 0 <= i < |t.log| ensures EntryOk(t, t.log[i]) {
        assert EntryOk(s, s.log[i]);
      }
  }

  lemma {:induction false} InvRun(s: Coord, root: Path, budget: nat, es: seq<Event>)
    requires Inv(s, root) && Valid(s, root, budget, es)
    ensures Inv(Run(s, root, budget, es), root)
    decreases |es|
  {
    if es == [] {
    } else {
      InvStep(s, root, budget, es[0]);
      InvRun(Step(s, root, budget, es[0]), root, budget, es[1..]);
    }
  }

  // ----- Every change reaches exactly one batch

  predicate Drains(s: Coord, e: Event) {
    e.Take? && e.job < |s.handoffs| && s.handoffs[e.job] == None
  }

  ghost predicate NoDrain(s: Coord, root: Path, budget: nat, es: seq<Event>)
    requires Valid(s, root, budget, es)
    decreases |es|
  {
    es == [] || (!Drains(s, es[0]) && NoDrain(Step(s, root, budget, es[0]), root, budget, es[1..]))
  }

  lemma {:induction false} PendingKeeps(
      s: Coord, root: Path, budget: nat, es: seq<Event>, changes: Scopes, r: Generation)
    requires Inv(s, root) && Valid(s, root, budget, es) && NoDrain(s, root, budget, es)
    requires CoversAll(s.pending, changes) && r <= s.target
    ensures
      var t := Run(s, root, budget, es);
      CoversAll(t.pending, changes) && r <= t.target
    decreases |es|
  {
    if es == [] {
    } else {
      InvStep(s, root, budget, es[0]);
      if es[0].Enqueue? {
        MergeCovers(s.pending, Some(root), budget, es[0].changes);
      }
      PendingKeeps(Step(s, root, budget, es[0]), root, budget, es[1..], changes, r);
    }
  }

  /** An enqueued change stays covered by the pending set until the first take that drains, and is covered by
      exactly the batch of that take, whose revision is at least the one the enqueue was given; the take leaves
      nothing of it behind for a later batch. */
  lemma FirstTakeGetsIt(
      s: Coord, root: Path, budget: nat, changes: Scopes, accepted: bool, between: seq<Event>, job: nat)
    requires Inv(s, root) && Enabled(s, root, Enqueue(changes, accepted))
    requires
      var queued := EnqueueStep(s, root, budget, changes, accepted);
      && Valid(queued, root, budget, between) && NoDrain(queued, root, budget, between)
      && Drains(Run(queued, root, budget, between), Take(job))
    ensures
      var queued := EnqueueStep(s, root, budget, changes, accepted);
      var before := Run(queued, root, budget, between);
      var after := TakeStep(before, job);
      && CoversAll(before.pending, changes)
      && after.handoffs[job] == Some(|before.batches|)
      && CoversAll(after.batches[|before.batches|].snapshot, changes)
      && after.batches[|before.batches|].revision >= queued.counters.dirty
      && after.pending == NOTHING
  {
    var queued := EnqueueStep(s, root, budget, changes, accepted);
    InvStep(s, root, budget, Enqueue(changes, accepted));
    MergeCovers(s.pending, Some(root), budget, changes);
    PendingKeeps(queued, root, budget, between, changes, queued.counters.dirty);
    InvRun(queued, root, budget, between);
    CollapseStaysRooted(Run(queued, root, budget, between).pending, Some(root));
  }

  /** A job's batch never changes, so every later take of the job returns the same pair and drains nothing. */
  lemma {:induction false} BatchIsFixed(s: Coord, root: Path, budget: nat, es: seq<Event>, job: nat)
    requires Valid(s, root, budget, es) && job < |s.handoffs| && s.handoffs[job].Some?
    requires s.handoffs[job].value < |s.batches|
    ensures
      var t := Run(s, root, budget, es);
      && job < |t.handoffs| && t.handoffs[job] == s.handoffs[job] && s.handoffs[job].value < |t.batches|
      && t.batches[s.handoffs[job].value] == s.batches[s.handoffs[job].value]
      && TakeStep(t, job) == t
    decreases |es|
  {
    if es == [] {
    } else {
      BatchIsFixed(Step(s, root, budget, es[0]), root, budget, es[1..], job);
    }
  }

  /** In every reachable state each enqueued change is covered by the pending set or by its batch. */
  lemma NoChangeIsLost(root: Path, budget: nat, es: seq<Event>, i: nat)
    requires root != [] && Valid(IDLE, root, budget, es) && i < |Run(IDLE, root, budget, es).log|
    ensures
      var s := Run(IDLE, root, budget, es);
      match s.log[i].home
      case None => CoversAll(s.pending, s.log[i].changes) && s.log[i].revision <= s.target
      case Some(home) =>
        && home < |s.batches| && CoversAll(s.batches[home].snapshot, s.log[i].changes)
        && s.log[i].revision <= s.batches[home].revision
  {
    InvRun(IDLE, root, budget, es);
    assert EntryOk(Run(IDLE, root, budget, es), Run(IDLE, root, budget, es).log[i]);
  }

  // ----- What an indexed revision proves

  /** The batch's run has ended well, or a later full run has. */
  ghost predicate Settled(s: Coord, k: nat) {
    exists later :: k <= later < |s.batches| && later in s.done && (later == k || s.batches[later].snapshot.force)
  }

  /** Whatever the indexed revision claims has been indexed. */
  ghost predicate ClaimsHold(s: Coord) {
    forall i :: 0 <= i < |s.log| && s.log[i].revision <= s.counters.indexed ==>
      s.log[i].home.Some? && Settled(s, s.log[i].home.value)
  }

  /** Every enqueue drained before batch `home` is settled. */
  ghost predicate EarlierSettled(s: Coord, home: nat) {
    forall i :: 0 <= i < |s.log| && s.log[i].home.Some? && s.log[i].home.value < home ==>
      Settled(s, s.log[i].home.value)
  }

  lemma SettledStays(s: Coord, t: Coord, k: nat)
    requires Settled(s, k) && s.batches <= t.batches && s.done <= t.done
    ensures Settled(t, k)
  {
    var later :| k <= later < |s.batches| && later in s.done && (later == k || s.batches[later].snapshot.force);
    assert t.batches[later] == s.batches[later];
  }

  /** Enqueues, takes, demands and failed runs never make the indexed revision claim too much. */
  lemma ClaimsKeptByOthers(s: Coord, root: Path, budget: nat, e: Event)
    requires Inv(s, root) && ClaimsHold(s) && Enabled(s, root, e) && (e.Finish? ==> e.outcome == Failed)
    ensures ClaimsHold(Step(s, root, budget, e))
  {
    var t := Step(s, root, budget, e);
    forall i | 0 <= i < |t.log| && t.log[i].revision <= t.counters.indexed
      ensures t.log[i].home.Some? && Settled(t, t.log[i].home.value)
    {
      assert i < |s.log| && s.log[i].home.Some?;
      SettledStays(s, t, s.log[i].home.value);
    }
  }

  /** A run that ends well keeps the claims true exactly when it was a full run or everything drained before
      its batch was already settled. */
  lemma FinishKeepsClaimsExactly(s: Coord, root: Path, job: nat, outcome: Outcome)
    requires Inv(s, root) && ClaimsHold(s) && Enabled(s, root, Finish(job, outcome)) && outcome != Failed
    ensures
      var home := s.handoffs[job].value;
      ClaimsHold(FinishStep(s, job, outcome)) <==> s.batches[home].snapshot.force || EarlierSettled(s, home)
  {
    var home, t := s.handoffs[job].value, FinishStep(s, job, outcome);
    if s.batches[home].snapshot.force || EarlierSettled(s, home) {
      forall i | 0 <= i < |t.log| && t.log[i].revision <= t.counters.indexed
        ensures t.log[i].home.Some? && Settled(t, t.log[i].home.value)
      {
        ClaimedEntrySettled(s, root, job, outcome, i);
      }
    }
    if ClaimsHold(t) && !s.batches[home].snapshot.force {
      forall i | 0 <= i < |s.log| && s.log[i].home.Some? && s.log[i].home.value < home
        ensures Settled(s, s.log[i].home.value)
      {
        assert EntryOk(s, s.log[i]);
        var k := s.log[i].home.value;
        assert s.batches[k].revision <= s.batches[home].revision;
        assert t.log[i].revision <= t.counters.indexed;
        var later :| k <= later < |t.batches| && later in t.done && (later == k || t.batches[later].snapshot.force);
        assert later in s.done;
      }
    }
  }

  lemma ClaimedEntrySettled(s: Coord, root: Path, job: nat, outcome: Outcome, i: nat)
    requires Inv(s, root) && ClaimsHold(s) && Enabled(s, root, Finish(job, outcome)) && outcome != Failed
    requires s.batches[s.handoffs[job].value].snapshot.force || EarlierSettled(s, s.handoffs[job].value)
    requires i < |s.log| && s.log[i].revision <= FinishStep(s, job, outcome).counters.indexed
    ensures s.log[i].home.Some? && Settled(FinishStep(s, job, outcome), s.log[i].home.value)
  {
    var home, t := s.handoffs[job].value, FinishStep(s, job, outcome);
    assert EntryOk(s, s.log[i]);
    if s.log[i].revision <= s.counters.indexed {
      SettledStays(s, t, s.log[i].home.value);
    } else {
      assert s.log[i].revision <= s.batches[home].revision;
      assert s.log[i].home.Some? && s.log[i].home.value <= home;
      if s.log[i].home.value < home && !s.batches[home].snapshot.force {
        SettledStays(s, t, s.log[i].home.value);
      } else {
        assert home in t.done;
      }
    }
  }

  /** A change that is not settled keeps the root visibly in need of reconciliation, as long as the claims hold. */
  lemma UnsettledShows(s: Coord, root: Path, i: nat)
    requires Inv(s, root) && ClaimsHold(s) && i < |s.log|
    requires s.log[i].home == None || !Settled(s, s.log[i].home.value)
    ensures NeedsReconciliation(s.counters)
  {
    assert EntryOk(s, s.log[i]);
  }

  /** A run that ends well here was a full one, or everything drained before its batch is already settled. */
  ghost predicate Orderly(s: Coord, root: Path, e: Event)
    requires Enabled(s, root, e)
  {
    e.Finish? && e.outcome != Failed ==>
      s.batches[s.handoffs[e.job].value].snapshot.force || EarlierSettled(s, s.handoffs[e.job].value)
  }

  ghost predicate AllOrderly(s: Coord, root: Path, budget: nat, es: seq<Event>)
    requires Valid(s, root, budget, es)
    decreases |es|
  {
    es == [] || (Orderly(s, root, es[0]) && AllOrderly(Step(s, root, budget, es[0]), root, budget, es[1..]))
  }

  /** The claims hold at every state of the run. */
  ghost predicate ClaimsHoldThroughout(s: Coord, root: Path, budget: nat, es: seq<Event>)
    requires Valid(s, root, budget, es)
    decreases |es|
  {
    ClaimsHold(s) && (es == [] || ClaimsHoldThroughout(Step(s, root, budget, es[0]), root, budget, es[1..]))
  }

  /** The indexed revision never claims too much in the course of a run exactly when each run that ends well in it is a
      full one or finds everything drained before its batch settled. */
  lemma {:induction false} ClaimsHoldThroughoutExactly(s: Coord, root: Path, budget: nat, es: seq<Event>)
    requires Inv(s, root) && ClaimsHold(s) && Valid(s, root, budget, es)
    ensures ClaimsHoldThroughout(s, root, budget, es) <==> AllOrderly(s, root, budget, es)
    ensures AllOrderly(s, root, budget, es) ==> ClaimsHold(Run(s, root, budget, es))
    decreases |es|
  {
    if es == [] {
    } else {
      var e := es[0];
      InvStep(s, root, budget, e);
      if e.Finish? && e.outcome != Failed {
        FinishKeepsClaimsExactly(s, root, e.job, e.outcome);
      } else {
        ClaimsKeptByOthers(s, root, budget, e);
      }
      if ClaimsHold(Step(s, root, budget, e)) {
        ClaimsHoldThroughoutExactly(Step(s, root, budget, e), root, budget, es[1..]);
      }
    }
  }

  /** A root that reads as fresh has indexed every change ever enqueued, in every such run from the start. */
  lemma OrderlyFreshMeansIndexed(root: Path, budget: nat, es: seq<Event>)
    requires root != [] && Valid(IDLE, root, budget, es)
    ensures ClaimsHoldThroughout(IDLE, root, budget, es) <==> AllOrderly(IDLE, root, budget, es)
    ensures AllOrderly(IDLE, root, budget, es) && !NeedsReconciliation(Run(IDLE, root, budget, es).counters) ==>
      var log := Run(IDLE, root, budget, es).log;
      forall i :: 0 <= i < |log| ==> log[i].home.Some? && Settled(Run(IDLE, root, budget, es), log[i].home.value)
  {
    var s := Run(IDLE, root, budget, es);
    InvRun(IDLE, root, budget, es);
    ClaimsHoldThroughoutExactly(IDLE, root, budget, es);
    if AllOrderly(IDLE, root, budget, es) && !NeedsReconciliation(s.counters) {
      forall i | 0 <= i < |s.log| ensures s.log[i].home.Some? && Settled(s, s.log[i].home.value) {
        if s.log[i].home == None || !Settled(s, s.log[i].home.value) {
          UnsettledShows(s, root, i);
        }
      }
    }
  }

  // ----- Two ways the claims break

  const REPO: Name := "repo"
  const FILE_A: Name := "a.rs"
  const FILE_B: Name := "b.rs"

  ghost predicate Reachable(s: Coord) {
    exists es :: Valid(IDLE, [REPO], 1000, es) && Run(IDLE, [REPO], 1000, es) == s
  }

  ghost predicate Leads(s: Coord, e: Event, t: Coord) {
    Enabled(s, [REPO], e) && Step(s, [REPO], 1000, e) == t
  }

  lemma {:induction false} RunAppend(s: Coord, es: seq<Event>, e: Event, t: Coord)
    requires Valid(s, [REPO], 1000, es) && Leads(Run(s, [REPO], 1000, es), e, t)
    ensures Valid(s, [REPO], 1000, es + [e]) && Run(s, [REPO], 1000, es + [e]) == t
    decreases |es|
  {
    var more := es + [e];
    if es == [] {
      assert more[0] == e && more[1..] == [];
      assert Valid(t, [REPO], 1000, more[1..]) && Run(t, [REPO], 1000, more[1..]) == t;
    } else {
      assert more[0] == es[0] && more[1..] == es[1..] + [e];
      RunAppend(Step(s, [REPO], 1000, es[0]), es[1..], e, t);
    }
  }

  lemma Reach(s: Coord, e: Event, t: Coord)
    requires Reachable(s) && Leads(s, e, t)
    ensures Reachable(t)
  {
    var es :| Valid(IDLE, [REPO], 1000, es) && Run(IDLE, [REPO], 1000, es) == s;
    RunAppend(IDLE, es, e, t);
  }

  function OneFile(file: Name): Scopes {
    Scopes({[REPO, file]}, {}, {}, false)
  }

  /** What enqueueing one changed file on an empty pending set and taking it at once leads to. */
  ghost function Queued(s: Coord, file: Name): Coord {
    s.(pending := OneFile(file), target := s.counters.dirty + 1, counters := s.counters.(dirty := s.counters.dirty + 1),
       handoffs := s.handoffs + [None], log := s.log + [Entry(OneFile(file), s.counters.dirty + 1, None)])
  }

  ghost function Taken(s: Coord, file: Name): Coord {
    Coord(NOTHING, s.counters.dirty + 1, s.counters.(dirty := s.counters.dirty + 1),
          s.handoffs + [Some(|s.batches|)], s.batches + [Batch(OneFile(file), s.counters.dirty + 1)], s.done,
          Drained(s.log + [Entry(OneFile(file), s.counters.dirty + 1, None)], |s.batches|))
  }

  lemma QueueAndTake(s: Coord, file: Name)
    requires s.pending == NOTHING && s.counters.dirty < MAX_GENERATION && s.counters.full < MAX_GENERATION
    ensures Leads(s, Enqueue(OneFile(file), true), Queued(s, file))
    ensures Leads(Queued(s, file), Take(|s.handoffs|), Taken(s, file))
  {
    assert {} + OneFile(file).touched == OneFile(file).touched;
    assert Merge(NOTHING, Some([REPO]), 1000, OneFile(file)) == OneFile(file);
    NormalIsFixpoint(OneFile(file));
  }

  /** The root reads as fresh, but the first change ever enqueued was never indexed. */
  ghost predicate Forgotten(s: Coord) {
    !NeedsReconciliation(s.counters) && s.log != [] && s.log[0].home == Some(0) && !Settled(s, 0)
  }

  /** A failed run has already drained its change; the next run that completes marks both revisions indexed,
      so the root reads as fresh although the first change was never indexed. */
  lemma FailedBatchIsForgotten()
    ensures exists s :: Reachable(s) && Forgotten(s)
  {
    assert Valid(IDLE, [REPO], 1000, []) && Run(IDLE, [REPO], 1000, []) == IDLE;
    var s1 := Taken(IDLE, FILE_A);
    QueueAndTake(IDLE, FILE_A);
    Reach(IDLE, Enqueue(OneFile(FILE_A), true), Queued(IDLE, FILE_A));
    Reach(Queued(IDLE, FILE_A), Take(0), s1);
    FirstRunFails();
    Reach(s1, Finish(0, Failed), s1);
    QueueAndTake(s1, FILE_B);
    Reach(s1, Enqueue(OneFile(FILE_B), true), Queued(s1, FILE_B));
    Reach(Queued(s1, FILE_B), Take(1), Taken(s1, FILE_B));
    SecondRunHidesFirst();
    Reach(Taken(s1, FILE_B), Finish(1, Completed), FinishStep(Taken(s1, FILE_B), 1, Completed));
  }

  lemma FirstRunFails()
    ensures Leads(Taken(IDLE, FILE_A), Finish(0, Failed), Taken(IDLE, FILE_A))
  {
  }

  lemma SecondRunHidesFirst()
    ensures
      var s2 := Taken(Taken(IDLE, FILE_A), FILE_B);
      Leads(s2, Finish(1, Completed), FinishStep(s2, 1, Completed)) && Forgotten(FinishStep(s2, 1, Completed))
  {
  }

  /** Finishing a run leaves a full reconciliation owed exactly when one was owed and the run was not a
      completed full one: the epoch is read at the finish, so a demand raised while a full run was under way
      is discharged with it. */
  lemma FinishDischargesDemandsExactly(s: Coord, root: Path, job: nat, outcome: Outcome)
    requires Inv(s, root) && Enabled(s, root, Finish(job, outcome))
    ensures
      var b := s.batches[s.handoffs[job].value];
      OwesFull(FinishStep(s, job, outcome).counters) <==>
        OwesFull(s.counters) && !(outcome == Completed && b.snapshot.force)
  {
  }

  /** A full run completes here. */
  predicate CompletesFull(s: Coord, root: Path, e: Event)
    requires Enabled(s, root, e)
  {
    e.Finish? && e.outcome == Completed && s.batches[s.handoffs[e.job].value].snapshot.force
  }

  ghost predicate NoFullCompletes(s: Coord, root: Path, budget: nat, es: seq<Event>)
    requires Valid(s, root, budget, es)
    decreases |es|
  {
    || es == []
    || (!CompletesFull(s, root, es[0]) && NoFullCompletes(Step(s, root, budget, es[0]), root, budget, es[1..]))
  }

  /** A demand that has been raised is discharged by the first full run that completes, whenever that run took its
      batch, and by nothing else. */
  lemma DemandStep(s: Coord, root: Path, budget: nat, e: Event, epoch: Generation)
    requires Inv(s, root) && Enabled(s, root, e) && epoch <= s.counters.full
    ensures epoch <= Step(s, root, budget, e).counters.full
    ensures Step(s, root, budget, e).counters.reconciled < epoch <==>
      s.counters.reconciled < epoch && !CompletesFull(s, root, e)
  {
  }

  /** From any state the invariant admits, a demand that is owed, of whatever epoch, is still owed at the end of a run
      exactly when no full run has completed in it. */
  lemma {:induction false} DemandStaysOwedExactly(
      s: Coord, root: Path, budget: nat, es: seq<Event>, epoch: Generation)
    requires Inv(s, root) && Valid(s, root, budget, es) && s.counters.reconciled < epoch <= s.counters.full
    ensures Run(s, root, budget, es).counters.reconciled < epoch <==> NoFullCompletes(s, root, budget, es)
    ensures NoFullCompletes(s, root, budget, es) ==> OwesFull(Run(s, root, budget, es).counters)
    decreases |es|
  {
    if es == [] {
    } else {
      InvStep(s, root, budget, es[0]);
      DemandStep(s, root, budget, es[0], epoch);
      if CompletesFull(s, root, es[0]) {
        DischargedStays(Step(s, root, budget, es[0]), root, budget, es[1..], epoch);
      } else {
        DemandStaysOwedExactly(Step(s, root, budget, es[0]), root, budget, es[1..], epoch);
      }
    }
  }

  lemma {:induction false} DischargedStays(s: Coord, root: Path, budget: nat, es: seq<Event>, epoch: Generation)
    requires Inv(s, root) && Valid(s, root, budget, es) && epoch <= s.counters.reconciled
    ensures epoch <= Run(s, root, budget, es).counters.reconciled
    decreases |es|
  {
    if es == [] {
    } else {
      InvStep(s, root, budget, es[0]);
      DemandStep(s, root, budget, es[0], epoch);
      DischargedStays(Step(s, root, budget, es[0]), root, budget, es[1..], epoch);
    }
  }

  const WHOLE := Scopes({}, {}, {}, true)

  /** The state in which a full run has been taken, after some demands beyond its own. */
  ghost function FullRunUnderWay(demands: nat): Coord
    requires demands < MAX_GENERATION
  {
    var counters := FRESH.(dirty := 1, full := 1 + demands, nonProbeable := 1 + demands);
    Coord(NOTHING, 1, counters, [Some(0)], [Batch(WHOLE, 1)], {}, [Entry(WHOLE, 1, Some(0))])
  }

  ghost function FullRunQueued(): Coord {
    var counters := FRESH.(dirty := 1, full := 1, nonProbeable := 1);
    Coord(WHOLE, 1, counters, [None], [], {}, [Entry(WHOLE, 1, None)])
  }

  lemma FullRunSteps()
    ensures Leads(IDLE, Enqueue(WHOLE, true), FullRunQueued())
    ensures Leads(FullRunQueued(), Take(0), FullRunUnderWay(0))
  {
    assert Merge(NOTHING, Some([REPO]), 1000, WHOLE) == WHOLE;
    NormalIsFixpoint(WHOLE);
    assert Drained([Entry(WHOLE, 1, None)], 0) == [Entry(WHOLE, 1, Some(0))];
  }

  lemma FullRunIsReached()
    ensures Reachable(FullRunUnderWay(0))
  {
    assert Valid(IDLE, [REPO], 1000, []) && Run(IDLE, [REPO], 1000, []) == IDLE;
    FullRunSteps();
    Reach(IDLE, Enqueue(WHOLE, true), FullRunQueued());
    Reach(FullRunQueued(), Take(0), FullRunUnderWay(0));
  }

  /** From `s`, where job 0 has its batch, a demand is raised; then job 0 finishes and nothing is owed. */
  ghost predicate DischargedWithRun(s: Coord, t: Coord, u: Coord) {
    && 0 < |s.handoffs| && s.handoffs[0].Some? && Leads(s, WatcherLost, t) && Leads(t, Finish(0, Completed), u)
    && t.counters.full == s.counters.full + 1 && OwesFull(t.counters) && !OwesFull(u.counters)
  }

  lemma FullRunDischarges()
    ensures DischargedWithRun(
      FullRunUnderWay(0), FullRunUnderWay(1), FinishStep(FullRunUnderWay(1), 0, Completed))
  {
  }

  /** The watcher is lost while a full run that was taken before is under way; when that run finishes, nothing is
      owed. */
  lemma DemandDuringRunIsDischarged()
    ensures exists s, t, u :: Reachable(s) && DischargedWithRun(s, t, u)
  {
    FullRunIsReached();
    FullRunDischarges();
  }
}
