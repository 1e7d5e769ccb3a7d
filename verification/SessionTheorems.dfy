/** What holds of the read-session cache in every run: the results the comments of the source rely on. */
module SessionTheorems {
  import opened Options
  import opened SessionCell
  import opened SessionSystem
  import opened SessionSafety
  import opened SessionEviction
  import opened SessionWakeups

  ghost predicate Inv(s: Sys) {
    && CheckoutInv(s) && HandleInv(s) && RetiredInv(s) && EpochInv(s)
    && SleeperInv(s) && HomeInv(s) && NotifyInv(s) && BroadcastInv(s)
  }

  lemma NobodyYet(eager: bool, t: TaskId)
    ensures PhaseOf(Init(eager), t) == Done && RegOf(Init(eager), t) == Unregistered
  {
  }

  lemma CheckoutInvInit(eager: bool)
    ensures CheckoutInv(Init(eager)) && HandleInv(Init(eager))
  {
  }

  lemma InvInit(eager: bool)
    ensures Inv(Init(eager)) && WakeInv(Init(eager))
  {
    CheckoutInvInit(eager);
    forall t: TaskId ensures PhaseOf(Init(eager), t) == Done && RegOf(Init(eager), t) == Unregistered {
      NobodyYet(eager, t);
    }
  }

  lemma InvStep(s: Sys, e: Event)
    requires Inv(s) && Enabled(s, e)
    ensures Inv(Step(s, e))
  {
    CheckoutInvStep(s, e);
    HandleInvStep(s, e);
    RetiredInvStep(s, e);
    EpochInvStep(s, e);
    SleeperInvStep(s, e);
    HomeInvStep(s, e);
    NotifyInvStep(s, e);
    BroadcastInvStep(s, e);
  }

  lemma {:induction false} InvRun(s: Sys, es: seq<Event>)
    requires Inv(s) && Valid(s, es)
    ensures Inv(Run(s, es))
    decreases |es|
  {
    if es == [] {
    } else {
      InvStep(s, es[0]);
      InvRun(Step(s, es[0]), es[1..]);
    }
  }

  // ----- One handle at a time

  function Checkouts(s: Sys): set<TaskId> {
    set t | t in s.tasks && Out(s.tasks[t].phase)
  }

  /** In every reachable state at most one handle is usable, the reader count is the number of checkouts, and
      the epoch is recorded exactly while there is one. */
  lemma OneUsableHandle(eager: bool, es: seq<Event>)
    requires Valid(Init(eager), es)
    ensures
      var s := Run(Init(eager), es);
      && |InUse(s)| <= 1
      && s.cell.activeReaders == |Checkouts(s)|
      && (s.cell.activeEpoch.Some? <==> Checkouts(s) != {})
  {
    InvInit(eager);
    InvRun(Init(eager), es);
    var s := Run(Init(eager), es);
    CheckoutsCounted(s);
    AtMostOneInUse(s);
  }

  lemma CheckoutsCounted(s: Sys)
    requires CheckoutInv(s)
    ensures s.cell.activeReaders == |Checkouts(s)|
  {
    if s.cell.activeReaders == 0 {
      forall t ensures t !in Checkouts(s) {
        if t in s.tasks {
          assert !Out(PhaseOf(s, t));
        }
      }
      assert Checkouts(s) == {};
    } else {
      var w: TaskId :| OnlyOut(s, w);
      forall t ensures t in Checkouts(s) <==> t == w {
        if t in s.tasks {
          assert Out(PhaseOf(s, t)) ==> t == w;
        }
      }
      assert Checkouts(s) == {w};
    }
  }

  lemma AtMostOneInUse(s: Sys)
    requires CheckoutInv(s)
    ensures |InUse(s)| <= 1
  {
    if s.cell.activeReaders == 1 {
      var w: TaskId :| OnlyOut(s, w);
      forall h | h in InUse(s) ensures Some(h) == CheckedOutHandle(PhaseOf(s, w)) {
        var t :| t in s.tasks && CheckedOutHandle(s.tasks[t].phase) == Some(h);
        assert Out(PhaseOf(s, t));
      }
      SubsetOfOption(InUse(s), CheckedOutHandle(PhaseOf(s, w)));
    } else {
      forall t | t in s.tasks ensures CheckedOutHandle(s.tasks[t].phase) == None {
        assert !Out(PhaseOf(s, t));
      }
      SubsetOfOption(InUse(s), s.cell.handle);
    }
  }

  lemma SubsetOfOption(hs: set<HandleId>, x: Option<HandleId>)
    requires forall h :: h in hs ==> Some(h) == x
    ensures |hs| <= 1
  {
    if hs != {} {
      assert hs == {x.value};
    }
  }

  /** Giving a checkout back never takes the reader count below zero and never displaces a resident handle. */
  lemma RestoreNeverDisplaces(eager: bool, es: seq<Event>, t: TaskId)
    requires Valid(Init(eager), es)
    requires PhaseOf(Run(Init(eager), es), t).Searching? || PhaseOf(Run(Init(eager), es), t).Panicked?
    ensures
      var c := Run(Init(eager), es).cell;
      c.activeReaders >= 1 && c.handle == None
      && (RestoreOutcome(c).Republished? ==> RestoreOutcome(c).displaced == None && RestoreOutcome(c).drained)
  {
    InvInit(eager);
    InvRun(Init(eager), es);
    ReturningReader(Run(Init(eager), es), t);
  }

  lemma ReturningReader(s: Sys, t: TaskId)
    requires CheckoutInv(s) && (PhaseOf(s, t).Searching? || PhaseOf(s, t).Panicked?)
    ensures s.cell.activeReaders == 1 && s.cell.handle == None
    ensures RestoreOutcome(s.cell).Republished? ==>
      RestoreOutcome(s.cell).displaced == None && RestoreOutcome(s.cell).drained
  {
    assert Out(PhaseOf(s, t));
  }

  // ----- Ownership

  /** Every handle ever opened is in exactly one place: resident, closed once, lost, or held by one task. */
  lemma HandleInOnePlace(eager: bool, es: seq<Event>, h: HandleId)
    requires Valid(Init(eager), es) && h in Run(Init(eager), es).known
    ensures
      var s := Run(Init(eager), es);
      && Shelved(s, h) <= 1
      && (Shelved(s, h) == 1 <==> !KeptBySomeone(s, h))
      && (forall t: TaskId, u: TaskId ::
            Kept(PhaseOf(s, t)) == Some(h) && Kept(PhaseOf(s, u)) == Some(h) ==> t == u)
  {
    InvInit(eager);
    InvRun(Init(eager), es);
  }

  /** Once closed, the cache stays closed and its slot stays empty. */
  lemma {:induction false} ClosedForever(s: Sys, es: seq<Event>)
    requires Inv(s) && s.cell.closed && Valid(s, es)
    ensures Run(s, es).cell.closed && Run(s, es).cell.handle == None
    decreases |es|
  {
    if es == [] {
    } else {
      var e := es[0];
      InvStep(s, e);
      ClosedStays(s.cell, PhaseOf(s, e.t), e, s.eager);
      ClosedForever(Step(s, e), es[1..]);
    }
  }

  /** When every task has finished on a closed cache, each opened handle was closed once or lost. */
  lemma DrainedMeansReleased(eager: bool, es: seq<Event>, h: HandleId)
    requires Valid(Init(eager), es)
    requires Run(Init(eager), es).cell.closed && forall t: TaskId :: PhaseOf(Run(Init(eager), es), t).Done?
    requires h in Run(Init(eager), es).known
    ensures Run(Init(eager), es).closings[h] + Run(Init(eager), es).lost[h] == 1
  {
    HandleInOnePlace(eager, es, h);
    InvInit(eager);
    InvRun(Init(eager), es);
    assert !KeptBySomeone(Run(Init(eager), es), h);
  }

  // ----- Retirement

  /** The handle whose checkout begins with this event. */
  function HandedOut(s: Sys, e: Event): Option<HandleId>
    requires Enabled(s, e)
  {
    match e
    case Observe(_) => if ObserveNext(s.cell).Ready? then s.cell.handle else None
    case Publish(t) => if s.cell.closed then None else Some(PhaseOf(s, t).newborn)
    case _ => None
  }

  ghost predicate NeverAgain(s: Sys, es: seq<Event>, h: HandleId)
    requires Valid(s, es)
    decreases |es|
  {
    s.cell.handle != Some(h)
    && (es == [] || (HandedOut(s, es[0]) != Some(h) && NeverAgain(Step(s, es[0]), es[1..], h)))
  }

  lemma {:induction false} RetiredForever(s: Sys, es: seq<Event>, h: HandleId)
    requires Inv(s) && Valid(s, es) && h in s.retired
    ensures NeverAgain(s, es, h)
    decreases |es|
  {
    if es == [] {
    } else {
      InvStep(s, es[0]);
      RetiredForever(Step(s, es[0]), es[1..], h);
    }
  }

  /** A handle that is resident or checked out when a retire takes effect is never resident and never handed
      out again, however the run goes on. */
  lemma RetireIsFinal(eager: bool, before: seq<Event>, t: TaskId, after: seq<Event>, h: HandleId)
    requires Valid(Init(eager), before)
    requires
      var s := Run(Init(eager), before);
      && Enabled(s, Retire(t)) && !s.cell.closed && h in InUse(s)
      && Valid(Step(s, Retire(t)), after)
    ensures NeverAgain(Step(Run(Init(eager), before), Retire(t)), after, h)
  {
    var s := Run(Init(eager), before);
    InvInit(eager);
    InvRun(Init(eager), before);
    InvStep(s, Retire(t));
    RetiredForever(Step(s, Retire(t)), after, h);
  }

  // ----- Idle eviction

  /** A checkout, a retire or a close: anything that makes the session busy or ends it. */
  predicate Activity(s: Sys, e: Event)
    requires Enabled(s, e)
  {
    match e
    case Observe(_) => ObserveNext(s.cell).Ready?
    case Publish(_) => !s.cell.closed
    case Retire(_) => !s.cell.closed
    case Close(_) => !s.cell.closed
    case _ => false
  }

  ghost predicate Quiet(s: Sys, es: seq<Event>)
    requires Valid(s, es)
    decreases |es|
  {
    es == [] || (!Activity(s, es[0]) && Quiet(Step(s, es[0]), es[1..]))
  }

  lemma ActivityMovesStamp(s: Sys, e: Event)
    requires Enabled(s, e)
    ensures Step(s, e).cell.idleSeq == if Activity(s, e) then s.cell.idleSeq + 1 else s.cell.idleSeq
  {
  }

  lemma {:induction false} SameStampMeansQuiet(s: Sys, es: seq<Event>)
    requires Valid(s, es)
    ensures s.cell.idleSeq <= Run(s, es).cell.idleSeq
    ensures Run(s, es).cell.idleSeq == s.cell.idleSeq <==> Quiet(s, es)
    decreases |es|
  {
    if es == [] {
    } else {
      ActivityMovesStamp(s, es[0]);
      SameStampMeansQuiet(Step(s, es[0]), es[1..]);
    }
  }

  lemma EvictingSleeper(s: Sys, t: TaskId)
    requires SleeperInv(s) && PhaseOf(s, t).Asleep? && WakeOutcome(s.cell, PhaseOf(s, t).stamp).Evicted?
    ensures s.cell.idleTask == Some(t) && t !in s.aborted && s.cell.handle.Some?
    ensures PhaseOf(s, t).stamp == s.cell.idleSeq
  {
  }

  /** A sleeper armed for a restore evicts only if nothing happened to the session since that restore, and the
      sleeper that evicts is the installed one, was never aborted, and finds the handle at home.
      `s` is the state in which reader `r` gives its handle back. */
  lemma EvictionMeansQuiet(s: Sys, r: TaskId, since: seq<Event>, t: TaskId)
    requires Inv(s) && Enabled(s, Restore(r)) && Valid(Step(s, Restore(r)), since)
    requires
      var returned := Step(s, Restore(r));
      var s2 := Run(returned, since);
      && PhaseOf(returned, r).Notifying? && PhaseOf(s2, t) == Asleep(PhaseOf(returned, r).stamp)
      && WakeOutcome(s2.cell, PhaseOf(returned, r).stamp).Evicted?
    ensures Quiet(Step(s, Restore(r)), since)
    ensures
      var s2 := Run(Step(s, Restore(r)), since);
      s2.cell.idleTask == Some(t) && t !in s2.aborted && s2.cell.handle.Some?
  {
    InvStep(s, Restore(r));
    var returned := Step(s, Restore(r));
    InvRun(returned, since);
    SameStampMeansQuiet(returned, since);
    EvictingSleeper(Run(returned, since), t);
    RestoreStamp(s, r);
  }

  lemma RestoreStamp(s: Sys, r: TaskId)
    requires Enabled(s, Restore(r)) && PhaseOf(Step(s, Restore(r)), r).Notifying?
    ensures PhaseOf(Step(s, Restore(r)), r).stamp == Step(s, Restore(r)).cell.idleSeq
  {
  }

  /** At most one sleeper is alive and un-aborted, so reads cannot pile up sleeping tasks. */
  lemma OneLiveSleeper(eager: bool, es: seq<Event>, t: TaskId, u: TaskId)
    requires Valid(Init(eager), es)
    requires var s := Run(Init(eager), es);
      PhaseOf(s, t).Asleep? && PhaseOf(s, u).Asleep? && t !in s.aborted && u !in s.aborted
    ensures t == u
  {
    InvInit(eager);
    InvRun(Init(eager), es);
  }

  // ----- Wake-ups

  ghost predicate OpensSucceed(es: seq<Event>) {
    forall i :: 0 <= i < |es| ==> !es[i].OpenFail?
  }

  lemma {:induction false} WakeInvRun(s: Sys, es: seq<Event>)
    requires Inv(s) && WakeInv(s) && Valid(s, es) && OpensSucceed(es)
    ensures WakeInv(Run(s, es))
    decreases |es|
  {
    if es == [] {
    } else {
      InvStep(s, es[0]);
      WakeInvStep(s, es[0]);
      WakeInvRun(Step(s, es[0]), es[1..]);
    }
  }

  /** While opens succeed, a parked reader always has someone to wake it: on an open cache an active task or
      an undelivered notification, on a closed cache the broadcast of the close. */
  lemma NoLostWakeup(eager: bool, es: seq<Event>, t: TaskId)
    requires Valid(Init(eager), es) && OpensSucceed(es) && Stuck(Run(Init(eager), es), t)
    ensures
      var s := Run(Init(eager), es);
      if s.cell.closed then exists u: TaskId :: PhaseOf(s, u).WakingAll? else exists u: TaskId :: Progress(s, u)
  {
    InvInit(eager);
    InvRun(Init(eager), es);
    WakeInvRun(Init(eager), es);
  }

  /** Nothing can happen except that a new task arrives or a sleep ends. */
  ghost predicate OnlySleepersMove(s: Sys) {
    forall e :: Enabled(s, e) ==> e.Spawn? || e.Wake? || e.AbortLands?
  }

  /** So no run comes to rest with a reader still parked. */
  lemma NobodySleepsForever(eager: bool, es: seq<Event>, t: TaskId)
    requires Valid(Init(eager), es) && OpensSucceed(es) && OnlySleepersMove(Run(Init(eager), es))
    ensures !PhaseOf(Run(Init(eager), es), t).Parked?
  {
    InvInit(eager);
    InvRun(Init(eager), es);
    WakeInvRun(Init(eager), es);
    RestExactly(Run(Init(eager), es));
    RestingReader(Run(Init(eager), es), t);
  }

  /** Every task has finished, sleeps, or is parked and not notified. */
  ghost predicate AtRest(s: Sys) {
    forall u: TaskId :: PhaseOf(s, u).Done? || PhaseOf(s, u).Asleep? || Stuck(s, u)
  }

  lemma RestingReader(s: Sys, t: TaskId)
    requires WakeInv(s) && BroadcastInv(s) && NotifyInv(s) && AtRest(s)
    ensures !PhaseOf(s, t).Parked?
  {
    forall u: TaskId ensures !Progress(s, u) && !PhaseOf(s, u).WakingAll? {
      assert PhaseOf(s, u).Done? || PhaseOf(s, u).Asleep? || Stuck(s, u);
      assert HasFuture(PhaseOf(s, u)) <==> RegOf(s, u) != Unregistered;
    }
  }

  lemma {:induction false} UnusedNumber(used: set<nat>) returns (n: nat)
    ensures forall h :: h in used ==> h < n
    decreases used
  {
    if used == {} {
      n := 0;
    } else {
      var some :| some in used;
      var m := UnusedNumber(used - {some});
      n := if m <= some then some + 1 else m;
      assert forall h :: h in used ==> h == some || h in used - {some};
    }
  }

  lemma SomeWaiter(tasks: map<TaskId, Task>) returns (next: Option<TaskId>)
    ensures MayNotify(tasks, next)
  {
    next := None;
    if t :| t in tasks && IsWaiting(tasks, t) {
      next := Some(t);
    }
  }

  /** A task that is not at rest can do something. */
  lemma CanMove(s: Sys, u: TaskId) returns (e: Event)
    requires CheckoutInv(s) && NotifyInv(s)
    requires !(PhaseOf(s, u).Done? || PhaseOf(s, u).Asleep? || Stuck(s, u))
    ensures Enabled(s, e) && !(e.Spawn? || e.Wake? || e.AbortLands?)
  {
    match PhaseOf(s, u)
    case Entering(_) => e := Register(u);
    case Registered(_) => e := Event.Observe(u);
    case Parked =>
      assert HasFuture(PhaseOf(s, u)) <==> RegOf(s, u) != Unregistered;
      e := Poll(u);
    case Queueing => e := if s.turn == None then TakeTurn(u) else OwnerEvent(s, s.turn.value);
    case Rechecking => e := OwnerEvent(s, u);
    case Opening => e := OwnerEvent(s, u);
    case Opened(_) => e := OwnerEvent(s, u);
    case Retrying => e := Dropping(s, u);
    case Leaving => e := Dropping(s, u);
    case Holding(_) => e := Dropping(s, u);
    case Searching(_) => e := Event.Restore(u);
    case Panicked => e := Event.Release(u);
    case Notifying(_, _, _) => e := Owing(s, u);
    case Arming(_) => e := Sleeping(s, u);
    case RetireCall => e := Event.Retire(u);
    case CloseCall => e := Event.Close(u);
    case WakingAll(_) => e := NotifyAll(u);
    case _ => e := FinishClose(u);
  }

  /** What the owner of the open turn does next. */
  function OwnerEvent(s: Sys, u: TaskId): (e: Event)
    requires HasTurn(PhaseOf(s, u))
    ensures Enabled(s, e) && !(e.Spawn? || e.Wake? || e.AbortLands?)
  {
    match PhaseOf(s, u)
    case Rechecking => Event.Recheck(u)
    case Opening => OpenFail(u)
    case _ => Event.Publish(u)
  }

  lemma Dropping(s: Sys, u: TaskId) returns (e: Event)
    requires CanDrop(PhaseOf(s, u))
    ensures Enabled(s, e) && e.DropFuture?
  {
    var next := SomeWaiter(Moved(s, DropFuture(u, None)));
    e := DropFuture(u, if RegOf(s, u) == NotifiedOne then next else None);
  }

  lemma Owing(s: Sys, u: TaskId) returns (e: Event)
    requires PhaseOf(s, u).Notifying?
    ensures Enabled(s, e) && e.Notify?
  {
    var next := SomeWaiter(Moved(s, Event.Notify(u, None)));
    e := Event.Notify(u, next);
  }

  lemma Sleeping(s: Sys, u: TaskId) returns (e: Event)
    requires PhaseOf(s, u).Arming?
    ensures Enabled(s, e) && e.Arm?
  {
    var n := UnusedNumber(s.tasks.Keys);
    e := Arm(u, n);
  }

  /** Only sleeps can end exactly when every task is at rest: a queueing reader never waits for a turn nobody has. */
  lemma RestExactly(s: Sys)
    requires CheckoutInv(s) && NotifyInv(s)
    ensures OnlySleepersMove(s) <==> AtRest(s)
  {
    if OnlySleepersMove(s) {
      forall u: TaskId ensures PhaseOf(s, u).Done? || PhaseOf(s, u).Asleep? || Stuck(s, u) {
        if !(PhaseOf(s, u).Done? || PhaseOf(s, u).Asleep? || Stuck(s, u)) {
          var e := CanMove(s, u);
        }
      }
    }
    if AtRest(s) {
      forall e | Enabled(s, e) ensures e.Spawn? || e.Wake? || e.AbortLands? {
        assert PhaseOf(s, e.t).Done? || PhaseOf(s, e.t).Asleep? || Stuck(s, e.t);
      }
    }
  }
}
