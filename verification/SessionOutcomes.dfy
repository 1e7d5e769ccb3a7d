/** What each section of the read-session cache decides in a reachable state, told by what happened in the run
    rather than by the fields the section reads: who is searching, what was retired, which stamp is current. */
module SessionOutcomes {
  import opened Options
  import opened SessionCell
  import opened SessionSystem
  import opened SessionSafety
  import opened SessionEviction
  import opened SessionTheorems

  ghost predicate SomeoneOut(s: Sys) {
    exists u: TaskId :: Out(PhaseOf(s, u))
  }

  lemma CountMeansOut(s: Sys)
    requires CheckoutInv(s)
    ensures s.cell.activeReaders > 0 <==> SomeoneOut(s)
    ensures SomeoneOut(s) ==> s.cell.handle == None
  {
    if s.cell.activeReaders == 1 {
      var w: TaskId :| OnlyOut(s, w);
      assert Out(PhaseOf(s, w));
    }
  }

  // ----- Checking a handle out

  /** A look at the cache fails exactly when it is closed, takes the handle exactly when one is at home, parks
      exactly while somebody has it out, and goes to open one exactly when there is none. */
  lemma ObserveExactly(eager: bool, es: seq<Event>, t: TaskId)
    requires Valid(Init(eager), es) && PhaseOf(Run(Init(eager), es), t).Registered?
    ensures
      var s := Run(Init(eager), es);
      var p' := PhaseOf(Step(s, Event.Observe(t)), t);
      && (p'.Leaving? <==> s.cell.closed)
      && (forall h: HandleId :: p' == Holding(h) <==> !s.cell.closed && s.cell.handle == Some(h))
      && (p'.Parked? <==> !s.cell.closed && SomeoneOut(s))
      && (p'.Queueing? <==> !s.cell.closed && s.cell.handle == None && !SomeoneOut(s))
  {
    InvInit(eager);
    InvRun(Init(eager), es);
    CountMeansOut(Run(Init(eager), es));
    Observing(Run(Init(eager), es), t, SomeoneOut(Run(Init(eager), es)));
  }

  lemma Observing(s: Sys, t: TaskId, busy: bool)
    requires PhaseOf(s, t).Registered? && (s.cell.activeReaders > 0 <==> busy) && (busy ==> s.cell.handle == None)
    ensures
      var p' := PhaseOf(Step(s, Event.Observe(t)), t);
      && (p'.Leaving? <==> s.cell.closed)
      && (forall h: HandleId :: p' == Holding(h) <==> !s.cell.closed && s.cell.handle == Some(h))
      && (p'.Parked? <==> !s.cell.closed && busy)
      && (p'.Queueing? <==> !s.cell.closed && s.cell.handle == None && !busy)
  {
  }

  /** What a look leaves of the slot: empty when the handle was taken, untouched otherwise. */
  lemma ObserveTakes(s: Sys, t: TaskId)
    requires PhaseOf(s, t).Registered?
    ensures
      var s' := Step(s, Event.Observe(t));
      if PhaseOf(s', t).Holding? then s'.cell.handle == None && SomeoneOut(s') else s'.cell == s.cell
  {
    assert PhaseOf(Step(s, Event.Observe(t)), t).Holding? ==> Out(PhaseOf(Step(s, Event.Observe(t)), t));
  }

  /** The second look, under the open turn: a handle is opened exactly when the open cache has none and nobody has
      one out; otherwise the turn is given up. */
  lemma RecheckExactly(eager: bool, es: seq<Event>, t: TaskId)
    requires Valid(Init(eager), es) && PhaseOf(Run(Init(eager), es), t).Rechecking?
    ensures
      var s := Run(Init(eager), es);
      var s' := Step(s, Event.Recheck(t));
      && (PhaseOf(s', t).Opening? <==> !s.cell.closed && s.cell.handle == None && !SomeoneOut(s))
      && (PhaseOf(s', t).Leaving? <==> s.cell.closed)
      && (PhaseOf(s', t).Retrying? <==> !s.cell.closed && (s.cell.handle.Some? || SomeoneOut(s)))
      && s'.turn == if PhaseOf(s', t).Opening? then Some(t) else None
  {
    InvInit(eager);
    InvRun(Init(eager), es);
    var s := Run(Init(eager), es);
    CountMeansOut(s);
    assert HasTurn(PhaseOf(s, t));
    LooksAgain(s, t, SomeoneOut(s));
  }

  lemma LooksAgain(s: Sys, t: TaskId, busy: bool)
    requires PhaseOf(s, t).Rechecking? && (s.cell.activeReaders > 0 <==> busy) && s.turn == Some(t)
    ensures
      var s' := Step(s, Event.Recheck(t));
      && (PhaseOf(s', t).Opening? <==> !s.cell.closed && s.cell.handle == None && !busy)
      && (PhaseOf(s', t).Leaving? <==> s.cell.closed)
      && (PhaseOf(s', t).Retrying? <==> !s.cell.closed && (s.cell.handle.Some? || busy))
      && s'.turn == if PhaseOf(s', t).Opening? then Some(t) else None
  {
  }

  /** A freshly opened handle is checked out exactly when the cache is still open; then it is nobody else's and no
      retire has marked it. */
  lemma PublishExactly(eager: bool, es: seq<Event>, t: TaskId)
    requires Valid(Init(eager), es) && PhaseOf(Run(Init(eager), es), t).Opened?
    ensures
      var s := Run(Init(eager), es);
      var h := PhaseOf(s, t).newborn;
      && PhaseOf(Step(s, Event.Publish(t)), t) == (if s.cell.closed then Discarding(h) else Holding(h))
      && !SomeoneOut(s) && s.cell.handle == None && h !in s.retired
  {
    InvInit(eager);
    InvRun(Init(eager), es);
    var s := Run(Init(eager), es);
    CountMeansOut(s);
    assert OpeningCold(PhaseOf(s, t));
  }

  // ----- Giving it back

  /** A returned handle goes back into the slot exactly when the cache is open and no retire happened while it was
      in use; otherwise its reader closes it, and the slot stays empty. Either way nobody has a handle out. */
  lemma RestoreReturnsExactly(eager: bool, es: seq<Event>, t: TaskId)
    requires Valid(Init(eager), es) && PhaseOf(Run(Init(eager), es), t).Searching?
    ensures
      var s := Run(Init(eager), es);
      var h := PhaseOf(s, t).used;
      var s' := Step(s, Event.Restore(t));
      && (s'.cell.handle == Some(h) <==> !s.cell.closed && h !in s.retired)
      && s'.cell.handle == (if !s.cell.closed && h !in s.retired then Some(h) else None)
      && PhaseOf(s', t) == (if s.cell.closed then Closing(h) else if h in s.retired then ClosingRetired(h)
                            else Notifying(None, true, s.cell.idleSeq))
      && s'.cell.closed == s.cell.closed && s'.cell.idleSeq == s.cell.idleSeq && !SomeoneOut(s')
  {
    InvInit(eager);
    InvRun(Init(eager), es);
    InvStep(Run(Init(eager), es), Event.Restore(t));
    RestoreReturns(Run(Init(eager), es), t);
    CountMeansOut(Step(Run(Init(eager), es), Event.Restore(t)));
  }

  lemma RestoreReturns(s: Sys, t: TaskId)
    requires CheckoutInv(s) && RetiredInv(s) && EpochInv(s) && PhaseOf(s, t).Searching?
    ensures
      var h := PhaseOf(s, t).used;
      var s' := Step(s, Event.Restore(t));
      && s'.cell.handle == (if !s.cell.closed && h !in s.retired then Some(h) else None)
      && PhaseOf(s', t) == (if s.cell.closed then Closing(h) else if h in s.retired then ClosingRetired(h)
                            else Notifying(None, true, s.cell.idleSeq))
      && s'.cell.closed == s.cell.closed && s'.cell.idleSeq == s.cell.idleSeq && s'.cell.activeReaders == 0
  {
    assert Out(PhaseOf(s, t)) && s.cell.activeReaders == 1;
    assert Marked(s, t) <==> PhaseOf(s, t).used in s.retired;
  }

  /** So a restored handle is at home for the next reader: one that looks before anything else happens takes it. */
  lemma RestoredIsTakenNext(eager: bool, es: seq<Event>, t: TaskId, u: TaskId)
    requires Valid(Init(eager), es)
    requires
      var s := Run(Init(eager), es);
      && PhaseOf(s, t).Searching? && !s.cell.closed && PhaseOf(s, t).used !in s.retired
      && u != t && PhaseOf(s, u).Registered?
    ensures
      var s := Run(Init(eager), es);
      PhaseOf(Step(Step(s, Event.Restore(t)), Event.Observe(u)), u) == Holding(PhaseOf(s, t).used)
  {
    var s := Run(Init(eager), es);
    RestoreReturnsExactly(eager, es, t);
    StillRegistered(s, t, u);
    TakesResident(Step(s, Event.Restore(t)), u);
  }

  lemma StillRegistered(s: Sys, t: TaskId, u: TaskId)
    requires PhaseOf(s, t).Searching? && u != t && PhaseOf(s, u).Registered?
    ensures PhaseOf(Step(s, Event.Restore(t)), u).Registered?
  {
  }

  lemma TakesResident(s: Sys, u: TaskId)
    requires PhaseOf(s, u).Registered? && !s.cell.closed && s.cell.handle.Some?
    ensures PhaseOf(Step(s, Event.Observe(u)), u) == Holding(s.cell.handle.value)
  {
  }

  // ----- Retiring and closing

  /** A retire of an open cache empties the slot, hands a resident handle to the retiring task to close, and marks
      exactly the handles in use; on a closed cache it does nothing. */
  lemma RetireExactly(s: Sys, t: TaskId, h: HandleId)
    requires PhaseOf(s, t).RetireCall?
    ensures
      var s' := Step(s, Event.Retire(t));
      && s'.cell.handle == (if s.cell.closed then s.cell.handle else None)
      && (PhaseOf(s', t) == Closing(h) <==> !s.cell.closed && s.cell.handle == Some(h))
      && (h in s'.retired <==>
            || h in s.retired
            || (!s.cell.closed && s.cell.handle == Some(h))
            || (!s.cell.closed && exists u: TaskId :: CheckedOutHandle(PhaseOf(s, u)) == Some(h)))
      && s'.cell.closed == s.cell.closed
  {
    RetireMarks(s, Event.Retire(t), h);
  }

  /** The first close empties the slot and hands a resident handle to the closing task, which wakes every parked
      reader before it closes the handle; a later close does nothing. */
  lemma CloseExactly(s: Sys, t: TaskId)
    requires PhaseOf(s, t).CloseCall?
    ensures
      var s' := Step(s, Event.Close(t));
      && s'.cell.closed
      && (if s.cell.closed then s'.cell == s.cell && PhaseOf(s', t).Done?
          else s'.cell.handle == None && PhaseOf(s', t) == WakingAll(s.cell.handle))
  {
  }

  // ----- Idle handles

  /** The resident handle has a live sleeper under the current stamp, or a task that still has to arm one. */
  ghost predicate Watched(s: Sys) {
    (s.cell.idleTask.Some? && !s.eager) || exists t: TaskId :: Pending(PhaseOf(s, t)) == Some(s.cell.idleSeq)
  }

  ghost predicate WatchInv(s: Sys) {
    s.cell.handle.Some? ==> Watched(s)
  }

  /** How one event can leave a handle in the slot. */
  predicate WatchEffect(c: Cell, p: Phase, e: Event, eager: bool, c': Cell, p': Phase)
    requires Fits(p, e)
  {
    c'.handle.Some? ==>
      && c'.idleSeq == c.idleSeq
      && (c'.handle == c.handle || (Out(p) && Pending(p') == Some(c.idleSeq)))
      && (c'.idleTask == c.idleTask || (c'.idleTask.Some? && !eager))
      && (Pending(p) == Some(c.idleSeq) ==> Pending(p') == Pending(p) || (c'.idleTask.Some? && !eager))
  }

  lemma WatchEffects(c: Cell, p: Phase, e: Event, eager: bool)
    requires Fits(p, e) && (c.handle.Some? ==> c.activeReaders == 0 && !c.closed)
    requires Out(p) ==> c.activeReaders == 1
    requires OpeningCold(p) ==> c.handle == None
    ensures WatchEffect(c, p, e, eager, NextCell(c, p, e, eager), NextPhase(c, p, e, eager))
  {
  }

  lemma WatchInvKept(s: Sys, e: Event, s': Sys)
    requires WatchInv(s) && Fits(PhaseOf(s, e.t), e) && s'.eager == s.eager
    requires forall u: TaskId :: u != e.t ==> PhaseOf(s', u) == PhaseOf(s, u) || NewSleeper(s, e, s', u)
    requires WatchEffect(s.cell, PhaseOf(s, e.t), e, s.eager, s'.cell, PhaseOf(s', e.t))
    ensures WatchInv(s')
  {
    if s'.cell.handle.Some? && !(s'.cell.idleTask.Some? && !s'.eager) {
      if s'.cell.handle == s.cell.handle {
        var t: TaskId :| Pending(PhaseOf(s, t)) == Some(s.cell.idleSeq);
        assert Pending(PhaseOf(s', t)) == Some(s'.cell.idleSeq);
      } else {
        assert Pending(PhaseOf(s', e.t)) == Some(s'.cell.idleSeq);
      }
    }
  }

  lemma WatchInvStep(s: Sys, e: Event)
    requires CheckoutInv(s) && WatchInv(s) && Enabled(s, e)
    ensures WatchInv(Step(s, e))
  {
    StepIsCore(s, e);
    assert Out(PhaseOf(s, e.t)) ==> s.cell.activeReaders == 1;
    WatchEffects(s.cell, PhaseOf(s, e.t), e, s.eager);
    WatchInvKept(s, e, Step(s, e));
  }

  lemma {:induction false} WatchInvRun(s: Sys, es: seq<Event>)
    requires CheckoutInv(s) && WatchInv(s) && Valid(s, es)
    ensures WatchInv(Run(s, es))
    decreases |es|
  {
    if es == [] {
    } else {
      CheckoutInvStep(s, es[0]);
      WatchInvStep(s, es[0]);
      WatchInvRun(Step(s, es[0]), es[1..]);
    }
  }

  /** No handle is left in the slot unwatched: in every reachable state a resident handle has a sleeper that is
      asleep under the current stamp and not aborted, or a reader that still has to schedule its idle close. */
  lemma IdleHandleIsWatched(eager: bool, es: seq<Event>)
    requires Valid(Init(eager), es) && Run(Init(eager), es).cell.handle.Some?
    ensures
      var s := Run(Init(eager), es);
      || (!eager && exists u: TaskId :: PhaseOf(s, u) == Asleep(s.cell.idleSeq) && u !in s.aborted)
      || (exists t: TaskId :: Pending(PhaseOf(s, t)) == Some(s.cell.idleSeq))
  {
    InvInit(eager);
    InvRun(Init(eager), es);
    WatchInvRun(Init(eager), es);
    EagerStays(Init(eager), es);
    var s := Run(Init(eager), es);
    if s.cell.idleTask.Some? {
      assert PhaseOf(s, s.cell.idleTask.value) == Asleep(s.cell.idleSeq);
    }
  }

  lemma {:induction false} EagerStays(s: Sys, es: seq<Event>)
    requires Valid(s, es)
    ensures Run(s, es).eager == s.eager
    decreases |es|
  {
    if es == [] {
    } else {
      EagerStays(Step(s, es[0]), es[1..]);
    }
  }

  /** With an idle TTL, a scheduled close installs its sleeper exactly when its stamp is still current, and never
      touches the handle. */
  lemma ArmingInstallsExactly(es: seq<Event>, t: TaskId, u: TaskId)
    requires Valid(Init(false), es) && PhaseOf(Run(Init(false), es), t).Arming? && u !in Run(Init(false), es).tasks
    ensures
      var s := Run(Init(false), es);
      var stamp := PhaseOf(s, t).stamp;
      var s' := Step(s, Arm(t, u));
      && (s'.cell.idleTask == Some(u) <==> stamp == s.cell.idleSeq)
      && (PhaseOf(s', u) == Asleep(stamp) <==> stamp == s.cell.idleSeq)
      && s'.cell.handle == s.cell.handle && PhaseOf(s', t).Done?
  {
    InvInit(false);
    InvRun(Init(false), es);
    EagerStays(Init(false), es);
    ArmingInstalls(Run(Init(false), es), t, u);
  }

  lemma ArmingInstalls(s: Sys, t: TaskId, u: TaskId)
    requires SleeperInv(s) && HomeInv(s) && !s.eager && PhaseOf(s, t).Arming? && u !in s.tasks
    ensures
      var stamp := PhaseOf(s, t).stamp;
      var s' := Step(s, Arm(t, u));
      && (s'.cell.idleTask == Some(u) <==> stamp == s.cell.idleSeq)
      && (PhaseOf(s', u) == Asleep(stamp) <==> stamp == s.cell.idleSeq)
      && s'.cell.handle == s.cell.handle && PhaseOf(s', t).Done?
  {
    assert Pending(PhaseOf(s, t)) == Some(PhaseOf(s, t).stamp);
    Installs(s, t, u, PhaseOf(s, t).stamp);
  }

  lemma Installs(s: Sys, t: TaskId, u: TaskId, stamp: nat)
    requires !s.eager && PhaseOf(s, t) == Arming(stamp) && u !in s.tasks && s.cell.idleTask != Some(u)
    requires stamp == s.cell.idleSeq ==> s.cell.handle.Some? && !s.cell.closed && s.cell.activeReaders == 0
    ensures
      var s' := Step(s, Arm(t, u));
      && (s'.cell.idleTask == Some(u) <==> stamp == s.cell.idleSeq)
      && (PhaseOf(s', u) == Asleep(stamp) <==> stamp == s.cell.idleSeq)
      && s'.cell.handle == s.cell.handle && PhaseOf(s', t).Done?
  {
  }

  /** A sleeper that wakes evicts the resident handle exactly when its stamp is still current, which is exactly when
      it is the installed one. */
  lemma SleeperEvictsExactly(eager: bool, es: seq<Event>, t: TaskId)
    requires Valid(Init(eager), es) && PhaseOf(Run(Init(eager), es), t).Asleep?
    ensures
      var s := Run(Init(eager), es);
      var s' := Step(s, Event.Wake(t));
      && (PhaseOf(s, t).stamp == s.cell.idleSeq <==> s.cell.idleTask == Some(t))
      && (if PhaseOf(s, t).stamp == s.cell.idleSeq then
            s.cell.handle.Some? && PhaseOf(s', t) == Closing(s.cell.handle.value) && s'.cell.handle == None
          else s'.cell == s.cell && PhaseOf(s', t).Done?)
  {
    InvInit(eager);
    InvRun(Init(eager), es);
    Waking(Run(Init(eager), es), t);
  }

  lemma Waking(s: Sys, t: TaskId)
    requires SleeperInv(s) && PhaseOf(s, t).Asleep?
    ensures PhaseOf(s, t).stamp == s.cell.idleSeq <==> s.cell.idleTask == Some(t)
    ensures
      var s' := Step(s, Event.Wake(t));
      if PhaseOf(s, t).stamp == s.cell.idleSeq then
        s.cell.handle.Some? && PhaseOf(s', t) == Closing(s.cell.handle.value) && s'.cell.handle == None
      else s'.cell == s.cell && PhaseOf(s', t).Done?
  {
    WakesUp(s, t, PhaseOf(s, t).stamp);
  }

  lemma WakesUp(s: Sys, t: TaskId, stamp: nat)
    requires PhaseOf(s, t) == Asleep(stamp)
    requires stamp == s.cell.idleSeq ==> s.cell.handle.Some? && !s.cell.closed && s.cell.activeReaders == 0
    ensures
      var s' := Step(s, Event.Wake(t));
      if stamp == s.cell.idleSeq then
        PhaseOf(s', t) == Closing(s.cell.handle.value) && s'.cell.handle == None
      else s'.cell == s.cell && PhaseOf(s', t).Done?
  {
  }

  /** With a zero TTL, a scheduled close takes the handle out of the slot and closes it whenever one is there,
      whatever happened since it was scheduled. */
  lemma ArmingEvictsExactly(es: seq<Event>, t: TaskId, u: TaskId)
    requires Valid(Init(true), es) && PhaseOf(Run(Init(true), es), t).Arming? && u !in Run(Init(true), es).tasks
    ensures
      var s := Run(Init(true), es);
      var s' := Step(s, Arm(t, u));
      && s'.cell.handle == None && PhaseOf(s', u).Done?
      && PhaseOf(s', t) == if s.cell.handle.Some? then Closing(s.cell.handle.value) else Done
  {
    InvInit(true);
    InvRun(Init(true), es);
    EagerStays(Init(true), es);
    EvictsNow(Run(Init(true), es), t, u);
  }

  lemma EvictsNow(s: Sys, t: TaskId, u: TaskId)
    requires s.eager && PhaseOf(s, t).Arming? && u !in s.tasks
    requires s.cell.handle.Some? ==> s.cell.activeReaders == 0 && !s.cell.closed
    ensures
      var s' := Step(s, Arm(t, u));
      && s'.cell.handle == None && PhaseOf(s', u).Done?
      && PhaseOf(s', t) == if s.cell.handle.Some? then Closing(s.cell.handle.value) else Done
  {
  }

  /** With a zero TTL no handle stays in the slot once every task has finished: each is closed or lost. */
  lemma EagerEndsCold(es: seq<Event>)
    requires Valid(Init(true), es) && forall t: TaskId :: PhaseOf(Run(Init(true), es), t).Done?
    ensures Run(Init(true), es).cell.handle == None
  {
    InvInit(true);
    WatchInvRun(Init(true), es);
    EagerStays(Init(true), es);
  }
}
