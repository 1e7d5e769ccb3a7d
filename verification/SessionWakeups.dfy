/** No wake-up is lost: whenever a reader is parked on an open cache, something is under way that will wake it. */
module SessionWakeups {
  import opened SessionCell
  import opened SessionSystem
  import opened SessionSafety

  function RegOf(s: Sys, t: TaskId): Registration {
    if t in s.tasks then s.tasks[t].reg else Unregistered
  }

  /** The phases in which a task owns a `Notified` future. */
  predicate HasFuture(p: Phase) {
    p.Registered? || p.Parked? || p.Queueing? || p.Rechecking? || p.Opening? || p.Opened?
    || p.Discarding? || p.Retrying? || p.Leaving? || p.Holding?
  }

  ghost predicate NotifyInv(s: Sys) {
    && (forall t: TaskId :: HasFuture(PhaseOf(s, t)) <==> RegOf(s, t) != Unregistered)
    && (s.permit ==> forall t: TaskId :: RegOf(s, t) != Waiting)
  }

  /** Parked with a future that nobody has notified. */
  predicate Stuck(s: Sys, t: TaskId) {
    PhaseOf(s, t).Parked? && RegOf(s, t) == Waiting
  }

  /** Activity that ends in a wake-up or in a fresh look at the cache: a checkout, a notification still owed
      or not yet delivered, an open in progress, or a woken reader on its way round the loop. */
  predicate Active(p: Phase) {
    || Out(p)
    || p.Notifying? || p.ClosingRetired?
    || p.Queueing? || HasTurn(p) || p.Retrying?
    || (p.Entering? && p.woken) || (p.Registered? && p.woken)
  }

  predicate Progress(s: Sys, t: TaskId) {
    Active(PhaseOf(s, t)) || RegOf(s, t) == NotifiedOne
  }

  ghost predicate WakeInv(s: Sys) {
    !s.cell.closed && (exists t: TaskId :: Stuck(s, t)) ==> exists u: TaskId :: Progress(s, u)
  }

  /** How registrations move: a delivered notification reaches a waiting future other than the mover's own. */
  lemma RegsAfter(s: Sys, e: Event)
    requires Enabled(s, e)
    ensures
      var s' := Step(s, e);
      && (forall u: TaskId :: u != e.t ==>
            RegOf(s', u) == RegOf(s, u)
            || (RegOf(s, u) == Waiting && RegOf(s', u) == (if e.NotifyAll? then NotifiedAll else NotifiedOne)))
  {
  }

  lemma OwnReg(s: Sys, e: Event)
    requires NotifyInv(s) && Enabled(s, e)
    ensures
      var s' := Step(s, e);
      && (e.DropFuture? || e.Poll? || e.Spawn? ==> RegOf(s', e.t) == Unregistered)
      && (e.Register? ==> RegOf(s', e.t) == (if s.permit then Spent else Waiting))
      && (!(e.DropFuture? || e.Poll? || e.Spawn? || e.Register?) ==> RegOf(s', e.t) == RegOf(s, e.t))
  {
  }

  lemma Delivered(s: Sys, e: Event, t: TaskId)
    requires NotifyInv(s) && Enabled(s, e) && (e.Notify? || Forwards(s, e)) && RegOf(s, t) == Waiting
    ensures e.next.Some? && RegOf(Step(s, e), e.next.value) == NotifiedOne
  {
    assert t != e.t;
    assert IsWaiting(Moved(s, e), t);
  }

  lemma FutureEffect(c: Cell, p: Phase, e: Event, eager: bool)
    requires Fits(p, e)
    ensures HasFuture(NextPhase(c, p, e, eager)) <==>
      e.Register? || (HasFuture(p) && !e.DropFuture? && !e.Poll?)
  {
  }

  /** A single notification or a permit appears only when nobody is left waiting for it. */
  lemma PermitMeansNobodyWaits(s: Sys, e: Event)
    requires NotifyInv(s) && Enabled(s, e) && Step(s, e).permit
    ensures forall t: TaskId :: RegOf(Step(s, e), t) != Waiting
  {
    RegsAfter(s, e);
    OwnReg(s, e);
    forall t: TaskId ensures RegOf(Step(s, e), t) != Waiting {
      if RegOf(s, t) == Waiting && (e.Notify? || Forwards(s, e)) {
        Delivered(s, e, t);
      }
    }
  }

  lemma FutureAgrees(s: Sys, e: Event, t: TaskId)
    requires NotifyInv(s) && Enabled(s, e)
    ensures HasFuture(PhaseOf(Step(s, e), t)) <==> RegOf(Step(s, e), t) != Unregistered
  {
    assert HasFuture(PhaseOf(s, t)) <==> RegOf(s, t) != Unregistered;
    PhasesAfter(s, e);
    RegsAfter(s, e);
    if t == e.t {
      OwnReg(s, e);
      FutureEffect(s.cell, PhaseOf(s, t), e, s.eager);
    }
  }

  lemma NotifyInvStep(s: Sys, e: Event)
    requires NotifyInv(s) && Enabled(s, e)
    ensures NotifyInv(Step(s, e))
  {
    forall t: TaskId ensures HasFuture(PhaseOf(Step(s, e), t)) <==> RegOf(Step(s, e), t) != Unregistered {
      FutureAgrees(s, e, t);
    }
    if Step(s, e).permit {
      PermitMeansNobodyWaits(s, e);
    }
  }

  /** What an active task can turn into on an open cache: it stays active, or it hands the duty on by
      notifying; only a failed open ends it without either. */
  lemma ActiveEffect(c: Cell, p: Phase, e: Event, eager: bool)
    requires Fits(p, e) && Active(p) && !NextCell(c, p, e, eager).closed
    ensures Active(NextPhase(c, p, e, eager)) || e.Notify? || e.OpenFail?
      || (e.Observe? && c.activeReaders > 0)
  {
  }

  lemma ParkingEffect(c: Cell, p: Phase, e: Event, eager: bool)
    requires Fits(p, e) && NextPhase(c, p, e, eager).Parked?
    ensures e.Observe? && c.activeReaders > 0 && NextCell(c, p, e, eager) == c
  {
  }

  lemma ClosedStays(c: Cell, p: Phase, e: Event, eager: bool)
    requires Fits(p, e) && c.closed
    ensures NextCell(c, p, e, eager).closed && NextCell(c, p, e, eager).handle == c.handle
  {
  }

  /** Whoever kept the wake-up alive before an event, someone keeps it alive after it. */
  lemma ProgressKept(s: Sys, e: Event, t: TaskId, u: TaskId) returns (w: TaskId)
    requires CheckoutInv(s) && NotifyInv(s) && Enabled(s, e) && !e.OpenFail?
    requires !Step(s, e).cell.closed
    requires Stuck(s, t) && Stuck(Step(s, e), t) && Progress(s, u)
    ensures Progress(Step(s, e), w)
  {
    var s', p := Step(s, e), PhaseOf(s, e.t);
    PhasesAfter(s, e);
    RegsAfter(s, e);
    OwnReg(s, e);
    w := u;
    if u == e.t {
      if e.Notify? || Forwards(s, e) {
        Delivered(s, e, t);
        w := e.next.value;
      } else if Active(p) {
        ActiveEffect(s.cell, p, e, s.eager);
        if e.Observe? && s.cell.activeReaders > 0 {
          w := Checkout(s, e);
        }
      }
    }
  }

  /** A checkout that outlives an observation by another task. */
  lemma Checkout(s: Sys, e: Event) returns (w: TaskId)
    requires CheckoutInv(s) && Enabled(s, e) && e.Observe? && s.cell.activeReaders > 0
    ensures Out(PhaseOf(Step(s, e), w))
  {
    PhasesAfter(s, e);
    w :| OnlyOut(s, w);
  }

  /** A reader that is parked after an event was so before it, or it has just found the handle checked out. */
  lemma StuckOrParking(s: Sys, e: Event, t: TaskId)
    requires NotifyInv(s) && Enabled(s, e) && Stuck(Step(s, e), t) && !Stuck(s, t)
    ensures e.Observe? && s.cell.activeReaders > 0
  {
    PhasesAfter(s, e);
    RegsAfter(s, e);
    OwnReg(s, e);
    if t == e.t {
      ParkingEffect(s.cell, PhaseOf(s, e.t), e, s.eager);
    }
  }

  lemma StaysOpen(s: Sys, e: Event)
    requires Enabled(s, e) && !Step(s, e).cell.closed
    ensures !s.cell.closed
  {
    if s.cell.closed {
      ClosedStays(s.cell, PhaseOf(s, e.t), e, s.eager);
    }
  }

  lemma WakeInvStep(s: Sys, e: Event)
    requires CheckoutInv(s) && NotifyInv(s) && WakeInv(s) && Enabled(s, e) && !e.OpenFail?
    ensures WakeInv(Step(s, e))
  {
    var s' := Step(s, e);
    if !s'.cell.closed && exists t: TaskId :: Stuck(s', t) {
      var t: TaskId :| Stuck(s', t);
      StaysOpen(s, e);
      if Stuck(s, t) {
        var u: TaskId :| Progress(s, u);
        var w := ProgressKept(s, e, t, u);
        assert Progress(s', w);
      } else {
        StuckOrParking(s, e, t);
        var w := Checkout(s, e);
        assert Progress(s', w);
      }
    }
  }

  /** After a close, a parked reader can only be waiting for the close's own broadcast. */
  ghost predicate BroadcastInv(s: Sys) {
    s.cell.closed && (exists t: TaskId :: Stuck(s, t)) ==> exists u: TaskId :: PhaseOf(s, u).WakingAll?
  }

  lemma CloseEffect(c: Cell, p: Phase, e: Event, eager: bool)
    requires Fits(p, e)
    ensures NextCell(c, p, e, eager).closed && !c.closed ==> NextPhase(c, p, e, eager).WakingAll?
    ensures p.WakingAll? ==> e.NotifyAll?
  {
  }

  lemma BroadcastInvStep(s: Sys, e: Event)
    requires CheckoutInv(s) && NotifyInv(s) && BroadcastInv(s) && Enabled(s, e)
    ensures BroadcastInv(Step(s, e))
  {
    var s', p := Step(s, e), PhaseOf(s, e.t);
    if s'.cell.closed && exists t: TaskId :: Stuck(s', t) {
      var t: TaskId :| Stuck(s', t);
      var w := BroadcasterAfter(s, e, t);
      assert PhaseOf(s', w).WakingAll?;
    }
  }

  lemma BroadcasterAfter(s: Sys, e: Event, t: TaskId) returns (w: TaskId)
    requires CheckoutInv(s) && NotifyInv(s) && BroadcastInv(s) && Enabled(s, e)
    requires Step(s, e).cell.closed && Stuck(Step(s, e), t)
    ensures PhaseOf(Step(s, e), w).WakingAll?
  {
    var p := PhaseOf(s, e.t);
    PhasesAfter(s, e);
    CloseEffect(s.cell, p, e, s.eager);
    w := e.t;
    if s.cell.closed {
      StuckBefore(s, e, t);
      w :| PhaseOf(s, w).WakingAll?;
    }
  }

  /** On a closed cache nobody parks any more, and the broadcast leaves nobody waiting. */
  lemma StuckBefore(s: Sys, e: Event, t: TaskId)
    requires Enabled(s, e) && NotifyInv(s) && s.cell.closed && Stuck(Step(s, e), t)
    ensures Stuck(s, t) && !e.NotifyAll?
  {
    PhasesAfter(s, e);
    RegsAfter(s, e);
    OwnReg(s, e);
    if PhaseOf(Step(s, e), e.t).Parked? {
      ParkingEffect(s.cell, PhaseOf(s, e.t), e, s.eager);
    }
    if e.NotifyAll? {
      EveryoneNotified(s, e, t);
    }
  }

  lemma EveryoneNotified(s: Sys, e: Event, t: TaskId)
    requires Enabled(s, e) && e.NotifyAll?
    ensures RegOf(Step(s, e), t) != Waiting
  {
  }
}
