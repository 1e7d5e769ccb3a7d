/** Which parked readers can still be woken: the tasks whose remaining course leads to a notification, and what a
    failed open leaves behind when there is none. */
module SessionRescues {
  import opened Options
  import opened SessionCell
  import opened SessionSystem
  import opened SessionSafety
  import opened SessionWakeups
  import opened SessionTheorems

  /** Left to itself a task in this phase can come to notify somebody: it is a reader that has yet to search or to
      give its handle back, it owes a notification, it is about to close the cache, or it drops a notified future. */
  predicate Rescues(p: Phase, r: Registration) {
    match p
    case Parked => r != Waiting
    case Leaving => r == NotifiedOne
    case Discarding(_) => r == NotifiedOne
    case ClosingDisplaced(_, _, _) => false
    case Closing(_) => false
    case Arming(_) => false
    case RetireCall => false
    case Asleep(_) => false
    case Done => false
    case _ => true
  }

  predicate Rescuer(s: Sys, v: TaskId) {
    Rescues(PhaseOf(s, v), RegOf(s, v))
  }

  predicate NoSpawns(es: seq<Event>) {
    forall i :: 0 <= i < |es| ==> !es[i].Spawn?
  }

  /** The tasks there are can go on in such a way that the reader is woken. */
  ghost predicate CanBeWoken(s: Sys, u: TaskId) {
    exists es :: Valid(s, es) && NoSpawns(es) && !Stuck(Run(s, es), u)
  }

  /** The reader stays parked and unnotified however the tasks there are go on. */
  ghost predicate StrandedForever(s: Sys, u: TaskId) {
    forall es :: Valid(s, es) && NoSpawns(es) ==> Stuck(Run(s, es), u)
  }

  // ----- One step nearer

  lemma Onward(s: Sys, e: Event, u: TaskId)
    requires Enabled(s, e) && !e.Spawn?
    requires Stuck(Step(s, e), u) ==> CanBeWoken(Step(s, e), u)
    ensures CanBeWoken(s, u)
  {
    var es: seq<Event> := [];
    if Stuck(Step(s, e), u) {
      es :| Valid(Step(s, e), es) && NoSpawns(es) && !Stuck(Run(Step(s, e), es), u);
    } else {
      assert Valid(Step(s, e), es) && Run(Step(s, e), es) == Step(s, e);
    }
    var all := [e] + es;
    assert all[0] == e && all[1..] == es;
    assert Valid(s, all) && Run(s, all) == Run(Step(s, e), es) && NoSpawns(all);
  }

  /** What the mover's step does to the cell, the turn and its own phase. */
  lemma Moves(s: Sys, e: Event)
    requires Enabled(s, e)
    ensures
      var s' := Step(s, e);
      && s'.cell == NextCell(s.cell, PhaseOf(s, e.t), e, s.eager) && s'.turn == NextTurn(s.cell, s.turn, e)
      && PhaseOf(s', e.t) == NextPhase(s.cell, PhaseOf(s, e.t), e, s.eager)
  {
    PhasesAfter(s, e);
  }

  lemma MoverIsNotStuck(s: Sys, e: Event, u: TaskId)
    requires Enabled(s, e) && Stuck(s, u)
    ensures u != e.t
  {
  }

  lemma Notifies(s: Sys, u: TaskId, v: TaskId)
    requires Stuck(s, u) && PhaseOf(s, v).Notifying?
    ensures CanBeWoken(s, u)
  {
    var e := Notify(v, Some(u));
    assert IsWaiting(Moved(s, e), u);
    assert Step(s, e).tasks == Deliver(Moved(s, e), Some(u));
    Onward(s, e, u);
  }

  lemma Broadcasts(s: Sys, u: TaskId, v: TaskId)
    requires Stuck(s, u) && PhaseOf(s, v).WakingAll?
    ensures CanBeWoken(s, u)
  {
    EveryoneNotified(s, NotifyAll(v), u);
    Onward(s, NotifyAll(v), u);
  }

  /** A dropped future passes its notification on. */
  lemma PassesOn(s: Sys, u: TaskId, v: TaskId)
    requires Stuck(s, u) && CanDrop(PhaseOf(s, v)) && RegOf(s, v) == NotifiedOne
    ensures CanBeWoken(s, u)
  {
    var e := DropFuture(v, Some(u));
    assert Forwards(s, e) && IsWaiting(Moved(s, e), u);
    assert Step(s, e).tasks == Deliver(Moved(s, e), Some(u));
    Onward(s, e, u);
  }

  lemma DiscardsNotified(s: Sys, u: TaskId, v: TaskId)
    requires Stuck(s, u) && PhaseOf(s, v).Discarding? && RegOf(s, v) == NotifiedOne
    ensures CanBeWoken(s, u)
  {
    var e := FinishClose(v);
    Moves(s, e);
    if Stuck(Step(s, e), u) {
      PassesOn(Step(s, e), u, v);
    }
    Onward(s, e, u);
  }

  lemma ClosesRetired(s: Sys, u: TaskId, v: TaskId)
    requires Stuck(s, u) && PhaseOf(s, v).ClosingRetired?
    ensures CanBeWoken(s, u)
  {
    var e := FinishClose(v);
    Moves(s, e);
    if Stuck(Step(s, e), u) {
      Notifies(Step(s, e), u, v);
    }
    Onward(s, e, u);
  }

  lemma ClosesCache(s: Sys, u: TaskId, v: TaskId)
    requires Stuck(s, u) && PhaseOf(s, v).CloseCall? && !s.cell.closed
    ensures CanBeWoken(s, u)
  {
    var e := Event.Close(v);
    Moves(s, e);
    if Stuck(Step(s, e), u) {
      Broadcasts(Step(s, e), u, v);
    }
    Onward(s, e, u);
  }

  // ----- A reader with the handle

  lemma Releases(s: Sys, u: TaskId, v: TaskId)
    requires Stuck(s, u) && PhaseOf(s, v).Panicked?
    ensures CanBeWoken(s, u)
  {
    var e := Event.Release(v);
    Moves(s, e);
    if Stuck(Step(s, e), u) {
      Notifies(Step(s, e), u, v);
    }
    Onward(s, e, u);
  }

  lemma Restores(s: Sys, u: TaskId, v: TaskId)
    requires Stuck(s, u) && PhaseOf(s, v).Searching? && !s.cell.closed
    ensures CanBeWoken(s, u)
  {
    var e := Event.Restore(v);
    Moves(s, e);
    if Stuck(Step(s, e), u) {
      if PhaseOf(Step(s, e), v).Notifying? {
        Notifies(Step(s, e), u, v);
      } else {
        ClosesRetired(Step(s, e), u, v);
      }
    }
    Onward(s, e, u);
  }

  lemma Searches(s: Sys, u: TaskId, v: TaskId)
    requires Stuck(s, u) && PhaseOf(s, v).Holding? && !s.cell.closed
    ensures CanBeWoken(s, u)
  {
    if RegOf(s, v) == NotifiedOne {
      PassesOn(s, u, v);
    } else {
      var e := DropFuture(v, None);
      Moves(s, e);
      if Stuck(Step(s, e), u) {
        Restores(Step(s, e), u, v);
      }
      Onward(s, e, u);
    }
  }

  lemma CheckedOut(s: Sys, u: TaskId, v: TaskId)
    requires Stuck(s, u) && Out(PhaseOf(s, v)) && !s.cell.closed
    ensures CanBeWoken(s, u)
  {
    match PhaseOf(s, v)
    case Holding(_) => Searches(s, u, v);
    case Searching(_) => Restores(s, u, v);
    case Panicked => Releases(s, u, v);
  }

  // ----- A reader with the open turn

  lemma Publishes(s: Sys, u: TaskId, v: TaskId)
    requires Stuck(s, u) && PhaseOf(s, v).Opened? && !s.cell.closed
    ensures CanBeWoken(s, u)
  {
    var e := Event.Publish(v);
    Moves(s, e);
    if Stuck(Step(s, e), u) {
      Searches(Step(s, e), u, v);
    }
    Onward(s, e, u);
  }

  lemma Opens(s: Sys, u: TaskId, v: TaskId)
    requires Stuck(s, u) && PhaseOf(s, v).Opening? && !s.cell.closed
    ensures CanBeWoken(s, u)
  {
    var h := UnusedNumber(s.known);
    var e := OpenOk(v, h);
    Moves(s, e);
    if Stuck(Step(s, e), u) {
      Publishes(Step(s, e), u, v);
    }
    Onward(s, e, u);
  }

  predicate Idle(c: Cell) {
    !c.closed && c.activeReaders == 0
  }

  lemma Rechecks(s: Sys, u: TaskId, v: TaskId)
    requires Stuck(s, u) && PhaseOf(s, v).Rechecking? && Idle(s.cell)
    ensures CanBeWoken(s, u)
  {
    var e := Event.Recheck(v);
    Moves(s, e);
    if Stuck(Step(s, e), u) {
      if s.cell.handle.Some? {
        Retries(Step(s, e), u, v);
      } else {
        Opens(Step(s, e), u, v);
      }
    }
    Onward(s, e, u);
  }

  lemma Queues(s: Sys, u: TaskId, v: TaskId)
    requires Stuck(s, u) && PhaseOf(s, v).Queueing? && Idle(s.cell) && s.turn == None
    ensures CanBeWoken(s, u)
  {
    var e := TakeTurn(v);
    Moves(s, e);
    if Stuck(Step(s, e), u) {
      Rechecks(Step(s, e), u, v);
    }
    Onward(s, e, u);
  }

  // ----- A reader on its way round the loop, with the handle resident

  lemma ObservesResident(s: Sys, u: TaskId, v: TaskId)
    requires Stuck(s, u) && PhaseOf(s, v).Registered? && Idle(s.cell) && s.cell.handle.Some?
    ensures CanBeWoken(s, u)
  {
    var e := Event.Observe(v);
    Moves(s, e);
    if Stuck(Step(s, e), u) {
      Searches(Step(s, e), u, v);
    }
    Onward(s, e, u);
  }

  lemma EntersResident(s: Sys, u: TaskId, v: TaskId)
    requires Stuck(s, u) && PhaseOf(s, v).Entering? && Idle(s.cell) && s.cell.handle.Some?
    ensures CanBeWoken(s, u)
  {
    var e := Register(v);
    Moves(s, e);
    if Stuck(Step(s, e), u) {
      ObservesResident(Step(s, e), u, v);
    }
    Onward(s, e, u);
  }

  lemma Retries(s: Sys, u: TaskId, v: TaskId)
    requires Stuck(s, u) && PhaseOf(s, v).Retrying? && Idle(s.cell) && s.cell.handle.Some?
    ensures CanBeWoken(s, u)
  {
    if RegOf(s, v) == NotifiedOne {
      PassesOn(s, u, v);
    } else {
      var e := DropFuture(v, None);
      Moves(s, e);
      if Stuck(Step(s, e), u) {
        EntersResident(Step(s, e), u, v);
      }
      Onward(s, e, u);
    }
  }

  // ----- The same while nobody has the turn

  lemma Observes(s: Sys, u: TaskId, v: TaskId)
    requires Stuck(s, u) && PhaseOf(s, v).Registered? && Idle(s.cell) && s.turn == None
    ensures CanBeWoken(s, u)
  {
    if s.cell.handle.Some? {
      ObservesResident(s, u, v);
    } else {
      var e := Event.Observe(v);
      Moves(s, e);
      if Stuck(Step(s, e), u) {
        Queues(Step(s, e), u, v);
      }
      Onward(s, e, u);
    }
  }

  lemma Enters(s: Sys, u: TaskId, v: TaskId)
    requires Stuck(s, u) && PhaseOf(s, v).Entering? && Idle(s.cell) && s.turn == None
    ensures CanBeWoken(s, u)
  {
    var e := Register(v);
    Moves(s, e);
    if Stuck(Step(s, e), u) {
      Observes(Step(s, e), u, v);
    }
    Onward(s, e, u);
  }

  lemma StartsOver(s: Sys, u: TaskId, v: TaskId)
    requires Stuck(s, u) && PhaseOf(s, v).Retrying? && Idle(s.cell) && s.turn == None
    ensures CanBeWoken(s, u)
  {
    if RegOf(s, v) == NotifiedOne {
      PassesOn(s, u, v);
    } else {
      var e := DropFuture(v, None);
      Moves(s, e);
      if Stuck(Step(s, e), u) {
        Enters(Step(s, e), u, v);
      }
      Onward(s, e, u);
    }
  }

  lemma Polls(s: Sys, u: TaskId, v: TaskId)
    requires Stuck(s, u) && NotifyInv(s)
    requires PhaseOf(s, v).Parked? && RegOf(s, v) != Waiting && Idle(s.cell) && s.turn == None
    ensures CanBeWoken(s, u)
  {
    var e := Poll(v);
    assert HasFuture(PhaseOf(s, v)) <==> RegOf(s, v) != Unregistered;
    Moves(s, e);
    if Stuck(Step(s, e), u) {
      Enters(Step(s, e), u, v);
    }
    Onward(s, e, u);
  }

  // ----- Every rescuer rescues

  /** While there is a checkout or an open under way, its task does it; otherwise a reader goes all the way round. */
  lemma ReaderRescues(s: Sys, u: TaskId, v: TaskId)
    requires CheckoutInv(s) && NotifyInv(s) && Stuck(s, u) && Rescuer(s, v) && !s.cell.closed
    requires PhaseOf(s, v).Entering? || PhaseOf(s, v).Registered? || PhaseOf(s, v).Parked?
      || PhaseOf(s, v).Queueing? || PhaseOf(s, v).Retrying?
    ensures CanBeWoken(s, u)
  {
    if s.cell.activeReaders != 0 {
      var w: TaskId :| OnlyOut(s, w);
      CheckedOut(s, u, w);
    } else if s.turn.Some? {
      OwnerRescues(s, u, s.turn.value);
    } else {
      match PhaseOf(s, v)
      case Entering(_) => Enters(s, u, v);
      case Registered(_) => Observes(s, u, v);
      case Parked => Polls(s, u, v);
      case Queueing => Queues(s, u, v);
      case Retrying => StartsOver(s, u, v);
    }
  }

  lemma OwnerRescues(s: Sys, u: TaskId, v: TaskId)
    requires CheckoutInv(s) && Stuck(s, u) && HasTurn(PhaseOf(s, v)) && !s.cell.closed
    ensures CanBeWoken(s, u)
  {
    match PhaseOf(s, v)
    case Rechecking =>
      if s.cell.activeReaders != 0 {
        var w: TaskId :| OnlyOut(s, w);
        CheckedOut(s, u, w);
      } else {
        Rechecks(s, u, v);
      }
    case Opening => Opens(s, u, v);
    case Opened(_) => Publishes(s, u, v);
  }

  lemma RescuerRescues(s: Sys, u: TaskId, v: TaskId)
    requires CheckoutInv(s) && NotifyInv(s) && BroadcastInv(s) && Stuck(s, u) && Rescuer(s, v)
    ensures CanBeWoken(s, u)
  {
    if s.cell.closed {
      var w: TaskId :| PhaseOf(s, w).WakingAll?;
      Broadcasts(s, u, w);
    } else {
      match PhaseOf(s, v)
      case Rechecking => OwnerRescues(s, u, v);
      case Opening => OwnerRescues(s, u, v);
      case Opened(_) => OwnerRescues(s, u, v);
      case Holding(_) => CheckedOut(s, u, v);
      case Searching(_) => CheckedOut(s, u, v);
      case Panicked => CheckedOut(s, u, v);
      case Leaving => PassesOn(s, u, v);
      case Discarding(_) => DiscardsNotified(s, u, v);
      case Notifying(_, _, _) => Notifies(s, u, v);
      case ClosingRetired(_) => ClosesRetired(s, u, v);
      case CloseCall => ClosesCache(s, u, v);
      case WakingAll(_) => Broadcasts(s, u, v);
      case _ => ReaderRescues(s, u, v);
    }
  }

  // ----- Nobody else does

  /** A task that is no rescuer notifies nobody and does not become one. */
  lemma HelplessEffect(c: Cell, p: Phase, r: Registration, e: Event, eager: bool)
    requires Fits(p, e) && !Rescues(p, r) && !e.Spawn? && !e.Poll?
    ensures !e.Notify? && !e.NotifyAll? && !e.Register? && (e.DropFuture? ==> r != NotifiedOne)
    ensures !Rescues(NextPhase(c, p, e, eager), if e.DropFuture? then Unregistered else r)
  {
  }

  lemma QuietRegs(s: Sys, e: Event)
    requires Enabled(s, e) && !e.Notify? && !e.NotifyAll? && !Forwards(s, e)
    ensures forall v: TaskId :: v != e.t ==> RegOf(Step(s, e), v) == RegOf(s, v)
    ensures !e.Spawn? && !e.Register? ==>
      RegOf(Step(s, e), e.t) == if e.DropFuture? || e.Poll? then Unregistered else RegOf(s, e.t)
  {
  }

  lemma HelplessStep(s: Sys, e: Event, u: TaskId)
    requires Enabled(s, e) && !e.Spawn? && Stuck(s, u) && forall v: TaskId :: !Rescuer(s, v)
    ensures Stuck(Step(s, e), u) && forall v: TaskId :: !Rescuer(Step(s, e), v)
  {
    var p, r := PhaseOf(s, e.t), RegOf(s, e.t);
    assert !Rescuer(s, e.t);
    HelplessEffect(s.cell, p, r, e, s.eager);
    PhasesAfter(s, e);
    QuietRegs(s, e);
    MoverIsNotStuck(s, e, u);
    forall v: TaskId ensures !Rescuer(Step(s, e), v) {
      assert !Rescuer(s, v);
    }
  }

  lemma {:induction false} HelplessRun(s: Sys, es: seq<Event>, u: TaskId)
    requires Valid(s, es) && NoSpawns(es) && Stuck(s, u) && forall v: TaskId :: !Rescuer(s, v)
    ensures Stuck(Run(s, es), u)
    decreases |es|
  {
    if es == [] {
    } else {
      assert !es[0].Spawn?;
      HelplessStep(s, es[0], u);
      HelplessRun(Step(s, es[0]), es[1..], u);
    }
  }

  // ----- What a failed open breaks

  /** In every state the invariants admit, a parked reader that nobody has notified stays so forever, unless a new task
      comes, exactly when no task there is can come to notify somebody. */
  lemma StrandedExactly(s: Sys, u: TaskId)
    requires Inv(s) && Stuck(s, u)
    ensures StrandedForever(s, u) <==> forall v: TaskId :: !Rescuer(s, v)
  {
    if v: TaskId :| Rescuer(s, v) {
      RescuerRescues(s, u, v);
    } else {
      forall es | Valid(s, es) && NoSpawns(es) ensures Stuck(Run(s, es), u) {
        HelplessRun(s, es, u);
      }
    }
  }

  /** A failed open strands a parked reader for the rest of every run without new tasks exactly when the opener was not
      itself notified and no other task can come to notify somebody. */
  lemma FailedOpenStrandsExactly(eager: bool, es: seq<Event>, t: TaskId, u: TaskId)
    requires Valid(Init(eager), es)
    requires Enabled(Run(Init(eager), es), OpenFail(t)) && Stuck(Run(Init(eager), es), u)
    ensures
      var s := Run(Init(eager), es);
      StrandedForever(Step(s, OpenFail(t)), u) <==>
        RegOf(s, t) != NotifiedOne && forall v: TaskId :: v != t ==> !Rescuer(s, v)
  {
    InvInit(eager);
    InvRun(Init(eager), es);
    OpenFailStrands(Run(Init(eager), es), t, u);
  }

  lemma OpenFailStrands(s: Sys, t: TaskId, u: TaskId)
    requires Inv(s) && Enabled(s, OpenFail(t)) && Stuck(s, u)
    ensures StrandedForever(Step(s, OpenFail(t)), u) <==>
      RegOf(s, t) != NotifiedOne && forall v: TaskId :: v != t ==> !Rescuer(s, v)
  {
    InvStep(s, OpenFail(t));
    OpenFailKeeps(s, t, u);
    StrandedExactly(Step(s, OpenFail(t)), u);
  }

  lemma OpenFailKeeps(s: Sys, t: TaskId, u: TaskId)
    requires Enabled(s, OpenFail(t)) && Stuck(s, u)
    ensures
      var s' := Step(s, OpenFail(t));
      && Stuck(s', u)
      && (forall v: TaskId :: v != t ==> (Rescuer(s', v) <==> Rescuer(s, v)))
      && (Rescuer(s', t) <==> RegOf(s, t) == NotifiedOne)
  {
    PhasesAfter(s, OpenFail(t));
    QuietRegs(s, OpenFail(t));
  }
}
