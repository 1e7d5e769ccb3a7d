/** Safety of the read-session cache over every interleaving: checkouts, ownership of handles, retirement
    and idle eviction. */
module SessionSafety {
  import opened Options
  import opened SessionCell
  import opened SessionSystem

  /** What one event does to the cell, the turn and the phases: its own task moves, an arming may add a
      sleeper under a new name, and every other task stays where it is. */
  ghost predicate CoreStep(s: Sys, e: Event, s': Sys) {
    var p := PhaseOf(s, e.t);
    && Fits(p, e)
    && (e.TakeTurn? ==> s.turn == None)
    && s'.eager == s.eager
    && s'.cell == NextCell(s.cell, p, e, s.eager)
    && s'.turn == NextTurn(s.cell, s.turn, e)
    && PhaseOf(s', e.t) == NextPhase(s.cell, p, e, s.eager)
    && forall u: TaskId :: u != e.t ==>
         PhaseOf(s', u) == PhaseOf(s, u) || NewSleeper(s, e, s', u)
  }

  predicate NewSleeper(s: Sys, e: Event, s': Sys, u: TaskId) {
    && e.Arm? && u == e.sleeper && PhaseOf(s, u).Done? && PhaseOf(s, e.t).Arming?
    && ArmOutcome(s.cell, PhaseOf(s, e.t).stamp, s.eager).Installed?
    && PhaseOf(s', u) == Asleep(PhaseOf(s, e.t).stamp)
  }

  lemma StepIsCore(s: Sys, e: Event)
    requires Enabled(s, e)
    ensures CoreStep(s, e, Step(s, e))
  {
    PhasesAfter(s, e);
  }

  lemma PhasesAfter(s: Sys, e: Event)
    requires Enabled(s, e)
    ensures
      var s' := Step(s, e);
      && PhaseOf(s', e.t) == NextPhase(s.cell, PhaseOf(s, e.t), e, s.eager)
      && forall u: TaskId :: u != e.t ==> PhaseOf(s', u) == PhaseOf(s, u) || NewSleeper(s, e, s', u)
  {
    assert Step(s, e).tasks == NextTasks(s, e);
  }

  // ----- Checkouts and the open turn

  predicate Out(p: Phase) {
    p.Holding? || p.Searching? || p.Panicked?
  }

  predicate HasTurn(p: Phase) {
    p.Rechecking? || p.Opening? || p.Opened?
  }

  /** Saw the cache cold under its turn and has not published yet. */
  predicate OpeningCold(p: Phase) {
    p.Opening? || p.Opened?
  }

  predicate Displacing(p: Phase) {
    p.ClosingDisplaced? || (p.Notifying? && p.displaced.Some?)
  }

  ghost predicate OnlyOut(s: Sys, t: TaskId) {
    Out(PhaseOf(s, t)) && forall u: TaskId :: Out(PhaseOf(s, u)) ==> u == t
  }

  /** The reader count is the number of checkouts, and there is at most one. */
  ghost predicate CountInv(s: Sys) {
    && (s.cell.activeReaders == 0 || s.cell.activeReaders == 1)
    && (s.cell.activeReaders == 0 ==> forall t: TaskId :: !Out(PhaseOf(s, t)))
    && (s.cell.activeReaders == 1 ==> exists t: TaskId :: OnlyOut(s, t))
    && (s.cell.activeEpoch.Some? <==> s.cell.activeReaders == 1)
    && (s.cell.activeReaders == 1 ==> s.cell.handle == None)
    && (s.cell.closed ==> s.cell.handle == None)
  }

  /** Only the owner of the turn opens, the turn is never left behind, and the cache stays cold until the owner
      publishes. */
  ghost predicate TurnInv(s: Sys) {
    && (forall t: TaskId :: OpeningCold(PhaseOf(s, t)) ==> s.cell.activeReaders == 0 && s.cell.handle == None)
    && (forall t: TaskId :: HasTurn(PhaseOf(s, t)) ==> s.turn == Some(t))
    && (s.turn.Some? ==> HasTurn(PhaseOf(s, s.turn.value)))
    && (forall t: TaskId :: !Displacing(PhaseOf(s, t)))
  }

  ghost predicate CheckoutInv(s: Sys) {
    CountInv(s) && TurnInv(s)
  }

  function One(b: bool): int {
    if b then 1 else 0
  }

  /** How one event of a task moves the reader count and the slot. */
  predicate CheckoutEffect(c: Cell, p: Phase, c': Cell, p': Phase) {
    && c'.activeReaders == c.activeReaders + One(Out(p')) - One(Out(p))
    && (Out(p') && !Out(p) ==>
          c'.activeEpoch.Some? && if OpeningCold(p) then c'.handle == c.handle else c.handle.Some? && c'.handle == None)
    && (Out(p) && !Out(p') ==> c'.activeEpoch == None && (c.closed ==> c'.handle == c.handle))
    && (Out(p) == Out(p') ==> c'.activeEpoch == c.activeEpoch && (c'.handle == c.handle || c'.handle == None))
    && (c'.closed && !c.closed ==> c'.handle == None)
    && (Displacing(p') && !Displacing(p) ==> Out(p) && c.handle.Some?)
  }

  predicate Checks(e: Event) {
    e.Observe? || e.Publish? || e.Restore? || e.Release? || e.Panic? || e.DropFuture? || e.Arm? || e.Wake?
  }

  lemma CheckingEffects(c: Cell, p: Phase, e: Event, eager: bool)
    requires Fits(p, e) && Checks(e)
    ensures CheckoutEffect(c, p, NextCell(c, p, e, eager), NextPhase(c, p, e, eager))
  {
  }

  lemma OtherEffects(c: Cell, p: Phase, e: Event, eager: bool)
    requires Fits(p, e) && !Checks(e)
    ensures CheckoutEffect(c, p, NextCell(c, p, e, eager), NextPhase(c, p, e, eager))
  {
  }

  lemma CheckoutEffects(c: Cell, p: Phase, e: Event, eager: bool)
    requires Fits(p, e)
    ensures CheckoutEffect(c, p, NextCell(c, p, e, eager), NextPhase(c, p, e, eager))
  {
    if Checks(e) {
      CheckingEffects(c, p, e, eager);
    } else {
      OtherEffects(c, p, e, eager);
    }
  }

  /** Who may open, and what the turn does meanwhile. */
  predicate TurnEffect(c: Cell, turn: Option<TaskId>, t: TaskId, p: Phase, turn': Option<TaskId>, p': Phase) {
    && (OpeningCold(p') && !OpeningCold(p) ==> c.activeReaders <= 0 && c.handle == None)
    && (HasTurn(p') && !HasTurn(p) ==> turn' == Some(t) && turn == None)
    && (turn' != turn ==> turn == None || HasTurn(p))
    && (HasTurn(p') && HasTurn(p) ==> turn' == turn)
    && (turn'.Some? ==> (turn' == turn && (HasTurn(p) ==> HasTurn(p'))) || (turn' == Some(t) && HasTurn(p')))
  }

  lemma TurnEffects(c: Cell, turn: Option<TaskId>, p: Phase, e: Event, eager: bool)
    requires Fits(p, e) && (e.TakeTurn? ==> turn == None)
    ensures TurnEffect(c, turn, e.t, p, NextTurn(c, turn, e), NextPhase(c, p, e, eager))
  {
  }

  ghost predicate OthersKept(s: Sys, t: TaskId, s': Sys) {
    forall u: TaskId :: u != t ==>
      PhaseOf(s', u) == PhaseOf(s, u) || (PhaseOf(s, u).Done? && PhaseOf(s', u).Asleep?)
  }

  lemma CountKept(s: Sys, t: TaskId, s': Sys)
    requires CheckoutInv(s) && OthersKept(s, t, s')
    requires CheckoutEffect(s.cell, PhaseOf(s, t), s'.cell, PhaseOf(s', t))
    ensures CountInv(s')
  {
    assert Out(PhaseOf(s, t)) ==> s.cell.activeReaders == 1 && OnlyOut(s, t);
    if s'.cell.activeReaders == 1 {
      if s.cell.activeReaders == 1 {
        var u: TaskId :| OnlyOut(s, u);
        assert OnlyOut(s', u);
      } else {
        assert OnlyOut(s', t);
      }
    }
  }

  lemma TurnKept(s: Sys, t: TaskId, s': Sys)
    requires CheckoutInv(s) && OthersKept(s, t, s')
    requires CheckoutEffect(s.cell, PhaseOf(s, t), s'.cell, PhaseOf(s', t))
    requires TurnEffect(s.cell, s.turn, t, PhaseOf(s, t), s'.turn, PhaseOf(s', t))
    ensures TurnInv(s')
  {
    assert Out(PhaseOf(s, t)) ==> s.cell.activeReaders == 1;
  }

  lemma CheckoutInvStep(s: Sys, e: Event)
    requires CheckoutInv(s) && Enabled(s, e)
    ensures CheckoutInv(Step(s, e))
  {
    StepIsCore(s, e);
    var s', p := Step(s, e), PhaseOf(s, e.t);
    CheckoutEffects(s.cell, p, e, s.eager);
    TurnEffects(s.cell, s.turn, p, e, s.eager);
    CountKept(s, e.t, s');
    TurnKept(s, e.t, s');
  }

  // ----- Every handle is in exactly one place

  /** The handle a task has in its hands. */
  function Kept(p: Phase): Option<HandleId> {
    match p
    case Opened(h) => Some(h)
    case Discarding(h) => Some(h)
    case Holding(h) => Some(h)
    case Searching(h) => Some(h)
    case Notifying(displaced, _, _) => displaced
    case ClosingDisplaced(h, _, _) => Some(h)
    case ClosingRetired(h) => Some(h)
    case Closing(h) => Some(h)
    case WakingAll(home) => home
    case _ => None
  }

  /** How often a handle is on the shelf: resident, closed (once per close) or lost. */
  function Shelved(s: Sys, h: HandleId): nat {
    (if s.cell.handle == Some(h) then 1 else 0) + s.closings[h] + s.lost[h]
  }

  function Fresh(e: Event): Option<HandleId> {
    if e.OpenOk? then Some(e.h) else None
  }

  ghost predicate KeptBySomeone(s: Sys, h: HandleId) {
    exists t: TaskId :: Kept(PhaseOf(s, t)) == Some(h)
  }

  /** A known handle is on the shelf once and in nobody's hands, or in exactly one task's hands. */
  ghost predicate HandleInv(s: Sys) {
    && (forall h: HandleId :: Shelved(s, h) <= if h in s.known then 1 else 0)
    && (forall t: TaskId :: Kept(PhaseOf(s, t)).Some? ==>
          Kept(PhaseOf(s, t)).value in s.known && Shelved(s, Kept(PhaseOf(s, t)).value) == 0)
    && (forall t: TaskId, u: TaskId ::
          Kept(PhaseOf(s, t)).Some? && Kept(PhaseOf(s, u)) == Kept(PhaseOf(s, t)) ==> t == u)
    && (forall h: HandleId :: h in s.known ==> Shelved(s, h) == 1 || KeptBySomeone(s, h))
  }

  /** Where the slot and the mover's hands go; closing and losing a handle leave the slot alone. */
  predicate HandEffect(c: Cell, p: Phase, e: Event, c': Cell, p': Phase, h: HandleId)
    requires Fits(p, e)
  {
    One(c'.handle == Some(h)) + One(Kept(p') == Some(h))
      + (if e.FinishClose? then One(BeingClosed(p) == Some(h)) else 0) + (if e.Panic? then One(p.used == h) else 0)
    == One(c.handle == Some(h)) + One(Kept(p) == Some(h)) + One(Fresh(e) == Some(h))
  }

  lemma HandEffects(c: Cell, p: Phase, e: Event, eager: bool, h: HandleId)
    requires Fits(p, e)
    ensures HandEffect(c, p, e, NextCell(c, p, e, eager), NextPhase(c, p, e, eager), h)
  {
  }

  /** No step creates, duplicates or drops a handle: what leaves the shelf is in the mover's hands and the
      other way round, and an open adds one new handle. */
  lemma HandlesConserved(s: Sys, e: Event, h: HandleId)
    requires Enabled(s, e)
    ensures Shelved(Step(s, e), h) + One(Kept(PhaseOf(Step(s, e), e.t)) == Some(h))
         == Shelved(s, h) + One(Kept(PhaseOf(s, e.t)) == Some(h)) + One(Fresh(e) == Some(h))
  {
    PhasesAfter(s, e);
    HandEffects(s.cell, PhaseOf(s, e.t), e, s.eager, h);
  }

  ghost predicate Conserved(s: Sys, e: Event, s': Sys) {
    && OthersKept(s, e.t, s')
    && (Fresh(e).Some? ==> Fresh(e).value !in s.known)
    && s'.known == s.known + AsSet(Fresh(e))
    && forall h: HandleId ::
         Shelved(s', h) + One(Kept(PhaseOf(s', e.t)) == Some(h))
         == Shelved(s, h) + One(Kept(PhaseOf(s, e.t)) == Some(h)) + One(Fresh(e) == Some(h))
  }

  lemma HandleCountKept(s: Sys, e: Event, s': Sys, h: HandleId)
    requires HandleInv(s) && Conserved(s, e, s')
    ensures Shelved(s', h) <= if h in s'.known then 1 else 0
    ensures h in s'.known ==> Shelved(s', h) == 1 || KeptBySomeone(s', h)
  {
    var p, p' := PhaseOf(s, e.t), PhaseOf(s', e.t);
    assert Kept(p) == Some(h) ==> h in s.known && Shelved(s, h) == 0;
    if Kept(p') != Some(h) && Shelved(s', h) != 1 && h in s.known {
      var t: TaskId :| Kept(PhaseOf(s, t)) == Some(h);
      assert Kept(PhaseOf(s', t)) == Some(h);
    }
  }

  lemma HandleOwnerKept(s: Sys, e: Event, s': Sys, t: TaskId, h: HandleId)
    requires HandleInv(s) && Conserved(s, e, s') && Kept(PhaseOf(s', t)) == Some(h)
    ensures h in s'.known && Shelved(s', h) == 0
    ensures forall u: TaskId :: Kept(PhaseOf(s', u)) == Some(h) ==> u == t
  {
    assert t != e.t ==> Kept(PhaseOf(s, t)) == Some(h);
    assert Shelved(s, h) <= if h in s.known then 1 else 0;
    forall u: TaskId | Kept(PhaseOf(s', u)) == Some(h) ensures u == t {
      assert u != e.t ==> Kept(PhaseOf(s, u)) == Some(h);
    }
  }

  lemma HandleInvStep(s: Sys, e: Event)
    requires HandleInv(s) && Enabled(s, e)
    ensures HandleInv(Step(s, e))
  {
    var s' := Step(s, e);
    StepIsCore(s, e);
    forall h: HandleId ensures Shelved(s', h) + One(Kept(PhaseOf(s', e.t)) == Some(h))
                  == Shelved(s, h) + One(Kept(PhaseOf(s, e.t)) == Some(h)) + One(Fresh(e) == Some(h)) {
      HandlesConserved(s, e, h);
    }
    HandleInvKept(s, e, s');
  }

  lemma HandleInvKept(s: Sys, e: Event, s': Sys)
    requires HandleInv(s) && Conserved(s, e, s')
    ensures HandleInv(s')
  {
    forall h: HandleId
      ensures Shelved(s', h) <= if h in s'.known then 1 else 0
      ensures h in s'.known ==> Shelved(s', h) == 1 || KeptBySomeone(s', h)
    {
      HandleCountKept(s, e, s', h);
    }
    forall t: TaskId | Kept(PhaseOf(s', t)).Some?
      ensures Kept(PhaseOf(s', t)).value in s'.known && Shelved(s', Kept(PhaseOf(s', t)).value) == 0
    {
      HandleOwnerKept(s, e, s', t, Kept(PhaseOf(s', t)).value);
    }
    forall t: TaskId, u: TaskId | Kept(PhaseOf(s', t)).Some? && Kept(PhaseOf(s', u)) == Kept(PhaseOf(s', t))
      ensures t == u
    {
      HandleOwnerKept(s, e, s', t, Kept(PhaseOf(s', t)).value);
    }
  }
}
