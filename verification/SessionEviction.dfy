/** Retirement and idle eviction: what the epoch and the idle stamp guarantee. */
module SessionEviction {
  import opened Options
  import opened SessionCell
  import opened SessionSystem
  import opened SessionSafety

  // ----- Retirement

  /** A retired handle is never resident, never fresh from an open, and its checkout carries an old epoch. */
  ghost predicate RetiredInv(s: Sys) {
    && s.retired <= s.known
    && (s.cell.handle.Some? ==> s.cell.handle.value !in s.retired)
    && (s.cell.activeEpoch.Some? ==> s.cell.activeEpoch.value <= s.cell.retireEpoch)
    && (forall t: TaskId :: PhaseOf(s, t).Opened? ==> PhaseOf(s, t).newborn !in s.retired)
    && (forall t: TaskId :: Marked(s, t) ==> s.cell.activeEpoch != Some(s.cell.retireEpoch))
  }

  /** The task is inside a search whose handle was in use at some retire. */
  predicate Marked(s: Sys, t: TaskId) {
    CheckedOutHandle(PhaseOf(s, t)).Some? && CheckedOutHandle(PhaseOf(s, t)).value in s.retired
  }

  predicate EpochEffect(c: Cell, p: Phase, e: Event, c': Cell, p': Phase)
    requires Fits(p, e)
  {
    && c.retireEpoch <= c'.retireEpoch
    && (c'.retireEpoch != c.retireEpoch ==>
          && e.Retire? && !c.closed && c'.handle == None && c'.activeEpoch == c.activeEpoch
          && c'.retireEpoch == c.retireEpoch + 1)
    && (e.Retire? && !c.closed ==> c'.retireEpoch == c.retireEpoch + 1)
    && (c'.activeEpoch == c.activeEpoch || c'.activeEpoch == None || c'.activeEpoch == Some(c.retireEpoch))
    && (c'.handle == c.handle || c'.handle == None
        || (p.Searching? && c'.handle == Some(p.used) && !c.closed
            && (c.activeEpoch == None || c.activeEpoch == Some(c.retireEpoch))))
    && (CheckedOutHandle(p').Some? && CheckedOutHandle(p') != CheckedOutHandle(p) ==>
          && c'.activeEpoch == Some(c.retireEpoch)
          && (c.handle == CheckedOutHandle(p') || (p.Opened? && Some(p.newborn) == CheckedOutHandle(p'))))
    && (CheckedOutHandle(p').Some? && CheckedOutHandle(p') == CheckedOutHandle(p) ==> c'.activeEpoch == c.activeEpoch)
    && (c'.activeEpoch != c.activeEpoch ==> Out(p) || Out(p'))
    && (e.Retire? ==> CheckedOutHandle(p') == None)
    && (p'.Opened? ==> Fresh(e) == Some(p'.newborn))
  }

  lemma EpochEffects(c: Cell, p: Phase, e: Event, eager: bool)
    requires Fits(p, e)
    ensures EpochEffect(c, p, e, NextCell(c, p, e, eager), NextPhase(c, p, e, eager))
  {
  }

  /** A retire marks exactly the handles in use; no other event marks any. */
  lemma RetireMarks(s: Sys, e: Event, h: HandleId)
    requires Enabled(s, e)
    ensures h in Step(s, e).retired <==>
      h in s.retired || (e.Retire? && !s.cell.closed &&
        (s.cell.handle == Some(h) || exists t: TaskId :: CheckedOutHandle(PhaseOf(s, t)) == Some(h)))
  {
    if t: TaskId :| CheckedOutHandle(PhaseOf(s, t)) == Some(h) {
      assert t in s.tasks;
    }
    if e.Retire? && !s.cell.closed && h in InUse(s) && s.cell.handle != Some(h) {
      var t :| t in s.tasks && CheckedOutHandle(s.tasks[t].phase) == Some(h);
      assert CheckedOutHandle(PhaseOf(s, t)) == Some(h);
    }
  }

  /** The handle was in use when this event retired it. */
  ghost predicate RetiredNow(s: Sys, e: Event, s': Sys, h: HandleId) {
    && e.Retire? && s'.cell.retireEpoch == s.cell.retireEpoch + 1 && h in s.known
    && (s.cell.handle == Some(h) || exists t: TaskId :: CheckedOutHandle(PhaseOf(s, t)) == Some(h))
  }

  ghost predicate RetireStep(s: Sys, e: Event, s': Sys) {
    && CheckoutInv(s) && CheckoutInv(s') && HandleInv(s) && RetiredInv(s)
    && OthersKept(s, e.t, s') && Fits(PhaseOf(s, e.t), e)
    && EpochEffect(s.cell, PhaseOf(s, e.t), e, s'.cell, PhaseOf(s', e.t))
    && s.known <= s'.known && (Fresh(e).Some? ==> Fresh(e).value !in s.known)
    && forall h: HandleId :: h in s'.retired ==> h in s.retired || RetiredNow(s, e, s', h)
  }

  lemma RetiredOnlyNow(s: Sys, e: Event, h: HandleId)
    requires HandleInv(s) && Enabled(s, e) && h in Step(s, e).retired && h !in s.retired
    ensures RetiredNow(s, e, Step(s, e), h)
  {
    RetireMarks(s, e, h);
    assert Shelved(s, h) <= if h in s.known then 1 else 0;
    if t: TaskId :| CheckedOutHandle(PhaseOf(s, t)) == Some(h) {
      assert Kept(PhaseOf(s, t)) == Some(h);
    }
  }

  lemma RetiredInvStep(s: Sys, e: Event)
    requires CheckoutInv(s) && HandleInv(s) && RetiredInv(s) && Enabled(s, e)
    ensures RetiredInv(Step(s, e))
  {
    var s', p := Step(s, e), PhaseOf(s, e.t);
    StepIsCore(s, e);
    CheckoutInvStep(s, e);
    EpochEffects(s.cell, p, e, s.eager);
    forall h: HandleId ensures h in s'.retired ==> h in s.retired || RetiredNow(s, e, s', h) {
      if h in s'.retired && h !in s.retired {
        RetiredOnlyNow(s, e, h);
      }
    }
    RetiredInvKept(s, e, s');
  }

  lemma SlotNotRetired(s: Sys, e: Event, s': Sys)
    requires RetireStep(s, e, s')
    ensures s'.cell.handle.Some? ==> s'.cell.handle.value !in s'.retired
  {
    var p := PhaseOf(s, e.t);
    if p.Searching? {
      assert Out(p) && s.cell.activeReaders == 1;
      assert p.used in s.retired ==> Marked(s, e.t);
    }
  }

  lemma OpenedNotInUse(s: Sys, t: TaskId)
    requires HandleInv(s) && PhaseOf(s, t).Opened?
    ensures s.cell.handle != Some(PhaseOf(s, t).newborn)
    ensures forall u: TaskId :: CheckedOutHandle(PhaseOf(s, u)) != Some(PhaseOf(s, t).newborn)
  {
    var h := PhaseOf(s, t).newborn;
    assert Kept(PhaseOf(s, t)) == Some(h) && Shelved(s, h) == 0;
    forall u: TaskId ensures CheckedOutHandle(PhaseOf(s, u)) != Some(h) {
      assert Kept(PhaseOf(s, u)) == Some(h) ==> u == t;
    }
  }

  lemma OpenedNotRetired(s: Sys, e: Event, s': Sys, t: TaskId)
    requires RetireStep(s, e, s') && PhaseOf(s', t).Opened?
    ensures PhaseOf(s', t).newborn !in s'.retired
  {
    if t != e.t {
      OpenedNotInUse(s, t);
    }
  }

  lemma MarkedIsStale(s: Sys, e: Event, s': Sys, t: TaskId)
    requires RetireStep(s, e, s') && Marked(s', t)
    ensures s'.cell.activeEpoch != Some(s'.cell.retireEpoch)
  {
    var h := CheckedOutHandle(PhaseOf(s', t)).value;
    if t == e.t {
      assert CheckedOutHandle(PhaseOf(s, t)) == Some(h) ==> Marked(s, t);
    } else {
      assert Out(PhaseOf(s, t)) && Out(PhaseOf(s', t));
      assert !Out(PhaseOf(s, e.t)) && !Out(PhaseOf(s', e.t));
      assert Kept(PhaseOf(s, t)) == Some(h);
      assert Marked(s, t) || RetiredNow(s, e, s', h);
    }
  }

  lemma RetiredInvKept(s: Sys, e: Event, s': Sys)
    requires RetireStep(s, e, s')
    ensures RetiredInv(s')
  {
    SlotNotRetired(s, e, s');
    forall t: TaskId | PhaseOf(s', t).Opened? ensures PhaseOf(s', t).newborn !in s'.retired {
      OpenedNotRetired(s, e, s', t);
    }
    forall t: TaskId | Marked(s', t) ensures s'.cell.activeEpoch != Some(s'.cell.retireEpoch) {
      MarkedIsStale(s, e, s', t);
    }
  }

  /** A checkout whose handle has not been retired carries the current epoch. */
  ghost predicate EpochInv(s: Sys) {
    forall t: TaskId :: CheckedOutHandle(PhaseOf(s, t)).Some? && !Marked(s, t) ==>
      s.cell.activeEpoch == Some(s.cell.retireEpoch)
  }

  /** A retire of an open cache marks every handle that is checked out. */
  lemma CheckedOutIsRetired(s: Sys, e: Event, t: TaskId)
    requires Enabled(s, e) && e.Retire? && !s.cell.closed && CheckedOutHandle(PhaseOf(s, t)).Some?
    ensures CheckedOutHandle(PhaseOf(s, t)).value in Step(s, e).retired
  {
    RetireMarks(s, e, CheckedOutHandle(PhaseOf(s, t)).value);
  }

  lemma StaysRetired(s: Sys, e: Event, h: HandleId)
    requires Enabled(s, e) && h in s.retired
    ensures h in Step(s, e).retired
  {
  }

  lemma UnmarkedIsCurrent(s: Sys, e: Event, t: TaskId)
    requires CheckoutInv(s) && EpochInv(s) && Enabled(s, e)
    requires CheckedOutHandle(PhaseOf(Step(s, e), t)).Some? && !Marked(Step(s, e), t)
    ensures Step(s, e).cell.activeEpoch == Some(Step(s, e).cell.retireEpoch)
  {
    var s', p := Step(s, e), PhaseOf(s, e.t);
    var h := CheckedOutHandle(PhaseOf(s', t)).value;
    StepIsCore(s, e);
    EpochEffects(s.cell, p, e, s.eager);
    if CheckedOutHandle(PhaseOf(s, t)) == Some(h) {
      if e.Retire? && !s.cell.closed {
        CheckedOutIsRetired(s, e, t);
      } else {
        if h in s.retired {
          StaysRetired(s, e, h);
        }
        assert Out(PhaseOf(s, t)) && s.cell.activeReaders == 1;
        CheckoutInvStep(s, e);
        assert t != e.t ==> !Out(p) && !Out(PhaseOf(s', e.t));
      }
    }
  }

  lemma EpochInvStep(s: Sys, e: Event)
    requires CheckoutInv(s) && EpochInv(s) && Enabled(s, e)
    ensures EpochInv(Step(s, e))
  {
    forall t: TaskId | CheckedOutHandle(PhaseOf(Step(s, e), t)).Some? && !Marked(Step(s, e), t)
      ensures Step(s, e).cell.activeEpoch == Some(Step(s, e).cell.retireEpoch)
    {
      UnmarkedIsCurrent(s, e, t);
    }
  }

  // ----- Idle eviction

  /** The stamp of an idle close that is still to be scheduled. */
  function Pending(p: Phase): Option<nat> {
    match p
    case Arming(stamp) => Some(stamp)
    case Notifying(_, drained, stamp) => if drained then Some(stamp) else None
    case ClosingDisplaced(_, drained, stamp) => if drained then Some(stamp) else None
    case _ => None
  }

  /** A sleeper carrying the current stamp is the installed one; every other sleeper has been aborted. */
  ghost predicate SleeperInv(s: Sys) {
    && (s.cell.idleTask.Some? ==>
          && PhaseOf(s, s.cell.idleTask.value) == Asleep(s.cell.idleSeq) && s.cell.idleTask.value !in s.aborted
          && s.cell.activeReaders == 0 && !s.cell.closed && s.cell.handle.Some?)
    && (forall t: TaskId :: PhaseOf(s, t).Asleep? ==>
          && PhaseOf(s, t).stamp <= s.cell.idleSeq && !s.eager
          && (PhaseOf(s, t).stamp == s.cell.idleSeq || t !in s.aborted ==> s.cell.idleTask == Some(t)))
    && (forall t: TaskId :: Pending(PhaseOf(s, t)).Some? ==>
          && Pending(PhaseOf(s, t)).value <= s.cell.idleSeq
          && (Pending(PhaseOf(s, t)).value == s.cell.idleSeq ==> s.cell.idleTask == None && s.cell.activeReaders == 0))
    && (forall t: TaskId, u: TaskId ::
          Pending(PhaseOf(s, t)) == Some(s.cell.idleSeq) && Pending(PhaseOf(s, u)) == Some(s.cell.idleSeq) ==> t == u)
    && (forall t: TaskId :: t in s.aborted ==> t in s.tasks)
  }

  /** The three ways the idle slot moves: activity empties it and moves the stamp on, an arming installs a
      sleeper, its own wake-up empties it; anything else leaves it alone. */
  predicate IdleEffect(c: Cell, p: Phase, e: Event, eager: bool, c': Cell, p': Phase, aborts: set<TaskId>)
    requires Fits(p, e)
  {
    if e.Arm? && ArmOutcome(c, p.stamp, eager).Installed? then
      !eager && Pending(p) == Some(c.idleSeq) && aborts == AsSet(c.idleTask) && c' == c.(idleTask := Some(e.sleeper))
      && c.activeReaders == 0 && !c.closed && c.handle.Some? && p'.Done?
    else if e.Wake? && WakeOutcome(c, p.stamp).Evicted? then
      p == Asleep(c.idleSeq) && c' == c.(idleTask := None, handle := None) && aborts == {}
      && !p'.Asleep? && Pending(p') == None
    else if c'.idleSeq != c.idleSeq then
      c'.idleSeq == c.idleSeq + 1 && c'.idleTask == None && aborts == AsSet(c.idleTask)
      && !p'.Asleep? && Pending(p') == None
    else
      c'.idleTask == c.idleTask && aborts == {} && !p'.Asleep?
      && (Pending(p') == None || Pending(p') == Pending(p)
          || (Out(p) && Pending(p') == Some(c.idleSeq) && c'.activeReaders == 0))
      && (Out(p) || (eager && e.Arm?)
          || (c'.activeReaders == c.activeReaders && c'.closed == c.closed && c'.handle == c.handle))
      && (p.Asleep? ==> e.AbortLands? || p.stamp != c.idleSeq || c.closed || c.activeReaders != 0)
      && (!Out(p) ==> c'.activeReaders == c.activeReaders)
  }

  lemma IdleEffects(c: Cell, p: Phase, e: Event, eager: bool)
    requires Fits(p, e)
    ensures IdleEffect(c, p, e, eager, NextCell(c, p, e, eager), NextPhase(c, p, e, eager), Aborts(c, p, e, eager))
  {
  }

  ghost predicate SleeperStep(s: Sys, e: Event, s': Sys, aborts: set<TaskId>) {
    && CheckoutInv(s) && SleeperInv(s) && Fits(PhaseOf(s, e.t), e) && s'.eager == s.eager
    && (e.AbortLands? ==> e.t in s.aborted)
    && (e.Arm? && ArmOutcome(s.cell, PhaseOf(s, e.t).stamp, s.eager).Installed? ==>
          e.sleeper !in s.tasks && PhaseOf(s', e.sleeper) == Asleep(PhaseOf(s, e.t).stamp))
    && (forall u: TaskId :: u != e.t ==> PhaseOf(s', u) == PhaseOf(s, u) || NewSleeper(s, e, s', u))
    && s'.aborted == s.aborted + aborts
    && IdleEffect(s.cell, PhaseOf(s, e.t), e, s.eager, s'.cell, PhaseOf(s', e.t), aborts)
    && (forall t: TaskId :: t in s'.aborted ==> t in s.tasks)
  }

  lemma InstalledKept(s: Sys, e: Event, s': Sys, aborts: set<TaskId>)
    requires SleeperStep(s, e, s', aborts) && s'.cell.idleTask.Some?
    ensures PhaseOf(s', s'.cell.idleTask.value) == Asleep(s'.cell.idleSeq) && s'.cell.idleTask.value !in s'.aborted
    ensures s'.cell.activeReaders == 0 && !s'.cell.closed && s'.cell.handle.Some?
  {
    assert Out(PhaseOf(s, e.t)) ==> s.cell.activeReaders == 1;
  }

  lemma SleepersKept(s: Sys, e: Event, s': Sys, aborts: set<TaskId>, t: TaskId)
    requires SleeperStep(s, e, s', aborts) && PhaseOf(s', t).Asleep?
    ensures PhaseOf(s', t).stamp <= s'.cell.idleSeq && !s'.eager
    ensures PhaseOf(s', t).stamp == s'.cell.idleSeq || t !in s'.aborted ==> s'.cell.idleTask == Some(t)
  {
    assert t != e.t;
    assert PhaseOf(s, e.t) == Asleep(s.cell.idleSeq) ==> s.cell.idleTask == Some(e.t);
    assert Pending(PhaseOf(s, e.t)) == Some(s.cell.idleSeq) ==> s.cell.idleTask == None;
  }

  lemma PendingIsPast(s: Sys, e: Event, s': Sys, aborts: set<TaskId>, t: TaskId)
    requires SleeperStep(s, e, s', aborts) && Pending(PhaseOf(s', t)).Some?
    ensures Pending(PhaseOf(s', t)).value <= s'.cell.idleSeq
  {
    assert Out(PhaseOf(s, e.t)) ==> s.cell.activeReaders == 1;
    assert Pending(PhaseOf(s, t)).Some? ==> Pending(PhaseOf(s, t)).value <= s.cell.idleSeq;
  }

  lemma PendingIsIdle(s: Sys, e: Event, s': Sys, aborts: set<TaskId>, t: TaskId)
    requires SleeperStep(s, e, s', aborts) && Pending(PhaseOf(s', t)) == Some(s'.cell.idleSeq)
    ensures s'.cell.idleSeq == s.cell.idleSeq && s'.cell.idleTask == None && s'.cell.activeReaders == 0
    ensures t != e.t ==> Pending(PhaseOf(s, t)) == Some(s.cell.idleSeq)
  {
    assert Out(PhaseOf(s, e.t)) ==> s.cell.activeReaders == 1;
    assert Pending(PhaseOf(s, t)).Some? ==> Pending(PhaseOf(s, t)).value <= s.cell.idleSeq;
  }

  lemma PendingIsAlone(s: Sys, e: Event, s': Sys, aborts: set<TaskId>, t: TaskId, u: TaskId)
    requires SleeperStep(s, e, s', aborts) && Pending(PhaseOf(s', t)) == Some(s'.cell.idleSeq)
    requires Pending(PhaseOf(s', u)) == Some(s'.cell.idleSeq)
    ensures u == t
  {
    PendingIsIdle(s, e, s', aborts, t);
    PendingIsIdle(s, e, s', aborts, u);
    assert Out(PhaseOf(s, e.t)) ==> s.cell.activeReaders == 1;
  }

  lemma PendingKept(s: Sys, e: Event, s': Sys, aborts: set<TaskId>, t: TaskId)
    requires SleeperStep(s, e, s', aborts) && Pending(PhaseOf(s', t)).Some?
    ensures Pending(PhaseOf(s', t)).value <= s'.cell.idleSeq
    ensures Pending(PhaseOf(s', t)).value == s'.cell.idleSeq ==>
      && s'.cell.idleTask == None && s'.cell.activeReaders == 0
      && forall u: TaskId :: Pending(PhaseOf(s', u)) == Some(s'.cell.idleSeq) ==> u == t
  {
    PendingIsPast(s, e, s', aborts, t);
    if Pending(PhaseOf(s', t)).value == s'.cell.idleSeq {
      PendingIsIdle(s, e, s', aborts, t);
      forall u: TaskId | Pending(PhaseOf(s', u)) == Some(s'.cell.idleSeq) ensures u == t {
        PendingIsAlone(s, e, s', aborts, t, u);
      }
    }
  }

  lemma SleeperInvKept(s: Sys, e: Event, s': Sys, aborts: set<TaskId>)
    requires SleeperStep(s, e, s', aborts)
    requires forall t: TaskId :: t in s'.aborted ==> t in s'.tasks
    ensures SleeperInv(s')
  {
    if s'.cell.idleTask.Some? {
      InstalledKept(s, e, s', aborts);
    }
    forall t: TaskId | PhaseOf(s', t).Asleep?
      ensures PhaseOf(s', t).stamp <= s'.cell.idleSeq && !s'.eager
      ensures PhaseOf(s', t).stamp == s'.cell.idleSeq || t !in s'.aborted ==> s'.cell.idleTask == Some(t)
    {
      SleepersKept(s, e, s', aborts, t);
    }
    forall t: TaskId | Pending(PhaseOf(s', t)).Some?
      ensures Pending(PhaseOf(s', t)).value <= s'.cell.idleSeq
      ensures Pending(PhaseOf(s', t)).value == s'.cell.idleSeq ==>
        && s'.cell.idleTask == None && s'.cell.activeReaders == 0
        && forall u: TaskId :: Pending(PhaseOf(s', u)) == Some(s'.cell.idleSeq) ==> u == t
    {
      PendingKept(s, e, s', aborts, t);
    }
  }

  lemma SleeperInvStep(s: Sys, e: Event)
    requires CheckoutInv(s) && SleeperInv(s) && Enabled(s, e)
    ensures SleeperInv(Step(s, e))
  {
    var s', aborts := Step(s, e), Aborts(s.cell, PhaseOf(s, e.t), e, s.eager);
    StepIsCore(s, e);
    AbortsExist(s, e);
    IdleEffects(s.cell, PhaseOf(s, e.t), e, s.eager);
    SleeperInvKept(s, e, s', aborts);
  }

  /** Aborts are requested of sleepers that exist, and an arming adds its sleeper. */
  lemma AbortsExist(s: Sys, e: Event)
    requires SleeperInv(s) && Enabled(s, e)
    ensures forall t: TaskId :: t in Step(s, e).aborted ==> t in s.tasks && t in Step(s, e).tasks
    ensures e.Arm? && ArmOutcome(s.cell, PhaseOf(s, e.t).stamp, s.eager).Installed? ==>
      PhaseOf(Step(s, e), e.sleeper) == Asleep(PhaseOf(s, e.t).stamp)
  {
    assert forall t: TaskId :: t in s.tasks ==> t in NextTasks(s, e);
  }

  /** With an idle TTL, while a close with the current stamp is still to be scheduled, the handle is at home in an open
      cache. */
  ghost predicate HomeInv(s: Sys) {
    !s.eager ==> forall t: TaskId :: Pending(PhaseOf(s, t)) == Some(s.cell.idleSeq) ==>
      s.cell.handle.Some? && !s.cell.closed
  }

  /** Where a pending close with the current stamp comes from, and what an event leaves of the resident handle. */
  predicate HomeEffect(c: Cell, p: Phase, e: Event, eager: bool, c': Cell, p': Phase)
    requires Fits(p, e)
  {
    && c.idleSeq <= c'.idleSeq
    && (Pending(p') == Some(c'.idleSeq) && Pending(p') != Pending(p) ==> c'.handle.Some? && !c'.closed)
    && (c'.idleSeq == c.idleSeq && !eager && c.handle.Some? && c'.handle == None ==> p == Asleep(c.idleSeq))
    && (c'.idleSeq == c.idleSeq && !c.closed ==> !c'.closed)
  }

  lemma HomeEffects(c: Cell, p: Phase, e: Event, eager: bool)
    requires Fits(p, e) && (Out(p) ==> c.handle == None)
    ensures HomeEffect(c, p, e, eager, NextCell(c, p, e, eager), NextPhase(c, p, e, eager))
  {
    if Checks(e) {
      CheckingHomeEffects(c, p, e, eager);
    } else {
      OtherHomeEffects(c, p, e, eager);
    }
  }

  lemma CheckingHomeEffects(c: Cell, p: Phase, e: Event, eager: bool)
    requires Fits(p, e) && Checks(e) && (Out(p) ==> c.handle == None)
    ensures HomeEffect(c, p, e, eager, NextCell(c, p, e, eager), NextPhase(c, p, e, eager))
  {
  }

  lemma OtherHomeEffects(c: Cell, p: Phase, e: Event, eager: bool)
    requires Fits(p, e) && !Checks(e)
    ensures HomeEffect(c, p, e, eager, NextCell(c, p, e, eager), NextPhase(c, p, e, eager))
  {
  }

  lemma StillHome(s: Sys, e: Event, t: TaskId)
    requires CheckoutInv(s) && SleeperInv(s) && HomeInv(s) && Enabled(s, e) && !s.eager
    requires Pending(PhaseOf(Step(s, e), t)) == Some(Step(s, e).cell.idleSeq)
    ensures Step(s, e).cell.handle.Some? && !Step(s, e).cell.closed
  {
    StepIsCore(s, e);
    assert Out(PhaseOf(s, e.t)) ==> s.cell.activeReaders == 1 && s.cell.handle == None;
    HomeEffects(s.cell, PhaseOf(s, e.t), e, s.eager);
    StillHomeAfter(s, e, Step(s, e), t);
  }

  lemma StillHomeAfter(s: Sys, e: Event, s': Sys, t: TaskId)
    requires SleeperInv(s) && HomeInv(s) && !s.eager && Fits(PhaseOf(s, e.t), e)
    requires t != e.t ==> PhaseOf(s', t) == PhaseOf(s, t) || PhaseOf(s', t).Asleep?
    requires HomeEffect(s.cell, PhaseOf(s, e.t), e, s.eager, s'.cell, PhaseOf(s', e.t))
    requires Pending(PhaseOf(s', t)) == Some(s'.cell.idleSeq)
    ensures s'.cell.handle.Some? && !s'.cell.closed
  {
    if Pending(PhaseOf(s, t)) == Pending(PhaseOf(s', t)) {
      assert Pending(PhaseOf(s, t)).value <= s.cell.idleSeq;
      assert s.cell.idleTask == None;
      assert PhaseOf(s, e.t) == Asleep(s.cell.idleSeq) ==> s.cell.idleTask == Some(e.t);
    }
  }

  lemma HomeInvStep(s: Sys, e: Event)
    requires CheckoutInv(s) && SleeperInv(s) && HomeInv(s) && Enabled(s, e)
    ensures HomeInv(Step(s, e))
  {
    if !Step(s, e).eager {
      forall t: TaskId | Pending(PhaseOf(Step(s, e), t)) == Some(Step(s, e).cell.idleSeq)
        ensures Step(s, e).cell.handle.Some? && !Step(s, e).cell.closed
      {
        StillHome(s, e, t);
      }
    }
  }
}
