/** The lock-protected state of the read-session cache and its lock sections.

    Every section that runs under the state mutex is written twice: as a function from the state before
    to the state after (used by the interleaving model in `SessionSystem`), and as a method of the class
    that owns the fields. Handles and sleeper tasks are identified by numbers. */
module SessionCell {
  import opened Options

  type HandleId = nat
  type TaskId = nat

  /** `activeReaders` is an `int` on purpose: the lock sections subtract from an unsigned counter, and that
      it never goes below zero is a theorem about runs, not an assumption. */
  datatype Cell = Cell(
    handle: Option<HandleId>,
    activeReaders: int,
    idleSeq: nat,
    retireEpoch: nat,
    activeEpoch: Option<nat>,
    closed: bool,
    idleTask: Option<TaskId>)

  const EMPTY_CELL := Cell(None, 0, 0, 0, None, false, None)

  datatype Next = Refused | Ready(handle: HandleId) | Open | Wait
  datatype Turn = TurnRefused | WorldChanged | StillCold
  datatype Restored =
    | DroppedClosed
    | DroppedRetired
    | Republished(displaced: Option<HandleId>, drained: bool, stamp: nat)
  datatype Armed = Skipped | EvictedNow(handle: HandleId) | Installed(replaced: Option<TaskId>)
  datatype Woke = Stale | Evicted(taken: Option<HandleId>)

  /** The bookkeeping shared by the two ways a reader obtains a handle. */
  function BeginCheckout(c: Cell): Cell {
    c.(activeReaders := c.activeReaders + 1, idleSeq := c.idleSeq + 1,
       activeEpoch := Some(c.retireEpoch), idleTask := None)
  }

  function ObserveNext(c: Cell): Next {
    if c.closed then Refused
    else if c.handle.Some? then Ready(c.handle.value)
    else if c.activeReaders > 0 then Wait
    else Open
  }

  function ObserveCell(c: Cell): Cell {
    if ObserveNext(c).Ready? then BeginCheckout(c).(handle := None) else c
  }

  function RecheckTurn(c: Cell): Turn {
    if c.closed then TurnRefused
    else if c.handle.Some? || c.activeReaders > 0 then WorldChanged
    else StillCold
  }

  function PublishCell(c: Cell): Cell {
    if c.closed then c else BeginCheckout(c)
  }

  function RestoreOutcome(c: Cell): Restored {
    if c.closed then DroppedClosed
    else if c.activeEpoch.Some? && c.activeEpoch.value != c.retireEpoch then DroppedRetired
    else Republished(c.handle, c.activeReaders - 1 == 0, c.idleSeq)
  }

  function RestoreCell(c: Cell, handle: HandleId): Cell {
    var drained := c.(activeReaders := c.activeReaders - 1, activeEpoch := None);
    if RestoreOutcome(c).Republished? then drained.(handle := Some(handle)) else drained
  }

  function ReleaseCell(c: Cell): Cell {
    c.(activeReaders := c.activeReaders - 1, activeEpoch := None)
  }

  function RetireCell(c: Cell): Cell {
    if c.closed then c
    else c.(retireEpoch := c.retireEpoch + 1, idleSeq := c.idleSeq + 1, idleTask := None, handle := None)
  }

  function CloseCell(c: Cell): Cell {
    if c.closed then c
    else c.(closed := true, idleSeq := c.idleSeq + 1, idleTask := None, handle := None)
  }

  /** `eager` is a zero idle TTL: the handle is closed at once instead of arming a sleeper. */
  function ArmOutcome(c: Cell, stamp: nat, eager: bool): Armed {
    if eager then
      if c.closed || c.activeReaders != 0 || c.handle.None? then Skipped else EvictedNow(c.handle.value)
    else if c.closed || c.activeReaders != 0 || c.handle.None? || c.idleSeq != stamp then Skipped
    else Installed(c.idleTask)
  }

  function ArmCell(c: Cell, stamp: nat, eager: bool, sleeper: TaskId): Cell {
    match ArmOutcome(c, stamp, eager)
    case Skipped => c
    case EvictedNow(_) => c.(handle := None)
    case Installed(_) => c.(idleTask := Some(sleeper))
  }

  function WakeOutcome(c: Cell, stamp: nat): Woke {
    if c.closed || c.activeReaders != 0 || c.idleSeq != stamp then Stale else Evicted(c.handle)
  }

  function WakeCell(c: Cell, stamp: nat): Cell {
    if WakeOutcome(c, stamp).Stale? then c else c.(idleTask := None, handle := None)
  }

  /** The fields behind the state mutex; each method is one critical section. */
  class SessionState {
    var handle: Option<HandleId>
    var activeReaders: nat
    var idleSeq: nat
    var retireEpoch: nat
    var activeEpoch: Option<nat>
    var closed: bool
    var idleTask: Option<TaskId>

    function Snapshot(): Cell
      reads this
    {
      Cell(handle, activeReaders, idleSeq, retireEpoch, activeEpoch, closed, idleTask)
    }

    constructor ()
      ensures Snapshot() == EMPTY_CELL
    {
      handle, activeReaders, idleSeq, retireEpoch := None, 0, 0, 0;
      activeEpoch, closed, idleTask := None, false, None;
    }

    /** The observe step of the checkout loop; `aborted` is the sleeper cancelled on the way. */
    method Observe() returns (next: Next, aborted: Option<TaskId>)
      modifies this
      ensures Snapshot() == ObserveCell(old(Snapshot())) && next == ObserveNext(old(Snapshot()))
      ensures aborted == if next.Ready? then old(idleTask) else None
    {
      aborted := None;
      if closed {
        return Refused, None;
      }
      if handle.Some? {
        next := Ready(handle.value);
        handle := None;
        activeReaders := activeReaders + 1;
        idleSeq := idleSeq + 1;
        activeEpoch := Some(retireEpoch);
        aborted := idleTask;
        idleTask := None;
      } else if activeReaders > 0 {
        next := Wait;
      } else {
        next := Open;
      }
    }

    /** The second look under the open turn; changes nothing. */
    method Recheck() returns (turn: Turn)
      ensures turn == RecheckTurn(Snapshot())
    {
      if closed {
        return TurnRefused;
      }
      if handle.Some? || activeReaders > 0 {
        return WorldChanged;
      }
      turn := StillCold;
    }

    /** Checks a freshly opened handle out; `ok` is false when a close won the race. */
    method Publish() returns (ok: bool, aborted: Option<TaskId>)
      modifies this
      ensures Snapshot() == PublishCell(old(Snapshot())) && ok == !old(closed)
      ensures aborted == if ok then old(idleTask) else None
    {
      if closed {
        return false, None;
      }
      activeReaders := activeReaders + 1;
      idleSeq := idleSeq + 1;
      activeEpoch := Some(retireEpoch);
      ok, aborted := true, idleTask;
      idleTask := None;
    }

    /** Gives a checked-out handle back. The caller holds a checkout. */
    method Restore(returned: HandleId) returns (outcome: Restored)
      requires activeReaders > 0
      modifies this
      ensures Snapshot() == RestoreCell(old(Snapshot()), returned) && outcome == RestoreOutcome(old(Snapshot()))
    {
      activeReaders := activeReaders - 1;
      var drained, stamp, checkoutEpoch := activeReaders == 0, idleSeq, activeEpoch;
      activeEpoch := None;
      if closed {
        return DroppedClosed;
      }
      if checkoutEpoch.Some? && checkoutEpoch.value != retireEpoch {
        return DroppedRetired;
      }
      outcome := Republished(handle, drained, stamp);
      handle := Some(returned);
    }

    /** Ends a checkout whose handle was lost. The caller holds a checkout. */
    method Release()
      requires activeReaders > 0
      modifies this
      ensures Snapshot() == ReleaseCell(old(Snapshot()))
    {
      activeReaders := activeReaders - 1;
      activeEpoch := None;
    }

    method Retire() returns (taken: Option<HandleId>, aborted: Option<TaskId>)
      modifies this
      ensures Snapshot() == RetireCell(old(Snapshot()))
      ensures (taken, aborted) == if old(closed) then (None, None) else (old(handle), old(idleTask))
    {
      if closed {
        return None, None;
      }
      retireEpoch := retireEpoch + 1;
      idleSeq := idleSeq + 1;
      taken, aborted := handle, idleTask;
      handle, idleTask := None, None;
    }

    /** `first` is false when the cache was already closed. */
    method Close() returns (first: bool, taken: Option<HandleId>, aborted: Option<TaskId>)
      modifies this
      ensures Snapshot() == CloseCell(old(Snapshot())) && first == !old(closed)
      ensures (taken, aborted) == if first then (old(handle), old(idleTask)) else (None, None)
    {
      if closed {
        return false, None, None;
      }
      closed := true;
      idleSeq := idleSeq + 1;
      first, taken, aborted := true, handle, idleTask;
      handle, idleTask := None, None;
    }

    method ScheduleIdleClose(stamp: nat, eager: bool, sleeper: TaskId) returns (outcome: Armed)
      modifies this
      ensures Snapshot() == ArmCell(old(Snapshot()), stamp, eager, sleeper)
      ensures outcome == ArmOutcome(old(Snapshot()), stamp, eager)
    {
      if eager {
        if closed || activeReaders != 0 {
          return Skipped;
        }
        if handle.Some? {
          outcome := EvictedNow(handle.value);
          handle := None;
          return;
        }
        return Skipped;
      }
      if closed || activeReaders != 0 || handle.None? || idleSeq != stamp {
        return Skipped;
      }
      outcome := Installed(idleTask);
      idleTask := Some(sleeper);
    }

    /** What a sleeper does under the lock once its sleep ends. */
    method SleeperWakes(stamp: nat) returns (outcome: Woke)
      modifies this
      ensures Snapshot() == WakeCell(old(Snapshot()), stamp) && outcome == WakeOutcome(old(Snapshot()), stamp)
    {
      if closed || activeReaders != 0 || idleSeq != stamp {
        return Stale;
      }
      outcome := Evicted(handle);
      idleTask, handle := None, None;
    }
  }
}
