/** The read-session cache as an interleaving step system.

    Any number of reader, retire and close tasks run against one `Cell`; each event is one lock section, one
    `Notify` operation, or the end of something that happens between them (an open, a search, a handle being
    closed, a sleep). `Notify` is modelled by the registration of every live future, one stored permit, and the
    forwarding of an undelivered single notification when a future is dropped. Which waiter a single
    notification picks is left open, so every result holds for any queueing order. */
module SessionSystem {
  import opened Options
  import opened SessionCell

  /** The state of a task's `Notified` future. `Spent`: it consumed the stored permit when it was enabled. */
  datatype Registration = Unregistered | Waiting | NotifiedOne | NotifiedAll | Spent

  /** `woken` marks a reader that is going round the checkout loop again after a wake-up or a lost open turn. */
  datatype Phase =
    | Entering(woken: bool)
    | Registered(woken: bool)
    | Parked
    | Queueing                       // found the cache cold, waits for the open turn
    | Rechecking                     // has the open turn
    | Opening
    | Opened(newborn: HandleId)
    | Discarding(stale: HandleId)    // lost the race against close, closes its fresh handle
    | Retrying                       // the world changed: the future is dropped, then the loop starts over
    | Leaving                        // returns an error once the future is dropped
    | Holding(checked: HandleId)     // checked out, future not dropped yet
    | Searching(used: HandleId)
    | Panicked                       // the search body lost the handle
    | Notifying(displaced: Option<HandleId>, drained: bool, stamp: nat)
    | ClosingDisplaced(evictee: HandleId, drained: bool, stamp: nat)
    | ClosingRetired(retired: HandleId)
    | Closing(taken: HandleId)
    | Arming(stamp: nat)
    | RetireCall
    | CloseCall
    | WakingAll(home: Option<HandleId>)
    | Asleep(stamp: nat)
    | Done

  datatype Task = Task(phase: Phase, reg: Registration)

  /** `turn` is the owner of the open turn; the remaining fields record what happened so far: the handles
      ever opened, the handles closed (once per close), the handles lost to a panic, the handles that were
      resident or checked out at some retire, and the sleepers whose abort was requested. */
  datatype Sys = Sys(
    cell: Cell, turn: Option<TaskId>, permit: bool, tasks: map<TaskId, Task>,
    known: set<HandleId>, closings: multiset<HandleId>, lost: multiset<HandleId>,
    retired: set<HandleId>, aborted: set<TaskId>, eager: bool)

  function Init(eager: bool): Sys {
    Sys(EMPTY_CELL, None, false, map[], {}, multiset{}, multiset{}, {}, {}, eager)
  }

  datatype Event =
    | Spawn(t: TaskId, start: Phase)
    | Register(t: TaskId)
    | Observe(t: TaskId)
    | Poll(t: TaskId)
    | TakeTurn(t: TaskId)
    | Recheck(t: TaskId)
    | OpenOk(t: TaskId, h: HandleId)
    | OpenFail(t: TaskId)
    | Publish(t: TaskId)
    | DropFuture(t: TaskId, next: Option<TaskId>)
    | Restore(t: TaskId)
    | Panic(t: TaskId)
    | Release(t: TaskId)
    | Notify(t: TaskId, next: Option<TaskId>)
    | FinishClose(t: TaskId)
    | Arm(t: TaskId, sleeper: TaskId)
    | Retire(t: TaskId)
    | Close(t: TaskId)
    | NotifyAll(t: TaskId)
    | Wake(t: TaskId)
    | AbortLands(t: TaskId)

  /** The phase of a task; a task that does not exist has nothing left to do. */
  function PhaseOf(s: Sys, t: TaskId): Phase {
    if t in s.tasks then s.tasks[t].phase else Done
  }

  // ----- What a task may do, and where it goes next

  predicate CanDrop(p: Phase) {
    p.Retrying? || p.Leaving? || p.Holding?
  }

  /** The handle a task is closing, if it is closing one. */
  function BeingClosed(p: Phase): Option<HandleId> {
    match p
    case Discarding(h) => Some(h)
    case ClosingDisplaced(h, _, _) => Some(h)
    case ClosingRetired(h) => Some(h)
    case Closing(h) => Some(h)
    case _ => None
  }

  /** The phase in which an event of a task can happen. */
  predicate Fits(p: Phase, e: Event) {
    match e
    case Spawn(_, start) => p.Done? && start in {Entering(false), RetireCall, CloseCall}
    case Register(_) => p.Entering?
    case Observe(_) => p.Registered?
    case Poll(_) => p.Parked?
    case TakeTurn(_) => p.Queueing?
    case Recheck(_) => p.Rechecking?
    case OpenOk(_, _) => p.Opening?
    case OpenFail(_) => p.Opening?
    case Publish(_) => p.Opened?
    case DropFuture(_, _) => CanDrop(p)
    case Restore(_) => p.Searching?
    case Panic(_) => p.Searching?
    case Release(_) => p.Panicked?
    case Notify(_, _) => p.Notifying?
    case FinishClose(_) => BeingClosed(p).Some?
    case Arm(_, _) => p.Arming?
    case Retire(_) => p.RetireCall?
    case Close(_) => p.CloseCall?
    case NotifyAll(_) => p.WakingAll?
    case Wake(_) => p.Asleep?
    case AbortLands(_) => p.Asleep?
  }

  function AfterDrop(p: Phase): Phase {
    match p
    case Retrying => Entering(true)
    case Holding(h) => Searching(h)
    case _ => Done
  }

  function AfterClose(p: Phase): Phase {
    match p
    case Discarding(_) => Leaving
    case ClosingDisplaced(_, drained, stamp) => if drained then Arming(stamp) else Done
    case ClosingRetired(_) => Notifying(None, false, 0)
    case _ => Done
  }

  function AfterNotify(displaced: Option<HandleId>, drained: bool, stamp: nat): Phase {
    if displaced.Some? then ClosingDisplaced(displaced.value, drained, stamp)
    else if drained then Arming(stamp)
    else Done
  }

  function CloseOrDone(taken: Option<HandleId>): Phase {
    if taken.Some? then Closing(taken.value) else Done
  }

  function AfterObserve(next: Next): Phase {
    match next
    case Refused => Leaving
    case Ready(h) => Holding(h)
    case Open => Queueing
    case Wait => Parked
  }

  function AfterRecheck(turn: Turn): Phase {
    match turn
    case TurnRefused => Leaving
    case WorldChanged => Retrying
    case StillCold => Opening
  }

  function AfterRestore(h: HandleId, outcome: Restored): Phase {
    match outcome
    case DroppedClosed => Closing(h)
    case DroppedRetired => ClosingRetired(h)
    case Republished(displaced, drained, stamp) => Notifying(displaced, drained, stamp)
  }

  function AfterArm(outcome: Armed): Phase {
    match outcome
    case EvictedNow(h) => Closing(h)
    case _ => Done
  }

  function AfterWake(outcome: Woke): Phase {
    match outcome
    case Stale => Done
    case Evicted(taken) => CloseOrDone(taken)
  }

  function NextPhase(c: Cell, p: Phase, e: Event, eager: bool): Phase
    requires Fits(p, e)
  {
    match e
    case Spawn(_, start) => start
    case Register(_) => Registered(p.woken)
    case Observe(_) => AfterObserve(ObserveNext(c))
    case Poll(_) => Entering(true)
    case TakeTurn(_) => Rechecking
    case Recheck(_) => AfterRecheck(RecheckTurn(c))
    case OpenOk(_, h) => Opened(h)
    case OpenFail(_) => Leaving
    case Publish(_) => if c.closed then Discarding(p.newborn) else Holding(p.newborn)
    case DropFuture(_, _) => AfterDrop(p)
    case Restore(_) => AfterRestore(p.used, RestoreOutcome(c))
    case Panic(_) => Panicked
    case Release(_) => Notifying(None, false, 0)
    case Notify(_, _) => AfterNotify(p.displaced, p.drained, p.stamp)
    case FinishClose(_) => AfterClose(p)
    case Arm(_, _) => AfterArm(ArmOutcome(c, p.stamp, eager))
    case Retire(_) => if c.closed then Done else CloseOrDone(c.handle)
    case Close(_) => if c.closed then Done else WakingAll(c.handle)
    case NotifyAll(_) => CloseOrDone(p.home)
    case Wake(_) => AfterWake(WakeOutcome(c, p.stamp))
    case AbortLands(_) => Done
  }

  // ----- The shared cell, the open turn and the sleepers

  function NextCell(c: Cell, p: Phase, e: Event, eager: bool): Cell
    requires Fits(p, e)
  {
    match e
    case Observe(_) => ObserveCell(c)
    case Publish(_) => PublishCell(c)
    case Restore(_) => RestoreCell(c, p.used)
    case Release(_) => ReleaseCell(c)
    case Arm(_, sleeper) => ArmCell(c, p.stamp, eager, sleeper)
    case Retire(_) => RetireCell(c)
    case Close(_) => CloseCell(c)
    case Wake(_) => WakeCell(c, p.stamp)
    case _ => c
  }

  /** The turn is given up with the section that ends its use. */
  function NextTurn(c: Cell, turn: Option<TaskId>, e: Event): Option<TaskId> {
    match e
    case TakeTurn(t) => Some(t)
    case Recheck(_) => if RecheckTurn(c).StillCold? then turn else None
    case OpenFail(_) => None
    case Publish(_) => None
    case _ => turn
  }

  function AsSet(x: Option<nat>): set<nat> {
    if x.Some? then {x.value} else {}
  }

  /** The sleeper whose abort an event requests: whatever the idle slot loses to anything but its own wake-up. */
  function Aborts(c: Cell, p: Phase, e: Event, eager: bool): set<TaskId>
    requires Fits(p, e)
  {
    match e
    case Observe(_) => if ObserveNext(c).Ready? then AsSet(c.idleTask) else {}
    case Publish(_) => if c.closed then {} else AsSet(c.idleTask)
    case Retire(_) => if c.closed then {} else AsSet(c.idleTask)
    case Close(_) => if c.closed then {} else AsSet(c.idleTask)
    case Arm(_, _) => if ArmOutcome(c, p.stamp, eager).Installed? then AsSet(c.idleTask) else {}
    case _ => {}
  }

  // ----- Notify

  predicate IsWaiting(tasks: map<TaskId, Task>, t: TaskId) {
    t in tasks && tasks[t].reg == Waiting
  }

  /** A single notification goes to some waiting future, and to the stored permit only when there is none. */
  predicate MayNotify(tasks: map<TaskId, Task>, next: Option<TaskId>) {
    match next
    case Some(w) => IsWaiting(tasks, w)
    case None => forall t | t in tasks :: !IsWaiting(tasks, t)
  }

  /** A dropped future that was picked by a single notification passes it on. */
  predicate Forwards(s: Sys, e: Event) {
    e.DropFuture? && e.t in s.tasks && s.tasks[e.t].reg == NotifiedOne
  }

  function Deliver(tasks: map<TaskId, Task>, next: Option<TaskId>): map<TaskId, Task>
    requires MayNotify(tasks, next)
  {
    if next.Some? then tasks[next.value := tasks[next.value].(reg := NotifiedOne)] else tasks
  }

  function WakeAllWaiting(tasks: map<TaskId, Task>): map<TaskId, Task> {
    map t | t in tasks :: if tasks[t].reg == Waiting then tasks[t].(reg := NotifiedAll) else tasks[t]
  }

  function NextPermit(s: Sys, e: Event): bool {
    if e.Register? then false
    else if (e.Notify? || Forwards(s, e)) && e.next == None then true
    else s.permit
  }

  // ----- Tasks

  /** The task of the event has moved and, where it drops or polls its future, unregistered. */
  function Moved(s: Sys, e: Event): map<TaskId, Task>
    requires Fits(PhaseOf(s, e.t), e)
  {
    var phase := NextPhase(s.cell, PhaseOf(s, e.t), e, s.eager);
    var reg :=
      if e.t !in s.tasks || e.DropFuture? || e.Poll? then Unregistered
      else if e.Register? then if s.permit then Spent else Waiting
      else s.tasks[e.t].reg;
    s.tasks[e.t := Task(phase, reg)]
  }

  predicate Enabled(s: Sys, e: Event) {
    && Fits(PhaseOf(s, e.t), e)
    && match e
       case Spawn(t, _) => t !in s.tasks
       case Poll(t) => s.tasks[t].reg in {NotifiedOne, NotifiedAll, Spent}
       case TakeTurn(_) => s.turn == None
       case OpenOk(_, h) => h !in s.known
       case DropFuture(_, next) => if Forwards(s, e) then MayNotify(Moved(s, e), next) else next == None
       case Notify(_, next) => MayNotify(Moved(s, e), next)
       case Arm(t, sleeper) => sleeper !in s.tasks
       case AbortLands(t) => t in s.aborted
       case _ => true
  }

  function NextTasks(s: Sys, e: Event): map<TaskId, Task>
    requires Enabled(s, e)
  {
    var moved := Moved(s, e);
    match e
    case Notify(_, next) => Deliver(moved, next)
    case DropFuture(_, next) => if Forwards(s, e) then Deliver(moved, next) else moved
    case NotifyAll(_) => WakeAllWaiting(moved)
    case Arm(t, sleeper) =>
      if ArmOutcome(s.cell, PhaseOf(s, t).stamp, s.eager).Installed? then
        moved[sleeper := Task(Asleep(PhaseOf(s, t).stamp), Unregistered)]
      else moved
    case _ => moved
  }

  // ----- What happened so far

  function CheckedOutHandle(p: Phase): Option<HandleId> {
    match p
    case Holding(h) => Some(h)
    case Searching(h) => Some(h)
    case _ => None
  }

  /** The handles that are resident or checked out. */
  function InUse(s: Sys): set<HandleId> {
    AsSet(s.cell.handle)
    + set t | t in s.tasks && CheckedOutHandle(s.tasks[t].phase).Some? :: CheckedOutHandle(s.tasks[t].phase).value
  }

  function Step(s: Sys, e: Event): Sys
    requires Enabled(s, e)
  {
    var p := PhaseOf(s, e.t);
    Sys(NextCell(s.cell, p, e, s.eager),
        NextTurn(s.cell, s.turn, e),
        NextPermit(s, e),
        NextTasks(s, e),
        if e.OpenOk? then s.known + {e.h} else s.known,
        if e.FinishClose? then s.closings + multiset{BeingClosed(p).value} else s.closings,
        if e.Panic? then s.lost + multiset{p.used} else s.lost,
        if e.Retire? && !s.cell.closed then s.retired + InUse(s) else s.retired,
        s.aborted + Aborts(s.cell, p, e, s.eager),
        s.eager)
  }

  /** `es` can happen one after the other from `s`. */
  predicate Valid(s: Sys, es: seq<Event>)
    decreases |es|
  {
    es == [] || (Enabled(s, es[0]) && Valid(Step(s, es[0]), es[1..]))
  }

  function Run(s: Sys, es: seq<Event>): Sys
    requires Valid(s, es)
    decreases |es|
  {
    if es == [] then s else Run(Step(s, es[0]), es[1..])
  }
}
