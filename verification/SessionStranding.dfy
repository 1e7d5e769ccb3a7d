/** Why the wake-up results need opens to succeed: a run in which a failed open leaves a reader asleep. */
module SessionStranding {
  import opened Options
  import opened SessionCell
  import opened SessionSystem
  import opened SessionWakeups
  import SessionRescues

  ghost predicate Reachable(s: Sys) {
    exists es :: Valid(Init(false), es) && Run(Init(false), es) == s
  }

  predicate Leads(s: Sys, e: Event, s': Sys) {
    Enabled(s, e) && Step(s, e) == s'
  }

  lemma {:induction false} RunAppend(s: Sys, es: seq<Event>, e: Event, s': Sys)
    requires Valid(s, es) && Leads(Run(s, es), e, s')
    ensures Valid(s, es + [e]) && Run(s, es + [e]) == s'
    decreases |es|
  {
    var more := es + [e];
    if es == [] {
      assert more[0] == e && more[1..] == [];
      assert Valid(s', more[1..]) && Run(s', more[1..]) == s';
    } else {
      assert more[0] == es[0] && more[1..] == es[1..] + [e];
      RunAppend(Step(s, es[0]), es[1..], e, s');
    }
  }

  lemma Reach(s: Sys, e: Event, s': Sys)
    requires Reachable(s) && Leads(s, e, s')
    ensures Reachable(s')
  {
    var es :| Valid(Init(false), es) && Run(Init(false), es) == s;
    RunAppend(Init(false), es, e, s');
  }

  function With(s: Sys, t: TaskId, phase: Phase, reg: Registration): Sys {
    s.(tasks := s.tasks[t := Task(phase, reg)])
  }

  /** Nobody resident, nobody sleeping, no permit stored, and the cache is open. */
  predicate Bare(s: Sys) {
    s.cell.handle == None && !s.cell.closed && s.cell.idleTask == None && !s.permit
  }

  lemma SpawnLeads(s: Sys, t: TaskId)
    requires t !in s.tasks
    ensures Leads(s, Spawn(t, Entering(false)), With(s, t, Entering(false), Unregistered))
  {
  }

  lemma Spawns(s: Sys, t: TaskId)
    requires Reachable(s) && t !in s.tasks
    ensures Reachable(With(s, t, Entering(false), Unregistered))
  {
    SpawnLeads(s, t);
    Reach(s, Spawn(t, Entering(false)), With(s, t, Entering(false), Unregistered));
  }

  lemma RegisterLeads(s: Sys, t: TaskId)
    requires Bare(s) && t in s.tasks && s.tasks[t].phase.Entering?
    ensures Leads(s, Register(t), With(s, t, Registered(s.tasks[t].phase.woken), Waiting))
  {
  }

  lemma Registers(s: Sys, t: TaskId)
    requires Reachable(s) && Bare(s) && t in s.tasks && s.tasks[t].phase.Entering?
    ensures Reachable(With(s, t, Registered(s.tasks[t].phase.woken), Waiting))
  {
    RegisterLeads(s, t);
    Reach(s, Register(t), With(s, t, Registered(s.tasks[t].phase.woken), Waiting));
  }

  lemma ObserveLeads(s: Sys, t: TaskId)
    requires Bare(s) && t in s.tasks && s.tasks[t].phase.Registered? && s.tasks[t].reg == Waiting
    ensures Leads(s, Observe(t), With(s, t, if s.cell.activeReaders > 0 then Parked else Queueing, Waiting))
  {
  }

  lemma Observes(s: Sys, t: TaskId)
    requires Reachable(s) && Bare(s) && t in s.tasks && s.tasks[t].phase.Registered? && s.tasks[t].reg == Waiting
    ensures Reachable(With(s, t, if s.cell.activeReaders > 0 then Parked else Queueing, Waiting))
  {
    ObserveLeads(s, t);
    Reach(s, Observe(t), With(s, t, if s.cell.activeReaders > 0 then Parked else Queueing, Waiting));
  }

  lemma TurnLeads(s: Sys, t: TaskId)
    requires s.turn == None && t in s.tasks && s.tasks[t] == Task(Queueing, Waiting)
    ensures Leads(s, TakeTurn(t), With(s, t, Rechecking, Waiting).(turn := Some(t)))
  {
  }

  lemma TakesTurn(s: Sys, t: TaskId)
    requires Reachable(s) && s.turn == None && t in s.tasks && s.tasks[t] == Task(Queueing, Waiting)
    ensures Reachable(With(s, t, Rechecking, Waiting).(turn := Some(t)))
  {
    TurnLeads(s, t);
    Reach(s, TakeTurn(t), With(s, t, Rechecking, Waiting).(turn := Some(t)));
  }

  lemma ColdLeads(s: Sys, t: TaskId)
    requires Bare(s) && s.cell.activeReaders == 0 && t in s.tasks && s.tasks[t] == Task(Rechecking, Waiting)
    ensures Leads(s, SessionSystem.Recheck(t), With(s, t, Opening, Waiting))
  {
  }

  lemma FindsCold(s: Sys, t: TaskId)
    requires Reachable(s) && Bare(s) && s.cell.activeReaders == 0
    requires t in s.tasks && s.tasks[t] == Task(Rechecking, Waiting)
    ensures Reachable(With(s, t, Opening, Waiting))
  {
    ColdLeads(s, t);
    Reach(s, SessionSystem.Recheck(t), With(s, t, Opening, Waiting));
  }

  lemma SearchLeads(s: Sys, t: TaskId)
    requires t in s.tasks && s.tasks[t].phase.Holding? && s.tasks[t].reg == Waiting
    ensures Leads(s, DropFuture(t, None), With(s, t, Searching(s.tasks[t].phase.checked), Unregistered))
  {
  }

  lemma StartsSearching(s: Sys, t: TaskId)
    requires Reachable(s) && t in s.tasks && s.tasks[t].phase.Holding? && s.tasks[t].reg == Waiting
    ensures Reachable(With(s, t, Searching(s.tasks[t].phase.checked), Unregistered))
  {
    SearchLeads(s, t);
    Reach(s, DropFuture(t, None), With(s, t, Searching(s.tasks[t].phase.checked), Unregistered));
  }

  lemma PollLeads(s: Sys, t: TaskId)
    requires t in s.tasks && s.tasks[t] == Task(Parked, NotifiedOne)
    ensures Leads(s, Poll(t), With(s, t, Entering(true), Unregistered))
  {
  }

  lemma Polls(s: Sys, t: TaskId)
    requires Reachable(s) && t in s.tasks && s.tasks[t] == Task(Parked, NotifiedOne)
    ensures Reachable(With(s, t, Entering(true), Unregistered))
  {
    PollLeads(s, t);
    Reach(s, Poll(t), With(s, t, Entering(true), Unregistered));
  }

  lemma WakesStep(s: Sys, from: TaskId, t: TaskId)
    requires from != t && from in s.tasks && s.tasks[from].phase == Notifying(None, false, 0)
    requires t in s.tasks && s.tasks[t].reg == Waiting
    ensures Leads(s, Notify(from, Some(t)),
      With(With(s, from, Done, s.tasks[from].reg), t, s.tasks[t].phase, NotifiedOne))
  {
    assert IsWaiting(Moved(s, Notify(from, Some(t))), t);
  }

  /** A task that owes a notification, and nothing else, gives it to a waiting one. */
  lemma Wakes(s: Sys, from: TaskId, t: TaskId)
    requires Reachable(s) && from != t && from in s.tasks && s.tasks[from].phase == Notifying(None, false, 0)
    requires t in s.tasks && s.tasks[t].reg == Waiting
    ensures Reachable(With(With(s, from, Done, s.tasks[from].reg), t, s.tasks[t].phase, NotifiedOne))
  {
    WakesStep(s, from, t);
    Reach(s, Notify(from, Some(t)), With(With(s, from, Done, s.tasks[from].reg), t, s.tasks[t].phase, NotifiedOne));
  }

  lemma WithTwice(s: Sys, t: TaskId, p: Phase, r: Registration, p': Phase, r': Registration)
    ensures With(With(s, t, p, r), t, p', r') == With(s, t, p', r')
  {
  }

  /** A reader arrives: it parks behind a checkout, or queues for the open turn. */
  lemma Arrives(s: Sys, t: TaskId)
    requires Reachable(s) && Bare(s) && t !in s.tasks
    ensures Reachable(With(s, t, if s.cell.activeReaders > 0 then Parked else Queueing, Waiting))
  {
    var s1 := With(s, t, Entering(false), Unregistered);
    Spawns(s, t);
    Registers(s1, t);
    WithTwice(s, t, Entering(false), Unregistered, Registered(false), Waiting);
    Observes(With(s, t, Registered(false), Waiting), t);
    WithTwice(s, t, Registered(false), Waiting, if s.cell.activeReaders > 0 then Parked else Queueing, Waiting);
  }

  /** A queueing reader gets as far as the open itself. */
  lemma StartsOpening(s: Sys, t: TaskId)
    requires Reachable(s) && Bare(s) && s.turn == None && s.cell.activeReaders == 0
    requires t in s.tasks && s.tasks[t] == Task(Queueing, Waiting)
    ensures Reachable(With(s, t, Opening, Waiting).(turn := Some(t)))
  {
    var s1 := s.(turn := Some(t));
    TakesTurn(s, t);
    assert With(s, t, Rechecking, Waiting).(turn := Some(t)) == With(s1, t, Rechecking, Waiting);
    FindsCold(With(s1, t, Rechecking, Waiting), t);
    WithTwice(s1, t, Rechecking, Waiting, Opening, Waiting);
  }

  function Three(a: Task, b: Task, c: Task): map<TaskId, Task> {
    map[1 := a, 2 := b, 3 := c]
  }

  const GONE := Task(Done, Unregistered)
  const ASLEEP := Task(Parked, Waiting)

  /** The open cache with handle 7, the first and only one, checked out. */
  function Busy(tasks: map<TaskId, Task>): Sys {
    Sys(Cell(None, 1, 1, 0, Some(0), false, None), None, false, tasks, {7}, multiset{}, multiset{}, {}, {}, false)
  }

  /** Handle 7 is lost and the open cache is cold again. */
  function Cold(tasks: map<TaskId, Task>): Sys {
    Sys(Cell(None, 0, 1, 0, None, false, None), None, false, tasks, {7}, multiset{}, multiset{7}, {}, {}, false)
  }

  lemma FirstReaderOpens()
    ensures Reachable(With(Init(false), 1, Opening, Waiting).(turn := Some(1)))
  {
    var s0 := Init(false);
    assert Valid(s0, []) && Run(s0, []) == s0;
    Arrives(s0, 1);
    StartsOpening(With(s0, 1, Queueing, Waiting), 1);
    WithTwice(s0, 1, Queueing, Waiting, Opening, Waiting);
  }

  lemma FirstOpenEnds(s: Sys)
    requires s == With(Init(false), 1, Opening, Waiting).(turn := Some(1))
    ensures Leads(s, OpenOk(1, 7), With(Init(false), 1, Opened(7), Waiting).(turn := Some(1), known := {7}))
  {
    WithTwice(Init(false), 1, Opening, Waiting, Opened(7), Waiting);
  }

  lemma FirstPublishes(s: Sys)
    requires s == With(Init(false), 1, Opened(7), Waiting).(turn := Some(1), known := {7})
    ensures Leads(s, Publish(1), Busy(map[1 := Task(Holding(7), Waiting)]))
  {
  }

  lemma FirstReaderSearches()
    ensures Reachable(Busy(map[1 := Task(Searching(7), Unregistered)]))
  {
    FirstReaderOpens();
    var s1 := With(Init(false), 1, Opening, Waiting).(turn := Some(1));
    var s2 := With(Init(false), 1, Opened(7), Waiting).(turn := Some(1), known := {7});
    FirstOpenEnds(s1);
    Reach(s1, OpenOk(1, 7), s2);
    FirstPublishes(s2);
    Reach(s2, Publish(1), Busy(map[1 := Task(Holding(7), Waiting)]));
    FirstDrops();
  }

  lemma BusySearching()
    ensures With(Busy(map[1 := Task(Holding(7), Waiting)]), 1, Searching(7), Unregistered)
         == Busy(map[1 := Task(Searching(7), Unregistered)])
  {
  }

  lemma FirstDrops()
    requires Reachable(Busy(map[1 := Task(Holding(7), Waiting)]))
    ensures Reachable(Busy(map[1 := Task(Searching(7), Unregistered)]))
  {
    var s := Busy(map[1 := Task(Holding(7), Waiting)]);
    StartsSearching(s, 1);
    BusySearching();
  }

  /** Two more readers park behind the first. */
  lemma TwoReadersPark()
    ensures Reachable(Busy(Three(Task(Searching(7), Unregistered), ASLEEP, ASLEEP)))
  {
    FirstReaderSearches();
    var s := Busy(map[1 := Task(Searching(7), Unregistered)]);
    Arrives(s, 2);
    Arrives(With(s, 2, Parked, Waiting), 3);
    BusyWith();
  }

  lemma BusyWith()
    ensures With(With(Busy(map[1 := Task(Searching(7), Unregistered)]), 2, Parked, Waiting), 3, Parked, Waiting)
         == Busy(Three(Task(Searching(7), Unregistered), ASLEEP, ASLEEP))
  {
  }

  /** The search panics: its handle is lost, its checkout released. */
  lemma SearchPanics()
    ensures Reachable(Cold(Three(Task(Notifying(None, false, 0), Unregistered), ASLEEP, ASLEEP)))
  {
    TwoReadersPark();
    var s := Busy(Three(Task(Searching(7), Unregistered), ASLEEP, ASLEEP));
    var s1 := Busy(Three(Task(Panicked, Unregistered), ASLEEP, ASLEEP)).(lost := multiset{7});
    Panics(s, s1);
    Reach(s, Panic(1), s1);
    Releases(s1);
    Reach(s1, Release(1), Cold(Three(Task(Notifying(None, false, 0), Unregistered), ASLEEP, ASLEEP)));
  }

  lemma Panics(s: Sys, s1: Sys)
    requires s == Busy(Three(Task(Searching(7), Unregistered), ASLEEP, ASLEEP))
    requires s1 == Busy(Three(Task(Panicked, Unregistered), ASLEEP, ASLEEP)).(lost := multiset{7})
    ensures Leads(s, Panic(1), s1)
  {
  }

  lemma Releases(s1: Sys)
    requires s1 == Busy(Three(Task(Panicked, Unregistered), ASLEEP, ASLEEP)).(lost := multiset{7})
    ensures Leads(s1, Release(1), Cold(Three(Task(Notifying(None, false, 0), Unregistered), ASLEEP, ASLEEP)))
  {
  }

  /** Its notification goes to the reader that parked first, which takes it and goes round the loop again. */
  lemma SecondReaderWakes()
    ensures Reachable(Cold(Three(GONE, Task(Entering(true), Unregistered), ASLEEP)))
  {
    SearchPanics();
    Wakes(Cold(Three(Task(Notifying(None, false, 0), Unregistered), ASLEEP, ASLEEP)), 1, 2);
    ColdNotified();
    SecondReaderPolls();
  }

  lemma ColdNotified()
    ensures
      var s := Cold(Three(Task(Notifying(None, false, 0), Unregistered), ASLEEP, ASLEEP));
      With(With(s, 1, Done, Unregistered), 2, Parked, NotifiedOne)
      == Cold(Three(GONE, Task(Parked, NotifiedOne), ASLEEP))
  {
  }

  lemma ColdEntering()
    ensures With(Cold(Three(GONE, Task(Parked, NotifiedOne), ASLEEP)), 2, Entering(true), Unregistered)
         == Cold(Three(GONE, Task(Entering(true), Unregistered), ASLEEP))
  {
  }

  lemma SecondReaderPolls()
    requires Reachable(Cold(Three(GONE, Task(Parked, NotifiedOne), ASLEEP)))
    ensures Reachable(Cold(Three(GONE, Task(Entering(true), Unregistered), ASLEEP)))
  {
    var s := Cold(Three(GONE, Task(Parked, NotifiedOne), ASLEEP));
    Polls(s, 2);
    ColdEntering();
  }

  /** It finds the cache cold and opens. */
  lemma SecondReaderOpens()
    ensures Reachable(Cold(Three(GONE, Task(Opening, Waiting), ASLEEP)).(turn := Some(2)))
  {
    SecondReaderWakes();
    var s := Cold(Three(GONE, Task(Entering(true), Unregistered), ASLEEP));
    Registers(s, 2);
    Observes(With(s, 2, Registered(true), Waiting), 2);
    WithTwice(s, 2, Registered(true), Waiting, Queueing, Waiting);
    StartsOpening(With(s, 2, Queueing, Waiting), 2);
    WithTwice(s, 2, Queueing, Waiting, Opening, Waiting);
    ColdWith();
  }

  lemma ColdWith()
    ensures With(Cold(Three(GONE, Task(Entering(true), Unregistered), ASLEEP)), 2, Opening, Waiting)
         == Cold(Three(GONE, Task(Opening, Waiting), ASLEEP))
  {
  }

  /** Every other task has finished, and the reader is parked on an open cache with nobody to wake it. */
  ghost predicate Stranded(s: Sys, t: TaskId) {
    !s.cell.closed && Stuck(s, t) && forall u: TaskId :: u != t ==> PhaseOf(s, u).Done?
  }

  /** A run whose only failures are one panic and one failed open strands reader 3 for good. */
  lemma FailedOpenStrandsAReader()
    ensures exists s :: Reachable(s) && Stranded(s, 3) && !WakeInv(s) && SessionRescues.StrandedForever(s, 3)
  {
    SecondReaderOpens();
    var left := Cold(Three(GONE, Task(Leaving, Waiting), ASLEEP));
    SecondOpenFails();
    Reach(Cold(Three(GONE, Task(Opening, Waiting), ASLEEP)).(turn := Some(2)), OpenFail(2), left);
    SecondReaderLeaves();
    Reach(left, DropFuture(2, None), Cold(Three(GONE, GONE, ASLEEP)));
    ThirdReaderStranded();
  }

  lemma SecondOpenFails()
    ensures Leads(Cold(Three(GONE, Task(Opening, Waiting), ASLEEP)).(turn := Some(2)), OpenFail(2),
                  Cold(Three(GONE, Task(Leaving, Waiting), ASLEEP)))
  {
  }

  lemma SecondReaderLeaves()
    ensures Leads(Cold(Three(GONE, Task(Leaving, Waiting), ASLEEP)), DropFuture(2, None),
                  Cold(Three(GONE, GONE, ASLEEP)))
  {
  }

  lemma ThirdReaderStranded()
    ensures Stranded(Cold(Three(GONE, GONE, ASLEEP)), 3) && !WakeInv(Cold(Three(GONE, GONE, ASLEEP)))
    ensures SessionRescues.StrandedForever(Cold(Three(GONE, GONE, ASLEEP)), 3)
  {
    var s := Cold(Three(GONE, GONE, ASLEEP));
    forall u: TaskId ensures !Progress(s, u) && !SessionRescues.Rescuer(s, u) {
    }
    assert Stuck(s, 3);
    forall es | Valid(s, es) && SessionRescues.NoSpawns(es) ensures Stuck(Run(s, es), 3) {
      SessionRescues.HelplessRun(s, es, 3);
    }
  }
}
