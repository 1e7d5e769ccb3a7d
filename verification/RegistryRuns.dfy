/** Runs of the registry: spawns, teardowns, evictions and the close, interleaved lock section by lock section.

    The close sets its flag without the lock. A spawn that has seen the flag clear inserts before it lets the lock
    go, and setting the flag touches no map, so such a spawn counts as one step before the flag is set. */
module RegistryRuns {
  import opened Options
  import opened RootRegistry

  type CallId = nat

  /** Where a call stands between its sections. */
  datatype Phase =
    | Spawning(key: Key)
    | Claimed(key: Key, generation: Generation)
    | Inserted(key: Key, generation: Generation)
    | Shared(key: Key, generation: Generation)
    | Rejected
    | Evicting(key: Key)
    | Draining
    | Clearing
    | Done

  /** `gone` are the generations that left the registry or never entered it; `drained` says that the close has
      emptied the map. */
  datatype Sys = Sys(reg: Registry, calls: map<CallId, Phase>, gone: set<Generation>, drained: bool)

  const INIT := Sys(EMPTY, map[], {}, false)

  datatype Event =
    | Look(c: CallId, key: Key)
    | Claim(c: CallId)
    | Insert(c: CallId)
    | Unregister(key: Key, generation: Generation)
    | Evict(c: CallId, key: Key)
    | DropAliases(c: CallId)
    | SwapClosed(c: CallId)
    | Drain(c: CallId)
    | ClearAliases(c: CallId)

  predicate Enabled(s: Sys, e: Event) {
    match e
    case Look(c, _) => c !in s.calls
    case Claim(c) => c in s.calls && s.calls[c].Spawning?
    case Insert(c) => c in s.calls && s.calls[c].Claimed?
    case Unregister(_, _) => true
    case Evict(c, _) => c !in s.calls
    case DropAliases(c) => c in s.calls && s.calls[c].Evicting?
    case SwapClosed(c) => c !in s.calls
    case Drain(c) => c in s.calls && s.calls[c].Draining?
    case ClearAliases(c) => c in s.calls && s.calls[c].Clearing?
  }

  function AfterLook(k: Key, outcome: Looked): Phase {
    match outcome
    case Refused => Rejected
    case Found(g) => Shared(k, g)
    case Absent => Spawning(k)
  }

  function AfterSecondLook(k: Key, g: Generation, outcome: Looked): Phase {
    match outcome
    case Refused => Rejected
    case Found(other) => Shared(k, other)
    case Absent => Inserted(k, g)
  }

  /** The generation registered for `k`, as a set. */
  function Registered(r: Registry, k: Key): set<Generation> {
    if k in r.actors then {r.actors[k]} else {}
  }

  function AllRegistered(r: Registry): set<Generation> {
    set k | k in r.actors :: r.actors[k]
  }

  function Step(s: Sys, e: Event): Sys
    requires Enabled(s, e)
  {
    match e
    case Look(c, k) => s.(calls := s.calls[c := AfterLook(k, LookOutcome(s.reg, k))])
    case Claim(c) => s.(reg := AfterClaim(s.reg), calls := s.calls[c := Claimed(s.calls[c].key, s.reg.next)])
    case Insert(c) =>
      var k, g := s.calls[c].key, s.calls[c].generation;
      var outcome := LookOutcome(s.reg, k);
      s.(reg := AfterInsert(s.reg, k, g), calls := s.calls[c := AfterSecondLook(k, g, outcome)],
         gone := if outcome == Absent then s.gone else s.gone + {g})
    case Unregister(k, g) =>
      s.(reg := AfterUnregister(s.reg, k, g), gone := if g in Registered(s.reg, k) then s.gone + {g} else s.gone)
    case Evict(c, k) =>
      s.(reg := AfterEvict(s.reg, k), calls := s.calls[c := Evicting(k)], gone := s.gone + Registered(s.reg, k))
    case DropAliases(c) => s.(reg := AfterDropAliases(s.reg, s.calls[c].key), calls := s.calls[c := Done])
    case SwapClosed(c) =>
      s.(reg := s.reg.(closed := true), calls := s.calls[c := if s.reg.closed then Done else Draining])
    case Drain(c) =>
      s.(reg := s.reg.(actors := map[]), calls := s.calls[c := Clearing], gone := s.gone + AllRegistered(s.reg),
         drained := true)
    case ClearAliases(c) => s.(reg := s.reg.(aliases := map[]), calls := s.calls[c := Done])
  }

  predicate Valid(s: Sys, es: seq<Event>)
    decreases |es|
  {
    es == [] || (Enabled(s, es[0]) && Valid(Step(s, es[0]), es[1..]))
  }

  function Run(s: Sys, es: seq<Event>): Sys
    requires Valid(s, es)
    decreases |es|
  {
    if es == [] then s else Run(Step(s, es[0]), es[1..])
  }

  // ----- The invariant

  predicate InFlight(s: Sys, c: CallId) {
    c in s.calls && s.calls[c].Claimed?
  }

  /** Aliases never lead anywhere but home. */
  predicate AliasesAreIdentity(r: Registry) {
    forall k :: k in r.aliases ==> r.aliases[k] == k
  }

  /** Every generation handed out is in exactly one place, and no two actors share one. */
  ghost predicate Distinct(s: Sys) {
    && (forall k :: k in s.reg.actors ==> s.reg.actors[k] < s.reg.next && s.reg.actors[k] !in s.gone)
    && (forall c: CallId :: InFlight(s, c) ==> s.calls[c].generation < s.reg.next && s.calls[c].generation !in s.gone)
    && (forall g :: g in s.gone ==> g < s.reg.next)
    && (forall k, l :: k in s.reg.actors && l in s.reg.actors && s.reg.actors[k] == s.reg.actors[l] ==> k == l)
    && (forall b: CallId, c: CallId ::
        InFlight(s, b) && InFlight(s, c) && s.calls[b].generation == s.calls[c].generation ==> b == c)
    && (forall k, c: CallId :: k in s.reg.actors && InFlight(s, c) ==> s.reg.actors[k] != s.calls[c].generation)
  }

  /** No generation handed out has been lost track of. */
  ghost predicate Accounted(s: Sys) {
    forall g: Generation :: g < s.reg.next ==>
      || g in s.gone
      || (exists k :: k in s.reg.actors && s.reg.actors[k] == g)
      || exists c: CallId :: InFlight(s, c) && s.calls[c].generation == g
  }

  /** Once drained, the registry is closed and empty; only a call that set the flag drains. */
  predicate CloseInv(s: Sys) {
    && (s.drained ==> s.reg.closed && s.reg.actors == map[])
    && forall c: CallId :: c in s.calls && (s.calls[c].Draining? || s.calls[c].Clearing?) ==> s.reg.closed
  }

  ghost predicate Inv(s: Sys) {
    AliasesAreIdentity(s.reg) && Distinct(s) && Accounted(s) && CloseInv(s)
  }

  lemma InvInit()
    ensures Inv(INIT)
  {
  }

  lemma AliasesStep(s: Sys, e: Event)
    requires AliasesAreIdentity(s.reg) && Enabled(s, e)
    ensures AliasesAreIdentity(Step(s, e).reg)
  {
  }

  lemma CloseStep(s: Sys, e: Event)
    requires CloseInv(s) && Enabled(s, e)
    ensures CloseInv(Step(s, e))
  {
  }

  lemma DistinctClaim(s: Sys, c: CallId)
    requires Distinct(s) && Enabled(s, Claim(c))
    ensures Distinct(Step(s, Claim(c)))
  {
  }

  lemma DistinctInsert(s: Sys, c: CallId)
    requires AliasesAreIdentity(s.reg) && Distinct(s) && Enabled(s, Insert(c))
    ensures Distinct(Step(s, Insert(c)))
  {
    var s', k, g := Step(s, Insert(c)), s.calls[c].key, s.calls[c].generation;
    assert forall b: CallId :: InFlight(s', b) ==> b != c && InFlight(s, b) && s'.calls[b] == s.calls[b];
    if LookOutcome(s.reg, k) == Absent {
      DistinctFilled(s, s', c, k);
    } else {
      DistinctLost(s, s', c);
    }
  }

  ghost predicate OnlyLands(s: Sys, s': Sys, c: CallId) {
    && InFlight(s, c) && s'.reg.next == s.reg.next
    && forall b: CallId :: InFlight(s', b) ==> b != c && InFlight(s, b) && s'.calls[b] == s.calls[b]
  }

  lemma DistinctFilled(s: Sys, s': Sys, c: CallId, k: Key)
    requires Distinct(s) && OnlyLands(s, s', c)
    requires s'.reg.actors == s.reg.actors[k := s.calls[c].generation] && s'.gone == s.gone
    ensures Distinct(s')
  {
  }

  lemma DistinctLost(s: Sys, s': Sys, c: CallId)
    requires Distinct(s) && OnlyLands(s, s', c)
    requires s'.reg.actors == s.reg.actors && s'.gone == s.gone + {s.calls[c].generation}
    ensures Distinct(s')
  {
  }

  /** Actors only leave, and those that leave are gone. */
  ghost predicate OnlyLeaves(s: Sys, s': Sys) {
    && s'.reg.next == s.reg.next
    && (forall c: CallId :: InFlight(s', c) ==> InFlight(s, c) && s'.calls[c] == s.calls[c])
    && (forall k :: k in s'.reg.actors ==> k in s.reg.actors && s'.reg.actors[k] == s.reg.actors[k])
    && forall g :: g in s'.gone && g !in s.gone ==>
      exists k :: k in s.reg.actors && k !in s'.reg.actors && s.reg.actors[k] == g
  }

  lemma TeardownLeaves(s: Sys, e: Event)
    requires Enabled(s, e) && (e.Unregister? || e.Evict? || e.Drain?)
    ensures OnlyLeaves(s, Step(s, e))
  {
  }

  lemma DistinctTeardown(s: Sys, e: Event)
    requires Distinct(s) && Enabled(s, e) && (e.Unregister? || e.Evict? || e.Drain?)
    ensures Distinct(Step(s, e))
  {
    TeardownLeaves(s, e);
    LeavingStaysDistinct(s, Step(s, e));
  }

  lemma LeavingStaysDistinct(s: Sys, s': Sys)
    requires Distinct(s) && OnlyLeaves(s, s')
    ensures Distinct(s')
  {
  }

  lemma DistinctOther(s: Sys, e: Event)
    requires Distinct(s) && Enabled(s, e)
    requires e.Look? || e.DropAliases? || e.SwapClosed? || e.ClearAliases?
    ensures Distinct(Step(s, e))
  {
    var s' := Step(s, e);
    assert s'.reg.actors == s.reg.actors && s'.reg.next == s.reg.next && s'.gone == s.gone;
    assert forall c: CallId :: InFlight(s', c) ==> InFlight(s, c) && s'.calls[c] == s.calls[c];
  }

  lemma DistinctStep(s: Sys, e: Event)
    requires AliasesAreIdentity(s.reg) && Distinct(s) && Enabled(s, e)
    ensures Distinct(Step(s, e))
  {
    if e.Claim? {
      DistinctClaim(s, e.c);
    } else if e.Insert? {
      DistinctInsert(s, e.c);
    } else if e.Unregister? || e.Evict? || e.Drain? {
      DistinctTeardown(s, e);
    } else {
      DistinctOther(s, e);
    }
  }

  lemma AccountedStep(s: Sys, e: Event)
    requires AliasesAreIdentity(s.reg) && Accounted(s) && Enabled(s, e)
    ensures Accounted(Step(s, e))
  {
    var s' := Step(s, e);
    forall g: Generation | g < s'.reg.next
      ensures
        || g in s'.gone
        || (exists k :: k in s'.reg.actors && s'.reg.actors[k] == g)
        || exists c: CallId :: InFlight(s', c) && s'.calls[c].generation == g
    {
      if g == s.reg.next {
        assert InFlight(s', e.c) && s'.calls[e.c].generation == g;
      } else if k :| k in s.reg.actors && s.reg.actors[k] == g {
        assert k in s'.reg.actors ==> s'.reg.actors[k] == g;
      } else if g !in s.gone {
        var c: CallId :| InFlight(s, c) && s.calls[c].generation == g;
        if e == Insert(c) && g !in s'.gone {
          assert s'.reg.actors[Resolve(s.reg, s.calls[c].key)] == g;
        } else if g !in s'.gone {
          assert InFlight(s', c);
        }
      }
    }
  }

  lemma InvStep(s: Sys, e: Event)
    requires Inv(s) && Enabled(s, e)
    ensures Inv(Step(s, e))
  {
    AliasesStep(s, e);
    CloseStep(s, e);
    DistinctStep(s, e);
    AccountedStep(s, e);
  }

  lemma {:induction false} InvRun(s: Sys, es: seq<Event>)
    requires Inv(s) && Valid(s, es)
    ensures Inv(Run(s, es))
    decreases |es|
  {
    if es == [] {
    } else {
      InvStep(s, es[0]);
      InvRun(Step(s, es[0]), es[1..]);
    }
  }

  // ----- Theorems

  /** In every reachable state the generations of registered and in-flight actors are pairwise distinct, and each
      generation handed out is registered, in flight or gone. */
  lemma GenerationsAreDistinct(es: seq<Event>)
    requires Valid(INIT, es)
    ensures Distinct(Run(INIT, es)) && Accounted(Run(INIT, es))
  {
    InvInit();
    InvRun(INIT, es);
  }

  /** A lookup always ends at the key itself, whether or not an alias is recorded, so an eviction that removes the
      alias of the actor's replacement changes no lookup. */
  lemma LookupsIgnoreAliases(es: seq<Event>, k: Key)
    requires Valid(INIT, es)
    ensures var r := Run(INIT, es).reg;
      && Resolve(r, k) == k
      && LookOutcome(r, k) == LookOutcome(AfterDropAliases(r, k), k)
      && (LookOutcome(r, k).Found? <==> !r.closed && k in r.actors)
  {
    InvInit();
    InvRun(INIT, es);
  }

  lemma {:induction false} GoneStaysGone(s: Sys, es: seq<Event>)
    requires Valid(s, es)
    ensures s.gone <= Run(s, es).gone
    decreases |es|
  {
    if es == [] {
    } else {
      GoneStaysGone(Step(s, es[0]), es[1..]);
    }
  }

  /** The teardown of an actor that was evicted, that lost the insert race or that a close drained is a no-op for
      the rest of the run: it never removes a replacement, under whichever key it is asked to. */
  lemma StaleUnregisterIsNoop(es: seq<Event>, later: seq<Event>, k: Key, g: Generation)
    requires Valid(INIT, es) && Valid(Run(INIT, es), later) && g in Run(INIT, es).gone
    ensures var s := Run(Run(INIT, es), later); Step(s, Unregister(k, g)) == s
  {
    InvInit();
    InvRun(INIT, es);
    InvRun(Run(INIT, es), later);
    GoneStaysGone(Run(INIT, es), later);
  }

  /** A spawn hands out the actor registered for its key at that moment: its own or a sibling's; whenever it is not
      its own, its own is gone. */
  lemma SpawnReturnsTheRegistered(es: seq<Event>, c: CallId)
    requires Valid(INIT, es) && Enabled(Run(INIT, es), Insert(c))
    ensures var s := Run(INIT, es);
      var s', k, g := Step(s, Insert(c)), s.calls[c].key, s.calls[c].generation;
      && (s'.calls[c] == Rejected <==> s.reg.closed)
      && (!s.reg.closed ==> k in s'.reg.actors && s'.calls[c].generation == s'.reg.actors[k])
      && (g in s'.gone <==> !s'.calls[c].Inserted?)
      && (s'.calls[c].Inserted? <==> !s.reg.closed && k !in s.reg.actors)
  {
    InvInit();
    InvRun(INIT, es);
  }

  function RegisteredFor(r: Registry, k: Key): Option<Generation> {
    if k in r.actors then Some(r.actors[k]) else None
  }

  /** A first look is rejected exactly when the registry is closed, and shares exactly the actor registered for the
      key. */
  lemma LookSharesExactly(es: seq<Event>, c: CallId, k: Key)
    requires Valid(INIT, es) && Enabled(Run(INIT, es), Look(c, k))
    ensures
      var s := Run(INIT, es);
      var p := Step(s, Look(c, k)).calls[c];
      && (p == Rejected <==> s.reg.closed)
      && (forall g: Generation :: p == Shared(k, g) <==> !s.reg.closed && RegisteredFor(s.reg, k) == Some(g))
      && (p == Spawning(k) <==> !s.reg.closed && RegisteredFor(s.reg, k) == None)
      && Step(s, Look(c, k)).reg == s.reg
  {
    InvInit();
    InvRun(INIT, es);
  }

  /** What one event does to the registration of a key: a spawn fills it on an open registry when it was empty, a
      teardown empties it when it names that generation, an eviction and the drain empty it; nothing else moves it. */
  lemma RegistrationMovesExactly(es: seq<Event>, e: Event, k: Key)
    requires Valid(INIT, es) && Enabled(Run(INIT, es), e)
    ensures
      var s := Run(INIT, es);
      var before, after := RegisteredFor(s.reg, k), RegisteredFor(Step(s, e).reg, k);
      match e
      case Insert(c) =>
        after == if s.calls[c].key == k && !s.reg.closed && before == None then Some(s.calls[c].generation) else before
      case Unregister(l, g) => after == if l == k && before == Some(g) then None else before
      case Evict(_, l) => after == if l == k then None else before
      case Drain(_) => after == None
      case _ => after == before
  {
    InvInit();
    InvRun(INIT, es);
  }

  /** What one event does to the alias of a key: a spawn that registers its actor sets it, the teardown of that actor
      and the end of its eviction take it away, the end of the close takes all away; nothing else moves it. */
  lemma AliasMovesExactly(es: seq<Event>, e: Event, k: Key)
    requires Valid(INIT, es) && Enabled(Run(INIT, es), e)
    ensures
      var s := Run(INIT, es);
      var before, after := k in s.reg.aliases, k in Step(s, e).reg.aliases;
      match e
      case Insert(c) =>
        after <==> before || (s.calls[c].key == k && !s.reg.closed && RegisteredFor(s.reg, k) == None)
      case Unregister(l, g) => after <==> before && !(l == k && RegisteredFor(s.reg, k) == Some(g))
      case DropAliases(c) => after <==> before && s.calls[c].key != k
      case ClearAliases(_) => !after
      case _ => after <==> before
  {
    InvInit();
    InvRun(INIT, es);
  }

  lemma {:induction false} StaysDrained(s: Sys, es: seq<Event>)
    requires Inv(s) && Valid(s, es) && s.drained
    ensures Run(s, es).drained && Inv(Run(s, es))
    decreases |es|
  {
    if es == [] {
    } else {
      InvStep(s, es[0]);
      StaysDrained(Step(s, es[0]), es[1..]);
    }
  }

  /** Once the close has drained the map it stays empty, even for spawns that raced it; each such spawn is rejected,
      and then every generation ever handed out is gone. */
  lemma DrainedStaysEmpty(es: seq<Event>, later: seq<Event>)
    requires Valid(INIT, es) && Run(INIT, es).drained && Valid(Run(INIT, es), later)
    ensures var s := Run(Run(INIT, es), later);
      && s.reg.actors == map[]
      && (forall k :: LookOutcome(s.reg, k) == Refused)
      && ((forall c: CallId :: !InFlight(s, c)) ==> forall g: Generation :: g in s.gone <==> g < s.reg.next)
  {
    InvInit();
    InvRun(INIT, es);
    StaysDrained(Run(INIT, es), later);
  }

  /** Only one call drains: the close that finds the flag clear. */
  ghost predicate OneCloser(s: Sys) {
    && (!s.reg.closed ==> forall c: CallId :: c in s.calls ==> !s.calls[c].Draining?)
    && (forall b: CallId, c: CallId ::
        b in s.calls && c in s.calls && s.calls[b].Draining? && s.calls[c].Draining? ==> b == c)
    && (s.drained ==> s.reg.closed && forall c: CallId :: c in s.calls ==> !s.calls[c].Draining?)
  }

  lemma {:induction false} OneCloserRun(s: Sys, es: seq<Event>)
    requires OneCloser(s) && Valid(s, es)
    ensures OneCloser(Run(s, es))
    decreases |es|
  {
    if es == [] {
    } else {
      OneCloserStep(s, es[0]);
      OneCloserRun(Step(s, es[0]), es[1..]);
    }
  }

  lemma OneCloserStep(s: Sys, e: Event)
    requires OneCloser(s) && Enabled(s, e)
    ensures OneCloser(Step(s, e))
  {
  }

  /** The map is drained at most once: after a drain no call is about to drain, now or ever. */
  lemma DrainsOnce(es: seq<Event>, c: CallId, later: seq<Event>, d: CallId)
    requires Valid(INIT, es) && Enabled(Run(INIT, es), Drain(c))
    requires Valid(Step(Run(INIT, es), Drain(c)), later)
    ensures !Enabled(Run(Step(Run(INIT, es), Drain(c)), later), Drain(d))
  {
    var s := Run(INIT, es);
    InvInit();
    InvRun(INIT, es);
    InvStep(s, Drain(c));
    OneCloserRun(INIT, es);
    OneCloserStep(s, Drain(c));
    OneCloserRun(Step(s, Drain(c)), later);
    StaysDrained(Step(s, Drain(c)), later);
  }
}
