/** The registry of root actors: what its lock-held sections do, as functions of the shared maps and as methods. */
module RootRegistry {
  import opened Options

  type Key = string
  type Generation = nat

  /** The maps under the lock and the closed flag. An actor is known by the generation of its spawn. */
  datatype Registry = Registry(actors: map<Key, Generation>, aliases: map<Key, Key>, next: Generation, closed: bool)

  const EMPTY := Registry(map[], map[], 0, false)

  /** Where a lookup of `k` ends up. */
  function Resolve(r: Registry, k: Key): Key {
    if k in r.aliases then r.aliases[k] else k
  }

  /** The aliases that do not lead to `k`. */
  function Retain(aliases: map<Key, Key>, k: Key): map<Key, Key> {
    map a | a in aliases && aliases[a] != k :: aliases[a]
  }

  // ----- get_or_spawn, one lock section at a time

  datatype Looked = Refused | Found(generation: Generation) | Absent

  /** The first look: a closed registry refuses, a live actor is shared. */
  function LookOutcome(r: Registry, k: Key): Looked {
    if r.closed then Refused
    else if Resolve(r, k) in r.actors then Found(r.actors[Resolve(r, k)])
    else Absent
  }

  /** Claims a generation for the actor about to be spawned. */
  function AfterClaim(r: Registry): Registry {
    r.(next := r.next + 1)
  }

  /** The second look, which decides between the newcomer and a sibling, and the insert. */
  function AfterInsert(r: Registry, k: Key, generation: Generation): Registry {
    if LookOutcome(r, k) != Absent then r
    else
      var resolved := Resolve(r, k);
      r.(aliases := r.aliases[k := resolved], actors := r.actors[resolved := generation])
  }

  // ----- Teardown

  /** Compare-and-remove: only the registration with this generation goes. */
  function AfterUnregister(r: Registry, k: Key, generation: Generation): Registry {
    if k in r.actors && r.actors[k] == generation then
      r.(actors := r.actors - {k}, aliases := Retain(r.aliases, k))
    else r
  }

  function AfterEvict(r: Registry, k: Key): Registry {
    r.(actors := r.actors - {k})
  }

  function AfterDropAliases(r: Registry, k: Key): Registry {
    r.(aliases := Retain(r.aliases, k))
  }

  // ----- The registry in place

  /** Each method is what one section does; `Close` sets the flag outside the lock. */
  class RuntimeManager {
    var actors: map<Key, Generation>
    var aliases: map<Key, Key>
    var nextGeneration: Generation
    var closed: bool

    function Value(): Registry
      reads this
    {
      Registry(actors, aliases, nextGeneration, closed)
    }

    constructor ()
      ensures Value() == EMPTY
    {
      actors, aliases, nextGeneration, closed := map[], map[], 0, false;
    }

    method Look(k: Key) returns (outcome: Looked)
      ensures outcome == LookOutcome(Value(), k)
    {
      if closed {
        return Refused;
      }
      var resolved := if k in aliases then aliases[k] else k;
      if resolved in actors {
        return Found(actors[resolved]);
      }
      outcome := Absent;
    }

    method ClaimGeneration() returns (generation: Generation)
      modifies this
      ensures generation == old(nextGeneration) && Value() == AfterClaim(old(Value()))
    {
      generation := nextGeneration;
      nextGeneration := generation + 1;
    }

    /** `Absent` when the newcomer was inserted; otherwise it is to be aborted. */
    method Insert(k: Key, generation: Generation) returns (outcome: Looked)
      modifies this
      ensures outcome == LookOutcome(old(Value()), k) && Value() == AfterInsert(old(Value()), k, generation)
    {
      if closed {
        return Refused;
      }
      var resolved := if k in aliases then aliases[k] else k;
      if resolved in actors {
        return Found(actors[resolved]);
      }
      aliases := aliases[k := resolved];
      actors := actors[resolved := generation];
      outcome := Absent;
    }

    method Unregister(k: Key, generation: Generation) returns (removed: bool)
      modifies this
      ensures Value() == AfterUnregister(old(Value()), k, generation)
      ensures removed <==> k in old(actors) && old(actors)[k] == generation
    {
      if k !in actors || actors[k] != generation {
        return false;
      }
      actors := actors - {k};
      aliases := map a | a in aliases && aliases[a] != k :: aliases[a];
      removed := true;
    }

    /** The first half of an eviction: whatever is registered goes, to be shut down and awaited outside. */
    method TakeForEviction(k: Key) returns (taken: Option<Generation>)
      modifies this
      ensures Value() == AfterEvict(old(Value()), k)
      ensures taken == if k in old(actors) then Some(old(actors)[k]) else None
    {
      taken := if k in actors then Some(actors[k]) else None;
      actors := actors - {k};
    }

    /** The second half, after the teardown was awaited. */
    method DropAliases(k: Key)
      modifies this
      ensures Value() == AfterDropAliases(old(Value()), k)
    {
      aliases := map a | a in aliases && aliases[a] != k :: aliases[a];
    }

    /** `first` is false for every call but one. */
    method SwapClosed() returns (first: bool)
      modifies this
      ensures first == !old(closed) && Value() == old(Value()).(closed := true)
    {
      first := !closed;
      closed := true;
    }

    method Drain() returns (drained: map<Key, Generation>)
      modifies this
      ensures drained == old(actors) && Value() == old(Value()).(actors := map[])
    {
      drained := actors;
      actors := map[];
    }

    method ClearAliases()
      modifies this
      ensures Value() == old(Value()).(aliases := map[])
    {
      aliases := map[];
    }
  }
}
