/** Change scopes as values: covering, collapsing and widening of accumulated watcher changes.

    A path is the sequence of its components, so the filesystem root "/" is the empty sequence and
    "at or below" is the prefix order. */
module ChangeScopes {
  type Name = s: string | |s| > 0 witness "a"
  type Path = seq<Name>

  const GITIGNORE: Name := ".gitignore"

  /** The parent directory; the parent of "/" is "/" itself. */
  function ParentDir(p: Path): Path {
    if p == [] then [] else p[..|p| - 1]
  }

  /** What the upward search of the source finds: a strict ancestor, or "/" as its own ancestor. */
  ghost predicate HasAncestor(paths: set<Path>, p: Path) {
    exists a :: a in paths && (a < p || (a == [] && p == []))
  }

  ghost predicate StrictlyCovered(paths: set<Path>, p: Path) {
    exists a :: a in paths && a < p
  }

  /** The members with no strict ancestor among the members. */
  ghost function Tops(paths: set<Path>): set<Path> {
    set p | p in paths && !StrictlyCovered(paths, p)
  }

  /** Everything at or below one of the paths. */
  ghost predicate AtOrBelow(paths: set<Path>, p: Path) {
    exists a :: a in paths && a <= p
  }

  /** The three path sets and the reconcile flag; also what a snapshot hands over. */
  datatype Scopes = Scopes(touched: set<Path>, rescan: set<Path>, deleted: set<Path>, force: bool)

  const NOTHING := Scopes({}, {}, {}, false)

  function Len(s: Scopes): nat {
    |s.touched| + |s.rescan| + |s.deleted|
  }

  predicate HasPaths(s: Scopes) {
    s.touched != {} || s.rescan != {} || s.deleted != {}
  }

  /** The run that takes these scopes will look at `p`. */
  ghost predicate Covers(s: Scopes, p: Path) {
    s.force || p in s.touched || AtOrBelow(s.rescan, p) || AtOrBelow(s.deleted, p)
  }

  ghost predicate CoversAll(s: Scopes, t: Scopes) {
    forall p :: Covers(t, p) ==> Covers(s, p)
  }

  // ----- Collapsing

  ghost function Without(paths: set<Path>, above: set<Path>): set<Path> {
    set p | p in paths && !HasAncestor(above, p)
  }

  /** Collapsing a set drops "/" too, because the upward search counts "/" as its own ancestor. */
  ghost function CollapseSet(paths: set<Path>): set<Path> {
    Tops(paths - {[]})
  }

  ghost function Collapse(s: Scopes): Scopes {
    var rescan, deleted := CollapseSet(s.rescan), CollapseSet(s.deleted);
    Scopes(Without(Without(s.touched, rescan), deleted), Without(rescan, deleted), deleted, s.force)
  }

  /** Neither scope set mentions "/". */
  predicate NoSlash(s: Scopes) {
    [] !in s.rescan && [] !in s.deleted
  }

  ghost predicate Antichain(paths: set<Path>) {
    forall a, b :: a in paths && b in paths ==> !(a < b)
  }

  /** Fully collapsed: antichains, and nothing strictly below a scope that already covers it. */
  ghost predicate Normal(s: Scopes) {
    && NoSlash(s) && Antichain(s.rescan) && Antichain(s.deleted)
    && (forall p :: p in s.touched ==> !StrictlyCovered(s.rescan, p) && !StrictlyCovered(s.deleted, p))
    && (forall p :: p in s.rescan ==> !StrictlyCovered(s.deleted, p))
  }

  /** Every member has a topmost member at or above it. */
  lemma {:induction false} TopAbove(paths: set<Path>, p: Path) returns (top: Path)
    requires p in paths
    ensures top in Tops(paths) && top <= p
    decreases |p|
  {
    if a :| a in paths && a < p {
      top := TopAbove(paths, a);
    } else {
      top := p;
    }
  }

  lemma TopsCoverTheSame(paths: set<Path>, p: Path)
    ensures AtOrBelow(Tops(paths), p) <==> AtOrBelow(paths, p)
  {
    if a :| a in paths && a <= p {
      var top := TopAbove(paths, a);
      assert top in Tops(paths) && top <= p;
    }
  }

  lemma CollapseIsNormal(s: Scopes)
    ensures Normal(Collapse(s)) && Collapse(s).force == s.force
    ensures Collapse(s).touched <= s.touched && Collapse(s).rescan <= s.rescan && Collapse(s).deleted <= s.deleted
  {
  }

  lemma NormalIsFixpoint(s: Scopes)
    requires Normal(s)
    ensures Collapse(s) == s
  {
    assert s.rescan - {[]} == s.rescan && s.deleted - {[]} == s.deleted;
    assert Tops(s.rescan) == s.rescan && Tops(s.deleted) == s.deleted;
  }

  /** Collapsing twice is collapsing once. */
  lemma CollapseIdempotent(s: Scopes)
    ensures Collapse(Collapse(s)) == Collapse(s)
  {
    CollapseIsNormal(s);
    NormalIsFixpoint(Collapse(s));
  }

  lemma CollapseKeepsCover(s: Scopes, p: Path)
    requires NoSlash(s)
    ensures Covers(Collapse(s), p) <==> Covers(s, p)
  {
    assert s.rescan - {[]} == s.rescan && s.deleted - {[]} == s.deleted;
    var rescan, deleted := CollapseSet(s.rescan), CollapseSet(s.deleted);
    TopsCoverTheSame(s.rescan, p);
    TopsCoverTheSame(s.deleted, p);
    if AtOrBelow(rescan, p) && !AtOrBelow(deleted, p) {
      var d :| d in rescan && d <= p;
      assert !HasAncestor(deleted, d);
      assert d in Collapse(s).rescan;
    }
  }

  // ----- When "/" is recorded

  lemma {:induction false} LongestFirst(paths: set<Path>) returns (n: nat)
    ensures forall p :: p in paths && p != [] ==> |p[0]| <= n
    decreases paths
  {
    if paths == {} {
      n := 0;
    } else {
      var q :| q in paths;
      n := LongestFirst(paths - {q});
      if q != [] && n < |q[0]| {
        n := |q[0]|;
      }
    }
  }

  /** Some top-level name occurs in none of the paths. */
  lemma UnusedName(paths: set<Path>) returns (name: Name)
    ensures forall p :: p in paths && p != [] ==> p[0] != name
  {
    var n := LongestFirst(paths);
    name := seq(n + 1, _ => 'a');
  }

  lemma SlashIsLost(s: Scopes) returns (p: Path)
    requires !s.force && !NoSlash(s)
    ensures Covers(s, p) && !Covers(Collapse(s), p)
  {
    var name := UnusedName(s.touched + s.rescan + s.deleted);
    p := [name];
    var a: Path := [];
    assert a <= p;
    var c := Collapse(s);
    forall d | d in c.rescan + c.deleted ensures !(d <= p) {
      assert d in s.touched + s.rescan + s.deleted && d != [];
    }
    assert p !in s.touched + s.rescan + s.deleted;
  }

  /** Collapsing leaves the covered region as it is exactly when a full reconcile is due anyway or neither
      scope set contains "/". */
  lemma CollapseKeepsRegionExactly(s: Scopes)
    ensures (forall p :: Covers(Collapse(s), p) <==> Covers(s, p)) <==> s.force || NoSlash(s)
  {
    if s.force {
      CollapseIsNormal(s);
    } else if NoSlash(s) {
      forall p ensures Covers(Collapse(s), p) <==> Covers(s, p) {
        CollapseKeepsCover(s, p);
      }
    } else {
      var p := SlashIsLost(s);
    }
  }
}
