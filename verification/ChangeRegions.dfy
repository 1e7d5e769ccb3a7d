/** What the accumulator records, region by region: the paths that will be looked at again, the paths that are gone,
    and the single files that were touched. */
module ChangeRegions {
  import opened Options
  import opened ChangeScopes
  import opened ChangeSets

  // ----- One event

  /** The event is about an ignore file, so everything in its directory has to be looked at again. */
  predicate ReportsRescan(p: Path, kind: ChangeKind, isDirectory: bool, q: Path) {
    if IsIgnoreFile(p) then p[..|p| - 1] <= q else kind != Deleted && isDirectory && p <= q
  }

  predicate ReportsDeleted(p: Path, kind: ChangeKind, q: Path) {
    !IsIgnoreFile(p) && kind == Deleted && p <= q
  }

  predicate ReportsTouched(p: Path, kind: ChangeKind, isDirectory: bool, q: Path) {
    !IsIgnoreFile(p) && kind != Deleted && !isDirectory && q == p
  }

  lemma PrefixCases(a: Path, p: Path)
    requires a <= p
    ensures a == p || (a < p && a <= p[..|p| - 1])
  {
    if |a| == |p| {
      assert a == p[..|a|];
    }
  }

  lemma CoveredByExactly(paths: set<Path>, p: Path)
    ensures CoveredBy(paths, p) <==> AtOrBelow(paths, p)
  {
    if p in paths {
      assert p <= p;
    } else if a :| a in paths && a <= p {
      PrefixCases(a, p);
    }
  }

  lemma WithOne(paths: set<Path>, p: Path, q: Path)
    ensures AtOrBelow(paths + {p}, q) <==> AtOrBelow(paths, q) || p <= q
  {
    assert p in paths + {p};
  }

  lemma HasPathsExactly(s: Scopes)
    ensures HasPaths(s) <==> Len(s) > 0
  {
  }

  /** An event about a path that no recorded scope covers adds one scope, and each of the three regions grows by exactly
      what the event reports; the result is kept as it is when it fits the budget, and widened otherwise. */
  lemma AddGrowsExactly(s: Scopes, root: Option<Path>, budget: nat, p: Path, kind: ChangeKind, isDirectory: bool)
    returns (t: Scopes)
    requires !(s.force && Len(s) > 0) && !AtOrBelow(s.rescan, p) && !AtOrBelow(s.deleted, p)
    ensures forall q :: AtOrBelow(t.rescan, q) <==>
      AtOrBelow(s.rescan, q) || ReportsRescan(p, kind, isDirectory, q)
    ensures forall q :: AtOrBelow(t.deleted, q) <==> AtOrBelow(s.deleted, q) || ReportsDeleted(p, kind, q)
    ensures forall q :: q in t.touched <==> q in s.touched || ReportsTouched(p, kind, isDirectory, q)
    ensures t.force == s.force && Len(s) <= Len(t) <= Len(s) + 1
    ensures Add(s, root, budget, p, kind, isDirectory) == if Len(t) < budget then t else Enforce(t, root, budget)
  {
    t := Insert(s, p, kind, isDirectory);
    HasPathsExactly(s);
    CoveredByExactly(s.rescan, p);
    CoveredByExactly(s.deleted, p);
    InsertGrows(s, p, kind, isDirectory, t);
    InsertAddsOne(s, p, kind, isDirectory, t);
  }

  lemma InsertGrows(s: Scopes, p: Path, kind: ChangeKind, isDirectory: bool, t: Scopes)
    requires t == Insert(s, p, kind, isDirectory)
    ensures forall q :: AtOrBelow(t.rescan, q) <==>
      AtOrBelow(s.rescan, q) || ReportsRescan(p, kind, isDirectory, q)
    ensures forall q :: AtOrBelow(t.deleted, q) <==> AtOrBelow(s.deleted, q) || ReportsDeleted(p, kind, q)
    ensures forall q :: q in t.touched <==> q in s.touched || ReportsTouched(p, kind, isDirectory, q)
  {
    forall q
      ensures AtOrBelow(t.rescan, q) <==> AtOrBelow(s.rescan, q) || ReportsRescan(p, kind, isDirectory, q)
      ensures AtOrBelow(t.deleted, q) <==> AtOrBelow(s.deleted, q) || ReportsDeleted(p, kind, q)
    {
      WithOne(s.rescan, ScopeOf(p), q);
      WithOne(s.deleted, p, q);
    }
  }

  lemma InsertAddsOne(s: Scopes, p: Path, kind: ChangeKind, isDirectory: bool, t: Scopes)
    requires t == Insert(s, p, kind, isDirectory)
    ensures t.force == s.force && Len(s) <= Len(t) <= Len(s) + 1
  {
    OneMore(s.rescan, ScopeOf(p));
    OneMore(s.deleted, p);
    OneMore(s.touched, p);
  }

  lemma OneMore(paths: set<Path>, p: Path)
    ensures |paths| <= |paths + {p}| <= |paths| + 1
  {
    if p in paths {
      assert paths + {p} == paths;
    }
  }

  /** An event changes nothing exactly when everything will be reconciled anyway, a recorded directory or deletion
      covers its path, or it touches a file that is recorded already. */
  lemma AddChangesNothingExactly(
      s: Scopes, root: Option<Path>, budget: nat, p: Path, kind: ChangeKind, isDirectory: bool)
    requires Len(s) + 1 < budget
    ensures Add(s, root, budget, p, kind, isDirectory) == s <==>
      || (s.force && Len(s) > 0) || AtOrBelow(s.rescan, p) || AtOrBelow(s.deleted, p)
      || (!IsIgnoreFile(p) && kind != Deleted && !isDirectory && p in s.touched)
  {
    HasPathsExactly(s);
    CoveredByExactly(s.rescan, p);
    CoveredByExactly(s.deleted, p);
    if !(s.force && Len(s) > 0) && !AtOrBelow(s.rescan, p) && !AtOrBelow(s.deleted, p) {
      var t := AddGrowsExactly(s, root, budget, p, kind, isDirectory);
      assert ReportsRescan(p, kind, isDirectory, p) <==> IsIgnoreFile(p) || (kind != Deleted && isDirectory);
      if !ReportsRescan(p, kind, isDirectory, p) && kind != Deleted && p in s.touched {
        assert Insert(s, p, kind, isDirectory).touched == s.touched;
      }
    }
  }

  // ----- A merge

  /** A merge into a set that is not already waiting for a full reconcile joins the regions one by one; only a set that
      need not be reconciled is widened. Otherwise it does nothing. */
  lemma MergeGrowsExactly(s: Scopes, root: Option<Path>, budget: nat, other: Scopes) returns (t: Scopes)
    ensures s.force && Len(s) > 0 ==> Merge(s, root, budget, other) == s
    ensures !(s.force && Len(s) > 0) ==>
      && (forall q :: AtOrBelow(t.rescan, q) <==> AtOrBelow(s.rescan, q) || AtOrBelow(other.rescan, q))
      && (forall q :: AtOrBelow(t.deleted, q) <==> AtOrBelow(s.deleted, q) || AtOrBelow(other.deleted, q))
      && (forall q :: q in t.touched <==> q in s.touched || q in other.touched)
      && (t.force <==> s.force || other.force) && Len(t) <= Len(s) + Len(other)
      && Merge(s, root, budget, other) == if t.force || Len(t) < budget then t else Enforce(t, root, budget)
  {
    HasPathsExactly(s);
    t := Scopes(s.touched + other.touched, s.rescan + other.rescan, s.deleted + other.deleted, s.force || other.force);
    forall q
      ensures AtOrBelow(t.rescan, q) <==> AtOrBelow(s.rescan, q) || AtOrBelow(other.rescan, q)
      ensures AtOrBelow(t.deleted, q) <==> AtOrBelow(s.deleted, q) || AtOrBelow(other.deleted, q)
    {
      AtOrBelowUnion(s.rescan, other.rescan, q);
      AtOrBelowUnion(s.deleted, other.deleted, q);
    }
  }

  // ----- Ignore files

  /** Some name gives a child of `dir` that is not in the set. */
  lemma UnusedChild(paths: set<Path>, dir: Path) returns (name: Name)
    ensures dir + [name] !in paths
  {
    var below := set p | p in paths && dir <= p :: p[|dir|..];
    name := UnusedName(below);
    assert [name] !in below;
    assert (dir + [name])[|dir|..] == [name];
  }

  /** After an event about an ignore file, everything in its directory is covered exactly when that was so before, or no
      directory of the ignore file's own name was recorded: such a scope makes the event look covered. */
  lemma IgnoreFileRescansExactly(
      s: Scopes, root: Option<Path>, budget: nat, p: Path, kind: ChangeKind, isDirectory: bool)
    requires Rooted(s, root) && IsIgnoreFile(p) && UnderRoot(p[..|p| - 1], root)
    ensures (forall q :: p[..|p| - 1] <= q ==> Covers(Add(s, root, budget, p, kind, isDirectory), q)) <==>
      || s.force || AtOrBelow(s.rescan, p[..|p| - 1]) || AtOrBelow(s.deleted, p[..|p| - 1])
      || (p !in s.rescan && p !in s.deleted)
  {
    var dir := p[..|p| - 1];
    var t := Add(s, root, budget, p, kind, isDirectory);
    CoveredByExactly(s.rescan, p);
    CoveredByExactly(s.deleted, p);
    if s.force || AtOrBelow(s.rescan, dir) || AtOrBelow(s.deleted, dir) {
      AddCovers(s, root, budget, p, kind, isDirectory);
      forall q | dir <= q ensures Covers(t, q) {
        DirectoryCovered(s, dir, q);
      }
    } else if p in s.rescan || p in s.deleted {
      assert p <= p && t == s;
      var name := UnusedChild(s.touched + s.rescan + s.deleted, dir);
      ChildNotCovered(s, dir, name);
    } else {
      NothingAbove(s.rescan, p);
      NothingAbove(s.deleted, p);
      IgnoreFileAdded(s, root, budget, p, kind, isDirectory);
    }
  }

  lemma DirectoryCovered(s: Scopes, dir: Path, q: Path)
    requires (s.force || AtOrBelow(s.rescan, dir) || AtOrBelow(s.deleted, dir)) && dir <= q
    ensures Covers(s, q)
  {
    if AtOrBelow(s.rescan, dir) {
      AboveCoversBelow(s.rescan, dir, q);
    } else if AtOrBelow(s.deleted, dir) {
      AboveCoversBelow(s.deleted, dir, q);
    }
  }

  lemma ChildNotCovered(s: Scopes, dir: Path, name: Name)
    requires !s.force && !AtOrBelow(s.rescan, dir) && !AtOrBelow(s.deleted, dir)
    requires dir + [name] !in s.touched + s.rescan + s.deleted
    ensures dir <= dir + [name] && !Covers(s, dir + [name])
  {
    var child := dir + [name];
    assert child[..|child| - 1] == dir;
    NothingAbove(s.rescan, child);
    NothingAbove(s.deleted, child);
  }

  lemma NothingAbove(paths: set<Path>, p: Path)
    requires p != [] && p !in paths && !AtOrBelow(paths, p[..|p| - 1])
    ensures !AtOrBelow(paths, p)
  {
    if a :| a in paths && a <= p {
      PrefixCases(a, p);
    }
  }

  lemma IgnoreFileAdded(s: Scopes, root: Option<Path>, budget: nat, p: Path, kind: ChangeKind, isDirectory: bool)
    requires Rooted(s, root) && IsIgnoreFile(p) && UnderRoot(p[..|p| - 1], root)
    requires !s.force && !AtOrBelow(s.rescan, p) && !AtOrBelow(s.deleted, p)
    ensures forall q :: p[..|p| - 1] <= q ==> Covers(Add(s, root, budget, p, kind, isDirectory), q)
  {
    var t := Insert(s, p, kind, isDirectory);
    CoveredByExactly(s.rescan, p);
    CoveredByExactly(s.deleted, p);
    InsertCovers(s, root, p, kind, isDirectory);
    if Len(t) >= budget {
      EnforceKeeps(t, root, budget);
    }
    forall q | p[..|p| - 1] <= q ensures Covers(t, q) {
      WithOne(s.rescan, p[..|p| - 1], q);
    }
  }

  /** Two events that show it: an ignore file inside a directory of that name hides the one beside it. */
  lemma IgnoreDirectoryHidesIgnoreFile()
    ensures
      var inner: Path := ["repo", ".gitignore", ".gitignore"];
      var s := Add(NOTHING, Some(["repo"]), 1000, inner, Changed, false);
      && s == Scopes({}, {["repo", ".gitignore"]}, {}, false)
      && !Covers(Add(s, Some(["repo"]), 1000, ["repo", ".gitignore"], Changed, false), ["repo", "a"])
  {
    var inner: Path := ["repo", ".gitignore", ".gitignore"];
    var dir: Path := ["repo", ".gitignore"];
    var s := Scopes({}, {dir}, {}, false);
    assert inner[..2] == dir;
    assert Insert(NOTHING, inner, Changed, false).rescan == s.rescan;
    var a: Path := ["repo", "a"];
    assert |a[1]| == 1 && |dir[1]| == 10;
    assert CoveredBy(s.rescan, dir);
  }

  predicate NoIgnoreDirectory(p: Path) {
    forall i :: 0 <= i < |p| - 1 ==> p[i] != ".gitignore"
  }

  /** No directory called like an ignore file is recorded. */
  ghost predicate Tidy(s: Scopes) {
    (forall p :: p in s.touched ==> NoIgnoreDirectory(p))
    && (forall p :: p in s.rescan || p in s.deleted ==> NoIgnoreDirectory(p) && !IsIgnoreFile(p))
  }

  predicate TidyRoot(root: Option<Path>) {
    root.Some? ==> NoIgnoreDirectory(root.value) && !IsIgnoreFile(root.value)
  }

  ghost predicate TidyOp(op: Op) {
    match op
    case AddOp(p, _, _) => NoIgnoreDirectory(p)
    case MergeOp(other) => Tidy(other)
    case _ => true
  }

  lemma ParentIsTidy(root: Path, p: Path)
    requires NoIgnoreDirectory(p) && TidyRoot(Some(root))
    ensures NoIgnoreDirectory(ParentScope(root, p)) && !IsIgnoreFile(ParentScope(root, p))
    ensures NoIgnoreDirectory(ParentDir(p)) && !IsIgnoreFile(ParentDir(p))
  {
  }

  lemma ParentsAreTidy(root: Path, s: Scopes, paths: set<Path>)
    requires Tidy(s) && TidyRoot(Some(root)) && forall p :: p in paths ==> NoIgnoreDirectory(p)
    ensures Tidy(Collapse(Scopes({}, s.rescan + ParentScopes(root, paths), {}, s.force)))
    ensures Tidy(Collapse(s.(rescan := ParentScopes(root, paths))))
  {
    forall q | q in ParentScopes(root, paths) ensures NoIgnoreDirectory(q) && !IsIgnoreFile(q) {
      var p :| p in paths && q == ParentScope(root, p);
      ParentIsTidy(root, p);
    }
    CollapseIsNormal(Scopes({}, s.rescan + ParentScopes(root, paths), {}, s.force));
    CollapseIsNormal(s.(rescan := ParentScopes(root, paths)));
  }

  lemma {:induction false} WidenIsTidy(s: Scopes, root: Path, budget: nat)
    requires Tidy(s) && TidyRoot(Some(root))
    ensures Tidy(Widen(s, root, budget))
    decreases Len(s)
  {
    if Len(s) < budget {
    } else {
      var next := Collapse(s.(rescan := ParentScopes(root, s.rescan)));
      ParentsAreTidy(root, s, s.rescan);
      if Len(next) < Len(s) {
        WidenIsTidy(next, root, budget);
      }
    }
  }

  lemma EnforceIsTidy(s: Scopes, root: Option<Path>, budget: nat)
    requires Tidy(s) && TidyRoot(root)
    ensures Tidy(Enforce(s, root, budget))
  {
    CollapseIsNormal(s);
    if root.Some? {
      var c := Collapse(s);
      ParentsAreTidy(root.value, c, c.touched + c.deleted);
      WidenIsTidy(WidenLeaves(c, root.value), root.value, budget);
    }
  }

  lemma InsertIsTidy(s: Scopes, p: Path, kind: ChangeKind, isDirectory: bool)
    requires Tidy(s) && NoIgnoreDirectory(p)
    ensures Tidy(Insert(s, p, kind, isDirectory))
  {
    ParentIsTidy([], p);
  }

  lemma ApplyIsTidy(s: Scopes, root: Option<Path>, budget: nat, op: Op)
    requires Tidy(s) && TidyRoot(root) && TidyOp(op)
    ensures Tidy(Apply(s, root, budget, op))
  {
    match op
    case AddOp(p, kind, isDirectory) =>
      InsertIsTidy(s, p, kind, isDirectory);
      EnforceIsTidy(Insert(s, p, kind, isDirectory), root, budget);
    case MergeOp(other) =>
      EnforceIsTidy(Scopes(s.touched + other.touched, s.rescan + other.rescan, s.deleted + other.deleted,
        s.force || other.force), root, budget);
    case RequireFullOp =>
    case SnapshotOp => CollapseIsNormal(s);
  }

  /** As long as no directory is called like an ignore file, an event about an ignore file gets everything in its
      directory covered, and it stays covered whatever happens before the next drain. */
  lemma {:induction false} IgnoreFilesReachTheirDirectory(
      s: Scopes, root: Option<Path>, budget: nat, ops: seq<Op>, i: nat, q: Path)
    requires Rooted(s, root) && Tidy(s) && TidyRoot(root)
    requires forall op :: op in ops ==> InScope(op, root) && TidyOp(op)
    requires i < |ops| && ops[i].AddOp? && IsIgnoreFile(ops[i].p) && ops[i].p[..|ops[i].p| - 1] <= q
    ensures Covers(ApplyAll(s, root, budget, ops), q)
    decreases |ops|
  {
    var next := Apply(s, root, budget, ops[0]);
    ApplyKeeps(s, root, budget, ops[0]);
    ApplyIsTidy(s, root, budget, ops[0]);
    if i == 0 {
      IgnoreFileRescansExactly(s, root, budget, ops[0].p, ops[0].kind, ops[0].isDirectory);
      NothingIsLost(next, root, budget, ops[1..], q);
    } else {
      IgnoreFilesReachTheirDirectory(next, root, budget, ops[1..], i - 1, q);
    }
  }

  // ----- Widening

  /** `k` levels up, but not above the root. */
  function Up(root: Path, p: Path, k: nat): Path {
    if |root| + k <= |p| then p[..|p| - k] else root
  }

  ghost predicate AtOrBelowUp(root: Path, paths: set<Path>, k: nat, q: Path) {
    exists d :: d in paths && Up(root, d, k) <= q
  }

  lemma ParentScopeIsUp(root: Path, p: Path, k: nat)
    requires root <= p
    ensures ParentScope(root, p) == Up(root, p, 1)
    ensures root <= Up(root, p, 1) && Up(root, Up(root, p, 1), k) == Up(root, p, k + 1)
  {
  }

  lemma UpIsMonotone(root: Path, a: Path, p: Path, k: nat, q: Path)
    requires root <= a <= p && Up(root, p, k) <= q
    ensures Up(root, a, k) <= q
  {
  }

  /** Directories alone, widened `k` times. */
  ghost function Rounds(s: Scopes, root: Path, k: nat): Scopes
    decreases k
  {
    if k == 0 then s else Rounds(Collapse(s.(rescan := ParentScopes(root, s.rescan))), root, k - 1)
  }

  ghost predicate Directories(s: Scopes, root: Path) {
    Rooted(s, Some(root)) && s.touched == {} && s.deleted == {}
  }

  /** After `k` rounds of widening each directory is `k` levels up, or the root. */
  lemma {:induction false} RoundsRegion(s: Scopes, root: Path, k: nat, q: Path)
    requires Directories(s, root)
    ensures Directories(Rounds(s, root, k), root)
    ensures AtOrBelow(Rounds(s, root, k).rescan, q) <==> AtOrBelowUp(root, s.rescan, k, q)
    decreases k
  {
    if k == 0 {
      assert forall d :: d in s.rescan ==> Up(root, d, 0) == d;
    } else {
      var next := Collapse(s.(rescan := ParentScopes(root, s.rescan)));
      WidenStepKeeps(s, root);
      RoundsRegion(next, root, k - 1, q);
      OneRoundUp(s, root, k - 1, q, next.rescan);
    }
  }

  lemma OneRoundUp(s: Scopes, root: Path, k: nat, q: Path, widened: set<Path>)
    requires Directories(s, root) && widened == Collapse(s.(rescan := ParentScopes(root, s.rescan))).rescan
    ensures AtOrBelowUp(root, widened, k, q) <==> AtOrBelowUp(root, s.rescan, k + 1, q)
  {
    if AtOrBelowUp(root, s.rescan, k + 1, q) {
      var d :| d in s.rescan && Up(root, d, k + 1) <= q;
      var top := TopParent(s, root, d);
      ParentScopeIsUp(root, d, k);
      UpIsMonotone(root, top, ParentScope(root, d), k, q);
    }
    if AtOrBelowUp(root, widened, k, q) {
      var d :| d in widened && Up(root, d, k) <= q;
      var p := ChildOf(s, root, d);
      ParentScopeIsUp(root, p, k);
    }
  }

  lemma TopParent(s: Scopes, root: Path, d: Path) returns (top: Path)
    requires Directories(s, root) && d in s.rescan
    ensures top in Collapse(s.(rescan := ParentScopes(root, s.rescan))).rescan
    ensures root <= top <= ParentScope(root, d)
  {
    var parents := ParentScopes(root, s.rescan);
    ParentScopesUnderRoot(root, s.rescan);
    assert ParentScope(root, d) in parents - {[]};
    top := TopAbove(parents - {[]}, ParentScope(root, d));
    assert s.deleted == {} && CollapseSet({}) == {};
  }

  lemma ChildOf(s: Scopes, root: Path, d: Path) returns (p: Path)
    requires Directories(s, root) && d in Collapse(s.(rescan := ParentScopes(root, s.rescan))).rescan
    ensures p in s.rescan && root <= p && d == ParentScope(root, p)
  {
    p :| p in s.rescan && d == ParentScope(root, p);
  }

  lemma OneRoundFirst(s: Scopes, root: Path, next: Scopes, k: nat)
    requires k > 0 && next == Collapse(s.(rescan := ParentScopes(root, s.rescan)))
    ensures Rounds(s, root, k) == Rounds(next, root, k - 1)
  {
  }

  /** Round `k` is the last: it fits or did not shrink the set, and every one before was over budget and smaller than
      the one before it. */
  ghost predicate LastRound(s: Scopes, root: Path, budget: nat, k: nat) {
    && (forall j: nat :: j < k ==> Len(Rounds(s, root, j)) >= budget)
    && (forall j: nat :: j + 1 < k ==> Len(Rounds(s, root, j + 1)) < Len(Rounds(s, root, j)))
    && (Len(Rounds(s, root, k)) < budget || (k > 0 && Len(Rounds(s, root, k)) >= Len(Rounds(s, root, k - 1))))
  }

  lemma LastRoundAfterOne(s: Scopes, root: Path, budget: nat, next: Scopes, k: nat)
    requires next == Collapse(s.(rescan := ParentScopes(root, s.rescan))) 
    requires Len(next) < Len(s) && budget <= Len(s)
    requires LastRound(next, root, budget, k)
    ensures LastRound(s, root, budget, k + 1)
  {
    assert Rounds(s, root, 0) == s && Rounds(next, root, 0) == next;
    OneRoundFirst(s, root, next, k + 1);
    if k > 0 {
      OneRoundFirst(s, root, next, k);
    }
    forall j: nat | j < k + 1 ensures Len(Rounds(s, root, j)) >= budget {
      if j > 0 {
        OneRoundFirst(s, root, next, j);
      }
    }
    forall j: nat | j + 1 < k + 1 ensures Len(Rounds(s, root, j + 1)) < Len(Rounds(s, root, j)) {
      OneRoundFirst(s, root, next, j + 1);
      if j > 0 {
        OneRoundFirst(s, root, next, j);
        assert j - 1 + 1 < k;
      }
    }
  }

  /** Widening stops after the first round that fits, or that did not shrink the set; until then every round was over
      budget and smaller than the one before. */
  lemma {:induction false} WidenStopsFirst(s: Scopes, root: Path, budget: nat) returns (k: nat)
    ensures Widen(s, root, budget) == Rounds(s, root, k) && LastRound(s, root, budget, k)
    decreases Len(s)
  {
    k := 0;
    if Len(s) >= budget {
      var next := Collapse(s.(rescan := ParentScopes(root, s.rescan)));
      assert Rounds(s, root, 0) == s;
      if Len(next) < Len(s) {
        var rest := WidenStopsFirst(next, root, budget);
        k := rest + 1;
        LastRoundAfterOne(s, root, budget, next, rest);
        OneRoundFirst(s, root, next, k);
      } else {
        k := 1;
        OneRoundFirst(s, root, next, k);
      }
    }
  }

  /** A rooted set that collapsing does not bring within budget keeps directories only: after `k` rounds each recorded
      directory is `k` levels up, each file and deletion `k + 1` levels, and none above the root. */
  lemma EnforceRegionExactly(s: Scopes, root: Path, budget: nat) returns (k: nat)
    requires Rooted(s, Some(root)) && Len(Collapse(s)) >= budget
    ensures
      var c, t := Collapse(s), Enforce(s, Some(root), budget);
      && t.touched == {} && t.deleted == {} && t.force == s.force
      && forall q :: AtOrBelow(t.rescan, q) <==>
           AtOrBelowUp(root, c.rescan, k, q) || AtOrBelowUp(root, c.touched + c.deleted, k + 1, q)
  {
    var c := Collapse(s);
    CollapseStaysRooted(s, Some(root));
    CollapseIsNormal(s);
    var w := WidenLeaves(c, root);
    WidenLeavesKeeps(c, root);
    WidenKeeps(w, root, budget);
    k := WidenStopsFirst(w, root, budget);
    forall q
      ensures AtOrBelow(Widen(w, root, budget).rescan, q) <==>
        AtOrBelowUp(root, c.rescan, k, q) || AtOrBelowUp(root, c.touched + c.deleted, k + 1, q)
    {
      RoundsRegion(w, root, k, q);
      LeavesUp(c, root, k, q);
    }
    RoundsRegion(w, root, k, []);
  }

  /** Widening the leaves counts as their first level. */
  lemma LeavesUp(c: Scopes, root: Path, k: nat, q: Path)
    requires Rooted(c, Some(root)) && Normal(c)
    ensures AtOrBelowUp(root, WidenLeaves(c, root).rescan, k, q) <==>
      AtOrBelowUp(root, c.rescan, k, q) || AtOrBelowUp(root, c.touched + c.deleted, k + 1, q)
  {
    var leaves := c.touched + c.deleted;
    if leaves != {} {
      var parents := ParentScopes(root, leaves);
      var w := Scopes({}, c.rescan + parents, {}, c.force);
      ParentScopesUnderRoot(root, leaves);
      assert CollapseSet({}) == {};
      if AtOrBelowUp(root, c.rescan + parents, k, q) {
        var d :| d in c.rescan + parents && Up(root, d, k) <= q;
        var top := TopAbove(w.rescan - {[]}, d);
        UpIsMonotone(root, top, d, k, q);
        assert top in Collapse(w).rescan;
      }
      ParentsUp(root, leaves, k, q);
    }
  }

  lemma ParentsUp(root: Path, leaves: set<Path>, k: nat, q: Path)
    requires Under(root, leaves)
    ensures AtOrBelowUp(root, ParentScopes(root, leaves), k, q) <==> AtOrBelowUp(root, leaves, k + 1, q)
  {
    if AtOrBelowUp(root, leaves, k + 1, q) {
      var p :| p in leaves && Up(root, p, k + 1) <= q;
      ParentScopeIsUp(root, p, k);
      assert ParentScope(root, p) in ParentScopes(root, leaves);
    }
    if AtOrBelowUp(root, ParentScopes(root, leaves), k, q) {
      var d :| d in ParentScopes(root, leaves) && Up(root, d, k) <= q;
      var p :| p in leaves && d == ParentScope(root, p);
      ParentScopeIsUp(root, p, k);
    }
  }
}
