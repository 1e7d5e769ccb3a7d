/** The change accumulator: recording, merging, collapsing, widening under a budget, and draining. */
module ChangeSets {
  import opened Options
  import opened ChangeScopes

  datatype ChangeKind = Created | Changed | Deleted

  /** A path as the watcher reports it; only absolute paths can be recorded. */
  datatype ReportedPath = Relative(text: string) | Absolute(path: Path)

  datatype AddResult = Recorded | RootNotAbsolute(root: string)

  // ----- The operations as functions on values

  function ParentScope(root: Path, p: Path): Path {
    if p == root then p
    else if root <= ParentDir(p) then ParentDir(p)
    else root
  }

  function ParentScopes(root: Path, paths: set<Path>): set<Path> {
    set p | p in paths :: ParentScope(root, p)
  }

  /** Directories are replaced by their parents until the set fits or stops shrinking. */
  ghost function Widen(s: Scopes, root: Path, budget: nat): Scopes
    decreases Len(s)
  {
    if Len(s) < budget then s
    else
      var next := Collapse(s.(rescan := ParentScopes(root, s.rescan)));
      if Len(next) >= Len(s) then next else Widen(next, root, budget)
  }

  ghost function WidenLeaves(s: Scopes, root: Path): Scopes {
    if s.touched + s.deleted == {} then s
    else Collapse(Scopes({}, s.rescan + ParentScopes(root, s.touched + s.deleted), {}, s.force))
  }

  ghost function Enforce(s: Scopes, root: Option<Path>, budget: nat): Scopes {
    var c := Collapse(s);
    if Len(c) < budget then c
    else match root
      case None => c.(force := true)
      case Some(r) => Widen(WidenLeaves(c, r), r, budget)
  }

  /** The scope an event records: a touched ignore file widens to its directory. */
  function ScopeOf(p: Path): Path {
    if p != [] && p[|p| - 1] == GITIGNORE then ParentDir(p) else p
  }

  function Insert(s: Scopes, p: Path, kind: ChangeKind, isDirectory: bool): Scopes {
    if p != [] && p[|p| - 1] == GITIGNORE then s.(rescan := s.rescan + {ParentDir(p)})
    else if kind == Deleted then s.(deleted := s.deleted + {p})
    else if isDirectory then s.(rescan := s.rescan + {p})
    else s.(touched := s.touched + {p})
  }

  predicate IsIgnoreFile(p: Path) {
    p != [] && p[|p| - 1] == ".gitignore"
  }

  ghost predicate CoveredBy(paths: set<Path>, p: Path) {
    p in paths || HasAncestor(paths, p)
  }

  ghost function Add(s: Scopes, root: Option<Path>, budget: nat, p: Path, kind: ChangeKind, isDirectory: bool): Scopes {
    if s.force && HasPaths(s) then s
    else if CoveredBy(s.rescan, p) || CoveredBy(s.deleted, p) then s
    else
      var t := Insert(s, p, kind, isDirectory);
      if Len(t) >= budget then Enforce(t, root, budget) else t
  }

  ghost function Merge(s: Scopes, root: Option<Path>, budget: nat, other: Scopes): Scopes {
    if s.force && HasPaths(s) then s
    else
      var t := Scopes(s.touched + other.touched, s.rescan + other.rescan, s.deleted + other.deleted,
        s.force || other.force);
      if !t.force && Len(t) >= budget then Enforce(t, root, budget) else t
  }

  // ----- Coverage is never lost

  /** All recorded scopes lie under a workspace root other than "/"; without a root, none of them is "/". */
  predicate Rooted(s: Scopes, root: Option<Path>) {
    match root
    case None => NoSlash(s)
    case Some(r) => r != [] && Under(r, s.touched) && Under(r, s.rescan) && Under(r, s.deleted)
  }

  predicate Under(root: Path, paths: set<Path>) {
    forall p :: p in paths ==> root <= p
  }

  predicate UnderRoot(p: Path, root: Option<Path>) {
    match root
    case None => p != []
    case Some(r) => r != [] && r <= p
  }

  lemma CollapseStaysRooted(s: Scopes, root: Option<Path>)
    requires Rooted(s, root)
    ensures Rooted(Collapse(s), root) && forall p :: Covers(Collapse(s), p) <==> Covers(s, p)
  {
    CollapseIsNormal(s);
    forall p ensures Covers(Collapse(s), p) <==> Covers(s, p) {
      CollapseKeepsCover(s, p);
    }
  }

  /** Widening a scope never leaves the root and never uncovers anything. */
  lemma ParentScopeWidens(root: Path, p: Path)
    requires root <= p
    ensures root <= ParentScope(root, p) <= p
  {
  }

  lemma WidenedRescan(s: Scopes, root: Path, leaves: set<Path>)
    requires Rooted(s, Some(root)) && s.touched == {} && s.deleted == {}
    requires Under(root, leaves)
    ensures Rooted(s.(rescan := s.rescan + ParentScopes(root, leaves)), Some(root))
    ensures forall p :: p in leaves ==> AtOrBelow(ParentScopes(root, leaves), p)
  {
    forall q | q in ParentScopes(root, leaves) ensures root <= q {
      var p :| p in leaves && q == ParentScope(root, p);
      ParentScopeWidens(root, p);
    }
    forall p | p in leaves ensures AtOrBelow(ParentScopes(root, leaves), p) {
      ParentScopeWidens(root, p);
      assert ParentScope(root, p) in ParentScopes(root, leaves);
    }
  }

  lemma AboveCoversBelow(paths: set<Path>, p: Path, q: Path)
    requires AtOrBelow(paths, p) && p <= q
    ensures AtOrBelow(paths, q)
  {
    var a :| a in paths && a <= p;
    assert a <= q;
  }

  lemma WidenLeavesKeeps(s: Scopes, root: Path)
    requires Rooted(s, Some(root))
    ensures Rooted(WidenLeaves(s, root), Some(root)) && WidenLeaves(s, root).force == s.force
    ensures CoversAll(WidenLeaves(s, root), s)
    ensures WidenLeaves(s, root).touched == {} && WidenLeaves(s, root).deleted == {}
  {
    var leaves := s.touched + s.deleted;
    if leaves != {} {
      var w := Scopes({}, s.rescan + ParentScopes(root, leaves), {}, s.force);
      assert Under(root, leaves);
      WidenedRescan(Scopes({}, s.rescan, {}, s.force), root, leaves);
      CollapseStaysRooted(w, Some(root));
      CollapseIsNormal(w);
      forall p | Covers(s, p) ensures Covers(w, p) {
        LeavesCovered(s, root, w, p);
      }
    }
  }

  lemma LeavesCovered(s: Scopes, root: Path, w: Scopes, p: Path)
    requires Rooted(s, Some(root)) && Covers(s, p)
    requires w == Scopes({}, s.rescan + ParentScopes(root, s.touched + s.deleted), {}, s.force)
    ensures Covers(w, p)
  {
    assert Under(root, s.touched + s.deleted);
    WidenedRescan(Scopes({}, s.rescan, {}, s.force), root, s.touched + s.deleted);
    if p in s.touched {
      assert AtOrBelow(ParentScopes(root, s.touched + s.deleted), p);
    } else if d :| d in s.deleted && d <= p {
      AboveCoversBelow(ParentScopes(root, s.touched + s.deleted), d, p);
    }
  }

  lemma WidenStepKeeps(s: Scopes, root: Path)
    requires Rooted(s, Some(root)) && s.touched == {} && s.deleted == {}
    ensures
      var w := Collapse(s.(rescan := ParentScopes(root, s.rescan)));
      Rooted(w, Some(root)) && w.force == s.force && w.touched == {} && w.deleted == {} && CoversAll(w, s)
  {
    var w := s.(rescan := ParentScopes(root, s.rescan));
    WidenedRescan(NOTHING, root, s.rescan);
    CollapseStaysRooted(w, Some(root));
    CollapseIsNormal(w);
    forall p | Covers(s, p) ensures Covers(w, p) {
      if !s.force {
        var d :| d in s.rescan && d <= p;
        AboveCoversBelow(w.rescan, d, p);
      }
    }
  }

  lemma {:induction false} WidenKeeps(s: Scopes, root: Path, budget: nat)
    requires Rooted(s, Some(root)) && s.touched == {} && s.deleted == {}
    ensures Rooted(Widen(s, root, budget), Some(root)) && Widen(s, root, budget).force == s.force
    ensures CoversAll(Widen(s, root, budget), s)
    decreases Len(s)
  {
    if Len(s) < budget {
    } else {
      var next := Collapse(s.(rescan := ParentScopes(root, s.rescan)));
      WidenStepKeeps(s, root);
      if Len(next) < Len(s) {
        WidenKeeps(next, root, budget);
      }
    }
  }

  /** Enforcing the budget stays inside the root, forces a reconcile only when there is no root, and keeps
      everything covered. */
  lemma EnforceKeeps(s: Scopes, root: Option<Path>, budget: nat)
    requires Rooted(s, root)
    ensures Rooted(Enforce(s, root, budget), root) && CoversAll(Enforce(s, root, budget), s)
    ensures root.Some? ==> Enforce(s, root, budget).force == s.force
  {
    CollapseStaysRooted(s, root);
    CollapseIsNormal(s);
    if root.Some? && Len(Collapse(s)) >= budget {
      WidenLeavesKeeps(Collapse(s), root.value);
      WidenKeeps(WidenLeaves(Collapse(s), root.value), root.value, budget);
    }
  }

  lemma CoveredByCovers(paths: set<Path>, p: Path)
    requires CoveredBy(paths, p)
    ensures AtOrBelow(paths, p)
  {
    if p in paths {
      assert p <= p;
    }
  }

  /** Recording an event covers its path and uncovers nothing. */
  lemma AddCovers(s: Scopes, root: Option<Path>, budget: nat, p: Path, kind: ChangeKind, isDirectory: bool)
    requires Rooted(s, root) && UnderRoot(ScopeOf(p), root)
    ensures
      var t := Add(s, root, budget, p, kind, isDirectory);
      Rooted(t, root) && CoversAll(t, s) && Covers(t, p) && (root.Some? ==> t.force == s.force)
  {
    if !(s.force && HasPaths(s)) {
      if CoveredBy(s.rescan, p) {
        CoveredByCovers(s.rescan, p);
      } else if CoveredBy(s.deleted, p) {
        CoveredByCovers(s.deleted, p);
      } else {
        InsertCovers(s, root, p, kind, isDirectory);
        var t := Insert(s, p, kind, isDirectory);
        if Len(t) >= budget {
          EnforceKeeps(t, root, budget);
        }
      }
    }
  }

  lemma InsertCovers(s: Scopes, root: Option<Path>, p: Path, kind: ChangeKind, isDirectory: bool)
    requires Rooted(s, root) && UnderRoot(ScopeOf(p), root)
    ensures
      var t := Insert(s, p, kind, isDirectory);
      Rooted(t, root) && CoversAll(t, s) && Covers(t, p) && t.force == s.force
  {
    var t := Insert(s, p, kind, isDirectory);
    assert ScopeOf(p) <= p;
    GrowingCovers(s, t);
  }

  /** A directory or a deletion also covers everything below it. */
  lemma AddCoversBelow(s: Scopes, root: Option<Path>, budget: nat, p: Path, kind: ChangeKind, isDirectory: bool)
    requires Rooted(s, root) && UnderRoot(ScopeOf(p), root)
    requires !IsIgnoreFile(p) && (kind == Deleted || isDirectory)
    ensures forall q :: p <= q ==> Covers(Add(s, root, budget, p, kind, isDirectory), q)
  {
    forall q | p <= q ensures Covers(Add(s, root, budget, p, kind, isDirectory), q) {
      if s.force && HasPaths(s) {
      } else if CoveredBy(s.rescan, p) {
        CoveredByCovers(s.rescan, p);
        AboveCoversBelow(s.rescan, p, q);
      } else if CoveredBy(s.deleted, p) {
        CoveredByCovers(s.deleted, p);
        AboveCoversBelow(s.deleted, p, q);
      } else {
        InsertCovers(s, root, p, kind, isDirectory);
        var t := Insert(s, p, kind, isDirectory);
        assert p in t.rescan || p in t.deleted;
        if Len(t) >= budget {
          EnforceKeeps(t, root, budget);
        }
      }
    }
  }

  lemma GrowingCovers(s: Scopes, t: Scopes)
    requires s.touched <= t.touched && s.rescan <= t.rescan && s.deleted <= t.deleted && (s.force ==> t.force)
    ensures CoversAll(t, s)
  {
  }

  /** Merging covers what either side covered. */
  lemma MergeCovers(s: Scopes, root: Option<Path>, budget: nat, other: Scopes)
    requires Rooted(s, root) && Rooted(other, root)
    ensures
      var t := Merge(s, root, budget, other);
      && Rooted(t, root) && CoversAll(t, s) && CoversAll(t, other)
      && (root.Some? ==> t.force == (s.force || (other.force && !(s.force && HasPaths(s)))))
  {
    if !(s.force && HasPaths(s)) {
      var t := Scopes(s.touched + other.touched, s.rescan + other.rescan, s.deleted + other.deleted,
        s.force || other.force);
      GrowingCovers(s, t);
      GrowingCovers(other, t);
      if !t.force && Len(t) >= budget {
        EnforceKeeps(t, root, budget);
      }
    }
  }

  // ----- Whole runs

  datatype Op =
    | AddOp(p: Path, kind: ChangeKind, isDirectory: bool)
    | MergeOp(other: Scopes)
    | RequireFullOp
    | SnapshotOp

  predicate InScope(op: Op, root: Option<Path>) {
    match op
    case AddOp(p, _, _) => UnderRoot(ScopeOf(p), root)
    case MergeOp(other) => Rooted(other, root)
    case _ => true
  }

  ghost function Apply(s: Scopes, root: Option<Path>, budget: nat, op: Op): Scopes {
    match op
    case AddOp(p, kind, isDirectory) => Add(s, root, budget, p, kind, isDirectory)
    case MergeOp(other) => Merge(s, root, budget, other)
    case RequireFullOp => s.(force := true)
    case SnapshotOp => Collapse(s)
  }

  /** The operation reports a change at `p`: a directory or a deletion reports everything at or below it. */
  ghost predicate Reports(op: Op, p: Path) {
    match op
    case AddOp(q, kind, isDirectory) =>
      q == p || (!IsIgnoreFile(q) && (kind == Deleted || isDirectory) && q <= p)
    case MergeOp(other) => Covers(other, p)
    case RequireFullOp => true
    case SnapshotOp => false
  }

  ghost function ApplyAll(s: Scopes, root: Option<Path>, budget: nat, ops: seq<Op>): Scopes
    decreases |ops|
  {
    if ops == [] then s else ApplyAll(Apply(s, root, budget, ops[0]), root, budget, ops[1..])
  }

  lemma ApplyKeeps(s: Scopes, root: Option<Path>, budget: nat, op: Op)
    requires Rooted(s, root) && InScope(op, root)
    ensures Rooted(Apply(s, root, budget, op), root) && CoversAll(Apply(s, root, budget, op), s)
    ensures forall p :: Reports(op, p) ==> Covers(Apply(s, root, budget, op), p)
  {
    match op
    case AddOp(p, kind, isDirectory) =>
      AddCovers(s, root, budget, p, kind, isDirectory);
      if !IsIgnoreFile(p) && (kind == Deleted || isDirectory) {
        AddCoversBelow(s, root, budget, p, kind, isDirectory);
      }
    case MergeOp(other) => MergeCovers(s, root, budget, other);
    case RequireFullOp =>
    case SnapshotOp => CollapseStaysRooted(s, root);
  }

  /** Between two drains, nothing that was reported or already covered is ever lost, whatever mixture of
      events, merges, collapses and widenings happens. */
  lemma {:induction false} NothingIsLost(s: Scopes, root: Option<Path>, budget: nat, ops: seq<Op>, p: Path)
    requires Rooted(s, root) && forall op :: op in ops ==> InScope(op, root)
    requires Covers(s, p) || exists op :: op in ops && Reports(op, p)
    ensures Covers(ApplyAll(s, root, budget, ops), p) && Rooted(ApplyAll(s, root, budget, ops), root)
    decreases |ops|
  {
    if ops == [] {
    } else {
      var next := Apply(s, root, budget, ops[0]);
      ApplyKeeps(s, root, budget, ops[0]);
      if !Covers(next, p) {
        var op :| op in ops && Reports(op, p);
        assert op in ops[1..];
      }
      NothingIsLost(next, root, budget, ops[1..], p);
    }
  }

  // ----- Outside the root

  lemma ParentScopesUnderRoot(root: Path, paths: set<Path>)
    ensures Under(root, ParentScopes(root, paths))
  {
    forall q | q in ParentScopes(root, paths) ensures root <= q {
      var p :| p in paths && q == ParentScope(root, p);
    }
  }

  lemma OnlyUnderRoot(root: Path, paths: set<Path>, p: Path)
    requires Under(root, paths) && AtOrBelow(paths, p)
    ensures root <= p
  {
    var a :| a in paths && a <= p;
  }

  /** Inside the root, a scope that covers a path still does once it is widened. */
  lemma WidenedStillCovers(root: Path, paths: set<Path>, p: Path)
    requires root <= p && AtOrBelow(paths, p)
    ensures AtOrBelow(ParentScopes(root, paths), p)
  {
    var a :| a in paths && a <= p;
    assert ParentScope(root, a) in ParentScopes(root, paths);
    assert ParentScope(root, a) <= p;
  }

  lemma AtOrBelowUnion(a: set<Path>, b: set<Path>, p: Path)
    ensures AtOrBelow(a + b, p) <==> AtOrBelow(a, p) || AtOrBelow(b, p)
  {
  }

  /** After the leaves are widened, what counts is the root and the directories that were there before. */
  lemma WidenLeavesCoversExactly(s: Scopes, root: Path, p: Path)
    requires root != [] && NoSlash(s) && Covers(s, p)
    ensures Covers(WidenLeaves(s, root), p) <==> s.force || root <= p || AtOrBelow(s.rescan, p)
  {
    var leaves := s.touched + s.deleted;
    if leaves == {} {
      assert s.touched == {} && s.deleted == {};
    } else {
      var parents := ParentScopes(root, leaves);
      ParentScopesUnderRoot(root, leaves);
      CollapseKeepsCover(Scopes({}, s.rescan + parents, {}, s.force), p);
      AtOrBelowUnion(s.rescan, parents, p);
      if AtOrBelow(parents, p) {
        OnlyUnderRoot(root, parents, p);
      } else if !s.force && root <= p && !AtOrBelow(s.rescan, p) {
        LeafAbove(s, p);
        WidenedStillCovers(root, leaves, p);
      }
    }
  }

  lemma LeafAbove(s: Scopes, p: Path)
    requires Covers(s, p) && !s.force && !AtOrBelow(s.rescan, p)
    ensures AtOrBelow(s.touched + s.deleted, p)
  {
    AtOrBelowUnion(s.touched, s.deleted, p);
    assert p in s.touched ==> p <= p;
  }

  lemma WidenLeavesIsDirectories(s: Scopes, root: Path)
    requires root != [] && NoSlash(s)
    ensures
      var w := WidenLeaves(s, root);
      w.touched == {} && w.deleted == {} && w.force == s.force && NoSlash(w)
  {
    if s.touched + s.deleted == {} {
      assert s.touched == {} && s.deleted == {};
    } else {
      CollapseIsNormal(Scopes({}, s.rescan + ParentScopes(root, s.touched + s.deleted), {}, s.force));
    }
  }

  /** The first round of widening already brings every scope under the root, so later ones lose nothing more. */
  lemma WidenCoversExactly(s: Scopes, root: Path, budget: nat, p: Path)
    requires root != [] && s.touched == {} && s.deleted == {} && (root <= p ==> Covers(s, p))
    ensures Covers(Widen(s, root, budget), p) <==>
      s.force || root <= p || (Len(s) < budget && AtOrBelow(s.rescan, p))
  {
    if Len(s) >= budget {
      var widened := s.(rescan := ParentScopes(root, s.rescan));
      var next := Collapse(widened);
      ParentScopesUnderRoot(root, s.rescan);
      CollapseStaysRooted(widened, Some(root));
      CollapseIsNormal(widened);
      WidenKeeps(next, root, budget);
      if root <= p && !s.force {
        WidenedStillCovers(root, s.rescan, p);
      } else if !s.force {
        WidenStaysDirectories(next, root, budget);
        if AtOrBelow(Widen(s, root, budget).rescan, p) {
          OnlyUnderRoot(root, Widen(s, root, budget).rescan, p);
        }
      }
    }
  }

  lemma {:induction false} WidenStaysDirectories(s: Scopes, root: Path, budget: nat)
    requires s.touched == {} && s.deleted == {}
    ensures Widen(s, root, budget).touched == {} && Widen(s, root, budget).deleted == {}
    decreases Len(s)
  {
    if Len(s) < budget {
    } else {
      var next := Collapse(s.(rescan := ParentScopes(root, s.rescan)));
      CollapseIsNormal(s.(rescan := ParentScopes(root, s.rescan)));
      if Len(next) < Len(s) {
        WidenStaysDirectories(next, root, budget);
      }
    }
  }

  /** What enforcing the budget leaves covered: everything when a reconcile is due or collapsing is enough; all under
      the root; and outside it what a recorded directory covers, when widening the other scopes is enough. */
  ghost predicate StaysCovered(s: Scopes, root: Path, budget: nat, p: Path) {
    var c := Collapse(s);
    || s.force || root <= p || Len(c) < budget
    || (AtOrBelow(c.rescan, p) && Len(WidenLeaves(c, root)) < budget)
  }

  /** A covered path, wherever it is, stays covered through a budget check exactly under that condition. */
  lemma EnforceCoversExactly(s: Scopes, root: Path, budget: nat, p: Path)
    requires root != [] && NoSlash(s) && Covers(s, p)
    ensures Covers(Enforce(s, Some(root), budget), p) <==> StaysCovered(s, root, budget, p)
  {
    var c := Collapse(s);
    CollapseIsNormal(s);
    CollapseKeepsCover(s, p);
    if Len(c) >= budget {
      var w := WidenLeaves(c, root);
      WidenLeavesIsDirectories(c, root);
      WidenLeavesCoversExactly(c, root, p);
      WidenCoversExactly(w, root, budget, p);
    }
  }

  /** The event is dropped because it adds nothing. */
  ghost predicate Ignored(s: Scopes, p: Path) {
    (s.force && HasPaths(s)) || CoveredBy(s.rescan, p) || CoveredBy(s.deleted, p)
  }

  /** After recording an event, the path of the event or one covered before is covered exactly when the event added
      nothing or the path survives the budget check. */
  lemma AddCoversExactly(
      s: Scopes, root: Path, budget: nat, p: Path, kind: ChangeKind, isDirectory: bool, q: Path)
    requires root != [] && NoSlash(s) && ScopeOf(p) != [] && (Covers(s, q) || q == p)
    ensures Covers(Add(s, Some(root), budget, p, kind, isDirectory), q) <==>
      Ignored(s, p) || StaysCovered(Insert(s, p, kind, isDirectory), root, budget, q)
  {
    if CoveredBy(s.rescan, p) {
      CoveredByCovers(s.rescan, p);
    } else if CoveredBy(s.deleted, p) {
      CoveredByCovers(s.deleted, p);
    } else if !(s.force && HasPaths(s)) {
      var t := Insert(s, p, kind, isDirectory);
      GrowingCovers(s, t);
      assert ScopeOf(p) <= p;
      assert NoSlash(t) && Covers(t, q);
      if Len(t) >= budget {
        EnforceCoversExactly(t, root, budget, q);
      } else {
        CollapseIsNotLarger(t);
      }
    }
  }

  lemma SubsetIsNotLarger(a: set<Path>, b: set<Path>)
    requires a <= b
    ensures |a| <= |b|
  {
    assert b == a + (b - a);
  }

  lemma CollapseIsNotLarger(s: Scopes)
    ensures Len(Collapse(s)) <= Len(s)
  {
    CollapseIsNormal(s);
    SubsetIsNotLarger(Collapse(s).touched, s.touched);
    SubsetIsNotLarger(Collapse(s).rescan, s.rescan);
    SubsetIsNotLarger(Collapse(s).deleted, s.deleted);
  }

  /** One such path: a file outside the root is widened away to the root. */
  lemma OutsideRootIsLost()
    ensures !Covers(Add(NOTHING, Some([REPO]), 1, [TMP], Changed, false), [TMP])
  {
    FileWidensToRoot();
    RootDoesNotCoverFile();
    FileIsRecorded();
  }

  lemma FileIsRecorded()
    ensures Add(NOTHING, Some([REPO]), 1, [TMP], Changed, false) ==
      Enforce(Scopes({[TMP]}, {}, {}, false), Some([REPO]), 1)
  {
    var file := Scopes({[TMP]}, {}, {}, false);
    assert Insert(NOTHING, [TMP], Changed, false).touched == file.touched;
    assert !CoveredBy({}, [TMP]);
    assert Len(file) == 1;
  }

  lemma RootDoesNotCoverFile()
    ensures !Covers(Scopes({}, {[REPO]}, {}, false), [TMP])
  {
    assert |REPO| == 4 && |TMP| == 3;
    var root: Path := [REPO];
    assert root[0] == REPO;
  }

  const REPO: Name := "repo"
  const TMP: Name := "tmp"

  lemma FileWidensToRoot()
    ensures Enforce(Scopes({[TMP]}, {}, {}, false), Some([REPO]), 1) == Scopes({}, {[REPO]}, {}, false)
  {
    var root, p: Path := [REPO], [TMP];
    var file, widened := Scopes({p}, {}, {}, false), Scopes({}, {root}, {}, false);
    NormalIsFixpoint(file);
    NormalIsFixpoint(widened);
    assert ParentScopes(root, {p}) == {root} && ParentScopes(root, {root}) == {root};
    assert file.touched + file.deleted == {p} && file.rescan + {root} == {root};
  }

  // ----- Over budget

  /** Widening ends with a set that fits, or with a round that began over budget and did not shrink the set. */
  lemma {:induction false} WidenFitsOrStalls(s: Scopes, root: Path, budget: nat) returns (last: Scopes)
    ensures
      var w := Widen(s, root, budget);
      || Len(w) < budget
      || (w == Collapse(last.(rescan := ParentScopes(root, last.rescan))) && Len(w) >= Len(last) >= budget)
    decreases Len(s)
  {
    last := s;
    if Len(s) < budget {
    } else {
      var next := Collapse(s.(rescan := ParentScopes(root, s.rescan)));
      if Len(next) < Len(s) {
        last := WidenFitsOrStalls(next, root, budget);
      }
    }
  }

  const A: Path := [REPO, "a"]
  const B: Path := [REPO, "b"]

  /** Two directories under different parents: the round to their parents keeps two, so widening stops over a budget of
      two, although one more round would have brought both to the root. */
  lemma WideningStopsTooSoon()
    ensures
      var deep, wide := Scopes({}, {A + ["x"], B + ["x"]}, {}, false), Scopes({}, {A, B}, {}, false);
      && Enforce(deep, Some([REPO]), 2) == wide && Len(wide) == 2
      && Widen(wide, [REPO], 2) == Scopes({}, {[REPO]}, {}, false)
  {
    var root: Path := [REPO];
    var deep, wide := Scopes({}, {A + ["x"], B + ["x"]}, {}, false), Scopes({}, {A, B}, {}, false);
    SidesAreApart();
    NormalIsFixpoint(deep);
    NormalIsFixpoint(wide);
    NormalIsFixpoint(Scopes({}, {root}, {}, false));
    RoundsOfWidening();
  }

  lemma SidesAreApart()
    ensures
      var deep, wide := Scopes({}, {A + ["x"], B + ["x"]}, {}, false), Scopes({}, {A, B}, {}, false);
      Normal(deep) && Normal(wide) && Len(deep) == 2 && Len(wide) == 2
  {
    assert A[1] != B[1];
    var a, b := A + ["x"], B + ["x"];
    assert a[1] != b[1] && |a| == |b| == 3;
    assert |{a, b}| == 2 && |{A, B}| == 2;
  }

  lemma RoundsOfWidening()
    ensures ParentScopes([REPO], {A + ["x"], B + ["x"]}) == {A, B}
    ensures ParentScopes([REPO], {A, B}) == {[REPO]}
  {
    var root: Path := [REPO];
    assert ParentScope(root, A + ["x"]) == A && ParentScope(root, B + ["x"]) == B;
    assert ParentScope(root, A) == root && ParentScope(root, B) == root;
  }
}
