/** The accumulator itself: three path sets and a flag, updated in place. */
module ChangeAccumulator {
  import opened Options
  import opened ChangeScopes
  import opened ChangeSets

  lemma PrefixOfParent(a: Path, p: Path)
    requires a <= p && a != p
    ensures a <= ParentDir(p)
  {
  }

  /** The upward search: true when the parent chain of `target` meets `paths`. */
  method FindAncestor(paths: set<Path>, target: Path) returns (found: bool)
    ensures found <==> HasAncestor(paths, target)
  {
    var current := ParentDir(target);
    while true
      invariant current <= target && (current < target || target == [])
      invariant forall a :: a in paths && (a < target || (a == [] && target == [])) ==> a <= current
      decreases |current|
    {
      if current in paths {
        return true;
      }
      var parent := ParentDir(current);
      if parent == current {
        return false;
      }
      forall a | a in paths && a <= current ensures a <= parent {
        PrefixOfParent(a, current);
      }
      current := parent;
    }
  }

  /** The length of a path as text, by which the source orders its work. */
  function TextLength(p: Path): nat {
    if p == [] then 1 else ComponentsLength(p)
  }

  function ComponentsLength(p: Path): nat {
    if p == [] then 0 else ComponentsLength(p[..|p| - 1]) + 1 + |p[|p| - 1]|
  }

  /** Some shortest path; which of several is left open, as the sort leaves ties to the set's order. */
  method PickShortest(paths: set<Path>) returns (shortest: Path)
    requires paths != {}
    ensures shortest in paths && forall p :: p in paths ==> TextLength(shortest) <= TextLength(p)
  {
    shortest :| shortest in paths;
    var rest := paths - {shortest};
    while rest != {}
      invariant shortest in paths && rest <= paths
      invariant forall p :: p in paths && p !in rest ==> TextLength(shortest) <= TextLength(p)
      decreases rest
    {
      var p :| p in rest;
      if TextLength(p) < TextLength(shortest) {
        shortest := p;
      }
      rest := rest - {p};
    }
  }

  lemma SlashIsShortest(p: Path)
    ensures p != [] ==> TextLength([]) < TextLength(p)
  {
  }

  /** In the middle of a collapse: everything but `rest` has been looked at, `kept` is what is left. */
  ghost predicate Collapsing(paths: set<Path>, rest: set<Path>, kept: set<Path>) {
    && rest <= kept <= paths
    && ([] in rest ==> rest == kept == paths)
    && ([] !in rest ==> [] !in kept)
    && forall p :: p in paths - {[]} && p !in rest ==> (p in kept <==> !StrictlyCovered(paths - {[]}, p))
  }

  /** What is still kept decides a path exactly as the original set does. */
  lemma KeptDecides(paths: set<Path>, rest: set<Path>, kept: set<Path>, p: Path)
    requires Collapsing(paths, rest, kept) && [] !in rest && p in rest
    ensures HasAncestor(kept, p) <==> StrictlyCovered(paths - {[]}, p)
  {
    if a :| a in paths - {[]} && a < p {
      var top := TopAbove(paths - {[]}, a);
      assert top in kept && top < p;
    }
    if HasAncestor(kept, p) {
      var a :| a in kept && a < p;
      assert a in paths - {[]};
    }
  }

  /** Drops every path that has an ancestor in the set, shortest first. */
  method CollapseInPlace(paths: set<Path>) returns (kept: set<Path>)
    ensures kept == CollapseSet(paths)
  {
    kept := paths;
    var rest := paths;
    while rest != {}
      invariant Collapsing(paths, rest, kept)
      decreases rest
    {
      var p := PickShortest(rest);
      SlashIsShortest(p);
      var covered := FindAncestor(kept, p);
      if [] !in rest {
        KeptDecides(paths, rest, kept, p);
      }
      if covered {
        kept := kept - {p};
      }
      rest := rest - {p};
    }
  }

  /** The accumulator of one watcher or coordinator. */
  class ChangeSet {
    var touchedFiles: set<Path>
    var rescanDirectories: set<Path>
    var deletedPrefixes: set<Path>
    var forceFullReconcile: bool
    const root: Option<Path>
    const maxChangedPaths: nat

    function Value(): Scopes
      reads this
    {
      Scopes(touchedFiles, rescanDirectories, deletedPrefixes, forceFullReconcile)
    }

    constructor (root: Option<Path>, maxChangedPaths: nat)
      ensures Value() == NOTHING && this.root == root && this.maxChangedPaths == maxChangedPaths
    {
      touchedFiles, rescanDirectories, deletedPrefixes, forceFullReconcile := {}, {}, {}, false;
      this.root, this.maxChangedPaths := root, maxChangedPaths;
    }

    /** Records one event. */
    method Add(reported: ReportedPath, kind: ChangeKind, isDirectory: bool) returns (result: AddResult)
      modifies this
      ensures reported.Relative? ==> result == RootNotAbsolute(reported.text) && Value() == old(Value())
      ensures reported.Absolute? ==> result == Recorded
      ensures reported.Absolute? ==>
        Value() == ChangeSets.Add(old(Value()), root, maxChangedPaths, reported.path, kind, isDirectory)
    {
      if reported.Relative? {
        return RootNotAbsolute(reported.text);
      }
      result := Recorded;
      var p := reported.path;
      if forceFullReconcile && HasPaths(Value()) {
        return;
      }
      var rescanned := Covered(rescanDirectories, p);
      var gone := Covered(deletedPrefixes, p);
      if rescanned || gone {
        return;
      }
      if p != [] && p[|p| - 1] == GITIGNORE {
        rescanDirectories := rescanDirectories + {ParentDir(p)};
      } else if kind == Deleted {
        deletedPrefixes := deletedPrefixes + {p};
      } else if isDirectory {
        rescanDirectories := rescanDirectories + {p};
      } else {
        touchedFiles := touchedFiles + {p};
      }
      if Len(Value()) >= maxChangedPaths {
        EnforcePathBudget();
      }
    }

    static method Covered(paths: set<Path>, p: Path) returns (covered: bool)
      ensures covered <==> CoveredBy(paths, p)
    {
      var below := FindAncestor(paths, p);
      covered := p in paths || below;
    }

    method RequireFullReconcile()
      modifies this
      ensures Value() == old(Value()).(force := true)
    {
      forceFullReconcile := true;
    }

    /** Folds another snapshot in. */
    method Merge(other: Scopes)
      modifies this
      ensures Value() == ChangeSets.Merge(old(Value()), root, maxChangedPaths, other)
    {
      if forceFullReconcile && HasPaths(Value()) {
        return;
      }
      touchedFiles := touchedFiles + other.touched;
      rescanDirectories := rescanDirectories + other.rescan;
      deletedPrefixes := deletedPrefixes + other.deleted;
      forceFullReconcile := forceFullReconcile || other.force;
      if !forceFullReconcile && Len(Value()) >= maxChangedPaths {
        EnforcePathBudget();
      }
    }

    /** The collapsed contents; also collapses in place. */
    method Snapshot() returns (snapshot: Scopes)
      modifies this
      ensures snapshot == Value() == Collapse(old(Value()))
    {
      CollapsePaths();
      snapshot := Scopes(touchedFiles, rescanDirectories, deletedPrefixes, forceFullReconcile);
    }

    /** The collapsed contents, leaving the accumulator empty. */
    method TakeSnapshot() returns (snapshot: Scopes)
      modifies this
      ensures snapshot == Collapse(old(Value())) && Value() == NOTHING
    {
      snapshot := Snapshot();
      touchedFiles, rescanDirectories, deletedPrefixes, forceFullReconcile := {}, {}, {}, false;
    }

    method CollapsePaths()
      modifies this
      ensures Value() == Collapse(old(Value()))
    {
      rescanDirectories := CollapseInPlace(rescanDirectories);
      deletedPrefixes := CollapseInPlace(deletedPrefixes);
      touchedFiles := Retain(touchedFiles, rescanDirectories);
      touchedFiles := Retain(touchedFiles, deletedPrefixes);
      rescanDirectories := Retain(rescanDirectories, deletedPrefixes);
    }

    /** Keeps the paths with no ancestor in `above`. */
    static method Retain(paths: set<Path>, above: set<Path>) returns (kept: set<Path>)
      ensures kept == Without(paths, above)
    {
      kept := {};
      var rest := paths;
      while rest != {}
        invariant rest <= paths && kept == Without(paths - rest, above)
        decreases rest
      {
        var p :| p in rest;
        var below := FindAncestor(above, p);
        if !below {
          kept := kept + {p};
        }
        rest := rest - {p};
      }
      assert paths - rest == paths;
    }

    static method Parents(root: Path, paths: set<Path>) returns (parents: set<Path>)
      ensures parents == ParentScopes(root, paths)
    {
      parents := {};
      var rest := paths;
      while rest != {}
        invariant rest <= paths && parents == ParentScopes(root, paths - rest)
        decreases rest
      {
        var p :| p in rest;
        parents := parents + {ParentScope(root, p)};
        assert paths - (rest - {p}) == (paths - rest) + {p};
        rest := rest - {p};
      }
      assert paths - rest == paths;
    }

    method EnforcePathBudget()
      modifies this
      ensures Value() == Enforce(old(Value()), root, maxChangedPaths)
    {
      CollapsePaths();
      if Len(Value()) < maxChangedPaths {
        return;
      }
      if root == None {
        forceFullReconcile := true;
        return;
      }
      var leafScopes := touchedFiles + deletedPrefixes;
      if leafScopes != {} {
        touchedFiles, deletedPrefixes := {}, {};
        var parents := Parents(root.value, leafScopes);
        rescanDirectories := rescanDirectories + parents;
        CollapsePaths();
      }
      ghost var target := Widen(Value(), root.value, maxChangedPaths);
      while Len(Value()) >= maxChangedPaths
        invariant Widen(Value(), root.value, maxChangedPaths) == target
        decreases Len(Value())
      {
        var previous := Len(Value());
        rescanDirectories := Parents(root.value, rescanDirectories);
        CollapsePaths();
        if Len(Value()) >= previous {
          return;
        }
      }
    }
  }
}
