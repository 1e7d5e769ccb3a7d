/** The limited lexical search: one pass over the files that stops one item past the limit. */
module LexicalSearch {
  import opened Options
  import opened VectorContent

  type Path = string

  /** What the searcher reports for a matching line; a match without a line number is ignored. */
  datatype Match = Numbered(line: nat) | Unnumbered

  /** One searched file and its matches, in order. A file can come up twice when search roots overlap. */
  datatype FileMatches = FileMatches(path: Path, matches: seq<Match>)

  datatype Hit = Hit(path: Path, line: nat)

  datatype Item = Item(path: Path, line: nat, rank: nat)

  // ----- What an unlimited search would find

  /** The numbered matches among the first `n` of a file. */
  function HitsOf(path: Path, matches: seq<Match>, n: nat): seq<Hit>
    requires n <= |matches|
  {
    if n == 0 then []
    else if matches[n - 1].Numbered? then HitsOf(path, matches, n - 1) + [Hit(path, matches[n - 1].line)]
    else HitsOf(path, matches, n - 1)
  }

  /** All hits of the first `n` files. */
  function AllHits(files: seq<FileMatches>, n: nat): seq<Hit>
    requires n <= |files|
  {
    if n == 0 then []
    else AllHits(files, n - 1) + HitsOf(files[n - 1].path, files[n - 1].matches, |files[n - 1].matches|)
  }

  function CountOf(hits: seq<Hit>, path: Path): nat {
    if hits == [] then 0
    else CountOf(hits[..|hits| - 1], path) + if hits[|hits| - 1].path == path then 1 else 0
  }

  predicate Full(kept: seq<Hit>, path: Path, maxCount: Option<nat>) {
    maxCount.Some? && CountOf(kept, path) >= maxCount.value
  }

  /** The hits that remain when each file keeps no more than `maxCount`. */
  function Kept(hits: seq<Hit>, maxCount: Option<nat>): seq<Hit> {
    if hits == [] then []
    else
      var kept, h := Kept(hits[..|hits| - 1], maxCount), hits[|hits| - 1];
      if Full(kept, h.path, maxCount) then kept else kept + [h]
  }

  /** The items for these hits, ranked from one. */
  function Ranked(hits: seq<Hit>): (items: seq<Item>)
    ensures |items| == |hits|
  {
    seq(|hits|, i requires 0 <= i < |hits| => Item(hits[i].path, hits[i].line, i + 1))
  }

  /** What a search finds that has no limit. */
  function Unlimited(files: seq<FileMatches>, maxCount: Option<nat>): seq<Item> {
    Ranked(Kept(AllHits(files, |files|), maxCount))
  }

  lemma KeptOneMore(hits: seq<Hit>, h: Hit, maxCount: Option<nat>)
    ensures var kept := Kept(hits, maxCount);
      Kept(hits + [h], maxCount) == if Full(kept, h.path, maxCount) then kept else kept + [h]
  {
    assert (hits + [h])[..|hits|] == hits;
  }

  lemma CountOneMore(hits: seq<Hit>, h: Hit, path: Path)
    ensures CountOf(hits + [h], path) == CountOf(hits, path) + if h.path == path then 1 else 0
  {
    assert (hits + [h])[..|hits|] == hits;
  }

  /** Later hits never change what was kept before. */
  lemma {:induction false} KeptGrows(hits: seq<Hit>, more: seq<Hit>, maxCount: Option<nat>)
    ensures Kept(hits, maxCount) <= Kept(hits + more, maxCount)
  {
    if more == [] {
      assert hits + more == hits;
    } else {
      var front := more[..|more| - 1];
      KeptGrows(hits, front, maxCount);
      assert hits + more == hits + front + [more[|more| - 1]];
      KeptOneMore(hits + front, more[|more| - 1], maxCount);
    }
  }

  /** Once a file is full, the rest of it changes nothing: stopping the file early is the same. */
  lemma {:induction false} FullFileAddsNothing(hits: seq<Hit>, rest: seq<Hit>, path: Path, maxCount: Option<nat>)
    requires Full(Kept(hits, maxCount), path, maxCount) && forall h :: h in rest ==> h.path == path
    ensures Kept(hits + rest, maxCount) == Kept(hits, maxCount)
  {
    if rest == [] {
      assert hits + rest == hits;
    } else {
      var front := rest[..|rest| - 1];
      FullFileAddsNothing(hits, front, path, maxCount);
      assert hits + rest == hits + front + [rest[|rest| - 1]];
      KeptOneMore(hits + front, rest[|rest| - 1], maxCount);
    }
  }

  /** The hits of one path, in order. */
  function OnlyPath(hits: seq<Hit>, path: Path): (r: seq<Hit>)
    ensures |r| == CountOf(hits, path)
  {
    if hits == [] then []
    else
      var front, h := OnlyPath(hits[..|hits| - 1], path), hits[|hits| - 1];
      if h.path == path then front + [h] else front
  }

  lemma OnlyPathOneMore(hits: seq<Hit>, h: Hit, path: Path)
    ensures OnlyPath(hits + [h], path) == if h.path == path then OnlyPath(hits, path) + [h] else OnlyPath(hits, path)
  {
    assert (hits + [h])[..|hits|] == hits;
  }

  /** Of the hits of a path the kept ones are the first `maxCount`, or all when there are fewer. */
  ghost predicate KeepsFirst(kept: seq<Hit>, hits: seq<Hit>, path: Path, maxCount: nat) {
    && CountOf(kept, path) == Min(maxCount, CountOf(hits, path))
    && OnlyPath(kept, path) == OnlyPath(hits, path)[..Min(maxCount, CountOf(hits, path))]
  }

  lemma SliceOfLonger(a: seq<Hit>, h: Hit, n: nat)
    ensures n <= |a| ==> (a + [h])[..n] == a[..n]
    ensures n == |a| ==> (a + [h])[..n + 1] == a[..n] + [h]
  {
  }

  lemma KeepsFirstOneMore(kept: seq<Hit>, hits: seq<Hit>, h: Hit, path: Path, maxCount: nat)
    requires KeepsFirst(kept, hits, path, maxCount)
    ensures KeepsFirst(if CountOf(kept, h.path) >= maxCount then kept else kept + [h], hits + [h], path, maxCount)
  {
    CountOneMore(hits, h, path);
    CountOneMore(kept, h, path);
    OnlyPathOneMore(hits, h, path);
    OnlyPathOneMore(kept, h, path);
    if h.path == path {
      SliceOfLonger(OnlyPath(hits, path), h, CountOf(kept, path));
    }
  }

  /** Each file keeps exactly its first `maxCount` hits, or all when it has fewer. */
  lemma {:induction false} EachFileKeepsItsFirst(hits: seq<Hit>, path: Path, maxCount: Option<nat>)
    ensures maxCount == None ==> Kept(hits, maxCount) == hits
    ensures maxCount.Some? ==>
      var n := Min(maxCount.value, CountOf(hits, path));
      CountOf(Kept(hits, maxCount), path) == n && OnlyPath(Kept(hits, maxCount), path) == OnlyPath(hits, path)[..n]
  {
    if hits == [] {
    } else {
      var front, h := hits[..|hits| - 1], hits[|hits| - 1];
      assert hits == front + [h];
      EachFileKeepsItsFirst(front, path, maxCount);
      KeptOneMore(front, h, maxCount);
      if maxCount.Some? {
        KeepsFirstOneMore(Kept(front, maxCount), front, h, path, maxCount.value);
      }
    }
  }

  /** A hit is kept exactly when fewer than `maxCount` hits of its file come before it, behind what was kept before. */
  lemma HitIsKeptExactly(hits: seq<Hit>, k: nat, maxCount: Option<nat>)
    requires k < |hits|
    ensures
      var before, path := Kept(hits[..k], maxCount), hits[k].path;
      Kept(hits[..k + 1], maxCount) ==
        if maxCount == None || CountOf(hits[..k], path) < maxCount.value then before + [hits[k]] else before
    ensures Kept(hits[..k + 1], maxCount) <= Kept(hits, maxCount)
  {
    assert hits[..k + 1] == hits[..k] + [hits[k]];
    KeptOneMore(hits[..k], hits[k], maxCount);
    EachFileKeepsItsFirst(hits[..k], hits[k].path, maxCount);
    assert hits == hits[..k + 1] + hits[k + 1..];
    KeptGrows(hits[..k + 1], hits[k + 1..], maxCount);
  }

  /** The numbered matches among the first `n` of a file. */
  function NumberedIn(matches: seq<Match>, n: nat): nat
    requires n <= |matches|
  {
    if n == 0 then 0 else NumberedIn(matches, n - 1) + if matches[n - 1] == Unnumbered then 0 else 1
  }

  function NumberedBefore(files: seq<FileMatches>, f: nat): nat
    requires f <= |files|
  {
    if f == 0 then 0 else NumberedBefore(files, f - 1) + NumberedIn(files[f - 1].matches, |files[f - 1].matches|)
  }

  lemma {:induction false} HitOfFile(path: Path, matches: seq<Match>, n: nat, i: nat)
    requires i < n <= |matches| && matches[i].Numbered?
    ensures |HitsOf(path, matches, n)| == NumberedIn(matches, n) > NumberedIn(matches, i)
    ensures HitsOf(path, matches, n)[NumberedIn(matches, i)] == Hit(path, matches[i].line)
  {
    HitsAreCounted(path, matches, n);
    if i == n - 1 {
      HitsAreCounted(path, matches, i);
    } else {
      HitOfFile(path, matches, n - 1, i);
    }
  }

  lemma {:induction false} HitsAreCounted(path: Path, matches: seq<Match>, n: nat)
    requires n <= |matches|
    ensures |HitsOf(path, matches, n)| == NumberedIn(matches, n)
  {
    if n == 0 {
    } else {
      HitsAreCounted(path, matches, n - 1);
    }
  }

  /** There are as many hits as numbered matches. */
  lemma {:induction false} AllHitsAreCounted(files: seq<FileMatches>, n: nat)
    requires n <= |files|
    ensures |AllHits(files, n)| == NumberedBefore(files, n)
  {
    if n == 0 {
    } else {
      AllHitsAreCounted(files, n - 1);
      HitsAreCounted(files[n - 1].path, files[n - 1].matches, |files[n - 1].matches|);
    }
  }

  /** The numbered matches are the hits, file by file and in their order: each stands behind those before it. */
  lemma {:induction false} HitStandsInOrder(files: seq<FileMatches>, n: nat, f: nat, i: nat)
    requires f < n <= |files| && i < |files[f].matches| && files[f].matches[i].Numbered?
    ensures
      var place := NumberedBefore(files, f) + NumberedIn(files[f].matches, i);
      && |AllHits(files, n)| == NumberedBefore(files, n) > place
      && AllHits(files, n)[place] == Hit(files[f].path, files[f].matches[i].line)
  {
    AllHitsAreCounted(files, n);
    if f == n - 1 {
      AllHitsAreCounted(files, f);
      HitOfFile(files[f].path, files[f].matches, |files[f].matches|, i);
    } else {
      HitStandsInOrder(files, n - 1, f, i);
    }
  }

  // ----- The sink

  function Count(counts: map<Path, nat>, path: Path): nat {
    if path in counts then counts[path] else 0
  }

  class MatchSink {
    var items: seq<Item>
    var nextRank: nat
    var truncated: bool
    var perFileCounts: map<Path, nat>
    const limit: Option<nat>
    const maxCount: Option<nat>

    /** The sink holds exactly the kept hits, ranked, and has not yet passed the limit. */
    ghost predicate Holds(kept: seq<Hit>)
      reads this
    {
      && items == Ranked(kept) && nextRank == |items| + 1
      && (forall path :: Count(perFileCounts, path) == CountOf(kept, path))
      && (truncated <==> limit.Some? && |items| > limit.value)
    }

    constructor (limit: Option<nat>, maxCount: Option<nat>)
      ensures Holds([]) && this.limit == limit && this.maxCount == maxCount && !truncated
    {
      items, nextRank, truncated, perFileCounts := [], 1, false, map[];
      this.limit, this.maxCount := limit, maxCount;
    }

    predicate StopRequested()
      reads this
    {
      limit.Some? && |items| > limit.value
    }

    /** One match of the file `path`; `goOn` is false when the file is not to be searched any further. */
    method Matched(path: Path, m: Match, ghost kept: seq<Hit>) returns (goOn: bool)
      requires Holds(kept)
      modifies this
      ensures old(truncated) ==> !goOn && Holds(kept)
      ensures !old(truncated) && m.Unnumbered? ==> goOn && Holds(kept)
      ensures !old(truncated) && m.Numbered? && Full(kept, path, maxCount) ==> !goOn && Holds(kept)
      ensures !old(truncated) && m.Numbered? && !Full(kept, path, maxCount) ==>
        Holds(kept + [Hit(path, m.line)]) && goOn == !truncated
    {
      if StopRequested() {
        truncated := true;
        return false;
      }
      if m.Unnumbered? {
        return true;
      }
      if maxCount.Some? && Count(perFileCounts, path) >= maxCount.value {
        return false;
      }
      var rank := nextRank;
      nextRank := nextRank + 1;
      perFileCounts := perFileCounts[path := Count(perFileCounts, path) + 1];
      items := items + [Item(path, m.line, rank)];
      forall p ensures Count(perFileCounts, p) == CountOf(kept + [Hit(path, m.line)], p) {
        CountOneMore(kept, Hit(path, m.line), p);
      }
      if StopRequested() {
        truncated := true;
        return false;
      }
      goOn := true;
    }

    /** The hits of a file from match `n` on. */
    static lemma {:induction false} HitsFrom(path: Path, matches: seq<Match>, n: nat, before: seq<Hit>)
      returns (rest: seq<Hit>)
      requires n <= |matches|
      ensures before + HitsOf(path, matches, |matches|) == before + HitsOf(path, matches, n) + rest
      ensures forall h :: h in rest ==> h.path == path
      decreases |matches| - n
    {
      if n == |matches| {
        rest := [];
      } else {
        var tail := HitsFrom(path, matches, n + 1, before);
        if matches[n].Numbered? {
          rest := [Hit(path, matches[n].line)] + tail;
        } else {
          rest := tail;
        }
      }
    }

    static lemma HitsSplit(path: Path, matches: seq<Match>, n: nat, before: seq<Hit>)
      requires n < |matches|
      ensures before + HitsOf(path, matches, n + 1) ==
        if matches[n].Numbered? then before + HitsOf(path, matches, n) + [Hit(path, matches[n].line)]
        else before + HitsOf(path, matches, n)
    {
    }

    /** What one more match adds to what is kept. */
    static lemma KeptNext(path: Path, matches: seq<Match>, n: nat, before: seq<Hit>, maxCount: Option<nat>)
      requires n < |matches|
      ensures var kept := Kept(before + HitsOf(path, matches, n), maxCount);
        Kept(before + HitsOf(path, matches, n + 1), maxCount) ==
          if matches[n].Numbered? && !Full(kept, path, maxCount) then kept + [Hit(path, matches[n].line)] else kept
    {
      HitsSplit(path, matches, n, before);
      if matches[n].Numbered? {
        KeptOneMore(before + HitsOf(path, matches, n), Hit(path, matches[n].line), maxCount);
      }
    }

    static lemma KeptIsBeginning(path: Path, matches: seq<Match>, n: nat, before: seq<Hit>, maxCount: Option<nat>)
      requires n <= |matches|
      ensures Kept(before + HitsOf(path, matches, n), maxCount) <=
        Kept(before + HitsOf(path, matches, |matches|), maxCount)
    {
      var tail := HitsFrom(path, matches, n, before);
      KeptGrows(before + HitsOf(path, matches, n), tail, maxCount);
    }

    static lemma FullStopsHere(path: Path, matches: seq<Match>, n: nat, before: seq<Hit>, maxCount: Option<nat>)
      requires n <= |matches| && Full(Kept(before + HitsOf(path, matches, n), maxCount), path, maxCount)
      ensures Kept(before + HitsOf(path, matches, |matches|), maxCount) ==
        Kept(before + HitsOf(path, matches, n), maxCount)
    {
      var rest := HitsFrom(path, matches, n, before);
      FullFileAddsNothing(before + HitsOf(path, matches, n), rest, path, maxCount);
    }

    /** One match of a file; when the file is given up, what is held is what its end will find. */
    method SearchMatch(path: Path, matches: seq<Match>, n: nat, ghost before: seq<Hit>) returns (goOn: bool)
      requires n < |matches| && !truncated && Holds(Kept(before + HitsOf(path, matches, n), maxCount))
      modifies this
      ensures goOn ==> !truncated && Holds(Kept(before + HitsOf(path, matches, n + 1), maxCount))
      ensures !goOn ==>
        var all := before + HitsOf(path, matches, |matches|);
        if truncated then exists kept :: kept <= Kept(all, maxCount) && Holds(kept)
        else Holds(Kept(all, maxCount))
    {
      goOn := Matched(path, matches[n], Kept(before + HitsOf(path, matches, n), maxCount));
      KeptNext(path, matches, n, before, maxCount);
      if !goOn {
        if truncated {
          KeptIsBeginning(path, matches, n + 1, before, maxCount);
        } else {
          FullStopsHere(path, matches, n, before, maxCount);
        }
      }
    }

    /** Searches one file. Afterwards the sink holds what is kept of all hits so far, or it has stopped early on a
        beginning of it. */
    method SearchFile(file: FileMatches, ghost before: seq<Hit>)
      requires Holds(Kept(before, maxCount)) && !truncated
      modifies this
      ensures var all := before + HitsOf(file.path, file.matches, |file.matches|);
        if truncated then exists kept :: kept <= Kept(all, maxCount) && Holds(kept)
        else Holds(Kept(all, maxCount))
    {
      var path, matches := file.path, file.matches;
      assert before + HitsOf(path, matches, 0) == before;
      for n := 0 to |matches|
        invariant !truncated && Holds(Kept(before + HitsOf(path, matches, n), maxCount))
      {
        var goOn := SearchMatch(path, matches, n, before);
        if !goOn {
          return;
        }
      }
    }
  }

  // ----- The search

  function TruncatedTo(items: seq<Item>, limit: Option<nat>): seq<Item> {
    if limit.Some? && |items| > limit.value then items[..limit.value] else items
  }

  /** The search with a limit returns the first items of the unlimited search, and says it was truncated exactly when
      the unlimited search has more. */
  method CollectMatches(files: seq<FileMatches>, limit: Option<nat>, maxCount: Option<nat>)
    returns (items: seq<Item>, truncated: bool)
    ensures items == TruncatedTo(Unlimited(files, maxCount), limit)
    ensures truncated <==> limit.Some? && |Unlimited(files, maxCount)| > limit.value
  {
    var sink := new MatchSink(limit, maxCount);
    ghost var all := Kept(AllHits(files, |files|), maxCount);
    ghost var kept: seq<Hit> := [];
    var n := 0;
    while n < |files| && !sink.truncated
      invariant n <= |files| && fresh(sink) && sink.limit == limit && sink.maxCount == maxCount
      invariant sink.Holds(kept) && kept <= all
      invariant !sink.truncated ==> kept == Kept(AllHits(files, n), maxCount)
      decreases |files| - n
    {
      ghost var before := AllHits(files, n);
      sink.SearchFile(files[n], before);
      n := n + 1;
      ghost var rest := HitsAfter(files, n);
      KeptGrows(AllHits(files, n), rest, maxCount);
      if sink.truncated {
        kept :| kept <= Kept(AllHits(files, n), maxCount) && sink.Holds(kept);
      } else {
        kept := Kept(AllHits(files, n), maxCount);
      }
    }
    items := TruncatedTo(sink.items, limit);
    truncated := sink.truncated;
    PrefixTruncates(kept, all, limit);
  }

  lemma {:induction false} HitsAfter(files: seq<FileMatches>, n: nat) returns (rest: seq<Hit>)
    requires n <= |files|
    ensures AllHits(files, |files|) == AllHits(files, n) + rest
    decreases |files| - n
  {
    if n == |files| {
      rest := [];
    } else {
      var tail := HitsAfter(files, n + 1);
      rest := HitsOf(files[n].path, files[n].matches, |files[n].matches|) + tail;
    }
  }

  /** A prefix past the limit truncates to what the whole truncates to. */
  lemma PrefixTruncates(kept: seq<Hit>, all: seq<Hit>, limit: Option<nat>)
    requires kept <= all && (kept == all || (limit.Some? && |kept| > limit.value))
    ensures TruncatedTo(Ranked(kept), limit) == TruncatedTo(Ranked(all), limit)
  {
  }

  /** Raising the limit only adds items at the end, and ranks count from one without gaps. */
  lemma LimitedIsPrefix(files: seq<FileMatches>, maxCount: Option<nat>, small: nat, large: Option<nat>)
    requires large.Some? ==> small <= large.value
    ensures var few := TruncatedTo(Unlimited(files, maxCount), Some(small));
      var many := TruncatedTo(Unlimited(files, maxCount), large);
      && few <= many && |few| <= small
      && forall i :: 0 <= i < |many| ==> many[i].rank == i + 1
  {
  }
}
