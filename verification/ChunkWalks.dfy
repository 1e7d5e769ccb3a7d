/** The chunks of a text and of a markdown section one after another: where each begins, why it ends where it ends, and
    where the next one begins. */
module ChunkWalks {
  import opened Options
  import opened Texts
  import opened Chunks
  import opened TextChunks
  import opened MarkdownHeadings
  import opened MarkdownWindows
  import opened ChunkBreaks
  import opened VectorContent

  // ----- Places

  function Head(ws: seq<Chunk>): Option<Chunk> {
    if |ws| == 0 then None else Some(ws[0])
  }

  function Next(ws: seq<Chunk>, k: nat): Option<Chunk> {
    if k + 1 < |ws| then Some(ws[k + 1]) else None
  }

  /** The chunk begins at character `from` of line `i`. */
  predicate BeginsAt(lines: seq<string>, c: Chunk, i: nat, from: nat) {
    && i < |lines| && from <= |lines[i]|
    && c.startLine == i + 1 && c.startOffset == ByteStart(lines, i) + BytesTo(lines[i], from)
  }

  /** What follows begins with line `i`; nothing follows when that is the end. */
  predicate GoesOn(lines: seq<string>, next: Option<Chunk>, i: nat, stop: nat) {
    if i == stop then next == None else next.Some? && BeginsAt(lines, next.value, i, 0)
  }

  // ----- Slices

  /** The chunk is the slice `from` to `to` of an over-long line, and the next one begins right behind it: at the next
      line when the line is used up. */
  ghost predicate IsSlice(
      lines: seq<string>, c: Chunk, next: Option<Chunk>, stop: nat, maxChars: nat, i: nat, from: nat, to: nat)
  {
    && i < stop <= |lines| && |lines[i]| + 1 > maxChars && from < to <= |lines[i]|
    && c == LinePiece(lines, i, from, to) && SliceEndsAt(lines[i], from, maxChars, to)
    && if to == |lines[i]| then GoesOn(lines, next, i + 1, stop)
       else next.Some? && BeginsAt(lines, next.value, i, to)
  }

  ghost predicate Sliced(lines: seq<string>, c: Chunk, next: Option<Chunk>, stop: nat, maxChars: nat) {
    exists i: nat, from: nat, to: nat :: IsSlice(lines, c, next, stop, maxChars, i, from, to)
  }

  lemma PiecesBegin(lines: seq<string>, i: nat, from: nat, maxChars: nat, ps: seq<Chunk>)
    requires i < |lines| && from < |lines[i]| && maxChars > 0 && ps == LinePieces(lines, i, from, maxChars)
    ensures ps != [] && BeginsAt(lines, ps[0], i, from)
  {
  }

  /** The slices of a line, with what comes behind them. */
  lemma {:induction false} PiecesFollow(
      lines: seq<string>, i: nat, from: nat, stop: nat, maxChars: nat, ps: seq<Chunk>, rest: seq<Chunk>, k: nat)
    requires i < stop <= |lines| && |lines[i]| + 1 > maxChars > 0 && from <= |lines[i]|
    requires ps == LinePieces(lines, i, from, maxChars) && k < |ps|
    requires GoesOn(lines, Head(rest), i + 1, stop)
    ensures Sliced(lines, ps[k], Next(ps + rest, k), stop, maxChars)
    decreases |lines[i]| - from
  {
    if from == |lines[i]| {
      assert false;
    } else {
      var to := SliceEnd(lines[i], from, maxChars);
      var more := LinePieces(lines, i, to, maxChars);
      SliceEndsExactly(lines[i], from, maxChars, to);
      if k == 0 {
        if to < |lines[i]| {
          PiecesBegin(lines, i, to, maxChars, more);
        }
        FirstOf(LinePiece(lines, i, from, to), more, rest, ps);
        assert IsSlice(lines, ps[0], Next(ps + rest, 0), stop, maxChars, i, from, to);
      } else {
        PiecesFollow(lines, i, to, stop, maxChars, more, rest, k - 1);
        BehindFirst(LinePiece(lines, i, from, to), more, rest, ps, k);
      }
    }
  }

  lemma SlicesFollow(
      lines: seq<string>, i: nat, stop: nat, maxChars: nat, ps: seq<Chunk>, rest: seq<Chunk>, ws: seq<Chunk>, k: nat)
    requires i < stop <= |lines| && |lines[i]| + 1 > maxChars > 0
    requires ps == LinePieces(lines, i, 0, maxChars) && k < |ps| && ws == ps + rest
    requires GoesOn(lines, Head(rest), i + 1, stop)
    ensures Sliced(lines, ws[k], Next(ws, k), stop, maxChars)
  {
    PiecesFollow(lines, i, 0, stop, maxChars, ps, rest, k);
    assert ws[k] == ps[k];
  }

  lemma FirstOf(c: Chunk, more: seq<Chunk>, rest: seq<Chunk>, ps: seq<Chunk>)
    requires ps == [c] + more
    ensures ps[0] == c
    ensures Next(ps + rest, 0) == if more != [] then Some(more[0]) else if rest != [] then Some(rest[0]) else None
  {
  }

  lemma BehindFirst(c: Chunk, more: seq<Chunk>, rest: seq<Chunk>, ps: seq<Chunk>, k: nat)
    requires ps == [c] + more && 0 < k < |ps|
    ensures ps[k] == more[k - 1] && Next(ps + rest, k) == Next(more + rest, k - 1)
  {
  }

  lemma BehindAll(ps: seq<Chunk>, rest: seq<Chunk>, k: nat)
    requires 0 < |ps| <= k < |ps + rest|
    ensures (ps + rest)[k] == rest[k - |ps|] && Next(ps + rest, k) == Next(rest, k - |ps|)
  {
  }

  // ----- Windows

  /** Lines `i` to `end - 1` fit, and one more does not. */
  predicate Greedy(lines: seq<string>, i: nat, end: nat, stop: nat, maxChars: nat) {
    && i < end <= stop <= |lines| && Used(lines, i, end) <= maxChars
    && (end == stop || Used(lines, i, end + 1) > maxChars)
  }

  lemma WindowIsGreedy(lines: seq<string>, i: nat, stop: nat, maxChars: nat)
    requires i < stop <= |lines| && |lines[i]| + 1 <= maxChars
    ensures Greedy(lines, i, WindowEnd(lines, i, i, stop, maxChars), stop, maxChars)
  {
    WindowEndIsGreedy(lines, i, i, stop, maxChars);
    assert Used(lines, i, i + 1) == Used(lines, i, i) + |lines[i]| + 1;
  }

  /** The next window repeats the fewest trailing lines that carry the overlap, and none when all but the first do not
      carry it. */
  predicate Repeats(lines: seq<string>, i: nat, end: nat, next: nat, overlap: nat) {
    && i < next <= end <= |lines|
    && (next < end ==> Used(lines, next, end) >= overlap > Used(lines, next + 1, end))
    && (next == end ==> overlap == 0 || i + 1 == end || Used(lines, i + 1, end) < overlap)
  }

  /** A cut at line `i` is better than one at line `j`. */
  ghost predicate CutsBetter(lines: seq<string>, i: nat, j: nat) {
    && 0 < i < |lines| && 0 < j < |lines| && !Fenced(lines, i)
    && (Fenced(lines, j) || Place(BreakAt(lines, i)) < Place(BreakAt(lines, j)))
  }

  /** The greedy window of lines `i` to `greedy - 1` is cut at `end`: at its end when the section ends there or it has
      one line; otherwise at the best place in its last 30%, but not at its first line. Its own end wins ties, then the
      earliest place. */
  ghost predicate CutAt(lines: seq<string>, i: nat, greedy: nat, stop: nat, end: nat)
    requires i < greedy <= stop <= |lines|
  {
    if greedy == stop || greedy == i + 1 then end == greedy
    else
      var low := if (greedy - i) * 7 / 10 < 1 then i + 1 else i + (greedy - i) * 7 / 10;
      && low <= end <= greedy
      && (forall k :: low <= k <= greedy ==> !CutsBetter(lines, k, end))
      && (end != greedy ==> CutsBetter(lines, end, greedy) && forall k :: low <= k < end ==> CutsBetter(lines, end, k))
  }

  lemma BetterExactly(lines: seq<string>, scores: seq<nat>, i: nat, j: nat)
    requires AreScores(lines, scores) && 0 < i < |lines| && 0 < j < |lines|
    ensures CutsBetter(lines, i, j) <==> scores[i] > scores[j]
  {
    LineBreakOrderExactly(lines, i, j);
    assert scores[i] == MarkdownBreakScore(lines, i) && scores[j] == MarkdownBreakScore(lines, j);
  }

  lemma ChosenCuts(lines: seq<string>, scores: seq<nat>, i: nat, greedy: nat, stop: nat, end: nat)
    requires AreScores(lines, scores) && i + 1 < greedy < stop <= |lines| && end == ChooseBreak(scores, i, greedy)
    ensures CutAt(lines, i, greedy, stop, end)
  {
    var low := FirstBreak(i, greedy);
    ChosenStands(scores, i, greedy, low, end);
    forall k, j | low <= k <= greedy && low <= j <= greedy ensures CutsBetter(lines, k, j) <==> scores[k] > scores[j] {
      BetterExactly(lines, scores, k, j);
    }
  }

  /** The next window of a section repeats as many trailing lines as fit the overlap, but at most half the window. */
  predicate RepeatsMost(lines: seq<string>, i: nat, end: nat, next: nat, overlap: nat) {
    && i < next <= end <= |lines| && 2 * (end - next) <= end - i && Used(lines, next, end) <= overlap
    && (end - next == (end - i) / 2 || Used(lines, next - 1, end) > overlap)
  }

  datatype Kind = Plain | Markdown

  /** A window from line `i`: as many lines as fit, in a section cut back to the best break, and the line where the next
      one begins. */
  ghost predicate WindowStep(lines: seq<string>, kind: Kind, i: nat, greedy: nat, end: nat, next: nat, stop: nat,
      maxChars: nat, overlap: nat)
  {
    && Greedy(lines, i, greedy, stop, maxChars) && i < end <= stop
    && (if kind.Plain? then end == greedy else CutAt(lines, i, greedy, stop, end))
    && (if end == stop then next == end
        else if kind.Plain? then Repeats(lines, i, end, next, overlap)
        else RepeatsMost(lines, i, end, next, overlap))
  }

  /** The chunk is such a window, and the next one begins where it says. */
  ghost predicate IsWindow(lines: seq<string>, kind: Kind, c: Chunk, follower: Option<Chunk>, stop: nat, maxChars: nat,
      overlap: nat, i: nat, greedy: nat, end: nat, next: nat)
  {
    && WindowStep(lines, kind, i, greedy, end, next, stop, maxChars, overlap)
    && c == LineWindow(lines, i, end) && GoesOn(lines, follower, next, stop)
  }

  ghost predicate Windowed(lines: seq<string>, kind: Kind, c: Chunk, follower: Option<Chunk>, stop: nat, maxChars: nat,
      overlap: nat)
  {
    exists i: nat, greedy: nat, end: nat, next: nat ::
      IsWindow(lines, kind, c, follower, stop, maxChars, overlap, i, greedy, end, next)
  }

  /** Chunk `k` is a slice or a window, and the next one follows it as it should. */
  ghost predicate Follows(
      lines: seq<string>, kind: Kind, ws: seq<Chunk>, k: nat, stop: nat, maxChars: nat, overlap: nat)
    requires k < |ws|
  {
    || Sliced(lines, ws[k], Next(ws, k), stop, maxChars)
    || Windowed(lines, kind, ws[k], Next(ws, k), stop, maxChars, overlap)
  }

  lemma FollowsBehind(lines: seq<string>, kind: Kind, front: seq<Chunk>, rest: seq<Chunk>, ws: seq<Chunk>, k: nat,
      stop: nat, maxChars: nat, overlap: nat)
    requires ws == front + rest && 0 < |front| <= k < |ws|
    requires Follows(lines, kind, rest, k - |front|, stop, maxChars, overlap)
    ensures Follows(lines, kind, ws, k, stop, maxChars, overlap)
  {
    BehindAll(front, rest, k);
  }

  // ----- Walks

  /** `front` is the slices of line `start`, or a window from there, and the chunks behind it begin with line `next`. */
  ghost predicate Begins(lines: seq<string>, kind: Kind, start: nat, stop: nat, maxChars: nat, overlap: nat,
      front: seq<Chunk>, next: nat)
    requires start < stop <= |lines| && maxChars > 0
  {
    if |lines[start]| + 1 > maxChars then next == start + 1 && front == LinePieces(lines, start, 0, maxChars)
    else exists greedy: nat, end: nat ::
      && WindowStep(lines, kind, start, greedy, end, next, stop, maxChars, overlap)
      && front == [LineWindow(lines, start, end)]
  }

  ghost predicate Walk(
      lines: seq<string>, kind: Kind, start: nat, stop: nat, maxChars: nat, overlap: nat, ws: seq<Chunk>)
    requires start <= stop <= |lines| && maxChars > 0
    decreases stop - start
  {
    if start == stop then ws == []
    else exists front: seq<Chunk>, next: nat, rest: seq<Chunk> ::
      && start < next <= stop && Walk(lines, kind, next, stop, maxChars, overlap, rest)
      && Begins(lines, kind, start, stop, maxChars, overlap, front, next)
      && |front| > 0 && ws == front + rest
  }

  lemma FrontBegins(lines: seq<string>, kind: Kind, start: nat, stop: nat, maxChars: nat, overlap: nat,
      front: seq<Chunk>, next: nat)
    requires start < stop <= |lines| && maxChars > 0
    requires |front| > 0 && Begins(lines, kind, start, stop, maxChars, overlap, front, next)
    ensures BeginsAt(lines, front[0], start, 0)
  {
    if |lines[start]| + 1 > maxChars {
      PiecesBegin(lines, start, 0, maxChars, front);
    }
  }

  lemma HeadOfFront(front: seq<Chunk>, rest: seq<Chunk>, ws: seq<Chunk>)
    requires |front| > 0 && ws == front + rest
    ensures Head(ws) == Some(front[0])
  {
  }

  lemma WalkBegins(
      lines: seq<string>, kind: Kind, start: nat, stop: nat, maxChars: nat, overlap: nat, ws: seq<Chunk>)
    requires start <= stop <= |lines| && maxChars > 0 && Walk(lines, kind, start, stop, maxChars, overlap, ws)
    ensures GoesOn(lines, Head(ws), start, stop)
  {
    if start < stop {
      var front: seq<Chunk>, next: nat, rest: seq<Chunk> :|
        && start < next <= stop && Walk(lines, kind, next, stop, maxChars, overlap, rest)
        && Begins(lines, kind, start, stop, maxChars, overlap, front, next)
        && |front| > 0 && ws == front + rest;
      FrontBegins(lines, kind, start, stop, maxChars, overlap, front, next);
      HeadOfFront(front, rest, ws);
    }
  }

  lemma FirstIsWindow(lines: seq<string>, kind: Kind, start: nat, stop: nat, maxChars: nat, overlap: nat,
      ws: seq<Chunk>, next: nat, rest: seq<Chunk>, greedy: nat, end: nat)
    requires WindowStep(lines, kind, start, greedy, end, next, stop, maxChars, overlap)
    requires ws == [LineWindow(lines, start, end)] + rest && GoesOn(lines, Head(rest), next, stop)
    ensures Follows(lines, kind, ws, 0, stop, maxChars, overlap)
  {
    FirstBeforeRest(LineWindow(lines, start, end), rest, ws);
    assert IsWindow(lines, kind, ws[0], Next(ws, 0), stop, maxChars, overlap, start, greedy, end, next);
  }

  lemma FirstBeforeRest(c: Chunk, rest: seq<Chunk>, ws: seq<Chunk>)
    requires ws == [c] + rest
    ensures ws[0] == c && Next(ws, 0) == Head(rest)
  {
  }

  /** What a walk begins with follows as it should, with what comes behind it. */
  lemma FrontFollows(lines: seq<string>, kind: Kind, start: nat, stop: nat, maxChars: nat, overlap: nat,
      ws: seq<Chunk>, front: seq<Chunk>, next: nat, rest: seq<Chunk>, k: nat)
    requires start < stop <= |lines| && maxChars > 0 && k < |front|
    requires Begins(lines, kind, start, stop, maxChars, overlap, front, next) && ws == front + rest
    requires GoesOn(lines, Head(rest), next, stop)
    ensures Follows(lines, kind, ws, k, stop, maxChars, overlap)
  {
    if |lines[start]| + 1 > maxChars {
      SlicesFollow(lines, start, stop, maxChars, front, rest, ws, k);
    } else {
      var greedy: nat, end: nat :| WindowStep(lines, kind, start, greedy, end, next, stop, maxChars, overlap)
        && front == [LineWindow(lines, start, end)];
      FirstIsWindow(lines, kind, start, stop, maxChars, overlap, ws, next, rest, greedy, end);
    }
  }

  /** A walk that is not over begins with `n` chunks; if chunk `k` is one of them, or follows as it should in the walk
      behind them, it does so in the whole. */
  lemma WalkUnfolds(
      lines: seq<string>, kind: Kind, start: nat, stop: nat, maxChars: nat, overlap: nat, ws: seq<Chunk>, k: nat)
    returns (n: nat, next: nat, rest: seq<Chunk>)
    requires start < stop <= |lines| && maxChars > 0 && k < |ws|
    requires Walk(lines, kind, start, stop, maxChars, overlap, ws)
    ensures start < next <= stop && Walk(lines, kind, next, stop, maxChars, overlap, rest)
    ensures |ws| == n + |rest|
    ensures k < n || Follows(lines, kind, rest, k - n, stop, maxChars, overlap) ==>
      Follows(lines, kind, ws, k, stop, maxChars, overlap)
  {
    var front: seq<Chunk>;
    front, next, rest :|
      && start < next <= stop && Walk(lines, kind, next, stop, maxChars, overlap, rest)
      && Begins(lines, kind, start, stop, maxChars, overlap, front, next)
      && |front| > 0 && ws == front + rest;
    n := |front|;
    WalkBegins(lines, kind, next, stop, maxChars, overlap, rest);
    FollowsInWhole(lines, kind, start, stop, maxChars, overlap, ws, front, next, rest, k);
  }

  lemma FollowsInWhole(lines: seq<string>, kind: Kind, start: nat, stop: nat, maxChars: nat, overlap: nat,
      ws: seq<Chunk>, front: seq<Chunk>, next: nat, rest: seq<Chunk>, k: nat)
    requires start < stop <= |lines| && maxChars > 0 && k < |ws|
    requires Begins(lines, kind, start, stop, maxChars, overlap, front, next)
    requires |front| > 0 && ws == front + rest && GoesOn(lines, Head(rest), next, stop)
    ensures k < |front| || Follows(lines, kind, rest, k - |front|, stop, maxChars, overlap) ==>
      Follows(lines, kind, ws, k, stop, maxChars, overlap)
  {
    if k < |front| {
      FrontFollows(lines, kind, start, stop, maxChars, overlap, ws, front, next, rest, k);
    } else if Follows(lines, kind, rest, k - |front|, stop, maxChars, overlap) {
      FollowsBehind(lines, kind, front, rest, ws, k, stop, maxChars, overlap);
    }
  }

  lemma {:induction false} WalkFollows(
      lines: seq<string>, kind: Kind, start: nat, stop: nat, maxChars: nat, overlap: nat, ws: seq<Chunk>, k: nat)
    requires start <= stop <= |lines| && maxChars > 0 && Walk(lines, kind, start, stop, maxChars, overlap, ws)
    requires k < |ws|
    ensures Follows(lines, kind, ws, k, stop, maxChars, overlap)
    decreases stop - start
  {
    var n, next, rest := WalkUnfolds(lines, kind, start, stop, maxChars, overlap, ws, k);
    if k >= n {
      WalkFollows(lines, kind, next, stop, maxChars, overlap, rest, k - n);
    }
  }

  // ----- The chunkers walk

  lemma {:induction false} TextWalks(lines: seq<string>, start: nat, maxChars: nat, overlap: nat, ws: seq<Chunk>)
    requires start <= |lines| && maxChars > 0 && ws == TextWindows(lines, start, maxChars, overlap)
    ensures Walk(lines, Plain, start, |lines|, maxChars, overlap, ws)
    decreases |lines| - start
  {
    if start < |lines| {
      var front, next := LinePieces(lines, start, 0, maxChars), start + 1;
      if |lines[start]| + 1 <= maxChars {
        WindowEndIsGreedy(lines, start, start, |lines|, maxChars);
        var end := WindowEnd(lines, start, start, |lines|, maxChars);
        next := if end == |lines| then end else NextStart(lines, start, end, overlap);
        front := [LineWindow(lines, start, end)];
        TextStep(lines, start, maxChars, overlap, end, next);
      }
      var rest := TextWindows(lines, next, maxChars, overlap);
      TextWalks(lines, next, maxChars, overlap, rest);
      assert Begins(lines, Plain, start, |lines|, maxChars, overlap, front, next) && ws == front + rest;
    }
  }

  lemma TextStep(lines: seq<string>, start: nat, maxChars: nat, overlap: nat, end: nat, next: nat)
    requires start < end <= |lines| && |lines[start]| + 1 <= maxChars
    requires end == WindowEnd(lines, start, start, |lines|, maxChars)
    requires next == (if end == |lines| then end else NextStart(lines, start, end, overlap))
    ensures WindowStep(lines, Plain, start, end, end, next, |lines|, maxChars, overlap)
  {
    WindowIsGreedy(lines, start, |lines|, maxChars);
    NextStartIsTight(lines, start, end, overlap);
  }

  /** Before the blank ones are dropped, the chunks of a text begin with its first line, and each is a slice of an
      over-long line or a greedy window, with the next one behind it or overlapping it as little as it may. */
  lemma ChunksFollow(lines: seq<string>, maxChars: nat, overlap: nat, k: nat)
    requires maxChars > 0 && k < |TextWindows(lines, 0, maxChars, overlap)|
    ensures
      var ws := TextWindows(lines, 0, maxChars, overlap);
      && GoesOn(lines, Head(ws), 0, |lines|)
      && Follows(lines, Plain, ws, k, |lines|, maxChars, overlap)
  {
    var ws := TextWindows(lines, 0, maxChars, overlap);
    TextWalks(lines, 0, maxChars, overlap, ws);
    WalkBegins(lines, Plain, 0, |lines|, maxChars, overlap, ws);
    WalkFollows(lines, Plain, 0, |lines|, maxChars, overlap, ws, k);
  }

  lemma SectionCut(lines: seq<string>, start: nat, stop: nat, maxChars: nat, greedy: nat, end: nat)
    requires start < stop <= |lines| && |lines[start]| + 1 <= maxChars
    requires greedy == WindowEnd(lines, start, start, stop, maxChars)
    requires end == SectionWindowEnd(lines, start, stop, maxChars)
    ensures Greedy(lines, start, greedy, stop, maxChars) && CutAt(lines, start, greedy, stop, end)
  {
    WindowIsGreedy(lines, start, stop, maxChars);
    if start + 1 < greedy < stop {
      ChosenCuts(lines, Scores(lines), start, greedy, stop, end);
    }
  }

  lemma OverlapRepeatsMost(lines: seq<string>, start: nat, end: nat, overlap: nat, next: nat)
    requires start < end <= |lines| && next == NextWindowStart(lines, start, end, overlap)
    ensures RepeatsMost(lines, start, end, next, overlap)
  {
    OverlapIsMost(lines, start, end, overlap);
  }

  lemma SectionStep(
      lines: seq<string>, start: nat, stop: nat, maxChars: nat, overlap: nat, end: nat, next: nat)
    requires start < stop <= |lines| && |lines[start]| + 1 <= maxChars
    requires end == SectionWindowEnd(lines, start, stop, maxChars)
    requires next == (if end == stop then end else NextWindowStart(lines, start, end, overlap))
    ensures exists greedy: nat :: WindowStep(lines, Markdown, start, greedy, end, next, stop, maxChars, overlap)
  {
    WindowEndIsGreedy(lines, start, start, stop, maxChars);
    var greedy := WindowEnd(lines, start, start, stop, maxChars);
    SectionCut(lines, start, stop, maxChars, greedy, end);
    if end < stop {
      OverlapRepeatsMost(lines, start, end, overlap, next);
    }
    assert WindowStep(lines, Markdown, start, greedy, end, next, stop, maxChars, overlap);
  }

  /** What a section begins with, and the line where the rest begins. */
  lemma SectionBegins(lines: seq<string>, start: nat, stop: nat, maxChars: nat, overlap: nat, ws: seq<Chunk>)
    returns (front: seq<Chunk>, next: nat)
    requires start < stop <= |lines| && maxChars > 0 && ws == SectionWindows(lines, start, stop, maxChars, overlap)
    ensures start < next <= stop && |front| > 0
    ensures Begins(lines, Markdown, start, stop, maxChars, overlap, front, next)
    ensures ws == front + SectionWindows(lines, next, stop, maxChars, overlap)
  {
    if |lines[start]| + 1 > maxChars {
      front, next := LinePieces(lines, start, 0, maxChars), start + 1;
    } else {
      var end := SectionWindowEnd(lines, start, stop, maxChars);
      next := if end == stop then end else NextWindowStart(lines, start, end, overlap);
      front := [LineWindow(lines, start, end)];
      SectionStep(lines, start, stop, maxChars, overlap, end, next);
    }
  }

  lemma {:induction false} SectionWalks(
      lines: seq<string>, start: nat, stop: nat, maxChars: nat, overlap: nat, ws: seq<Chunk>)
    requires start <= stop <= |lines| && maxChars > 0 && ws == SectionWindows(lines, start, stop, maxChars, overlap)
    ensures Walk(lines, Markdown, start, stop, maxChars, overlap, ws)
    decreases stop - start
  {
    if start < stop {
      var front, next := SectionBegins(lines, start, stop, maxChars, overlap, ws);
      var rest := SectionWindows(lines, next, stop, maxChars, overlap);
      SectionWalks(lines, next, stop, maxChars, overlap, rest);
      WalkGoesOn(lines, Markdown, start, stop, maxChars, overlap, ws, front, next, rest);
    }
  }

  lemma WalkGoesOn(lines: seq<string>, kind: Kind, start: nat, stop: nat, maxChars: nat, overlap: nat, ws: seq<Chunk>,
      front: seq<Chunk>, next: nat, rest: seq<Chunk>)
    requires start < next <= stop <= |lines| && maxChars > 0
    requires Walk(lines, kind, next, stop, maxChars, overlap, rest)
    requires Begins(lines, kind, start, stop, maxChars, overlap, front, next)
    requires |front| > 0 && ws == front + rest
    ensures Walk(lines, kind, start, stop, maxChars, overlap, ws)
  {
  }

  /** Before the blank ones are dropped, the chunks of a section begin with its first line, and each is a slice of an
      over-long line or a window cut at the best place, with the next one behind it or overlapping it. */
  lemma SectionChunksFollow(lines: seq<string>, start: nat, stop: nat, maxChars: nat, overlap: nat, k: nat)
    requires start <= stop <= |lines| && maxChars > 0
    requires k < |SectionWindows(lines, start, stop, maxChars, overlap)|
    ensures
      var ws := SectionWindows(lines, start, stop, maxChars, overlap);
      && GoesOn(lines, Head(ws), start, stop)
      && Follows(lines, Markdown, ws, k, stop, maxChars, overlap)
  {
    var ws := SectionWindows(lines, start, stop, maxChars, overlap);
    SectionWalks(lines, start, stop, maxChars, overlap, ws);
    WalkBegins(lines, Markdown, start, stop, maxChars, overlap, ws);
    WalkFollows(lines, Markdown, start, stop, maxChars, overlap, ws, k);
  }
}
