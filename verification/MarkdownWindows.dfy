/** Windows of one markdown section: greedy, moved back to a good break, overlapping. */
module MarkdownWindows {
  import opened Texts
  import opened Chunks
  import opened MarkdownHeadings
  import opened VectorContent

  // ----- What a break is worth

  predicate SpaceAt(s: string, k: nat) {
    k < |s| && IsWhitespace(s[k])
  }

  predicate IsHeadingLine(trimmed: string) {
    1 <= HashesTo(trimmed, 0) <= 6 && SpaceAt(trimmed, HashesTo(trimmed, 0))
  }

  function DigitsTo(s: string, k: nat): (r: nat)
    requires k <= |s|
    ensures k <= r <= |s|
    decreases |s| - k
  {
    if k < |s| && '0' <= s[k] <= '9' then DigitsTo(s, k + 1) else k
  }

  predicate IsListItem(trimmed: string) {
    if trimmed == "" then false
    else if trimmed[0] == '-' || trimmed[0] == '*' || trimmed[0] == '+' then SpaceAt(trimmed, 1)
    else
      var digits := DigitsTo(trimmed, 0);
      digits > 0 && digits < |trimmed| && trimmed[digits] == '.' && SpaceAt(trimmed, digits + 1)
  }

  predicate IsBlockquote(trimmed: string) {
    trimmed != "" && trimmed[0] == '>' && SpaceAt(trimmed, 1)
  }

  /** What a break before this line, after that one, is worth outside a fence. */
  function OpenBreakScore(current: string, previous: string): nat {
    if IsHeadingLine(current) then 100
    else if previous == "" && current == "" then 70
    else if previous == "" then 60
    else if IsListItem(current) then 35
    else if IsBlockquote(current) then 25
    else 10
  }

  function MarkdownBreakScore(lines: seq<string>, i: nat): (score: nat)
    ensures score > 0 <==> 0 < i < |lines| && !Fenced(lines, i)
  {
    if i == 0 || i >= |lines| || Fenced(lines, i) then 0
    else OpenBreakScore(Trim(lines[i]), Trim(lines[i - 1]))
  }

  /** `scores` lists what a break at each line, and at the end of the text, is worth. */
  ghost predicate AreScores(lines: seq<string>, scores: seq<nat>) {
    && |scores| == |lines| + 1
    && forall k: nat {:trigger MarkdownBreakScore(lines, k)} ::
      k <= |lines| ==> scores[k] == MarkdownBreakScore(lines, k)
  }

  function Scores(lines: seq<string>): (scores: seq<nat>)
    ensures AreScores(lines, scores)
  {
    seq(|lines| + 1, (k: nat) => MarkdownBreakScore(lines, k))
  }

  /** The best break among `low` to `index - 1`, starting from `end`: a later one must score strictly higher. */
  function BestBreakUpTo(scores: seq<nat>, low: nat, index: nat, end: nat): (best: nat)
    requires low <= index <= end + 1 <= |scores|
    ensures low <= best <= end || best == end
  {
    if index == low then end
    else
      var best := BestBreakUpTo(scores, low, index - 1, end);
      if scores[index - 1] > scores[best] then index - 1 else best
  }

  /** The first break that is considered: the last 30% of the window, and never its first line. */
  function FirstBreak(start: nat, end: nat): nat
    requires start <= end
  {
    start + Max((end - start) * 7 / 10, 1)
  }

  function ChooseBreak(scores: seq<nat>, start: nat, end: nat): (r: nat)
    requires start + 1 < end < |scores|
    ensures start < r <= end
  {
    BestBreakUpTo(scores, FirstBreak(start, end), end + 1, end)
  }

  /** Break `r` scores highest; the greedy end wins ties, then the earliest. */
  ghost predicate IsChosen(scores: seq<nat>, low: nat, index: nat, end: nat, r: nat)
    requires low <= index <= end + 1 <= |scores|
  {
    && (low <= r < index || r == end)
    && (forall k :: low <= k < index ==> scores[k] <= scores[r])
    && scores[end] <= scores[r]
    && (r != end ==> scores[end] < scores[r] && forall k :: low <= k < r ==> scores[k] < scores[r])
  }

  lemma {:induction false} BestBreakIsChosen(scores: seq<nat>, low: nat, index: nat, end: nat)
    requires low <= index <= end + 1 <= |scores|
    ensures IsChosen(scores, low, index, end, BestBreakUpTo(scores, low, index, end))
  {
    if low == index {
    } else {
      BestBreakIsChosen(scores, low, index - 1, end);
    }
  }

  /** The chosen break is the only one that scores highest, with ties going to the greedy end, then to the
      earliest. */
  lemma ChosenBreakIsBest(scores: seq<nat>, start: nat, end: nat, r: nat)
    requires start + 1 < end < |scores|
    ensures r == ChooseBreak(scores, start, end) <==> IsChosen(scores, FirstBreak(start, end), end + 1, end, r)
  {
    BestBreakIsChosen(scores, FirstBreak(start, end), end + 1, end);
  }

  lemma ScoreIsZeroExactly(lines: seq<string>, scores: seq<nat>, k: nat)
    requires AreScores(lines, scores) && 0 < k < |lines|
    ensures scores[k] == 0 <==> Fenced(lines, k)
  {
    assert scores[k] == MarkdownBreakScore(lines, k);
  }

  /** The chosen break scores nothing exactly when no candidate scores anything. */
  lemma BestIsZeroExactly(scores: seq<nat>, low: nat, end: nat, r: nat)
    requires low <= end < |scores| && IsChosen(scores, low, end + 1, end, r)
    ensures scores[r] == 0 <==> forall k: nat :: low <= k <= end ==> scores[k] == 0
  {
  }

  lemma ChosenIsFencedExactly(lines: seq<string>, scores: seq<nat>, low: nat, end: nat, r: nat)
    requires AreScores(lines, scores) && 0 < low <= end < |lines| && IsChosen(scores, low, end + 1, end, r)
    ensures Fenced(lines, r) <==> forall k: nat :: low <= k <= end ==> Fenced(lines, k)
  {
    BestIsZeroExactly(scores, low, end, r);
    ScoreIsZeroExactly(lines, scores, r);
    forall k: nat | low <= k <= end ensures scores[k] == 0 <==> Fenced(lines, k) {
      ScoreIsZeroExactly(lines, scores, k);
    }
  }

  lemma ChosenStands(scores: seq<nat>, start: nat, end: nat, low: nat, r: nat)
    requires start + 1 < end < |scores| && low == FirstBreak(start, end) && r == ChooseBreak(scores, start, end)
    ensures 0 < low <= end && IsChosen(scores, low, end + 1, end, r)
  {
    BestBreakIsChosen(scores, low, end + 1, end);
  }

  /** A window is cut inside a fence exactly when every line it may be cut at is in one. */
  lemma FencesAreCutOnlyIfUnavoidable(lines: seq<string>, start: nat, end: nat)
    requires start + 1 < end < |lines|
    ensures Fenced(lines, ChooseBreak(Scores(lines), start, end)) <==>
      forall k: nat :: FirstBreak(start, end) <= k <= end ==> Fenced(lines, k)
  {
    var scores, low := Scores(lines), FirstBreak(start, end);
    ChosenStands(scores, start, end, low, ChooseBreak(scores, start, end));
    ChosenIsFencedExactly(lines, scores, low, end, ChooseBreak(scores, start, end));
  }

  // ----- Overlap

  /** How many trailing lines, at least `count`, are repeated before the overlap is exceeded. */
  function OverlapCount(lines: seq<string>, start: nat, end: nat, overlap: nat, count: nat): (n: nat)
    requires start < end <= |lines| && count < end - start
    ensures count <= n < end - start
    decreases end - count
  {
    if end - 1 - count <= start || Used(lines, end - 1 - count, end) > overlap then count
    else OverlapCount(lines, start, end, overlap, count + 1)
  }

  function OverlapLines(lines: seq<string>, start: nat, end: nat, overlap: nat): (n: nat)
    requires start < end <= |lines|
    ensures 2 * n <= end - start
  {
    if overlap == 0 then 0 else Min(OverlapCount(lines, start, end, overlap, 0), (end - start) / 2)
  }

  lemma {:induction false} OverlapCountIsMost(lines: seq<string>, start: nat, end: nat, overlap: nat, count: nat)
    requires start < end <= |lines| && count < end - start && Used(lines, end - count, end) <= overlap
    ensures var n := OverlapCount(lines, start, end, overlap, count);
      && Used(lines, end - n, end) <= overlap
      && (n == end - start - 1 || Used(lines, end - n - 1, end) > overlap)
    decreases end - count
  {
    if end - 1 - count <= start || Used(lines, end - 1 - count, end) > overlap {
    } else {
      OverlapCountIsMost(lines, start, end, overlap, count + 1);
    }
  }

  /** The next window repeats as many whole trailing lines as fit the overlap, but at most half the window. */
  lemma OverlapIsMost(lines: seq<string>, start: nat, end: nat, overlap: nat)
    requires start < end <= |lines|
    ensures var n := OverlapLines(lines, start, end, overlap);
      && Used(lines, end - n, end) <= overlap
      && (n == (end - start) / 2 || Used(lines, end - n - 1, end) > overlap)
  {
    if overlap > 0 {
      OverlapCountIsMost(lines, start, end, overlap, 0);
      var n, most := OverlapLines(lines, start, end, overlap), OverlapCount(lines, start, end, overlap, 0);
      UsedIsSpan(lines, end - most, end);
      UsedIsSpan(lines, end - n, end);
      if n < most {
        StartsGrow(lines, end - most, end - n);
      }
    }
  }

  /** Where the next window starts; the fallback to `end` is never taken. */
  function NextWindowStart(lines: seq<string>, start: nat, end: nat, overlap: nat): (next: nat)
    requires start < end <= |lines|
    ensures start < next <= end && next == end - OverlapLines(lines, start, end, overlap)
  {
    var next := end - OverlapLines(lines, start, end, overlap);
    if next > start then next else end
  }

  // ----- Windows of a section

  /** Where the window that starts at `start` ends. */
  function SectionWindowEnd(lines: seq<string>, start: nat, stop: nat, maxChars: nat): (end: nat)
    requires start < stop <= |lines|
    ensures start < end <= stop
  {
    WindowEndIsGreedy(lines, start, start, stop, maxChars);
    var end := WindowEnd(lines, start, start, stop, maxChars);
    if end < stop && end - start > 1 then ChooseBreak(Scores(lines), start, end) else end
  }

  /** All windows from line `start` to line `stop - 1`, blank ones included. */
  function SectionWindows(lines: seq<string>, start: nat, stop: nat, maxChars: nat, overlap: nat): (ws: seq<Chunk>)
    requires start <= stop <= |lines| && maxChars > 0
    ensures |ws| > 0 <==> start < stop
    decreases stop - start
  {
    if start == stop then []
    else if |lines[start]| + 1 > maxChars then
      LinePieces(lines, start, 0, maxChars) + SectionWindows(lines, start + 1, stop, maxChars, overlap)
    else
      var end := SectionWindowEnd(lines, start, stop, maxChars);
      [LineWindow(lines, start, end)] +
      if end == stop then []
      else SectionWindows(lines, NextWindowStart(lines, start, end, overlap), stop, maxChars, overlap)
  }

  lemma WindowFits(lines: seq<string>, start: nat, stop: nat, maxChars: nat)
    requires start < stop <= |lines| && |lines[start]| + 1 <= maxChars
    ensures var end := SectionWindowEnd(lines, start, stop, maxChars);
      CharStart(lines, end) - CharStart(lines, start) <= maxChars
  {
    WindowEndIsGreedy(lines, start, start, stop, maxChars);
    var greedy, end := WindowEnd(lines, start, start, stop, maxChars), SectionWindowEnd(lines, start, stop, maxChars);
    UsedIsSpan(lines, start, greedy);
    if end < greedy {
      StartsGrow(lines, end, greedy);
    }
  }

  /** The windows of a section are exact, fit, advance and leave nothing out. */
  lemma {:induction false} SectionWindowsAreGood(
      lines: seq<string>, start: nat, stop: nat, maxChars: nat, overlap: nat)
    requires start <= stop <= |lines| && maxChars > 0 && Unbroken(lines)
    ensures GoodWindows(lines, SectionWindows(lines, start, stop, maxChars, overlap), start, stop, maxChars)
    decreases stop - start
  {
    if start == stop {
    } else if |lines[start]| + 1 > maxChars {
      SectionWindowsAreGood(lines, start + 1, stop, maxChars, overlap);
      SlicesThenWindows(lines, SectionWindows(lines, start + 1, stop, maxChars, overlap), start, stop, maxChars);
    } else {
      var end := SectionWindowEnd(lines, start, stop, maxChars);
      WindowFits(lines, start, stop, maxChars);
      if end == stop {
        WindowThenWindows(lines, [], start, end, end, stop, maxChars);
      } else {
        var next := NextWindowStart(lines, start, end, overlap);
        SectionWindowsAreGood(lines, next, stop, maxChars, overlap);
        var rest := SectionWindows(lines, next, stop, maxChars, overlap);
        WindowThenWindows(lines, rest, start, end, next, stop, maxChars);
      }
    }
  }
}
