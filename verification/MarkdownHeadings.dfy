/** Headings and fences of a markdown text, each line judged on its own, and the scans that find them in one pass. */
module MarkdownHeadings {
  import opened Options
  import opened Texts

  // ----- Fences

  /** The marker of the fence a line opens, if it opens one. */
  function FenceOpening(line: string): Option<string> {
    if StartsWith(TrimStart(line), "```") then Some("```")
    else if StartsWith(TrimStart(line), "~~~") then Some("~~~")
    else None
  }

  /** The marker of the fence that is open just before line `i`. */
  function FenceBefore(lines: seq<string>, i: nat): Option<string>
    requires i <= |lines|
  {
    if i == 0 then None
    else
      var open, line := FenceBefore(lines, i - 1), lines[i - 1];
      if open == None then FenceOpening(line)
      else if StartsWith(TrimStart(line), open.value) then None
      else open
  }

  /** Line `i` is inside a fence or closes one. */
  predicate Fenced(lines: seq<string>, i: nat)
    requires i <= |lines|
  {
    FenceBefore(lines, i).Some?
  }

  // ----- ATX headings

  /** Where the run of hashes that begins at `k` ends. */
  function HashesTo(line: string, k: nat): (r: nat)
    requires k <= |line|
    ensures k <= r <= |line| && (r < |line| ==> line[r] != '#')
    ensures forall j :: k <= j < r ==> line[j] == '#'
    decreases |line| - k
  {
    if k < |line| && line[k] == '#' then HashesTo(line, k + 1) else k
  }

  /** From `k` on: nothing but whitespace, then hashes, then whitespace. */
  predicate IsHashTail(line: string, k: nat)
    requires k <= |line|
  {
    InkFrom(line, HashesTo(line, InkFrom(line, k))) == |line|
  }

  /** The end of the shortest body from `k` on that a hash tail may follow. */
  function BodyEnd(line: string, k: nat): (end: nat)
    requires k <= |line|
    ensures k <= end <= |line|
    decreases |line| - k
  {
    if k == |line| || IsHashTail(line, k) then k else BodyEnd(line, k + 1)
  }

  /** Where the body of an ATX heading starts: past the whitespace that follows the hashes, or on its last
      character when there is nothing else. */
  function BodyStart(line: string, hashes: nat): (start: nat)
    requires hashes <= |line|
    ensures hashes <= start <= |line|
  {
    var ink := InkFrom(line, hashes);
    if ink == |line| && ink > hashes then ink - 1 else ink
  }

  datatype Atx = Atx(level: nat, text: string)

  function ParseAtx(line: string): (r: Option<Atx>)
    ensures r.Some? ==> 1 <= r.value.level <= 6
  {
    var hashes := HashesTo(line, 0);
    var start := BodyStart(line, hashes);
    if hashes == 0 || hashes > 6 || start == hashes || start == |line| then None
    else Some(Atx(hashes, AtxText(line, start)))
  }

  function AtxText(line: string, start: nat): string
    requires start < |line|
  {
    Trim(Sub(line, start, BodyEnd(line, start + 1)))
  }

  /** One to six hashes, at least one whitespace character, at least one more character. */
  ghost predicate AtxShape(line: string, level: nat, ws: nat) {
    && 1 <= level <= 6 && ws > 0 && level + ws < |line|
    && (forall k :: 0 <= k < level ==> line[k] == '#')
    && forall k :: level <= k < level + ws ==> IsWhitespace(line[k])
  }

  /** The parser accepts exactly the lines that begin `#{1,6}\s+.`; what follows never makes it refuse. */
  lemma AtxAcceptsExactly(line: string)
    ensures ParseAtx(line).Some? <==> exists level: nat, ws: nat :: AtxShape(line, level, ws)
  {
    var hashes := HashesTo(line, 0);
    if ParseAtx(line).Some? {
      assert AtxShape(line, hashes, BodyStart(line, hashes) - hashes);
    }
    if level: nat, ws: nat :| AtxShape(line, level, ws) {
      assert IsWhitespace(line[level]);
      assert hashes == level;
    }
  }

  lemma EndIsHashTail(line: string)
    ensures IsHashTail(line, |line|)
  {
  }

  lemma {:induction false} BodyEndsInTail(line: string, k: nat, end: nat)
    requires k <= |line| && end == BodyEnd(line, k)
    ensures IsHashTail(line, end)
    decreases |line| - k
  {
    if k == |line| {
      EndIsHashTail(line);
    } else if !IsHashTail(line, k) {
      BodyEndsInTail(line, k + 1, end);
    }
  }

  lemma {:induction false} NoTailSooner(line: string, k: nat, end: nat)
    requires k <= |line| && k <= end < BodyEnd(line, k)
    ensures !IsHashTail(line, end)
    decreases |line| - k
  {
    if k == end {
    } else {
      NoTailSooner(line, k + 1, end);
    }
  }

  /** The characters `start` to `end` are the shortest non-empty body that only whitespace and closing hashes
      follow. */
  ghost predicate ShortestBody(line: string, start: nat, end: nat) {
    && start < end <= |line| && IsHashTail(line, end)
    && forall e: nat {:trigger IsHashTail(line, e)} :: start < e < end ==> !IsHashTail(line, e)
  }

  /** What the parser trims to the heading's text. */
  lemma AtxTextIsShortestBody(line: string, start: nat)
    requires start < |line|
    ensures ShortestBody(line, start, BodyEnd(line, start + 1))
  {
    var end := BodyEnd(line, start + 1);
    BodyEndsInTail(line, start + 1, end);
    forall e: nat | start < e < end ensures !IsHashTail(line, e) {
      NoTailSooner(line, start + 1, e);
    }
  }

  // ----- Setext headings

  predicate IsSetextUnderline(trimmed: string) {
    && trimmed != ""
    && ((forall k :: 0 <= k < |trimmed| ==> trimmed[k] == '=') ||
      (forall k :: 0 <= k < |trimmed| ==> trimmed[k] == '-'))
  }

  lemma FirstCharOfTrim(line: string)
    requires Trim(line) != ""
    ensures TrimStart(line) != "" && TrimStart(line)[0] == Trim(line)[0]
    ensures line != "" && (IsWhitespace(line[0]) || line[0] == Trim(line)[0])
  {
    var start := InkFrom(line, 0);
    assert TrimStart(line)[0] == line[start];
    assert Trim(line)[0] == TrimStart(line)[0];
  }

  /** An underline neither opens a fence nor is an ATX heading, so skipping it changes no other judgement. */
  lemma UnderlinesAreHarmless(line: string)
    requires IsSetextUnderline(Trim(line))
    ensures FenceOpening(line) == None && ParseAtx(line) == None
  {
    FirstCharOfTrim(line);
    assert Trim(line)[0] == '=' || Trim(line)[0] == '-';
  }

  // ----- Which lines are headings

  datatype Heading = Heading(level: nat, text: string, lineIndex: nat)

  /** What line `i` is when it is neither fenced nor an underline. */
  function HeadingHere(lines: seq<string>, i: nat): (r: Option<Heading>)
    requires i < |lines|
    ensures r.Some? ==> r.value.lineIndex == i && 1 <= r.value.level <= 6
  {
    var line := lines[i];
    if FenceOpening(line).Some? then None
    else if ParseAtx(line).Some? then Some(Heading(ParseAtx(line).value.level, ParseAtx(line).value.text, i))
    else if !Blank(line) && i + 1 < |lines| && IsSetextUnderline(Trim(lines[i + 1])) then
      Some(Heading(if Trim(lines[i + 1])[0] == '=' then 1 else 2, Trim(line), i))
    else None
  }

  /** The heading on line `i`, decided without any scan: not fenced, not the underline of the line above. */
  function HeadingAt(lines: seq<string>, i: nat): (r: Option<Heading>)
    requires i < |lines|
    ensures r.Some? ==> r == HeadingHere(lines, i) && !Fenced(lines, i)
    decreases i, 1
  {
    if Fenced(lines, i) || IsUnderline(lines, i) then None else HeadingHere(lines, i)
  }

  /** Line `i` underlines a setext heading on the line above. */
  predicate IsUnderline(lines: seq<string>, i: nat)
    requires i <= |lines|
    decreases i, 0
  {
    i > 0 && HeadingAt(lines, i - 1).Some? && ParseAtx(lines[i - 1]) == None
  }

  function Listed(hs: seq<Heading>, h: Option<Heading>): seq<Heading> {
    if h.Some? then hs + [h.value] else hs
  }

  /** The headings on the first `n` lines. */
  function HeadingsUpTo(lines: seq<string>, n: nat): seq<Heading>
    requires n <= |lines|
  {
    if n == 0 then [] else Listed(HeadingsUpTo(lines, n - 1), HeadingAt(lines, n - 1))
  }

  predicate InLineOrder(hs: seq<Heading>, n: nat) {
    && (forall k :: 0 <= k < |hs| ==> hs[k].lineIndex < n)
    && forall j, k :: 0 <= j < k < |hs| ==> hs[j].lineIndex < hs[k].lineIndex
  }

  lemma OneMoreInOrder(hs: seq<Heading>, n: nat, h: Option<Heading>)
    requires InLineOrder(hs, n) && (h.Some? ==> h.value.lineIndex == n)
    ensures InLineOrder(Listed(hs, h), n + 1)
  {
  }

  lemma HeadingStandsThere(lines: seq<string>, i: nat)
    requires i < |lines|
    ensures HeadingAt(lines, i).Some? ==> HeadingAt(lines, i).value.lineIndex == i
  {
  }

  /** Heading lines increase strictly. */
  lemma {:induction false} HeadingsAreOrdered(lines: seq<string>, n: nat)
    requires n <= |lines|
    ensures InLineOrder(HeadingsUpTo(lines, n), n)
  {
    if n == 0 {
    } else {
      HeadingsAreOrdered(lines, n - 1);
      HeadingStandsThere(lines, n - 1);
      OneMoreInOrder(HeadingsUpTo(lines, n - 1), n - 1, HeadingAt(lines, n - 1));
    }
  }

  /** Every listed heading is one. */
  lemma {:induction false} ListedAreHeadings(lines: seq<string>, n: nat, k: nat)
    requires n <= |lines| && k < |HeadingsUpTo(lines, n)|
    ensures var h := HeadingsUpTo(lines, n)[k];
      h.lineIndex < n && HeadingAt(lines, h.lineIndex) == Some(h)
  {
    if k >= |HeadingsUpTo(lines, n - 1)| {
      HeadingStandsThere(lines, n - 1);
    } else {
      ListedAreHeadings(lines, n - 1, k);
    }
  }

  lemma ListedHolds(hs: seq<Heading>, h: Option<Heading>)
    ensures forall x :: x in hs ==> x in Listed(hs, h)
    ensures h.Some? ==> h.value in Listed(hs, h)
  {
    if h.Some? {
      assert Listed(hs, h)[|hs|] == h.value;
    }
  }

  /** Every line that is a heading is listed. */
  lemma {:induction false} HeadingsAreComplete(lines: seq<string>, n: nat, i: nat)
    requires i < n <= |lines| && HeadingAt(lines, i).Some?
    ensures HeadingAt(lines, i).value in HeadingsUpTo(lines, n)
  {
    ListedHolds(HeadingsUpTo(lines, n - 1), HeadingAt(lines, n - 1));
    if i == n - 1 {
    } else {
      HeadingsAreComplete(lines, n - 1, i);
    }
  }

  /** A heading's line means something, so its section cannot be dropped as blank. */
  lemma HeadingLineIsNotBlank(lines: seq<string>, i: nat)
    requires i < |lines| && HeadingAt(lines, i).Some?
    ensures !Blank(lines[i])
  {
    if ParseAtx(lines[i]).Some? {
      assert lines[i][0] == '#';
    }
  }

  /** The state of both scans after a setext heading and its underline. */
  lemma SetextSkipsTwo(lines: seq<string>, i: nat)
    requires i + 1 < |lines| && FenceBefore(lines, i) == None && HeadingAt(lines, i).Some?
    requires ParseAtx(lines[i]) == None
    ensures FenceBefore(lines, i + 1) == FenceBefore(lines, i + 2) == None
    ensures HeadingAt(lines, i + 1) == None && !IsUnderline(lines, i + 2)
  {
    assert FenceOpening(lines[i]) == None;
    UnderlinesAreHarmless(lines[i + 1]);
  }

  lemma NoHeadingThere(lines: seq<string>, i: nat)
    requires i < |lines| && HeadingAt(lines, i) == None
    ensures HeadingsUpTo(lines, i + 1) == HeadingsUpTo(lines, i) && !IsUnderline(lines, i + 1)
  {
  }

  lemma InsideFence(lines: seq<string>, i: nat)
    requires i < |lines| && FenceBefore(lines, i).Some?
    ensures HeadingAt(lines, i) == None
    ensures FenceBefore(lines, i + 1) ==
      if StartsWith(TrimStart(lines[i]), FenceBefore(lines, i).value) then None else FenceBefore(lines, i)
  {
  }

  lemma FenceOpens(lines: seq<string>, i: nat)
    requires i < |lines| && FenceBefore(lines, i) == None && FenceOpening(lines[i]).Some?
    ensures HeadingAt(lines, i) == None && FenceBefore(lines, i + 1) == FenceOpening(lines[i])
  {
  }

  lemma OutsideFence(lines: seq<string>, i: nat)
    requires i < |lines| && FenceBefore(lines, i) == None && FenceOpening(lines[i]) == None && !IsUnderline(lines, i)
    ensures HeadingAt(lines, i) == HeadingHere(lines, i) && FenceBefore(lines, i + 1) == None
  {
  }

  lemma AtxThere(lines: seq<string>, i: nat)
    requires i < |lines| && HeadingAt(lines, i).Some? && ParseAtx(lines[i]).Some?
    ensures HeadingsUpTo(lines, i + 1) == HeadingsUpTo(lines, i) + [HeadingAt(lines, i).value]
    ensures !IsUnderline(lines, i + 1)
  {
  }

  lemma SetextThere(lines: seq<string>, i: nat)
    requires i + 1 < |lines| && FenceBefore(lines, i) == None && HeadingAt(lines, i).Some?
    requires ParseAtx(lines[i]) == None
    ensures HeadingsUpTo(lines, i + 2) == HeadingsUpTo(lines, i) + [HeadingAt(lines, i).value]
    ensures FenceBefore(lines, i + 2) == None && !IsUnderline(lines, i + 2)
  {
    SetextSkipsTwo(lines, i);
    assert HeadingsUpTo(lines, i + 2) == HeadingsUpTo(lines, i + 1);
  }

  /** The heading scan: fences and two-line skips in one pass. */
  method ScanHeadings(lines: seq<string>) returns (headings: seq<Heading>)
    ensures headings == HeadingsUpTo(lines, |lines|)
  {
    headings := [];
    var fence: Option<string> := None;
    var index := 0;
    while index < |lines|
      invariant index <= |lines| && fence == FenceBefore(lines, index)
      invariant headings == HeadingsUpTo(lines, index) && !IsUnderline(lines, index)
    {
      var line := lines[index];
      var trimmed := TrimStart(line);
      if fence.Some? {
        InsideFence(lines, index);
        NoHeadingThere(lines, index);
        if StartsWith(trimmed, fence.value) {
          fence := None;
        }
        index := index + 1;
        continue;
      }
      if StartsWith(trimmed, "```") {
        FenceOpens(lines, index);
        NoHeadingThere(lines, index);
        fence := Some("```");
        index := index + 1;
        continue;
      }
      if StartsWith(trimmed, "~~~") {
        FenceOpens(lines, index);
        NoHeadingThere(lines, index);
        fence := Some("~~~");
        index := index + 1;
        continue;
      }
      OutsideFence(lines, index);
      var atx := ParseAtx(line);
      if atx.Some? {
        AtxThere(lines, index);
        headings := headings + [Heading(atx.value.level, atx.value.text, index)];
        index := index + 1;
        continue;
      }
      if !Blank(line) && index + 1 < |lines| && IsSetextUnderline(Trim(lines[index + 1])) {
        SetextThere(lines, index);
        var level := if Trim(lines[index + 1])[0] == '=' then 1 else 2;
        headings := headings + [Heading(level, Trim(line), index)];
        index := index + 2;
        continue;
      }
      NoHeadingThere(lines, index);
      index := index + 1;
    }
  }

  /** `inFence` marks the lines that are in a fence or close one. */
  ghost predicate AreFences(lines: seq<string>, inFence: seq<bool>) {
    |inFence| == |lines| && forall i {:trigger inFence[i]} :: 0 <= i < |lines| ==> inFence[i] == Fenced(lines, i)
  }

  /** The fence scan: one pass without skips. */
  method ComputeFenceLines(lines: seq<string>) returns (inFence: seq<bool>)
    ensures AreFences(lines, inFence)
  {
    inFence := [];
    var fence: Option<string> := None;
    for index := 0 to |lines|
      invariant |inFence| == index && fence == FenceBefore(lines, index)
      invariant forall i :: 0 <= i < index ==> inFence[i] == Fenced(lines, i)
    {
      var trimmed := TrimStart(lines[index]);
      inFence := inFence + [fence.Some?];
      if fence.Some? {
        if StartsWith(trimmed, fence.value) {
          fence := None;
        }
      } else if StartsWith(trimmed, "```") {
        fence := Some("```");
      } else if StartsWith(trimmed, "~~~") {
        fence := Some("~~~");
      }
    }
  }

  /** Both scans agree: no line the heading scan reports is one the fence scan marks. */
  lemma NoHeadingIsFenced(lines: seq<string>, k: nat)
    requires k < |HeadingsUpTo(lines, |lines|)|
    ensures var h := HeadingsUpTo(lines, |lines|)[k];
      h.lineIndex < |lines| && !Fenced(lines, h.lineIndex) && !Blank(lines[h.lineIndex]) && 1 <= h.level <= 6
  {
    ListedAreHeadings(lines, |lines|, k);
    HeadingLineIsNotBlank(lines, HeadingsUpTo(lines, |lines|)[k].lineIndex);
  }
}
