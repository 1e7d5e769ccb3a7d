/** Sections: one per heading, each with the chain of headings it stands under. */
module MarkdownSections {
  import opened Options
  import opened Texts
  import opened MarkdownHeadings

  datatype Section = Section(heading: Option<Heading>, startIndex: nat, endIndex: nat, breadcrumb: seq<string>)

  /** The headings up to and including the nearest of the first `n` whose level is smaller; none if none is. */
  function Above(hs: seq<Heading>, level: nat, n: nat): (m: nat)
    requires n <= |hs|
    ensures m <= n && (m > 0 ==> hs[m - 1].level < level)
    ensures forall k :: m <= k < n ==> hs[k].level >= level
  {
    if n == 0 || hs[n - 1].level < level then n else Above(hs, level, n - 1)
  }

  /** Heading `n - 1` under the headings it stands under, outermost first. */
  function Chain(hs: seq<Heading>, n: nat): seq<Heading>
    requires n <= |hs|
  {
    if n == 0 then [] else Chain(hs, Above(hs, hs[n - 1].level, n - 1)) + [hs[n - 1]]
  }

  /** The headings heading `i` stands under: the nearest earlier one of smaller level, and those above it. */
  function Ancestors(hs: seq<Heading>, i: nat): seq<Heading>
    requires i < |hs|
  {
    Chain(hs, Above(hs, hs[i].level, i))
  }

  function Titles(hs: seq<Heading>): seq<string> {
    if hs == [] then [] else Titles(hs[..|hs| - 1]) + [hs[|hs| - 1].text]
  }

  /** A chain is as long as its headings' levels allow: they grow, so the last level bounds the length. */
  lemma {:induction false} ChainsGrow(hs: seq<Heading>, n: nat)
    requires 0 < n <= |hs| && forall k :: 0 <= k < |hs| ==> hs[k].level >= 1
    ensures |Chain(hs, n)| <= hs[n - 1].level
  {
    var m := Above(hs, hs[n - 1].level, n - 1);
    if m == 0 {
    } else {
      ChainsGrow(hs, m);
    }
  }

  /** A breadcrumb has at most five entries, as there are six levels. */
  lemma BreadcrumbsAreShort(hs: seq<Heading>, i: nat)
    requires i < |hs| && forall k :: 0 <= k < |hs| ==> 1 <= hs[k].level <= 6
    ensures |Ancestors(hs, i)| < hs[i].level <= 6
  {
    var m := Above(hs, hs[i].level, i);
    if m > 0 {
      ChainsGrow(hs, m);
    }
  }

  /** The last line of section `i`. */
  function LastLine(lines: seq<string>, hs: seq<Heading>, i: nat): int
    requires i < |hs|
  {
    if i + 1 < |hs| then hs[i + 1].lineIndex - 1 else |lines| - 1
  }

  /** Headings on strictly increasing lines of the text. */
  ghost predicate Placed(lines: seq<string>, hs: seq<Heading>) {
    InLineOrder(hs, |lines|)
  }

  function SectionOf(lines: seq<string>, hs: seq<Heading>, i: nat): Section
    requires i < |hs| && Placed(lines, hs)
  {
    Section(Some(hs[i]), hs[i].lineIndex, LastLine(lines, hs, i), Titles(Ancestors(hs, i)))
  }

  /** What stands before the first heading, unless it is blank. */
  function Preamble(lines: seq<string>, hs: seq<Heading>): seq<Section>
    requires Placed(lines, hs)
  {
    if hs != [] && hs[0].lineIndex > 0 && !Blank(JoinLines(lines, 0, hs[0].lineIndex)) then
      [Section(None, 0, hs[0].lineIndex - 1, [])]
    else []
  }

  /** The preamble, if it counts, and the sections of the first `n` headings. */
  function SectionsUpTo(lines: seq<string>, hs: seq<Heading>, n: nat): seq<Section>
    requires n <= |hs| && Placed(lines, hs)
  {
    if n == 0 then Preamble(lines, hs) else SectionsUpTo(lines, hs, n - 1) + [SectionOf(lines, hs, n - 1)]
  }

  function SectionsOf(lines: seq<string>, hs: seq<Heading>): seq<Section>
    requires Placed(lines, hs)
  {
    SectionsUpTo(lines, hs, |hs|)
  }

  predicate Within(lines: seq<string>, s: Section) {
    s.startIndex <= s.endIndex < |lines|
  }

  ghost predicate AllWithinLines(lines: seq<string>, sections: seq<Section>) {
    forall s :: s in sections ==> Within(lines, s)
  }

  /** Where the first `n` of the sections end, exclusive. */
  function EndOf(sections: seq<Section>, first: nat, n: nat): nat
    requires n <= |sections|
  {
    if n == 0 then first else sections[n - 1].endIndex + 1
  }

  /** Sections on consecutive stretches of lines, from `first` on. */
  ghost predicate Consecutive(lines: seq<string>, sections: seq<Section>, first: nat) {
    && first <= |lines| && AllWithinLines(lines, sections)
    && forall k {:trigger EndOf(sections, first, k)} :: 0 <= k < |sections| ==>
      sections[k].startIndex == EndOf(sections, first, k)
  }

  /** Consecutive from `first` to before `end`. */
  ghost predicate Tiles(lines: seq<string>, sections: seq<Section>, first: nat, end: nat) {
    Consecutive(lines, sections, first) && EndOf(sections, first, |sections|) == end
  }

  lemma OneMoreTile(lines: seq<string>, sections: seq<Section>, first: nat, s: Section)
    requires Tiles(lines, sections, first, s.startIndex) && Within(lines, s)
    ensures Tiles(lines, sections + [s], first, s.endIndex + 1)
  {
    var more := sections + [s];
    forall k | 0 <= k < |more| ensures more[k].startIndex == EndOf(more, first, k) {
      if k < |sections| {
        assert sections[k].startIndex == EndOf(sections, first, k);
        assert EndOf(more, first, k) == EndOf(sections, first, k);
      }
    }
  }

  /** The line on which the first section starts. */
  function FirstLine(lines: seq<string>, hs: seq<Heading>): nat
    requires hs != [] && Placed(lines, hs)
  {
    if Preamble(lines, hs) == [] then hs[0].lineIndex else 0
  }

  lemma PreambleTiles(lines: seq<string>, hs: seq<Heading>)
    requires hs != [] && Placed(lines, hs)
    ensures Tiles(lines, Preamble(lines, hs), FirstLine(lines, hs), hs[0].lineIndex)
  {
  }

  /** Where the section of heading `i` starts if there is one; otherwise the text ends. */
  function LineOfHeading(lines: seq<string>, hs: seq<Heading>, i: nat): nat {
    if i < |hs| then hs[i].lineIndex else |lines|
  }

  lemma SectionIsWithin(lines: seq<string>, hs: seq<Heading>, i: nat)
    requires i < |hs| && Placed(lines, hs)
    ensures var s := SectionOf(lines, hs, i);
      && Within(lines, s)
      && s.startIndex == LineOfHeading(lines, hs, i) && s.endIndex + 1 == LineOfHeading(lines, hs, i + 1)
  {
  }

  lemma OneMoreSection(lines: seq<string>, hs: seq<Heading>, before: seq<Section>, i: nat, first: nat)
    requires i < |hs| && Placed(lines, hs) && Tiles(lines, before, first, LineOfHeading(lines, hs, i))
    ensures Tiles(lines, before + [SectionOf(lines, hs, i)], first, LineOfHeading(lines, hs, i + 1))
  {
    SectionIsWithin(lines, hs, i);
    OneMoreTile(lines, before, first, SectionOf(lines, hs, i));
  }

  lemma {:induction false} SectionsTile(lines: seq<string>, hs: seq<Heading>, n: nat)
    requires n <= |hs| && hs != [] && Placed(lines, hs)
    ensures Tiles(lines, SectionsUpTo(lines, hs, n), FirstLine(lines, hs), LineOfHeading(lines, hs, n))
  {
    if n == 0 {
      PreambleTiles(lines, hs);
    } else {
      SectionsTile(lines, hs, n - 1);
      OneMoreSection(lines, hs, SectionsUpTo(lines, hs, n - 1), n - 1, FirstLine(lines, hs));
    }
  }

  /** Sections partition the lines, apart from a blank preamble: they stand on consecutive stretches, the last one
      ends the text, and what precedes the first is blank. */
  lemma SectionsPartitionTheLines(lines: seq<string>, hs: seq<Heading>)
    requires hs != [] && Placed(lines, hs)
    ensures var sections, first := SectionsOf(lines, hs), FirstLine(lines, hs);
      && Consecutive(lines, sections, first)
      && EndOf(sections, first, |sections|) == |lines|
      && (first > 0 ==> Blank(JoinLines(lines, 0, first)))
  {
    SectionsTile(lines, hs, |hs|);
  }

  // ----- The heading stack

  lemma {:induction false} SkippedAreNotAbove(hs: seq<Heading>, level: nat, low: nat, n: nat)
    requires low <= n <= |hs| && forall k :: low <= k < n ==> hs[k].level >= level
    ensures Above(hs, level, n) == Above(hs, level, low)
  {
    if low == n {
    } else {
      SkippedAreNotAbove(hs, level, low, n - 1);
    }
  }

  /** The top of a stack that holds a chain, and what is below it. */
  lemma PopChain(hs: seq<Heading>, n: nat)
    requires 0 < n <= |hs|
    ensures var stack := Chain(hs, n);
      stack != [] && stack[|stack| - 1] == hs[n - 1] &&
      stack[..|stack| - 1] == Chain(hs, Above(hs, hs[n - 1].level, n - 1))
  {
  }

  /** Pops the headings that do not enclose a heading of this level. */
  method PopTo(hs: seq<Heading>, i: nat, full: seq<Heading>) returns (stack: seq<Heading>)
    requires i < |hs| && full == Chain(hs, i)
    ensures stack == Ancestors(hs, i)
  {
    stack := full;
    var level := hs[i].level;
    ghost var seen: nat := i;
    while true
      invariant seen <= i && stack == Chain(hs, seen) && Above(hs, level, seen) == Above(hs, level, i)
      decreases seen
    {
      if stack == [] {
        break;
      }
      PopChain(hs, seen);
      if stack[|stack| - 1].level < level {
        break;
      }
      ghost var below := Above(hs, hs[seen - 1].level, seen - 1);
      SkippedAreNotAbove(hs, level, below, seen);
      stack := stack[..|stack| - 1];
      seen := below;
    }
  }

  method TitlesOf(stack: seq<Heading>) returns (titles: seq<string>)
    ensures titles == Titles(stack)
  {
    titles := [];
    for k := 0 to |stack|
      invariant titles == Titles(stack[..k])
    {
      assert stack[..k + 1][..k] == stack[..k];
      titles := titles + [stack[k].text];
    }
    assert stack[..|stack|] == stack;
  }

  /** All sections in one pass with a stack of open headings. */
  method BuildSections(hs: seq<Heading>, lines: seq<string>) returns (sections: seq<Section>)
    requires Placed(lines, hs)
    ensures sections == SectionsOf(lines, hs)
  {
    sections := [];
    if hs == [] {
      return;
    }
    if hs[0].lineIndex > 0 && !Blank(JoinLines(lines, 0, hs[0].lineIndex)) {
      sections := [Section(None, 0, hs[0].lineIndex - 1, [])];
    }
    var stack: seq<Heading> := [];
    for position := 0 to |hs|
      invariant sections == SectionsUpTo(lines, hs, position)
      invariant stack == Chain(hs, position)
    {
      var heading := hs[position];
      stack := PopTo(hs, position, stack);
      var breadcrumb := TitlesOf(stack);
      var last := if position + 1 < |hs| then hs[position + 1].lineIndex - 1 else |lines| - 1;
      sections := sections + [Section(Some(heading), heading.lineIndex, last, breadcrumb)];
      stack := stack + [heading];
    }
  }
}
