/** What a heading, an underline and a fence are, told by the characters of the lines, and that the scans find exactly
    these. */
module HeadingLines {
  import opened Options
  import opened Texts
  import opened MarkdownHeadings

  // ----- Fences

  /** A line opens a fence with three backticks or three tildes after optional whitespace. */
  lemma OpensExactly(line: string)
    ensures FenceOpening(line) == Some("```") <==> BeginsWith(line, "```")
    ensures FenceOpening(line) == Some("~~~") <==> BeginsWith(line, "~~~")
    ensures FenceOpening(line).Some? ==> FenceOpening(line).value in {"```", "~~~"}
  {
    TrimmedStartExactly(line, "```");
    TrimmedStartExactly(line, "~~~");
    var tick, tilde := "```", "~~~";
    assert tick[0] != tilde[0];
  }

  /** Line `o` opens a fence that no line before `i` closes. */
  ghost predicate OpenSince(lines: seq<string>, o: nat, marker: string, i: nat)
    requires o < i <= |lines|
  {
    && !Fenced(lines, o) && marker in {"```", "~~~"} && BeginsWith(lines[o], marker)
    && forall j :: o < j < i ==> !BeginsWith(lines[j], marker)
  }

  /** A fence that was open before the last line is open behind it unless that line begins with its marker. */
  lemma StaysOpenExactly(lines: seq<string>, o: nat, marker: string, i: nat)
    requires o + 1 < i <= |lines|
    ensures OpenSince(lines, o, marker, i) <==>
      OpenSince(lines, o, marker, i - 1) && !BeginsWith(lines[i - 1], marker)
  {
  }

  /** What the last line does to the fence. */
  lemma LastLineDecides(lines: seq<string>, i: nat, marker: string)
    requires 0 < i <= |lines| && marker in {"```", "~~~"}
    requires FenceBefore(lines, i - 1).Some? ==> FenceBefore(lines, i - 1).value in {"```", "~~~"}
    ensures FenceBefore(lines, i) == Some(marker) <==>
      || (FenceBefore(lines, i - 1) == None && BeginsWith(lines[i - 1], marker))
      || (FenceBefore(lines, i - 1) == Some(marker) && !BeginsWith(lines[i - 1], marker))
    ensures FenceBefore(lines, i).Some? ==> FenceBefore(lines, i).value in {"```", "~~~"}
  {
    TrimmedStartExactly(lines[i - 1], marker);
    OpensExactly(lines[i - 1]);
  }

  /** The marker of the fence before a line is the one of the opening line that nothing has closed since. */
  lemma {:induction false} OpenFenceExactly(lines: seq<string>, i: nat, marker: string)
    requires i <= |lines| && marker in {"```", "~~~"}
    ensures FenceBefore(lines, i) == Some(marker) <==> exists o: nat :: o < i && OpenSince(lines, o, marker, i)
    ensures FenceBefore(lines, i).Some? ==> FenceBefore(lines, i).value in {"```", "~~~"}
  {
    if i == 0 {
    } else {
      OpenFenceExactly(lines, i - 1, marker);
      LastLineDecides(lines, i, marker);
      if FenceBefore(lines, i) == Some(marker) {
        if FenceBefore(lines, i - 1) == None {
          assert OpenSince(lines, i - 1, marker, i);
        } else {
          var o: nat :| o < i - 1 && OpenSince(lines, o, marker, i - 1);
          StaysOpenExactly(lines, o, marker, i);
        }
      }
      if o: nat :| o < i && OpenSince(lines, o, marker, i) {
        if o < i - 1 {
          StaysOpenExactly(lines, o, marker, i);
        }
      }
    }
  }

  /** A line is inside or closes a fence exactly when an earlier line that is not itself fenced opens one with a marker
      that no line in between begins with. */
  lemma FencedExactly(lines: seq<string>, i: nat)
    requires i <= |lines|
    ensures Fenced(lines, i) <==>
      exists o: nat, marker: string :: o < i && OpenSince(lines, o, marker, i)
  {
    OpenFenceExactly(lines, i, "```");
    OpenFenceExactly(lines, i, "~~~");
    if Fenced(lines, i) {
      var o: nat :| o < i && OpenSince(lines, o, FenceBefore(lines, i).value, i);
    }
  }

  // ----- ATX headings

  /** Whitespace from `k` to `a`, hashes to `b`, whitespace to the end. */
  ghost predicate TailParts(line: string, k: nat, a: nat, b: nat) {
    && k <= a <= b <= |line| && (forall j :: k <= j < a ==> IsWhitespace(line[j]))
    && (forall j :: a <= j < b ==> line[j] == '#') && forall j :: b <= j < |line| ==> IsWhitespace(line[j])
  }

  lemma HashTailExactly(line: string, k: nat)
    requires k <= |line|
    ensures IsHashTail(line, k) <==> exists a: nat, b: nat :: TailParts(line, k, a, b)
  {
    var a := InkFrom(line, k);
    var b := HashesTo(line, a);
    if IsHashTail(line, k) {
      assert TailParts(line, k, a, b);
    }
    if x: nat, y: nat :| TailParts(line, k, x, y) {
      TailIsFound(line, k, x, y);
    }
  }

  lemma TailIsFound(line: string, k: nat, x: nat, y: nat)
    requires TailParts(line, k, x, y)
    ensures IsHashTail(line, k)
  {
    var a := InkFrom(line, k);
    assert x < y ==> line[x] == '#' && a == x;
    var b := HashesTo(line, a);
    if x < y {
      assert b >= y;
      assert y < |line| ==> IsWhitespace(line[y]) && b == y;
    } else {
      assert a == |line|;
    }
  }

  /** The heading's hashes end at `level`, whitespace follows up to `start`, and the text begins there: at the first
      other character, or at the last one when all are whitespace. */
  ghost predicate AtxAt(line: string, level: nat, start: nat) {
    && level < start && AtxShape(line, level, start - level)
    && (start + 1 == |line| || !IsWhitespace(line[start]))
  }

  /** A line reads as an ATX heading of this level and text. */
  ghost predicate ReadsAsAtx(line: string, level: nat, text: string) {
    exists start: nat, end: nat ::
      AtxAt(line, level, start) && ShortestBody(line, start, end) && text == Trim(line[start..end])
  }

  lemma SubIsSlice(s: string, from: nat, to: nat)
    requires from <= to <= |s|
    ensures Sub(s, from, to) == s[from..to]
  {
  }

  /** The parser's answer is the one reading of the line. */
  lemma AtxReadExactly(line: string, level: nat, text: string)
    ensures ReadsAsAtx(line, level, text) <==> ParseAtx(line).Some? && ParseAtx(line).value == Atx(level, text)
  {
    if ParseAtx(line).Some? {
      ParsedIsRead(line);
    }
    if s: nat, e: nat :| AtxAt(line, level, s) && ShortestBody(line, s, e) && text == Trim(line[s..e]) {
      ReadIsParsed(line, level, s, e);
    }
  }

  lemma ParsedIsRead(line: string)
    requires ParseAtx(line).Some?
    ensures ReadsAsAtx(line, ParseAtx(line).value.level, ParseAtx(line).value.text)
  {
    var hashes := HashesTo(line, 0);
    var start := BodyStart(line, hashes);
    StartsAt(line, hashes, start);
    var end := BodyEnd(line, start + 1);
    AtxTextIsShortestBody(line, start);
    TextIsTrimmed(line, start, end);
    ParsedText(line, hashes, start, ParseAtx(line));
    Reads(line, hashes, start, end, ParseAtx(line).value.text);
  }

  lemma Reads(line: string, level: nat, start: nat, end: nat, text: string)
    requires AtxAt(line, level, start) && ShortestBody(line, start, end) && text == Trim(line[start..end])
    ensures ReadsAsAtx(line, level, text)
  {
  }

  lemma StartsAt(line: string, hashes: nat, start: nat)
    requires hashes == HashesTo(line, 0) && start == BodyStart(line, hashes) && ParseAtx(line).Some?
    ensures AtxAt(line, hashes, start)
  {
  }

  /** What the parser makes of a line with these parts. */
  lemma ParsedText(line: string, hashes: nat, start: nat, atx: Option<Atx>)
    requires hashes == HashesTo(line, 0) && 1 <= hashes <= 6 && hashes < start < |line|
    requires start == BodyStart(line, hashes) && atx == ParseAtx(line)
    ensures atx == Some(Atx(hashes, AtxText(line, start)))
  {
  }

  lemma TextIsTrimmed(line: string, start: nat, end: nat)
    requires start < |line| && end == BodyEnd(line, start + 1)
    ensures AtxText(line, start) == Trim(line[start..end])
  {
    SubIsSlice(line, start, end);
  }

  lemma ReadIsParsed(line: string, level: nat, s: nat, e: nat)
    requires AtxAt(line, level, s) && ShortestBody(line, s, e)
    ensures ParseAtx(line) == Some(Atx(level, Trim(line[s..e])))
  {
    AtxPartsAreUnique(line, level, s);
    AtxTextIsShortestBody(line, s);
    ShortestIsUnique(line, s, e, BodyEnd(line, s + 1));
    TextIsTrimmed(line, s, e);
    ParsedText(line, level, s, ParseAtx(line));
  }

  lemma AtxPartsAreUnique(line: string, level: nat, s: nat)
    requires AtxAt(line, level, s)
    ensures HashesTo(line, 0) == level && BodyStart(line, level) == s
  {
    assert IsWhitespace(line[level]);
    var ink := InkFrom(line, level);
    assert ink >= s;
  }

  lemma ShortestIsUnique(line: string, start: nat, e: nat, f: nat)
    requires ShortestBody(line, start, e) && ShortestBody(line, start, f)
    ensures e == f
  {
    assert IsHashTail(line, e) && IsHashTail(line, f);
  }

  // ----- Setext headings

  ghost predicate IsRule(text: string, c: char) {
    text != "" && forall k :: 0 <= k < |text| ==> text[k] == c
  }

  /** The line below is a rule of `=` for level one, of `-` for level two. */
  ghost predicate ReadsAsSetext(lines: seq<string>, i: nat, level: nat, text: string) {
    && i + 1 < |lines| && !Blank(lines[i]) && text == Trim(lines[i])
    && ((level == 1 && IsRule(Trim(lines[i + 1]), '=')) || (level == 2 && IsRule(Trim(lines[i + 1]), '-')))
  }

  ghost predicate IsAtx(line: string) {
    exists level: nat, ws: nat :: AtxShape(line, level, ws)
  }

  ghost predicate OpensFence(line: string) {
    BeginsWith(line, "```") || BeginsWith(line, "~~~")
  }

  /** What a heading of this level and text on line `i` looks like. */
  ghost predicate ReadsAs(lines: seq<string>, i: nat, level: nat, text: string)
    requires i < |lines|
  {
    if IsAtx(lines[i]) then ReadsAsAtx(lines[i], level, text) else ReadsAsSetext(lines, i, level, text)
  }

  /** A heading of that level and text begins on line `i`, as far as the line and the next one show. */
  lemma HereExactly(lines: seq<string>, i: nat, level: nat, text: string)
    requires i < |lines|
    ensures HeadingHere(lines, i) == Some(Heading(level, text, i)) <==>
      !OpensFence(lines[i]) && ReadsAs(lines, i, level, text)
  {
    OpensExactly(lines[i]);
    AtxAcceptsExactly(lines[i]);
    AtxReadExactly(lines[i], level, text);
    if FenceOpening(lines[i]).Some? {
      assert OpensFence(lines[i]);
    } else if !IsAtx(lines[i]) && i + 1 < |lines| {
      RulesDiffer(Trim(lines[i + 1]));
    }
  }

  lemma RulesDiffer(text: string)
    ensures IsSetextUnderline(text) <==> IsRule(text, '=') || IsRule(text, '-')
    ensures IsRule(text, '=') ==> text[0] == '='
    ensures IsRule(text, '-') ==> text[0] == '-'
  {
  }

  // ----- What is listed

  ghost predicate ListsLine(hs: seq<Heading>, i: nat) {
    exists h :: h in hs && h.lineIndex == i
  }

  /** Line `i` is the underline of the setext heading on the line above. */
  ghost predicate Underlines(lines: seq<string>, i: nat)
    requires i < |lines|
  {
    i > 0 && ListsLine(HeadingsUpTo(lines, |lines|), i - 1) && !IsAtx(lines[i - 1])
  }

  lemma ListedIsThere(lines: seq<string>, h: Heading)
    ensures h in HeadingsUpTo(lines, |lines|) <==>
      h.lineIndex < |lines| && HeadingAt(lines, h.lineIndex) == Some(h)
  {
    var hs := HeadingsUpTo(lines, |lines|);
    if h in hs {
      var k :| 0 <= k < |hs| && hs[k] == h;
      ListedAreHeadings(lines, |lines|, k);
    }
    if h.lineIndex < |lines| && HeadingAt(lines, h.lineIndex) == Some(h) {
      HeadingsAreComplete(lines, |lines|, h.lineIndex);
    }
  }

  lemma ListsLineExactly(lines: seq<string>, i: nat)
    requires i < |lines|
    ensures ListsLine(HeadingsUpTo(lines, |lines|), i) <==> HeadingAt(lines, i).Some?
  {
    if HeadingAt(lines, i).Some? {
      HeadingStandsThere(lines, i);
      ListedIsThere(lines, HeadingAt(lines, i).value);
    }
    if h :| h in HeadingsUpTo(lines, |lines|) && h.lineIndex == i {
      ListedIsThere(lines, h);
    }
  }

  lemma UnderlinesExactly(lines: seq<string>, i: nat)
    requires i < |lines|
    ensures Underlines(lines, i) <==> IsUnderline(lines, i)
  {
    if i > 0 {
      ListsLineExactly(lines, i - 1);
      AtxAcceptsExactly(lines[i - 1]);
    }
  }

  /** The list of headings holds a heading exactly when its line is outside every fence and opens none, does not
      underline the heading above, and reads as a heading of that level and text. */
  lemma ListedExactly(lines: seq<string>, h: Heading)
    ensures h in HeadingsUpTo(lines, |lines|) <==>
      && h.lineIndex < |lines|
      && !Fenced(lines, h.lineIndex) && !OpensFence(lines[h.lineIndex]) && !Underlines(lines, h.lineIndex)
      && ReadsAs(lines, h.lineIndex, h.level, h.text)
  {
    ListedIsThere(lines, h);
    if h.lineIndex < |lines| {
      UnderlinesExactly(lines, h.lineIndex);
      HereExactly(lines, h.lineIndex, h.level, h.text);
      assert h == Heading(h.level, h.text, h.lineIndex);
    }
  }

  /** Of each listed heading: its level and text are those of the hashes or of the rule below it. */
  lemma HeadingSaysWhatItIs(lines: seq<string>, k: nat)
    requires k < |HeadingsUpTo(lines, |lines|)|
    ensures var h := HeadingsUpTo(lines, |lines|)[k];
      && h.lineIndex < |lines|
      && (if IsAtx(lines[h.lineIndex]) then
            exists start: nat, end: nat ::
              && AtxAt(lines[h.lineIndex], h.level, start) && ShortestBody(lines[h.lineIndex], start, end)
              && h.text == Trim(lines[h.lineIndex][start..end])
          else
            && h.lineIndex + 1 < |lines| && h.text == Trim(lines[h.lineIndex])
            && ((h.level == 1 && IsRule(Trim(lines[h.lineIndex + 1]), '='))
                || (h.level == 2 && IsRule(Trim(lines[h.lineIndex + 1]), '-'))))
  {
    ListedExactly(lines, HeadingsUpTo(lines, |lines|)[k]);
  }
}
