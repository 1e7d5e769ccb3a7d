/** From a markdown text to its fragments, and what the whole extraction promises. */
module MarkdownFragments {
  import opened Options
  import opened Texts
  import opened Chunks
  import opened VectorContent
  import opened MarkdownHeadings
  import opened MarkdownSections
  import opened MarkdownWindows

  datatype Metadata = Metadata(heading: Option<string>, level: Option<nat>, scope: Option<string>)

  /** A fragment in a group shares the group's name with its outline, whose own id that is. */
  datatype Fragment = Fragment(id: nat, chunk: Chunk, metadata: Metadata, group: Option<nat>)

  predicate IsOutline(f: Fragment) {
    f.group == Some(f.id)
  }

  function Decimal(n: nat): string {
    if n < 10 then [('0' as int + n) as char] else Decimal(n / 10) + [('0' as int + n % 10) as char]
  }

  function JoinScope(names: seq<string>): string {
    if names == [] then ""
    else if |names| == 1 then names[0]
    else JoinScope(names[..|names| - 1]) + "::" + names[|names| - 1]
  }

  function SectionMetadata(s: Section): Metadata {
    Metadata(
      if s.heading.Some? then Some(s.heading.value.text) else None,
      if s.heading.Some? then Some(s.heading.value.level) else None,
      if s.breadcrumb == [] then None else Some(JoinScope(s.breadcrumb)))
  }

  /** The header lines of a fragment with this metadata. */
  function HeaderLines(m: Metadata): seq<Option<string>> {
    [if m.heading.Some? then Some("heading: " + m.heading.value) else None,
     if m.level.Some? then Some("heading_level: " + Decimal(m.level.value)) else None,
     if m.scope.Some? then Some("scope: " + m.scope.value) else None]
  }

  function OutlineText(m: Metadata): string {
    if m.heading.Some? then m.heading.value else "markdown section"
  }

  /** What one section contributes: its windows, the chunk of its outline, its metadata. */
  datatype Packet = Packet(windows: seq<Chunk>, outline: Chunk, metadata: Metadata)

  // ----- Numbering and grouping

  /** How many fragments a section has: several windows get an outline in front. */
  function Size(p: Packet): nat {
    if |p.windows| > 1 then |p.windows| + 1 else |p.windows|
  }

  /** Fragment `i` of one section whose fragments are numbered from `firstId` on. */
  function MemberAt(p: Packet, firstId: nat, i: nat): Fragment
    requires i < Size(p)
  {
    if |p.windows| <= 1 then Fragment(firstId + i, p.windows[i], p.metadata, None)
    else if i == 0 then Fragment(firstId, p.outline, p.metadata, Some(firstId))
    else Fragment(firstId + i, p.windows[i - 1], p.metadata, Some(firstId))
  }

  /** How many fragments the first `n` sections have. */
  function Total(packets: seq<Packet>, n: nat): nat
    requires n <= |packets|
  {
    if n == 0 then 0 else Total(packets, n - 1) + Size(packets[n - 1])
  }

  /** Fragment `i` of the first `n` sections. */
  function FragmentAt(packets: seq<Packet>, n: nat, i: nat): Fragment
    requires n <= |packets| && i < Total(packets, n)
  {
    var before := Total(packets, n - 1);
    if i < before then FragmentAt(packets, n - 1, i) else MemberAt(packets[n - 1], before, i - before)
  }

  /** The fragments of the first `n` sections. */
  function Flatten(packets: seq<Packet>, n: nat): (fs: seq<Fragment>)
    requires n <= |packets|
    ensures |fs| == Total(packets, n)
  {
    seq(Total(packets, n), i requires 0 <= i < Total(packets, n) => FragmentAt(packets, n, i))
  }

  /** A fragment comes from a packet: it is the outline or has one of the windows. */
  ghost predicate ComesFrom(f: Fragment, p: Packet) {
    f.metadata == p.metadata && if IsOutline(f) then f.chunk == p.outline else f.chunk in p.windows
  }

  lemma {:induction false} FragmentsComeFrom(packets: seq<Packet>, n: nat, i: nat) returns (k: nat)
    requires n <= |packets| && i < Total(packets, n)
    ensures k < n && ComesFrom(FragmentAt(packets, n, i), packets[k])
  {
    var before := Total(packets, n - 1);
    if i < before {
      k := FragmentsComeFrom(packets, n - 1, i);
    } else {
      k := n - 1;
    }
  }

  /** Every window of every packet is the chunk of a fragment that is not an outline. */
  lemma {:induction false} WindowsAreCarried(packets: seq<Packet>, n: nat, k: nat, j: nat) returns (i: nat)
    requires k < n <= |packets| && j < |packets[k].windows|
    ensures i < Total(packets, n)
    ensures !IsOutline(FragmentAt(packets, n, i)) && FragmentAt(packets, n, i).chunk == packets[k].windows[j]
  {
    if k < n - 1 {
      i := WindowsAreCarried(packets, n - 1, k, j);
    } else {
      i := Total(packets, k) + if |packets[k].windows| > 1 then j + 1 else j;
    }
  }

  /** Fragment `k` is numbered by its place; a group's name is the id of an outline with the same metadata that
      stands before its members and whose range contains theirs. */
  ghost predicate GroupedAt(fs: seq<Fragment>, k: nat)
    requires k < |fs|
  {
    && fs[k].id == k
    && (fs[k].group.Some? ==>
      var g := fs[k].group.value;
      && g <= k && IsOutline(fs[g]) && fs[g].metadata == fs[k].metadata
      && fs[g].chunk.startOffset <= fs[k].chunk.startOffset && fs[k].chunk.endOffset <= fs[g].chunk.endOffset)
  }

  ghost predicate Grouped(fs: seq<Fragment>) {
    forall k: nat {:trigger GroupedAt(fs, k)} :: k < |fs| ==> GroupedAt(fs, k)
  }

  ghost predicate Enclosed(p: Packet) {
    forall w :: w in p.windows ==> p.outline.startOffset <= w.startOffset && w.endOffset <= p.outline.endOffset
  }

  /** What `GroupedAt` says, of the fragments where they come from. */
  ghost predicate WellGrouped(packets: seq<Packet>, n: nat, i: nat)
    requires n <= |packets| && i < Total(packets, n)
  {
    var f := FragmentAt(packets, n, i);
    && f.id == i
    && (f.group.Some? ==>
      && f.group.value <= i
      && var outline := FragmentAt(packets, n, f.group.value);
      && IsOutline(outline) && outline.metadata == f.metadata
      && outline.chunk.startOffset <= f.chunk.startOffset && f.chunk.endOffset <= outline.chunk.endOffset)
  }

  lemma {:induction false} FragmentsAreWellGrouped(packets: seq<Packet>, n: nat, i: nat)
    requires n <= |packets| && i < Total(packets, n) && forall k :: 0 <= k < |packets| ==> Enclosed(packets[k])
    ensures WellGrouped(packets, n, i)
  {
    var before := Total(packets, n - 1);
    if i < before {
      FragmentsAreWellGrouped(packets, n - 1, i);
    } else {
      assert Enclosed(packets[n - 1]);
    }
  }

  lemma FlattenIsGrouped(packets: seq<Packet>, n: nat)
    requires n <= |packets| && forall k :: 0 <= k < |packets| ==> Enclosed(packets[k])
    ensures Grouped(Flatten(packets, n))
  {
    var fs := Flatten(packets, n);
    forall k: nat | k < |fs| ensures GroupedAt(fs, k) {
      FragmentsAreWellGrouped(packets, n, k);
    }
  }

  // ----- What a section contributes

  function LimitsFor(m: Metadata, maxChars: nat, overlap: nat): ChunkLimits {
    ChunkOptionsForMetadata(maxChars, overlap, HeaderLines(m))
  }

  function WindowsOf(lines: seq<string>, s: Section, limits: ChunkLimits): seq<Chunk>
    requires Within(lines, s) && limits.maxChars > 0
  {
    Filled(SectionWindows(lines, s.startIndex, s.endIndex + 1, limits.maxChars, limits.overlapChars))
  }

  function OutlineOf(lines: seq<string>, s: Section, m: Metadata, limits: ChunkLimits): Chunk
    requires Within(lines, s)
  {
    LineWindow(lines, s.startIndex, s.endIndex + 1).(text := FitTextToChars(OutlineText(m), limits.maxChars))
  }

  function PacketOf(lines: seq<string>, s: Section, maxChars: nat, overlap: nat): Packet
    requires Within(lines, s)
  {
    var m := SectionMetadata(s);
    var limits := LimitsFor(m, maxChars, overlap);
    Packet(WindowsOf(lines, s, limits), OutlineOf(lines, s, m, limits), m)
  }

  /** What each section contributes. */
  ghost predicate ArePackets(
      lines: seq<string>, sections: seq<Section>, maxChars: nat, overlap: nat, packets: seq<Packet>)
    requires AllWithinLines(lines, sections)
  {
    && |packets| == |sections|
    && forall k {:trigger PacketOf(lines, sections[k], maxChars, overlap)} :: 0 <= k < |sections| ==>
      packets[k] == PacketOf(lines, sections[k], maxChars, overlap)
  }

  function Packets(lines: seq<string>, sections: seq<Section>, maxChars: nat, overlap: nat): (ps: seq<Packet>)
    requires AllWithinLines(lines, sections)
    ensures ArePackets(lines, sections, maxChars, overlap, ps)
  {
    seq(|sections|, k requires 0 <= k < |sections| => PacketOf(lines, sections[k], maxChars, overlap))
  }

  lemma WindowsAreGood(lines: seq<string>, s: Section, limits: ChunkLimits)
    requires Within(lines, s) && Unbroken(lines) && limits.maxChars > 0
    ensures var ws := WindowsOf(lines, s, limits);
      && AllWithin(ws, limits.maxChars) && AllExact(Join(lines), ws) && Advancing(ws)
      && (forall w :: w in ws ==> !Blank(w.text))
      && NothingMissing(Join(lines), ws, CharStart(lines, s.startIndex), CharStart(lines, s.endIndex + 1))
  {
    var ws := SectionWindows(lines, s.startIndex, s.endIndex + 1, limits.maxChars, limits.overlapChars);
    SectionWindowsAreGood(lines, s.startIndex, s.endIndex + 1, limits.maxChars, limits.overlapChars);
    FilledMissesNothing(Join(lines), ws, CharStart(lines, s.startIndex), CharStart(lines, s.endIndex + 1));
    FilledIsFilter(ws);
    FilledKeepsOrder(ws);
  }

  /** Its text with its header fits the budget. */
  ghost predicate Embeds(f: Fragment, maxChars: nat) {
    |VectorText(HeaderLines(f.metadata), f.chunk.text, Some(maxChars))| <= maxChars
  }

  /** Unless it is an outline, it is a slice of the source that is not blank. */
  ghost predicate ShowsSource(source: string, f: Fragment) {
    !IsOutline(f) ==> Exact(source, f.chunk) && !Blank(f.chunk.text)
  }

  lemma FromSectionIsGood(lines: seq<string>, s: Section, maxChars: nat, overlap: nat, f: Fragment)
    requires Within(lines, s) && Unbroken(lines) && maxChars > 0
    requires ComesFrom(f, PacketOf(lines, s, maxChars, overlap))
    ensures Embeds(f, maxChars) && ShowsSource(Join(lines), f)
  {
    var m := SectionMetadata(s);
    var limits := LimitsFor(m, maxChars, overlap);
    WindowsAreGood(lines, s, limits);
    HeaderAndWindowFit(maxChars, overlap, HeaderLines(m), f.chunk.text);
  }

  ghost predicate EndBefore(chunks: seq<Chunk>, limit: nat) {
    forall c :: c in chunks ==> c.endOffset < limit
  }

  lemma {:induction false} PiecesEndInLine(lines: seq<string>, i: nat, from: nat, maxChars: nat)
    requires i < |lines| && from <= |lines[i]| && maxChars > 0
    ensures EndBefore(LinePieces(lines, i, from, maxChars), ByteStart(lines, i + 1))
    decreases |lines[i]| - from
  {
    if from >= |lines[i]| {
    } else {
      var to := SliceEnd(lines[i], from, maxChars);
      var rest := LinePieces(lines, i, to, maxChars);
      assert LinePieces(lines, i, from, maxChars) == [LinePiece(lines, i, from, to)] + rest;
      PiecesEndInLine(lines, i, to, maxChars);
      PieceAdvances(lines, i, from, to);
    }
  }

  lemma StartsNotAfter(lines: seq<string>, i: nat, j: nat)
    requires i <= j <= |lines|
    ensures ByteStart(lines, i) <= ByteStart(lines, j)
  {
    if i < j {
      ByteStartsGrow(lines, i, j);
    }
  }

  lemma {:induction false} WindowEndsInSection(
      lines: seq<string>, start: nat, stop: nat, maxChars: nat, overlap: nat, w: Chunk)
    requires start <= stop <= |lines| && maxChars > 0
    requires w in SectionWindows(lines, start, stop, maxChars, overlap)
    ensures w.endOffset < ByteStart(lines, stop)
    decreases stop - start
  {
    if |lines[start]| + 1 > maxChars {
      if w in SectionWindows(lines, start + 1, stop, maxChars, overlap) {
        WindowEndsInSection(lines, start + 1, stop, maxChars, overlap, w);
      } else {
        PiecesEndInLine(lines, start, 0, maxChars);
        StartsNotAfter(lines, start + 1, stop);
      }
    } else {
      var end := SectionWindowEnd(lines, start, stop, maxChars);
      if w == LineWindow(lines, start, end) {
        StartsNotAfter(lines, end, stop);
      } else {
        WindowEndsInSection(lines, NextWindowStart(lines, start, end, overlap), stop, maxChars, overlap, w);
      }
    }
  }

  lemma WindowsInRange(lines: seq<string>, start: nat, stop: nat, maxChars: nat, overlap: nat)
    requires start <= stop <= |lines| && maxChars > 0 && Unbroken(lines)
    ensures var ws := SectionWindows(lines, start, stop, maxChars, overlap);
      forall w :: w in Filled(ws) ==> ByteStart(lines, start) <= w.startOffset && w.endOffset < ByteStart(lines, stop)
  {
    var ws := SectionWindows(lines, start, stop, maxChars, overlap);
    SectionWindowsAreGood(lines, start, stop, maxChars, overlap);
    FilledIsFilter(ws);
    forall w | w in ws ensures w.endOffset < ByteStart(lines, stop) {
      WindowEndsInSection(lines, start, stop, maxChars, overlap, w);
    }
  }

  /** The windows of a section lie in the range its outline shows. */
  lemma WindowsInOutline(lines: seq<string>, s: Section, limits: ChunkLimits, p: Packet)
    requires Within(lines, s) && Unbroken(lines) && limits.maxChars > 0
    requires p.windows == WindowsOf(lines, s, limits)
    requires p.outline.startOffset == ByteStart(lines, s.startIndex)
    requires p.outline.endOffset + 1 == ByteStart(lines, s.endIndex + 1)
    ensures Enclosed(p)
  {
    WindowsInRange(lines, s.startIndex, s.endIndex + 1, limits.maxChars, limits.overlapChars);
  }

  // ----- Nothing missing

  ghost predicate Shown(source: string, fs: seq<Fragment>, k: nat)
    requires k < |source|
  {
    exists f :: f in fs && !IsOutline(f) && Holds(source, f.chunk, k)
  }

  /** Every character of the text that means anything is shown by a fragment that is not an outline. */
  ghost predicate AllShown(source: string, fs: seq<Fragment>) {
    forall k: nat {:trigger Shown(source, fs, k)} ::
      k < |source| && !IsWhitespace(source[k]) ==> Shown(source, fs, k)
  }

  /** The section whose lines hold character `k`. */
  lemma {:induction false} SectionOfChar(lines: seq<string>, sections: seq<Section>, first: nat, n: nat, k: nat)
    returns (j: nat)
    requires n <= |sections| && Consecutive(lines, sections, first) && EndOf(sections, first, n) <= |lines|
    requires CharStart(lines, first) <= k < CharStart(lines, EndOf(sections, first, n))
    ensures j < n && Within(lines, sections[j])
    ensures CharStart(lines, sections[j].startIndex) <= k < CharStart(lines, sections[j].endIndex + 1)
  {
    assert n > 0;
    var s := sections[n - 1];
    assert s in sections && Within(lines, s) && s.startIndex == EndOf(sections, first, n - 1);
    if k < CharStart(lines, s.startIndex) {
      j := SectionOfChar(lines, sections, first, n - 1, k);
    } else {
      j := n - 1;
    }
  }

  /** Lines before `first` that join to a blank text hold no character that means anything. */
  lemma BlankLinesAreBlank(lines: seq<string>, first: nat, k: nat)
    requires 0 < first <= |lines| && Blank(JoinLines(lines, 0, first))
    requires k < CharStart(lines, first) && k < |Join(lines)|
    ensures IsWhitespace(Join(lines)[k])
  {
    LinesStand(lines, 0, first);
    var head := JoinLines(lines, 0, first);
    if k < |head| {
      assert Join(lines)[k] == head[k];
    }
  }

  /** A line that is not blank puts a character that means something into the text. */
  lemma FilledLineShows(lines: seq<string>, i: nat) returns (k: nat)
    requires i < |lines| && !Blank(lines[i])
    ensures k < |Join(lines)| && !IsWhitespace(Join(lines)[k])
  {
    var j: nat :| j < |lines[i]| && !IsWhitespace(lines[i][j]);
    LinesStand(lines, i, i + 1);
    k := CharStart(lines, i) + j;
  }

  // ----- The extraction

  function AllFragments(lines: seq<string>, hs: seq<Heading>, maxChars: nat, overlap: nat): seq<Fragment>
    requires hs != [] && Placed(lines, hs)
  {
    SectionsPartitionTheLines(lines, hs);
    Flatten(Packets(lines, SectionsOf(lines, hs), maxChars, overlap), |SectionsOf(lines, hs)|)
  }

  /** The fragments of a markdown text, or nothing when the plain-text chunker is to take over. */
  function ExtractMarkdown(text: string, maxChars: nat, overlap: nat): Option<seq<Fragment>> {
    var lines := Split(text);
    var hs := HeadingsUpTo(lines, |lines|);
    HeadingsAreOrdered(lines, |lines|);
    if hs == [] then None
    else
      var fs := AllFragments(lines, hs, maxChars, overlap);
      if fs == [] then None else Some(fs)
  }

  lemma CharIsShown(lines: seq<string>, sections: seq<Section>, j: nat, maxChars: nat, overlap: nat, k: nat)
    requires AllWithinLines(lines, sections) && j < |sections| && Within(lines, sections[j]) && Unbroken(lines)
    requires CharStart(lines, sections[j].startIndex) <= k < CharStart(lines, sections[j].endIndex + 1)
    requires k < |Join(lines)| && !IsWhitespace(Join(lines)[k])
    ensures Shown(Join(lines), Flatten(Packets(lines, sections, maxChars, overlap), |sections|), k)
  {
    var packets := Packets(lines, sections, maxChars, overlap);
    var w := WindowOfChar(lines, sections[j], LimitsFor(SectionMetadata(sections[j]), maxChars, overlap), k);
    var m :| 0 <= m < |packets[j].windows| && packets[j].windows[m] == w;
    var i := WindowsAreCarried(packets, |packets|, j, m);
    var fs := Flatten(packets, |packets|);
    assert fs[i] in fs && Holds(Join(lines), fs[i].chunk, k);
  }

  lemma WindowOfChar(lines: seq<string>, s: Section, limits: ChunkLimits, k: nat) returns (w: Chunk)
    requires Within(lines, s) && Unbroken(lines) && limits.maxChars > 0
    requires CharStart(lines, s.startIndex) <= k < CharStart(lines, s.endIndex + 1)
    requires k < |Join(lines)| && !IsWhitespace(Join(lines)[k])
    ensures w in WindowsOf(lines, s, limits) && Holds(Join(lines), w, k)
  {
    WindowsAreGood(lines, s, limits);
    assert Held(Join(lines), WindowsOf(lines, s, limits), k);
    w :| w in WindowsOf(lines, s, limits) && Holds(Join(lines), w, k);
  }

  lemma TextIsShown(lines: seq<string>, hs: seq<Heading>, maxChars: nat, overlap: nat)
    requires hs != [] && Placed(lines, hs) && Unbroken(lines)
    ensures AllShown(Join(lines), AllFragments(lines, hs, maxChars, overlap))
  {
    var sections, first := SectionsOf(lines, hs), FirstLine(lines, hs);
    SectionsPartitionTheLines(lines, hs);
    LinesAreSeparated(lines, |lines|);
    var fs := AllFragments(lines, hs, maxChars, overlap);
    forall k: nat | k < |Join(lines)| && !IsWhitespace(Join(lines)[k]) ensures Shown(Join(lines), fs, k) {
      if k < CharStart(lines, first) {
        BlankLinesAreBlank(lines, first, k);
      } else {
        var j := SectionOfChar(lines, sections, first, |sections|, k);
        CharIsShown(lines, sections, j, maxChars, overlap, k);
      }
    }
  }

  lemma FragmentIsGood(lines: seq<string>, hs: seq<Heading>, maxChars: nat, overlap: nat, f: Fragment)
    requires hs != [] && Placed(lines, hs) && Unbroken(lines) && maxChars > 0
    requires f in AllFragments(lines, hs, maxChars, overlap)
    ensures Embeds(f, maxChars) && ShowsSource(Join(lines), f)
  {
    SectionsPartitionTheLines(lines, hs);
    var sections := SectionsOf(lines, hs);
    var packets := Packets(lines, sections, maxChars, overlap);
    var i :| 0 <= i < |Flatten(packets, |packets|)| && Flatten(packets, |packets|)[i] == f;
    var k := FragmentsComeFrom(packets, |packets|, i);
    assert sections[k] in sections;
    FromSectionIsGood(lines, sections[k], maxChars, overlap, f);
  }

  lemma FragmentsAreGrouped(lines: seq<string>, hs: seq<Heading>, maxChars: nat, overlap: nat)
    requires hs != [] && Placed(lines, hs) && Unbroken(lines)
    ensures Grouped(AllFragments(lines, hs, maxChars, overlap))
  {
    SectionsPartitionTheLines(lines, hs);
    var sections := SectionsOf(lines, hs);
    var packets := Packets(lines, sections, maxChars, overlap);
    forall k | 0 <= k < |packets| ensures Enclosed(packets[k]) {
      assert sections[k] in sections;
      var m := SectionMetadata(sections[k]);
      assert packets[k] == PacketOf(lines, sections[k], maxChars, overlap);
      WindowsInOutline(lines, sections[k], LimitsFor(m, maxChars, overlap), packets[k]);
    }
    FlattenIsGrouped(packets, |packets|);
  }

  /** What extraction promises: every fragment embeds within the budget, header included, and, outlines aside, is
      exactly the source at its byte range; groups belong to an outline that contains them; and every character of
      the text that is not whitespace is shown, across preamble, sections and over-long lines. */
  lemma ExtractionIsFaithful(text: string, maxChars: nat, overlap: nat)
    requires maxChars > 0 && ExtractMarkdown(text, maxChars, overlap).Some?
    ensures var fs := ExtractMarkdown(text, maxChars, overlap).value;
      && (forall f :: f in fs ==> Embeds(f, maxChars) && ShowsSource(text, f))
      && Grouped(fs)
      && AllShown(text, fs)
  {
    var lines := Split(text);
    var hs := HeadingsUpTo(lines, |lines|);
    SplitThenJoin(text);
    HeadingsAreOrdered(lines, |lines|);
    forall f | f in AllFragments(lines, hs, maxChars, overlap) ensures Embeds(f, maxChars) && ShowsSource(text, f) {
      FragmentIsGood(lines, hs, maxChars, overlap, f);
    }
    FragmentsAreGrouped(lines, hs, maxChars, overlap);
    TextIsShown(lines, hs, maxChars, overlap);
  }

  /** The plain-text fallback is taken exactly when there is no heading: the check for an empty result never
      fires, because a heading's own line always shows. */
  lemma FallbackExactlyWithoutHeadings(text: string, maxChars: nat, overlap: nat)
    ensures ExtractMarkdown(text, maxChars, overlap) == None <==>
      HeadingsUpTo(Split(text), |Split(text)|) == []
  {
    var lines := Split(text);
    var hs := HeadingsUpTo(lines, |lines|);
    if hs != [] {
      SplitThenJoin(text);
      HeadingsAreOrdered(lines, |lines|);
      TextIsShown(lines, hs, maxChars, overlap);
      NoHeadingIsFenced(lines, 0);
      var k := FilledLineShows(lines, hs[0].lineIndex);
      assert Shown(text, AllFragments(lines, hs, maxChars, overlap), k);
    }
  }
}
