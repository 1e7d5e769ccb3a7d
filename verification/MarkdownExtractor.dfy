/** The markdown extractor as the loops that run. */
module MarkdownExtractor {
  import opened Options
  import opened Texts
  import opened Chunks
  import opened TextExtractor
  import opened VectorContent
  import opened MarkdownHeadings
  import opened MarkdownSections
  import opened MarkdownWindows
  import opened MarkdownFragments

  /** The break that scores highest, in one pass that starts from the greedy end. */
  method ChooseMarkdownBreak(lines: seq<string>, inFence: seq<bool>, start: nat, end: nat, ghost scores: seq<nat>)
    returns (best: nat)
    requires start + 1 < end <= |lines| && AreFences(lines, inFence) && AreScores(lines, scores)
    ensures best == ChooseBreak(scores, start, end)
  {
    var minBreak := FirstBreak(start, end);
    best := end;
    var bestScore := BreakScoreOf(lines, inFence, end, scores);
    for index := minBreak to end + 1
      invariant best == BestBreakUpTo(scores, minBreak, index, end) && bestScore == scores[best]
    {
      var score := BreakScoreOf(lines, inFence, index, scores);
      if score > bestScore {
        best := index;
        bestScore := score;
      }
    }
  }

  /** A break's score from the marked fence lines. */
  method BreakScoreOf(lines: seq<string>, inFence: seq<bool>, i: nat, ghost scores: seq<nat>) returns (score: nat)
    requires i <= |lines| && AreFences(lines, inFence) && AreScores(lines, scores)
    ensures score == scores[i]
  {
    assert scores[i] == MarkdownBreakScore(lines, i);
    if i == 0 || i >= |lines| || inFence[i] {
      return 0;
    }
    score := OpenBreakScore(Trim(lines[i]), Trim(lines[i - 1]));
  }

  /** How many trailing lines the next window repeats. */
  method ComputeMarkdownOverlapLines(lines: seq<string>, start: nat, end: nat, overlap: nat) returns (count: nat)
    requires start < end <= |lines|
    ensures count == OverlapLines(lines, start, end, overlap)
  {
    if overlap == 0 {
      return 0;
    }
    var chars := 0;
    count := 0;
    var index := end - 1;
    while index > start
      invariant start <= index && index == end - 1 - count && chars == Used(lines, end - count, end)
      invariant OverlapCount(lines, start, end, overlap, count) == OverlapCount(lines, start, end, overlap, 0)
    {
      TextChunks.UsedSplits(lines, index, end);
      chars := chars + |lines[index]| + 1;
      if chars > overlap {
        break;
      }
      count := count + 1;
      index := index - 1;
    }
    count := Min(count, (end - start) / 2);
  }

  /** The slices of line `i` from `from` on, added one by one to those taken already. */
  function AddSlices(done: seq<Chunk>, lines: seq<string>, i: nat, from: nat, maxChars: nat): seq<Chunk>
    requires i < |lines| && from <= |lines[i]| && maxChars > 0
    decreases |lines[i]| - from
  {
    if from == |lines[i]| then done
    else
      var to := SliceEnd(lines[i], from, maxChars);
      AddSlices(done + [LinePiece(lines, i, from, to)], lines, i, to, maxChars)
  }

  lemma {:induction false} AddSlicesAppends(done: seq<Chunk>, lines: seq<string>, i: nat, from: nat, maxChars: nat)
    requires i < |lines| && from <= |lines[i]| && maxChars > 0
    ensures AddSlices(done, lines, i, from, maxChars) == done + LinePieces(lines, i, from, maxChars)
    decreases |lines[i]| - from
  {
    if from >= |lines[i]| {
    } else {
      var to := SliceEnd(lines[i], from, maxChars);
      var c := LinePiece(lines, i, from, to);
      AddSlicesAppends(done + [c], lines, i, to, maxChars);
      ThenRest(done, [c], LinePieces(lines, i, to, maxChars), LinePieces(lines, i, from, maxChars));
    }
  }

  lemma AddedSlices(lines: seq<string>, i: nat, maxChars: nat)
    requires i < |lines| && maxChars > 0
    ensures AddSlices([], lines, i, 0, maxChars) == LinePieces(lines, i, 0, maxChars)
  {
    AddSlicesAppends([], lines, i, 0, maxChars);
  }

  /** The slices of an over-long line; blank ones stay until the section is done. */
  method SplitLongMarkdownLine(lines: seq<string>, i: nat, offset: nat, maxChars: nat) returns (windows: seq<Chunk>)
    requires i < |lines| && offset == ByteStart(lines, i) && maxChars > 0
    ensures windows == AddSlices([], lines, i, 0, maxChars)
  {
    windows := [];
    var charCursor, byteCursor := 0, 0;
    while charCursor < |lines[i]|
      invariant charCursor <= |lines[i]| && byteCursor == BytesTo(lines[i], charCursor)
      invariant AddSlices(windows, lines, i, charCursor, maxChars) == AddSlices([], lines, i, 0, maxChars)
    {
      var slice, cutChars, cutBytes := NextSlice(lines, i, offset, charCursor, byteCursor, maxChars);
      windows := windows + [slice];
      charCursor := charCursor + cutChars;
      byteCursor := byteCursor + cutBytes;
    }
  }

  /** The windows from line `start` on, added round by round to those taken already. */
  function AddWindows(done: seq<Chunk>, lines: seq<string>, start: nat, stop: nat, maxChars: nat, overlap: nat)
    : seq<Chunk>
    requires start <= stop <= |lines| && maxChars > 0
    decreases stop - start
  {
    if start == stop then done
    else if |lines[start]| + 1 > maxChars then
      AddWindows(done + AddSlices([], lines, start, 0, maxChars), lines, start + 1, stop, maxChars, overlap)
    else
      var end := SectionWindowEnd(lines, start, stop, maxChars);
      var next := if end == stop then stop else NextWindowStart(lines, start, end, overlap);
      AddWindows(done + [LineWindow(lines, start, end)], lines, next, stop, maxChars, overlap)
  }

  /** One round that adds the slices of a long line, and one that adds a window. */
  lemma AddedSlicesRound(
      done: seq<Chunk>, lines: seq<string>, start: nat, stop: nat, maxChars: nat, overlap: nat, slices: seq<Chunk>)
    requires start < stop <= |lines| && maxChars > 0 && |lines[start]| + 1 > maxChars
    requires slices == AddSlices([], lines, start, 0, maxChars)
    ensures AddWindows(done + slices, lines, start + 1, stop, maxChars, overlap) ==
      AddWindows(done, lines, start, stop, maxChars, overlap)
  {
  }

  lemma AddedWindowRound(
      done: seq<Chunk>, lines: seq<string>, start: nat, stop: nat, maxChars: nat, overlap: nat, end: nat, next: nat)
    requires start < stop <= |lines| && maxChars > 0 && |lines[start]| + 1 <= maxChars
    requires end == SectionWindowEnd(lines, start, stop, maxChars)
    requires next == if end == stop then stop else NextWindowStart(lines, start, end, overlap)
    ensures start < next <= stop
    ensures AddWindows(done + [LineWindow(lines, start, end)], lines, next, stop, maxChars, overlap) ==
      AddWindows(done, lines, start, stop, maxChars, overlap)
  {
  }

  lemma WindowsSliced(lines: seq<string>, start: nat, stop: nat, maxChars: nat, overlap: nat)
    requires start < stop <= |lines| && maxChars > 0 && |lines[start]| + 1 > maxChars
    ensures SectionWindows(lines, start, stop, maxChars, overlap) ==
      LinePieces(lines, start, 0, maxChars) + SectionWindows(lines, start + 1, stop, maxChars, overlap)
  {
  }

  lemma WindowsWindowed(
      lines: seq<string>, start: nat, stop: nat, maxChars: nat, overlap: nat, end: nat, next: nat)
    requires start < stop <= |lines| && maxChars > 0 && |lines[start]| + 1 <= maxChars
    requires end == SectionWindowEnd(lines, start, stop, maxChars)
    requires next == if end == stop then stop else NextWindowStart(lines, start, end, overlap)
    requires start < next <= stop
    ensures SectionWindows(lines, start, stop, maxChars, overlap) ==
      [LineWindow(lines, start, end)] + SectionWindows(lines, next, stop, maxChars, overlap)
  {
  }

  lemma {:induction false} AddWindowsAppends(
      done: seq<Chunk>, lines: seq<string>, start: nat, stop: nat, maxChars: nat, overlap: nat)
    requires start <= stop <= |lines| && maxChars > 0
    ensures AddWindows(done, lines, start, stop, maxChars, overlap) ==
      done + SectionWindows(lines, start, stop, maxChars, overlap)
    decreases stop - start
  {
    var all := SectionWindows(lines, start, stop, maxChars, overlap);
    if start == stop {
    } else if |lines[start]| + 1 > maxChars {
      var pieces := LinePieces(lines, start, 0, maxChars);
      AddedSlices(lines, start, maxChars);
      AddedSlicesRound(done, lines, start, stop, maxChars, overlap, pieces);
      AddWindowsAppends(done + pieces, lines, start + 1, stop, maxChars, overlap);
      WindowsSliced(lines, start, stop, maxChars, overlap);
      ThenRest(done, pieces, SectionWindows(lines, start + 1, stop, maxChars, overlap), all);
    } else {
      var end := SectionWindowEnd(lines, start, stop, maxChars);
      var next := if end == stop then stop else NextWindowStart(lines, start, end, overlap);
      var window := [LineWindow(lines, start, end)];
      AddedWindowRound(done, lines, start, stop, maxChars, overlap, end, next);
      AddWindowsAppends(done + window, lines, next, stop, maxChars, overlap);
      WindowsWindowed(lines, start, stop, maxChars, overlap, end, next);
      ThenRest(done, window, SectionWindows(lines, next, stop, maxChars, overlap), all);
    }
  }

  lemma AddedWindows(lines: seq<string>, start: nat, stop: nat, maxChars: nat, overlap: nat)
    requires start <= stop <= |lines| && maxChars > 0
    ensures AddWindows([], lines, start, stop, maxChars, overlap) ==
      SectionWindows(lines, start, stop, maxChars, overlap)
  {
    AddWindowsAppends([], lines, start, stop, maxChars, overlap);
  }

  lemma FilledWindows(lines: seq<string>, s: Section, limits: ChunkLimits, all: seq<Chunk>)
    requires Within(lines, s) && limits.maxChars > 0
    requires all == AddWindows([], lines, s.startIndex, s.endIndex + 1, limits.maxChars, limits.overlapChars)
    ensures Filled(all) == WindowsOf(lines, s, limits)
  {
    AddedWindows(lines, s.startIndex, s.endIndex + 1, limits.maxChars, limits.overlapChars);
  }

  method FindSectionWindowEnd(
      lines: seq<string>, lineChars: seq<nat>, inFence: seq<bool>, start: nat, stop: nat, maxChars: nat)
    returns (end: nat)
    requires start < stop <= |lines| && AreCounts(lines, lineChars) && AreFences(lines, inFence)
    ensures end == SectionWindowEnd(lines, start, stop, maxChars)
  {
    WindowEndIsGreedy(lines, start, start, stop, maxChars);
    end := FindWindowEnd(lines, lineChars, start, stop, maxChars);
    if end < stop && end - start > 1 {
      end := ChooseMarkdownBreak(lines, inFence, start, end, Scores(lines));
    }
  }

  /** The window that starts at `start`, and where the next one starts. The guard that would put the next start to
      `end` is left out: `NextWindowStart` shows that it never fires. */
  method NextSectionWindow(lines: seq<string>, lineOffsets: seq<nat>, lineChars: seq<nat>, inFence: seq<bool>,
      start: nat, stop: nat, maxChars: nat, overlap: nat)
    returns (window: Chunk, next: nat)
    requires start < stop <= |lines|
    requires AreOffsets(lines, lineOffsets) && AreCounts(lines, lineChars) && AreFences(lines, inFence)
    ensures var end := SectionWindowEnd(lines, start, stop, maxChars);
      window == LineWindow(lines, start, end) &&
      next == if end == stop then stop else NextWindowStart(lines, start, end, overlap)
  {
    var end := FindSectionWindowEnd(lines, lineChars, inFence, start, stop, maxChars);
    window := WindowAt(lines, lineOffsets, start, end);
    next := stop;
    if end < stop {
      var repeated := ComputeMarkdownOverlapLines(lines, start, end, overlap);
      next := end - repeated;
    }
  }

  /** One round: an over-long line is sliced, otherwise a window is taken. */
  method Round(lines: seq<string>, lineOffsets: seq<nat>, lineChars: seq<nat>, inFence: seq<bool>,
      start: nat, stop: nat, maxChars: nat, overlap: nat, ghost done: seq<Chunk>)
    returns (added: seq<Chunk>, next: nat)
    requires start < stop <= |lines| && maxChars > 0
    requires AreOffsets(lines, lineOffsets) && AreCounts(lines, lineChars) && AreFences(lines, inFence)
    ensures start < next <= stop
    ensures AddWindows(done + added, lines, next, stop, maxChars, overlap) ==
      AddWindows(done, lines, start, stop, maxChars, overlap)
  {
    if lineChars[start] + 1 > maxChars {
      added := SplitLongMarkdownLine(lines, start, lineOffsets[start], maxChars);
      next := start + 1;
      AddedSlicesRound(done, lines, start, stop, maxChars, overlap, added);
    } else {
      var window;
      window, next := NextSectionWindow(lines, lineOffsets, lineChars, inFence, start, stop, maxChars, overlap);
      added := [window];
      AddedWindowRound(done, lines, start, stop, maxChars, overlap,
        SectionWindowEnd(lines, start, stop, maxChars), next);
    }
  }

  /** The windows of one section: greedy, moved back to a break, overlapping. */
  method SplitLines(lines: seq<string>, lineOffsets: seq<nat>, inFence: seq<bool>, first: nat, stop: nat,
      maxChars: nat, overlap: nat)
    returns (windows: seq<Chunk>)
    requires first <= stop <= |lines| && maxChars > 0
    requires AreOffsets(lines, lineOffsets) && AreFences(lines, inFence)
    ensures windows == AddWindows([], lines, first, stop, maxChars, overlap)
  {
    var lineChars := CountLineChars(lines);
    windows := [];
    var start := first;
    while start < stop
      invariant start <= stop
      invariant AddWindows(windows, lines, start, stop, maxChars, overlap) ==
        AddWindows([], lines, first, stop, maxChars, overlap)
      decreases stop - start
    {
      var added, next :=
        Round(lines, lineOffsets, lineChars, inFence, start, stop, maxChars, overlap, windows);
      windows := windows + added;
      start := next;
    }
  }

  /** The windows of one section, blank ones dropped at the end. */
  method SplitMarkdownSection(
      lines: seq<string>, lineOffsets: seq<nat>, inFence: seq<bool>, s: Section, limits: ChunkLimits)
    returns (windows: seq<Chunk>)
    requires Within(lines, s) && limits.maxChars > 0
    requires AreOffsets(lines, lineOffsets) && AreFences(lines, inFence)
    ensures windows == WindowsOf(lines, s, limits)
  {
    var all :=
      SplitLines(lines, lineOffsets, inFence, s.startIndex, s.endIndex + 1, limits.maxChars, limits.overlapChars);
    FilledWindows(lines, s, limits, all);
    windows := DropBlank(all);
  }

  method DropBlank(windows: seq<Chunk>) returns (kept: seq<Chunk>)
    ensures kept == Filled(windows)
  {
    kept := [];
    for k := 0 to |windows|
      invariant kept + Filled(windows[k..]) == Filled(windows)
    {
      PushThenRest(kept, windows[k], windows[k + 1..]);
      assert windows[k..] == [windows[k]] + windows[k + 1..];
      kept := Push(kept, windows[k]);
    }
  }

  /** What section `k` contributes, under limits that leave room for its metadata. */
  method ExtractSection(lines: seq<string>, lineOffsets: seq<nat>, inFence: seq<bool>, sections: seq<Section>, k: nat,
      maxChars: nat, overlap: nat, ghost packets: seq<Packet>)
    returns (packet: Packet)
    requires k < |sections| && AllWithinLines(lines, sections)
    requires AreOffsets(lines, lineOffsets) && AreFences(lines, inFence)
    requires ArePackets(lines, sections, maxChars, overlap, packets)
    ensures packet == packets[k]
  {
    assert sections[k] in sections;
    var metadata := SectionMetadata(sections[k]);
    var limits := LimitsFor(metadata, maxChars, overlap);
    var windows := SplitMarkdownSection(lines, lineOffsets, inFence, sections[k], limits);
    packet := Packet(windows, OutlineOf(lines, sections[k], metadata, limits), metadata);
    assert packet == PacketOf(lines, sections[k], maxChars, overlap);
  }

  /** Numbers the fragments of one section; several windows get an outline in front. */
  method PushPacket(fragments: seq<Fragment>, packet: Packet) returns (more: seq<Fragment>)
    ensures |more| == |fragments| + Size(packet)
    ensures forall i :: 0 <= i < |fragments| ==> more[i] == fragments[i]
    ensures forall i :: 0 <= i < Size(packet) ==> more[|fragments| + i] == MemberAt(packet, |fragments|, i)
  {
    var firstId, group := |fragments|, None;
    more := fragments;
    if |packet.windows| > 1 {
      group := Some(firstId);
      more := more + [Fragment(firstId, packet.outline, packet.metadata, group)];
    }
    for k := 0 to |packet.windows|
      invariant |more| == firstId + k + Size(packet) - |packet.windows|
      invariant forall i :: 0 <= i < firstId ==> more[i] == fragments[i]
      invariant forall i :: firstId <= i < |more| ==> more[i] == MemberAt(packet, firstId, i - firstId)
    {
      more := more + [Fragment(|more|, packet.windows[k], packet.metadata, group)];
    }
  }

  /** Sections in order, each fragment numbered by its place. */
  method Extract(text: string, maxChars: nat, overlap: nat) returns (result: Option<seq<Fragment>>)
    requires maxChars > 0
    ensures result == ExtractMarkdown(text, maxChars, overlap)
  {
    var lines := Split(text);
    var headings := ScanHeadings(lines);
    HeadingsAreOrdered(lines, |lines|);
    if headings == [] {
      return None;
    }
    SectionsPartitionTheLines(lines, headings);
    var sections := BuildSections(headings, lines);
    var fragments := ExtractSections(lines, sections, maxChars, overlap,
      Packets(lines, sections, maxChars, overlap));
    result := if fragments == [] then None else Some(fragments);
  }

  method ExtractSections(
      lines: seq<string>, sections: seq<Section>, maxChars: nat, overlap: nat, ghost packets: seq<Packet>)
    returns (fragments: seq<Fragment>)
    requires AllWithinLines(lines, sections) && ArePackets(lines, sections, maxChars, overlap, packets)
    ensures fragments == Flatten(packets, |sections|)
  {
    var lineOffsets := ComputeLineOffsets(lines);
    var fenceLines := ComputeFenceLines(lines);
    fragments := [];
    for k := 0 to |sections|
      invariant fragments == Flatten(packets, k)
    {
      var packet := ExtractSection(lines, lineOffsets, fenceLines, sections, k, maxChars, overlap, packets);
      fragments := PushPacket(fragments, packet);
    }
  }
}
