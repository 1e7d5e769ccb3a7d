/** The plain-text chunker as the loops that run. */
module TextExtractor {
  import opened Texts
  import opened Chunks
  import opened TextChunks

  function OffsetsUpTo(lines: seq<string>, n: nat): seq<nat>
    requires n <= |lines|
  {
    if n == 0 then [] else OffsetsUpTo(lines, n - 1) + [ByteStart(lines, n - 1)]
  }

  lemma {:induction false} OffsetAt(lines: seq<string>, n: nat, i: nat)
    requires i < n <= |lines|
    ensures |OffsetsUpTo(lines, n)| == n && OffsetsUpTo(lines, n)[i] == ByteStart(lines, i)
  {
    if n <= 1 {
    } else {
      OffsetAt(lines, n - 1, if i < n - 1 then i else 0);
    }
  }

  /** `offsets` lists where each line starts, in bytes. */
  ghost predicate AreOffsets(lines: seq<string>, offsets: seq<nat>) {
    |offsets| == |lines| && forall i {:trigger offsets[i]} :: 0 <= i < |lines| ==> offsets[i] == ByteStart(lines, i)
  }

  /** `counts` lists how many characters each line has. */
  ghost predicate AreCounts(lines: seq<string>, counts: seq<nat>) {
    |counts| == |lines| && forall i {:trigger counts[i]} :: 0 <= i < |lines| ==> counts[i] == |lines[i]|
  }

  method ComputeLineOffsets(lines: seq<string>) returns (offsets: seq<nat>)
    ensures AreOffsets(lines, offsets)
  {
    offsets := [];
    var offset := 0;
    for i := 0 to |lines|
      invariant offsets == OffsetsUpTo(lines, i) && offset == ByteStart(lines, i)
    {
      offsets := offsets + [offset];
      offset := offset + Bytes(lines[i]) + 1;
    }
    forall i | 0 <= i < |lines| ensures |offsets| == |lines| && offsets[i] == ByteStart(lines, i) {
      OffsetAt(lines, |lines|, i);
    }
  }

  method CountLineChars(lines: seq<string>) returns (counts: seq<nat>)
    ensures AreCounts(lines, counts)
  {
    counts := [];
    for i := 0 to |lines|
      invariant |counts| == i
      invariant forall k :: 0 <= k < i ==> counts[k] == |lines[k]|
    {
      counts := counts + [|lines[i]|];
    }
  }

  /** The best cut of the line from `from` on, in one pass over the last 30% of the window. */
  method FindLineCut(line: string, from: nat, maxChars: nat) returns (cut: nat)
    requires from <= |line| && maxChars > 0
    ensures from + cut == SliceEnd(line, from, maxChars)
  {
    if |line| - from <= maxChars {
      return |line| - from;
    }
    var bestPosition, bestScore := 0, 0;
    var lo := from + SearchFrom(maxChars);
    for index := lo to from + maxChars
      invariant bestPosition == BestBreak(line, lo, index)
      invariant bestScore == if bestPosition == 0 then 0 else BreakScore(line[bestPosition - 1])
    {
      var score := BreakScore(line[index]);
      if score > 0 && score >= bestScore {
        bestScore := score;
        bestPosition := index + 1;
      }
    }
    cut := if bestPosition > 0 then bestPosition - from else maxChars;
  }

  /** The slices of line `i` from `from` on, pushed one by one onto what is kept already. */
  function PushSlices(kept: seq<Chunk>, lines: seq<string>, i: nat, from: nat, maxChars: nat): seq<Chunk>
    requires i < |lines| && from <= |lines[i]| && maxChars > 0
    decreases |lines[i]| - from
  {
    if from == |lines[i]| then kept
    else
      var to := SliceEnd(lines[i], from, maxChars);
      PushSlices(Push(kept, LinePiece(lines, i, from, to)), lines, i, to, maxChars)
  }

  lemma PushedSlice(
      kept: seq<Chunk>, lines: seq<string>, i: nat, from: nat, maxChars: nat, to: nat, chunks: seq<Chunk>)
    requires i < |lines| && from < |lines[i]| && maxChars > 0 && to == SliceEnd(lines[i], from, maxChars)
    requires chunks == Push(kept, LinePiece(lines, i, from, to))
    ensures from < to <= |lines[i]|
    ensures PushSlices(chunks, lines, i, to, maxChars) == PushSlices(kept, lines, i, from, maxChars)
  {
  }

  lemma {:induction false} PushSlicesAppends(kept: seq<Chunk>, lines: seq<string>, i: nat, from: nat, maxChars: nat)
    requires i < |lines| && from <= |lines[i]| && maxChars > 0
    ensures PushSlices(kept, lines, i, from, maxChars) == kept + Filled(LinePieces(lines, i, from, maxChars))
    decreases |lines[i]| - from
  {
    if from >= |lines[i]| {
    } else {
      var to := SliceEnd(lines[i], from, maxChars);
      var c, rest := LinePiece(lines, i, from, to), LinePieces(lines, i, to, maxChars);
      PushSlicesAppends(Push(kept, c), lines, i, to, maxChars);
      PushThenRest(kept, c, rest);
    }
  }

  lemma PushedSlices(lines: seq<string>, i: nat, maxChars: nat)
    requires i < |lines| && maxChars > 0
    ensures PushSlices([], lines, i, 0, maxChars) == Filled(LinePieces(lines, i, 0, maxChars))
  {
    PushSlicesAppends([], lines, i, 0, maxChars);
  }

  /** The next slice of a line, from where both cursors stand. */
  method NextSlice(lines: seq<string>, i: nat, offset: nat, charCursor: nat, byteCursor: nat, maxChars: nat)
    returns (slice: Chunk, cutChars: nat, cutBytes: nat)
    requires i < |lines| && offset == ByteStart(lines, i) && maxChars > 0
    requires charCursor < |lines[i]| && byteCursor == BytesTo(lines[i], charCursor)
    ensures charCursor + cutChars == SliceEnd(lines[i], charCursor, maxChars)
    ensures byteCursor + cutBytes == BytesTo(lines[i], charCursor + cutChars)
    ensures slice == LinePiece(lines, i, charCursor, charCursor + cutChars)
  {
    cutChars := FindLineCut(lines[i], charCursor, maxChars);
    var text := Sub(lines[i], charCursor, charCursor + cutChars);
    cutBytes := Bytes(text);
    CursorsMove(lines[i], charCursor, charCursor + cutChars);
    slice := Chunk(text, i + 1, i + 1, offset + byteCursor, offset + byteCursor + cutBytes);
  }

  /** One slice more; `charCursor` and `byteCursor` move past it. */
  method PushSlice(
      kept: seq<Chunk>, lines: seq<string>, i: nat, offset: nat, charCursor: nat, byteCursor: nat, maxChars: nat)
    returns (chunks: seq<Chunk>, nextChar: nat, nextByte: nat)
    requires i < |lines| && offset == ByteStart(lines, i) && maxChars > 0
    requires charCursor < |lines[i]| && byteCursor == BytesTo(lines[i], charCursor)
    ensures charCursor < nextChar <= |lines[i]| && nextByte == BytesTo(lines[i], nextChar)
    ensures PushSlices(chunks, lines, i, nextChar, maxChars) == PushSlices(kept, lines, i, charCursor, maxChars)
  {
    var slice, cutChars, cutBytes := NextSlice(lines, i, offset, charCursor, byteCursor, maxChars);
    chunks, nextChar, nextByte := Push(kept, slice), charCursor + cutChars, byteCursor + cutBytes;
    PushedSlice(kept, lines, i, charCursor, maxChars, nextChar, chunks);
  }

  /** The slices of line `i`, blank ones dropped as they come. */
  method SplitLongLine(lines: seq<string>, i: nat, offset: nat, maxChars: nat) returns (chunks: seq<Chunk>)
    requires i < |lines| && offset == ByteStart(lines, i) && maxChars > 0
    ensures chunks == PushSlices([], lines, i, 0, maxChars)
  {
    chunks := [];
    var charCursor, byteCursor := 0, 0;
    while charCursor < |lines[i]|
      invariant charCursor <= |lines[i]| && byteCursor == BytesTo(lines[i], charCursor)
      invariant PushSlices(chunks, lines, i, charCursor, maxChars) == PushSlices([], lines, i, 0, maxChars)
    {
      chunks, charCursor, byteCursor := PushSlice(chunks, lines, i, offset, charCursor, byteCursor, maxChars);
    }
  }

  /** The last line of the window that starts at `start`, exclusive. */
  method FindWindowEnd(lines: seq<string>, lineChars: seq<nat>, start: nat, stop: nat, maxChars: nat)
    returns (end: nat)
    requires start <= stop <= |lines| && AreCounts(lines, lineChars)
    ensures end == WindowEnd(lines, start, start, stop, maxChars)
  {
    end := start;
    var usedChars := 0;
    while end < stop
      invariant start <= end <= stop && usedChars == Used(lines, start, end)
      invariant WindowEnd(lines, start, end, stop, maxChars) == WindowEnd(lines, start, start, stop, maxChars)
    {
      var lineLength := lineChars[end] + 1;
      if usedChars + lineLength > maxChars && end > start {
        return;
      }
      usedChars := usedChars + lineLength;
      end := end + 1;
    }
  }

  /** The start of the next window, walking back over the overlap. */
  method ComputeNextStartLine(lines: seq<string>, lineChars: seq<nat>, start: nat, end: nat, overlap: nat)
    returns (next: nat)
    requires start < end <= |lines| && AreCounts(lines, lineChars)
    ensures next == NextStart(lines, start, end, overlap)
  {
    if overlap == 0 {
      return end;
    }
    var overlapLines, overlapCount, index := 0, 0, end;
    while index > start && overlapCount < overlap
      invariant start <= index <= end && overlapLines == end - index && overlapCount == Used(lines, index, end)
      invariant OverlapStart(lines, start, index, end, overlap) == OverlapStart(lines, start, end, end, overlap)
      decreases index
    {
      index := index - 1;
      UsedSplits(lines, index, end);
      overlapCount := overlapCount + lineChars[index] + 1;
      overlapLines := overlapLines + 1;
    }
    next := end - overlapLines;
    if next <= start {
      next := end;
    }
  }

  /** The chunks from line `start` on, pushed round by round onto what is kept already. */
  function PushWindows(kept: seq<Chunk>, lines: seq<string>, start: nat, maxChars: nat, overlap: nat): seq<Chunk>
    requires start <= |lines| && maxChars > 0
    decreases |lines| - start
  {
    if start == |lines| then kept
    else if |lines[start]| + 1 > maxChars then
      PushWindows(kept + PushSlices([], lines, start, 0, maxChars), lines, start + 1, maxChars, overlap)
    else
      WindowEndIsGreedy(lines, start, start, |lines|, maxChars);
      var end := WindowEnd(lines, start, start, |lines|, maxChars);
      var next := if end == |lines| then end else NextStart(lines, start, end, overlap);
      PushWindows(Push(kept, LineWindow(lines, start, end)), lines, next, maxChars, overlap)
  }

  lemma SlicesRound(
      kept: seq<Chunk>, lines: seq<string>, start: nat, maxChars: nat, overlap: nat, slices: seq<Chunk>)
    requires start < |lines| && maxChars > 0 && |lines[start]| + 1 > maxChars
    requires slices == PushSlices([], lines, start, 0, maxChars)
    ensures PushWindows(kept + slices, lines, start + 1, maxChars, overlap) ==
      PushWindows(kept, lines, start, maxChars, overlap)
  {
  }

  lemma WindowRound(
      kept: seq<Chunk>, lines: seq<string>, start: nat, maxChars: nat, overlap: nat, end: nat, next: nat)
    requires start < |lines| && maxChars > 0 && |lines[start]| + 1 <= maxChars
    requires end == WindowEnd(lines, start, start, |lines|, maxChars) && start < end <= |lines|
    requires next == if end == |lines| then end else NextStart(lines, start, end, overlap)
    ensures start < next <= |lines|
    ensures PushWindows(Push(kept, LineWindow(lines, start, end)), lines, next, maxChars, overlap) ==
      PushWindows(kept, lines, start, maxChars, overlap)
  {
  }

  lemma {:induction false} PushWindowsAppends(
      kept: seq<Chunk>, lines: seq<string>, start: nat, maxChars: nat, overlap: nat)
    requires start <= |lines| && maxChars > 0
    ensures PushWindows(kept, lines, start, maxChars, overlap) ==
      kept + Filled(TextWindows(lines, start, maxChars, overlap))
    decreases |lines| - start
  {
    if start == |lines| {
    } else if |lines[start]| + 1 > maxChars {
      var pieces := LinePieces(lines, start, 0, maxChars);
      PushedSlices(lines, start, maxChars);
      PushWindowsAppends(kept + Filled(pieces), lines, start + 1, maxChars, overlap);
      PushAll(kept, pieces, TextWindows(lines, start + 1, maxChars, overlap));
    } else {
      WindowEndIsGreedy(lines, start, start, |lines|, maxChars);
      var end := WindowEnd(lines, start, start, |lines|, maxChars);
      var next := if end == |lines| then end else NextStart(lines, start, end, overlap);
      PushWindowsAppends(Push(kept, LineWindow(lines, start, end)), lines, next, maxChars, overlap);
      PushThenRest(kept, LineWindow(lines, start, end), TextWindows(lines, next, maxChars, overlap));
    }
  }

  lemma PushedWindows(text: string, maxChars: nat, overlap: nat)
    requires maxChars > 0
    ensures PushWindows([], Split(text), 0, maxChars, overlap) == TextChunks.ChunkText(text, maxChars, overlap)
  {
    NoChunksExactlyWhenBlank(text, maxChars, overlap);
    PushWindowsAppends([], Split(text), 0, maxChars, overlap);
  }

  /** Lines `start` to `end - 1` as a chunk. */
  method WindowAt(lines: seq<string>, lineOffsets: seq<nat>, start: nat, end: nat) returns (window: Chunk)
    requires start < end <= |lines| && AreOffsets(lines, lineOffsets)
    ensures window == LineWindow(lines, start, end)
  {
    window := Chunk(JoinLines(lines, start, end), start + 1, end, lineOffsets[start],
      lineOffsets[end - 1] + Bytes(lines[end - 1]));
  }

  /** The window that starts at `start`, and where the next one starts. */
  method NextWindow(lines: seq<string>, lineOffsets: seq<nat>, lineChars: seq<nat>, start: nat,
      maxChars: nat, overlap: nat)
    returns (window: Chunk, next: nat)
    requires start < |lines| && AreOffsets(lines, lineOffsets) && AreCounts(lines, lineChars)
    requires |lines[start]| + 1 <= maxChars
    ensures var end := WindowEnd(lines, start, start, |lines|, maxChars);
      start < end <= |lines| && window == LineWindow(lines, start, end) &&
      next == if end == |lines| then end else NextStart(lines, start, end, overlap)
  {
    WindowEndIsGreedy(lines, start, start, |lines|, maxChars);
    var end := FindWindowEnd(lines, lineChars, start, |lines|, maxChars);
    window := WindowAt(lines, lineOffsets, start, end);
    next := end;
    if end < |lines| {
      next := ComputeNextStartLine(lines, lineChars, start, end, overlap);
    }
  }

  /** The whole chunker. */
  method Extract(text: string, maxChars: nat, overlap: nat) returns (chunks: seq<Chunk>)
    requires maxChars > 0
    ensures chunks == TextChunks.ChunkText(text, maxChars, overlap)
  {
    if Blank(text) {
      return [];
    }
    var lines := Split(text);
    PushedWindows(text, maxChars, overlap);
    chunks := ChunkLines(lines, maxChars, overlap);
  }

  /** One round: an over-long line is sliced, otherwise a window is taken. */
  method Round(kept: seq<Chunk>, lines: seq<string>, lineOffsets: seq<nat>, lineChars: seq<nat>, start: nat,
      maxChars: nat, overlap: nat)
    returns (chunks: seq<Chunk>, next: nat)
    requires start < |lines| && AreOffsets(lines, lineOffsets) && AreCounts(lines, lineChars) && maxChars > 0
    ensures start < next <= |lines|
    ensures PushWindows(chunks, lines, next, maxChars, overlap) == PushWindows(kept, lines, start, maxChars, overlap)
  {
    if lineChars[start] + 1 > maxChars {
      var slices := SplitLongLine(lines, start, lineOffsets[start], maxChars);
      SlicesRound(kept, lines, start, maxChars, overlap, slices);
      chunks, next := kept + slices, start + 1;
    } else {
      var window;
      window, next := NextWindow(lines, lineOffsets, lineChars, start, maxChars, overlap);
      WindowRound(kept, lines, start, maxChars, overlap, WindowEnd(lines, start, start, |lines|, maxChars), next);
      chunks := Push(kept, window);
    }
  }

  /** Windows of lines in turn, over-long lines sliced, blank chunks dropped as they come. */
  method ChunkLines(lines: seq<string>, maxChars: nat, overlap: nat) returns (chunks: seq<Chunk>)
    requires maxChars > 0
    ensures chunks == PushWindows([], lines, 0, maxChars, overlap)
  {
    chunks := [];
    var lineOffsets := ComputeLineOffsets(lines);
    var lineChars := CountLineChars(lines);
    var start := 0;
    while start < |lines|
      invariant start <= |lines|
      invariant PushWindows(chunks, lines, start, maxChars, overlap) == PushWindows([], lines, 0, maxChars, overlap)
      decreases |lines| - start
    {
      chunks, start := Round(chunks, lines, lineOffsets, lineChars, start, maxChars, overlap);
    }
  }
}
