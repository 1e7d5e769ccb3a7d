/** The plain-text chunker as functions of the text, and what it promises. */
module TextChunks {
  import opened Options
  import opened Texts
  import opened Chunks

  const DEFAULT_MAX_CHUNK_CHARS: nat := 3600
  const DEFAULT_OVERLAP_CHARS: nat := 540

  datatype ChunkOptions = ChunkOptions(maxChunkChars: Option<nat>, overlapChars: Option<nat>)

  datatype ChunkError = InvalidChunkSize | InvalidChunkOverlap

  datatype Resolved = Usable(maxChars: nat, overlapChars: nat) | Refused(error: ChunkError)

  function Or(o: Option<nat>, default: nat): nat {
    if o.Some? then o.value else default
  }

  function ResolveOptions(options: ChunkOptions): (r: Resolved)
    ensures r.Usable? ==> r.overlapChars < r.maxChars
    ensures options.maxChunkChars.Some? && options.overlapChars == None ==>
      (r.Usable? <==> options.maxChunkChars.value > DEFAULT_OVERLAP_CHARS)
    ensures options.maxChunkChars == None && options.overlapChars.Some? ==>
      (r.Usable? <==> options.overlapChars.value < DEFAULT_MAX_CHUNK_CHARS)
  {
    var maxChars := Or(options.maxChunkChars, DEFAULT_MAX_CHUNK_CHARS);
    var overlap := Or(options.overlapChars, DEFAULT_OVERLAP_CHARS);
    if maxChars == 0 then Refused(InvalidChunkSize)
    else if overlap >= maxChars then Refused(InvalidChunkOverlap)
    else Usable(maxChars, overlap)
  }

  /** Without a size it is 3600, without an overlap 540; a size of zero is refused, and so is an overlap that is not
      smaller than the size. */
  lemma ResolvesExactly(options: ChunkOptions)
    ensures
      var size := if options.maxChunkChars == None then 3600 else options.maxChunkChars.value;
      var overlap := if options.overlapChars == None then 540 else options.overlapChars.value;
      && (ResolveOptions(options) == Refused(InvalidChunkSize) <==> size == 0)
      && (ResolveOptions(options) == Refused(InvalidChunkOverlap) <==> 0 < size <= overlap)
      && (ResolveOptions(options).Usable? <==> overlap < size)
      && (overlap < size ==> ResolveOptions(options) == Usable(size, overlap))
  {
  }

  /** Walks back from `index` until the lines up to `end` carry the overlap. */
  function OverlapStart(lines: seq<string>, start: nat, index: nat, end: nat, overlap: nat): (r: nat)
    requires start <= index <= end <= |lines|
    ensures start <= r <= index
  {
    if index > start && Used(lines, index, end) < overlap
    then OverlapStart(lines, start, index - 1, end, overlap)
    else index
  }

  function NextStart(lines: seq<string>, start: nat, end: nat, overlap: nat): (next: nat)
    requires start < end <= |lines|
    ensures start < next <= end
  {
    if overlap == 0 then end
    else
      var next := OverlapStart(lines, start, end, end, overlap);
      if next > start then next else end
  }

  lemma {:induction false} UsedSplits(lines: seq<string>, i: nat, j: nat)
    requires i < j <= |lines|
    ensures Used(lines, i, j) == |lines[i]| + 1 + Used(lines, i + 1, j)
  {
    if i + 1 == j {
    } else {
      UsedSplits(lines, i, j - 1);
    }
  }

  lemma {:induction false} OverlapStartIsTight(lines: seq<string>, start: nat, index: nat, end: nat, overlap: nat)
    requires start <= index <= end <= |lines|
    requires index == end || Used(lines, index + 1, end) < overlap
    ensures var r := OverlapStart(lines, start, index, end, overlap);
      && (r > start ==> Used(lines, r, end) >= overlap)
      && (r == end || Used(lines, r + 1, end) < overlap)
  {
    if index == start || Used(lines, index, end) >= overlap {
    } else {
      OverlapStartIsTight(lines, start, index - 1, end, overlap);
    }
  }

  /** The next window repeats the fewest trailing lines that carry the overlap, and none at all when even all
      lines but the first do not carry it. */
  lemma NextStartIsTight(lines: seq<string>, start: nat, end: nat, overlap: nat)
    requires start < end <= |lines|
    ensures var next := NextStart(lines, start, end, overlap);
      && (next < end ==> Used(lines, next, end) >= overlap > Used(lines, next + 1, end))
      && (next == end ==> overlap == 0 || start + 1 == end || Used(lines, start + 1, end) < overlap)
  {
    if overlap > 0 {
      OverlapStartIsTight(lines, start, end, end, overlap);
    }
  }

  /** All windows from line `start` on, blank ones included. */
  function TextWindows(lines: seq<string>, start: nat, maxChars: nat, overlap: nat): (ws: seq<Chunk>)
    requires start <= |lines| && maxChars > 0
    ensures |ws| > 0 <==> start < |lines|
    decreases |lines| - start
  {
    if start == |lines| then []
    else if |lines[start]| + 1 > maxChars then
      LinePieces(lines, start, 0, maxChars) + TextWindows(lines, start + 1, maxChars, overlap)
    else
      WindowEndIsGreedy(lines, start, start, |lines|, maxChars);
      var end := WindowEnd(lines, start, start, |lines|, maxChars);
      [LineWindow(lines, start, end)] +
      if end == |lines| then []
      else TextWindows(lines, NextStart(lines, start, end, overlap), maxChars, overlap)
  }

  function ChunkText(text: string, maxChars: nat, overlap: nat): seq<Chunk>
    requires maxChars > 0
  {
    if Blank(text) then [] else Filled(TextWindows(Split(text), 0, maxChars, overlap))
  }

  lemma {:induction false} TextWindowsAreGood(lines: seq<string>, start: nat, maxChars: nat, overlap: nat)
    requires start <= |lines| && maxChars > 0 && Unbroken(lines)
    ensures GoodWindows(lines, TextWindows(lines, start, maxChars, overlap), start, |lines|, maxChars)
    decreases |lines| - start
  {
    if start == |lines| {
    } else if |lines[start]| + 1 > maxChars {
      TextWindowsAreGood(lines, start + 1, maxChars, overlap);
      SlicesThenWindows(lines, TextWindows(lines, start + 1, maxChars, overlap), start, |lines|, maxChars);
    } else {
      WindowEndIsGreedy(lines, start, start, |lines|, maxChars);
      var end := WindowEnd(lines, start, start, |lines|, maxChars);
      UsedIsSpan(lines, start, end);
      assert end == start + 1 ==> Used(lines, start, end) == |lines[start]| + 1 by {
        UsedSplits(lines, start, end);
      }
      if end == |lines| {
        WindowThenWindows(lines, [], start, end, end, |lines|, maxChars);
      } else {
        var next := NextStart(lines, start, end, overlap);
        TextWindowsAreGood(lines, next, maxChars, overlap);
        WindowThenWindows(lines, TextWindows(lines, next, maxChars, overlap), start, end, next, |lines|, maxChars);
      }
    }
  }

  /** Every chunk is exactly the source at its byte range and fits, chunks advance, none is blank, and every
      character of the source that is not whitespace lies in one. */
  lemma ChunksAreFaithful(text: string, maxChars: nat, overlap: nat)
    requires maxChars > 0
    ensures var chunks := ChunkText(text, maxChars, overlap);
      && AllExact(text, chunks)
      && AllWithin(chunks, maxChars)
      && Advancing(chunks)
      && NothingMissing(text, chunks, 0, |text|)
      && forall c :: c in chunks ==> !Blank(c.text)
  {
    if !Blank(text) {
      var lines := Split(text);
      var ws := TextWindows(lines, 0, maxChars, overlap);
      SplitThenJoin(text);
      TextWindowsAreGood(lines, 0, maxChars, overlap);
      LinesStand(lines, |lines| - 1, |lines|);
      FilledMissesNothing(text, ws, 0, |text|);
      FilledIsFilter(ws);
      FilledKeepsOrder(ws);
    }
  }

  lemma BlankTextHasBlankWindows(text: string, ws: seq<Chunk>)
    requires Blank(text) && AllExact(text, ws)
    ensures Filled(ws) == []
  {
    FilledIsFilter(ws);
    forall c | c in ws ensures Blank(c.text) {
      var from, to :| Cut(text, c, from, to);
    }
    assert forall c :: c in Filled(ws) ==> c in ws && !Blank(c.text);
  }

  /** Blank texts, and only those, have no chunks; the early return changes nothing. */
  lemma NoChunksExactlyWhenBlank(text: string, maxChars: nat, overlap: nat)
    requires maxChars > 0
    ensures ChunkText(text, maxChars, overlap) == [] <==> Blank(text)
    ensures ChunkText(text, maxChars, overlap) == Filled(TextWindows(Split(text), 0, maxChars, overlap))
  {
    if Blank(text) {
      SplitThenJoin(text);
      TextWindowsAreGood(Split(text), 0, maxChars, overlap);
      BlankTextHasBlankWindows(text, TextWindows(Split(text), 0, maxChars, overlap));
    } else {
      ChunksAreFaithful(text, maxChars, overlap);
      var k: nat :| k < |text| && !IsWhitespace(text[k]);
      assert Held(text, ChunkText(text, maxChars, overlap), k);
    }
  }

  lemma {:induction false} UsedShrinks(lines: seq<string>, i: nat, next: nat, j: nat)
    requires i <= next <= j <= |lines|
    ensures Used(lines, next, j) <= Used(lines, i, j)
  {
    UsedIsSpan(lines, i, j);
    UsedIsSpan(lines, next, j);
    if i == next {
    } else {
      StartsGrow(lines, i, next);
    }
  }

  lemma {:induction false} WindowEndIsMonotone(lines: seq<string>, start: nat, end: nat, known: nat, maxChars: nat)
    requires start <= end <= known <= |lines| && start < known && Used(lines, start, known) <= maxChars
    ensures WindowEnd(lines, start, end, |lines|, maxChars) >= known
    decreases known - end
  {
    if end < known {
      UsedIsSpan(lines, start, known);
      UsedIsSpan(lines, start, end + 1);
      if end + 1 < known {
        StartsGrow(lines, end + 1, known);
      }
      WindowEndIsMonotone(lines, start, end + 1, known, maxChars);
    } else {
      WindowEndIsGreedy(lines, start, end, |lines|, maxChars);
    }
  }

  /** After an overlap the next window can end where its predecessor ended, repeating text it already had: this
      happens exactly when the first new line does not fit behind the repeated ones. */
  lemma NextWindowAddsNothingExactly(lines: seq<string>, start: nat, maxChars: nat, overlap: nat)
    requires start < |lines| && |lines[start]| + 1 <= maxChars
    requires WindowEnd(lines, start, start, |lines|, maxChars) < |lines|
    ensures var end := WindowEnd(lines, start, start, |lines|, maxChars);
      start < end && var next := NextStart(lines, start, end, overlap);
      next < end ==> (WindowEnd(lines, next, next, |lines|, maxChars) == end <==> Used(lines, next, end + 1) > maxChars)
  {
    WindowEndIsGreedy(lines, start, start, |lines|, maxChars);
    var end := WindowEnd(lines, start, start, |lines|, maxChars);
    var next := NextStart(lines, start, end, overlap);
    if next < end {
      UsedShrinks(lines, start, next, end);
      WindowEndIsMonotone(lines, next, next, end, maxChars);
      WindowEndIsGreedy(lines, next, next, |lines|, maxChars);
      if Used(lines, next, end + 1) <= maxChars {
        WindowEndIsMonotone(lines, next, next, end + 1, maxChars);
      } else if WindowEnd(lines, next, next, |lines|, maxChars) > end {
        UsedIsSpan(lines, next, end + 1);
        UsedIsSpan(lines, next, WindowEnd(lines, next, next, |lines|, maxChars));
        if end + 1 < WindowEnd(lines, next, next, |lines|, maxChars) {
          StartsGrow(lines, end + 1, WindowEnd(lines, next, next, |lines|, maxChars));
        }
      }
    }
  }

  /** Such a window: "aaaa" and "bbb" fill the first one, "bbb" is repeated, and the long line does not fit behind
      it. */
  lemma NextWindowCanAddNothing()
    ensures var lines := ["aaaa", "bbb", "cccccccc"];
      && WindowEnd(lines, 0, 0, 3, 10) == 2 && NextStart(lines, 0, 2, 4) == 1
      && WindowEnd(lines, 1, 1, 3, 10) == 2
  {
    var lines := ["aaaa", "bbb", "cccccccc"];
    assert Used(lines, 0, 1) == 5 && Used(lines, 0, 2) == 9 && Used(lines, 0, 3) == 18;
    assert Used(lines, 1, 2) == 4 && Used(lines, 1, 3) == 13;
  }
}
