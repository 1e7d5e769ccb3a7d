/** Chunks of a text and what both chunkers promise about them. */
module Chunks {
  import opened Texts

  /** A piece of text with its one-based lines and its byte range. */
  datatype Chunk = Chunk(text: string, startLine: nat, endLine: nat, startOffset: nat, endOffset: nat)

  /** `c` is exactly the characters `from` to `to` of the source, and says so in bytes and in lines. */
  ghost predicate Cut(source: string, c: Chunk, from: nat, to: nat) {
    && from <= to <= |source|
    && c.text == source[from..to]
    && c.startOffset == BytesTo(source, from)
    && c.endOffset == BytesTo(source, to)
    && c.startLine == NewlinesTo(source, from) + 1
    && c.endLine == NewlinesTo(source, to) + 1
  }

  /** The chunk is the slice of the source at its own byte range. */
  ghost predicate Exact(source: string, c: Chunk) {
    exists from, to :: Cut(source, c, from, to)
  }

  ghost predicate AllExact(source: string, chunks: seq<Chunk>) {
    forall c :: c in chunks ==> Exact(source, c)
  }

  /** Character `k` of the source lies in the byte range of `c`. */
  ghost predicate Holds(source: string, c: Chunk, k: nat)
    requires k < |source|
  {
    c.startOffset <= BytesTo(source, k) && BytesTo(source, k + 1) <= c.endOffset
  }

  ghost predicate Held(source: string, chunks: seq<Chunk>, k: nat)
    requires k < |source|
  {
    exists c :: c in chunks && Holds(source, c, k)
  }

  /** Every character in the span that is not a newline is held by some chunk. */
  ghost predicate Spread(source: string, chunks: seq<Chunk>, from: nat, to: nat) {
    forall k: nat {:trigger Held(source, chunks, k)} ::
      from <= k < to && k < |source| && source[k] != '\n' ==> Held(source, chunks, k)
  }

  /** No character of the span that means anything is missing. */
  ghost predicate NothingMissing(source: string, chunks: seq<Chunk>, from: nat, to: nat) {
    forall k: nat {:trigger Held(source, chunks, k)} ::
      from <= k < to && k < |source| && !IsWhitespace(source[k]) ==> Held(source, chunks, k)
  }

  predicate AllWithin(chunks: seq<Chunk>, maxChars: nat) {
    forall c :: c in chunks ==> |c.text| <= maxChars
  }

  /** Each chunk starts strictly after the one before it. */
  predicate Advancing(chunks: seq<Chunk>) {
    forall i, j :: 0 <= i < j < |chunks| ==> chunks[i].startOffset < chunks[j].startOffset
  }

  /** Exact chunks of bounded size, each starting after the one before it. */
  ghost predicate InOrder(source: string, chunks: seq<Chunk>, maxChars: nat) {
    AllExact(source, chunks) && AllWithin(chunks, maxChars) && Advancing(chunks)
  }

  ghost predicate StartWithin(chunks: seq<Chunk>, lo: nat, hi: nat) {
    forall c :: c in chunks ==> lo <= c.startOffset < hi
  }

  lemma OrderJoins(source: string, a: seq<Chunk>, b: seq<Chunk>, maxChars: nat, lo: nat, mid: nat, hi: nat)
    requires InOrder(source, a, maxChars) && InOrder(source, b, maxChars)
    requires StartWithin(a, lo, mid) && StartWithin(b, mid, hi) && lo <= mid <= hi
    ensures InOrder(source, a + b, maxChars) && StartWithin(a + b, lo, hi)
  {
    forall i, j | 0 <= i < j < |a + b| ensures (a + b)[i].startOffset < (a + b)[j].startOffset {
      if i < |a| <= j {
        assert (a + b)[i] in a && (a + b)[j] in b;
      }
    }
  }

  /** The chunks that are not blank. */
  function Filled(chunks: seq<Chunk>): seq<Chunk> {
    if chunks == [] then []
    else if Blank(chunks[0].text) then Filled(chunks[1..])
    else [chunks[0]] + Filled(chunks[1..])
  }

  lemma {:induction false} FilledIsFilter(chunks: seq<Chunk>)
    ensures forall c :: c in Filled(chunks) <==> c in chunks && !Blank(c.text)
  {
    if chunks == [] {
    } else {
      FilledIsFilter(chunks[1..]);
      assert chunks == [chunks[0]] + chunks[1..];
    }
  }

  lemma NothingBefore(b: seq<Chunk>)
    ensures [] + b == b
  {
  }

  lemma FirstOfSum(a: seq<Chunk>, b: seq<Chunk>)
    requires a != []
    ensures a + b != [] && (a + b)[0] == a[0] && (a + b)[1..] == a[1..] + b
  {
  }

  lemma ConsOfSum(c: Chunk, a: seq<Chunk>, b: seq<Chunk>)
    ensures [c] + a + b == [c] + (a + b)
  {
  }

  lemma {:induction false} FilledOfSum(a: seq<Chunk>, b: seq<Chunk>)
    ensures Filled(a + b) == Filled(a) + Filled(b)
  {
    if a == [] {
      NothingBefore(b);
      NothingBefore(Filled(b));
    } else {
      FilledOfSum(a[1..], b);
      FirstOfSum(a, b);
      ConsOfSum(a[0], Filled(a[1..]), Filled(b));
    }
  }

  /** A chunk goes into the result unless it is blank. */
  function Push(kept: seq<Chunk>, c: Chunk): seq<Chunk> {
    if Blank(c.text) then kept else kept + [c]
  }

  lemma PushThenRest(kept: seq<Chunk>, c: Chunk, rest: seq<Chunk>)
    ensures Push(kept, c) + Filled(rest) == kept + Filled([c] + rest)
  {
    assert ([c] + rest)[1..] == rest;
  }

  lemma ThenRest(done: seq<Chunk>, next: seq<Chunk>, rest: seq<Chunk>, all: seq<Chunk>)
    requires all == next + rest
    ensures done + next + rest == done + all
  {
  }

  lemma PushAll(kept: seq<Chunk>, cs: seq<Chunk>, rest: seq<Chunk>)
    ensures kept + Filled(cs) + Filled(rest) == kept + Filled(cs + rest)
  {
    FilledOfSum(cs, rest);
  }

  lemma {:induction false} FilledKeepsOrder(chunks: seq<Chunk>)
    requires Advancing(chunks)
    ensures Advancing(Filled(chunks))
  {
    if chunks == [] {
    } else {
      var rest := Filled(chunks[1..]);
      FilledKeepsOrder(chunks[1..]);
      FilledIsFilter(chunks[1..]);
      forall i | 0 <= i < |rest| ensures chunks[0].startOffset < rest[i].startOffset {
        assert rest[i] in chunks[1..];
      }
    }
  }

  /** A chunk that holds a character contains it. */
  lemma HeldIsInside(source: string, c: Chunk, from: nat, to: nat, k: nat)
    requires Cut(source, c, from, to) && k < |source| && Holds(source, c, k)
    ensures from <= k < to && c.text[k - from] == source[k]
  {
    if k < from {
      BytesGrow(source, k, from);
    }
    if to < k + 1 {
      BytesGrow(source, to, k + 1);
    }
  }

  /** A chunk holds every character of its span. */
  lemma InsideIsHeld(source: string, c: Chunk, from: nat, to: nat, k: nat)
    requires Cut(source, c, from, to) && from <= k < to
    ensures Holds(source, c, k)
  {
    if from < k {
      BytesGrow(source, from, k);
    }
    if k + 1 < to {
      BytesGrow(source, k + 1, to);
    }
  }

  /** Dropping blank chunks loses nothing that means anything. */
  lemma FilledMissesNothing(source: string, chunks: seq<Chunk>, from: nat, to: nat)
    requires AllExact(source, chunks) && Spread(source, chunks, from, to)
    ensures AllExact(source, Filled(chunks)) && NothingMissing(source, Filled(chunks), from, to)
  {
    FilledIsFilter(chunks);
    forall k: nat | from <= k < to && k < |source| && !IsWhitespace(source[k]) ensures Held(source, Filled(chunks), k) {
      assert Held(source, chunks, k);
      var c :| c in chunks && Holds(source, c, k);
      var i, j :| Cut(source, c, i, j);
      HeldIsInside(source, c, i, j, k);
      assert c in Filled(chunks);
    }
  }

  lemma SpreadOne(source: string, c: Chunk, from: nat, to: nat)
    requires Cut(source, c, from, to)
    ensures Spread(source, [c], from, to)
  {
    forall k: nat | from <= k < to && source[k] != '\n' ensures Held(source, [c], k) {
      InsideIsHeld(source, c, from, to, k);
      assert c in [c];
    }
  }

  /** Chunks that together leave out newlines only. */
  lemma SpreadJoins(source: string, a: seq<Chunk>, b: seq<Chunk>, from: nat, mid: nat, next: nat, to: nat)
    requires Spread(source, a, from, mid) && Spread(source, b, next, to)
    requires next <= mid || (next == mid + 1 && (mid < |source| ==> source[mid] == '\n'))
    ensures Spread(source, a + b, from, to)
  {
    forall k: nat | from <= k < to && k < |source| && source[k] != '\n' ensures Held(source, a + b, k) {
      if k < mid {
        assert Held(source, a, k);
        var c :| c in a && Holds(source, c, k);
        assert c in a + b;
      } else {
        assert Held(source, b, k);
        var c :| c in b && Holds(source, c, k);
        assert c in a + b;
      }
    }
  }

  // ----- Windows of whole lines

  /** Lines `i` to `j - 1` as one chunk. */
  function LineWindow(lines: seq<string>, i: nat, j: nat): Chunk
    requires i < j <= |lines|
  {
    Chunk(JoinLines(lines, i, j), i + 1, j, ByteStart(lines, i), ByteStart(lines, j - 1) + Bytes(lines[j - 1]))
  }

  /** Where the last character of line `i` ends. */
  function CharEnd(lines: seq<string>, i: nat): nat
    requires i < |lines|
  {
    CharStart(lines, i) + |lines[i]|
  }

  lemma PositionAfter(text: string, before: string, start: nat, line: string, k: nat)
    requires start == |before| && StandsAt(text, 0, before) && StandsAt(text, start, line)
    requires k <= |line| && '\n' !in line
    ensures start + k <= |text|
    ensures BytesTo(text, start + k) == Bytes(before) + BytesTo(line, k)
    ensures NewlinesTo(text, start + k) == NewlinesTo(before, |before|)
  {
    BytesOfSameStart(text, before + line, |before| + k);
    NewlinesOfSameStart(text, before + line, |before| + k);
    BytesOfSum(before, line, k);
    NewlinesOfSum(before, line, k);
    NoNewlines(line, k);
  }

  lemma LineStands(lines: seq<string>, i: nat)
    requires i < |lines|
    ensures StandsAt(Join(lines), CharStart(lines, i), lines[i])
  {
    LinesStand(lines, i, i + 1);
  }

  lemma LeadIsLong(lines: seq<string>, i: nat)
    requires i <= |lines|
    ensures |Lead(lines, i)| == CharStart(lines, i)
  {
    LeadSizes(lines, i);
  }

  lemma PositionBehindLead(lines: seq<string>, i: nat, k: nat)
    requires i < |lines| && k <= |lines[i]| && '\n' !in lines[i]
    ensures CharStart(lines, i) + k <= |Join(lines)|
    ensures BytesTo(Join(lines), CharStart(lines, i) + k) == Bytes(Lead(lines, i)) + BytesTo(lines[i], k)
    ensures NewlinesTo(Join(lines), CharStart(lines, i) + k) == NewlinesTo(Lead(lines, i), |Lead(lines, i)|)
  {
    LeadIsLong(lines, i);
    LineStands(lines, i);
    LeadStandsFirst(lines, i);
    PositionAfter(Join(lines), Lead(lines, i), CharStart(lines, i), lines[i], k);
  }

  /** A position inside line `i`, in characters, bytes and lines. */
  lemma PositionInLine(lines: seq<string>, i: nat, k: nat)
    requires i < |lines| && k <= |lines[i]| && Unbroken(lines)
    ensures CharStart(lines, i) + k <= |Join(lines)|
    ensures BytesTo(Join(lines), CharStart(lines, i) + k) == ByteStart(lines, i) + BytesTo(lines[i], k)
    ensures NewlinesTo(Join(lines), CharStart(lines, i) + k) == i
  {
    LeadSizes(lines, i);
    LinesBefore(lines, i);
    PositionBehindLead(lines, i, k);
  }

  lemma WindowOffsets(lines: seq<string>, i: nat, j: nat)
    requires i < j <= |lines| && Unbroken(lines)
    ensures CharStart(lines, i) <= |Join(lines)| && CharEnd(lines, j - 1) <= |Join(lines)|
    ensures BytesTo(Join(lines), CharStart(lines, i)) == ByteStart(lines, i)
    ensures BytesTo(Join(lines), CharEnd(lines, j - 1)) == ByteStart(lines, j - 1) + Bytes(lines[j - 1])
    ensures NewlinesTo(Join(lines), CharStart(lines, i)) == i
    ensures NewlinesTo(Join(lines), CharEnd(lines, j - 1)) == j - 1
  {
    LinesStand(lines, i, j);
    PositionInLine(lines, i, 0);
    PositionInLine(lines, j - 1, |lines[j - 1]|);
  }

  lemma SameSlice(text: string, from: nat, part: string)
    requires StandsAt(text, from, part)
    ensures text[from..from + |part|] == part
  {
  }

  lemma WindowIsCut(lines: seq<string>, i: nat, j: nat)
    requires i < j <= |lines| && Unbroken(lines)
    ensures Cut(Join(lines), LineWindow(lines, i, j), CharStart(lines, i), CharEnd(lines, j - 1))
  {
    LinesStand(lines, i, j);
    SameSlice(Join(lines), CharStart(lines, i), JoinLines(lines, i, j));
    WindowOffsets(lines, i, j);
  }

  // ----- Slicing one over-long line

  /** What a break after this character is worth. */
  function BreakScore(c: char): nat {
    match c
    case '.' | '!' | '?' => 4
    case ',' | ';' | ':' => 3
    case ' ' | '\t' => 2
    case '-' | '/' | '\\' => 1
    case _ => 0
  }

  /** The best break after one of the characters `lo` to `hi - 1`: the highest score, the later one on a tie,
      0 when there is none. */
  function BestBreak(line: string, lo: nat, hi: nat): (best: nat)
    requires lo <= hi <= |line|
    ensures best == 0 || (lo < best <= hi && BreakScore(line[best - 1]) > 0)
  {
    if hi == lo then 0
    else
      var best := BestBreak(line, lo, hi - 1);
      var score := BreakScore(line[hi - 1]);
      if score > 0 && (best == 0 || score >= BreakScore(line[best - 1])) then hi else best
  }

  /** The first character a break may follow: the last 30% of the window is searched. */
  function SearchFrom(maxChars: nat): nat {
    maxChars * 7 / 10
  }

  /** Where the slice of an over-long line that starts at `from` ends. */
  function SliceEnd(line: string, from: nat, maxChars: nat): (to: nat)
    requires from <= |line| && maxChars > 0
    ensures from <= to <= |line| && to - from <= maxChars && (from < |line| ==> from < to)
  {
    if |line| - from <= maxChars then |line|
    else
      var best := BestBreak(line, from + SearchFrom(maxChars), from + maxChars);
      if best > 0 then best else from + maxChars
  }

  /** Which break the slice takes: none scores higher, and none after it scores as high. */
  ghost predicate IsBestBreak(line: string, lo: nat, hi: nat, cut: nat)
    requires lo <= hi <= |line|
  {
    && lo < cut <= hi
    && BreakScore(line[cut - 1]) > 0
    && (forall k :: lo <= k < cut ==> BreakScore(line[k]) <= BreakScore(line[cut - 1]))
    && (forall k :: cut <= k < hi ==> BreakScore(line[k]) < BreakScore(line[cut - 1]))
  }

  lemma {:induction false} BestBreakIsBest(line: string, lo: nat, hi: nat)
    requires lo <= hi <= |line|
    ensures BestBreak(line, lo, hi) == 0 <==> forall k :: lo <= k < hi ==> BreakScore(line[k]) == 0
    ensures BestBreak(line, lo, hi) > 0 ==> IsBestBreak(line, lo, hi, BestBreak(line, lo, hi))
  {
    if lo == hi {
    } else {
      BestBreakIsBest(line, lo, hi - 1);
    }
  }

  /** The cut of a line that does not fit: the best break in the last 30% of the window if there is any, the
      whole window otherwise. */
  lemma SliceEndIsBest(line: string, from: nat, maxChars: nat, to: nat)
    requires 0 < maxChars && from + maxChars < |line|
    ensures var lo, hi := from + SearchFrom(maxChars), from + maxChars;
      if exists k :: lo <= k < hi && BreakScore(line[k]) > 0
      then to == SliceEnd(line, from, maxChars) <==> IsBestBreak(line, lo, hi, to)
      else SliceEnd(line, from, maxChars) == hi
  {
    var lo, hi := from + SearchFrom(maxChars), from + maxChars;
    BestBreakIsBest(line, lo, hi);
    var best := BestBreak(line, lo, hi);
    if best > 0 && IsBestBreak(line, lo, hi, to) {
      assert BreakScore(line[to - 1]) <= BreakScore(line[best - 1]);
      assert BreakScore(line[best - 1]) <= BreakScore(line[to - 1]);
    }
  }

  /** The characters `from` to `to` of line `i` as one chunk. */
  function LinePiece(lines: seq<string>, i: nat, from: nat, to: nat): Chunk
    requires i < |lines| && from <= to <= |lines[i]|
  {
    var offset := ByteStart(lines, i);
    Chunk(Sub(lines[i], from, to), i + 1, i + 1, offset + BytesTo(lines[i], from), offset + BytesTo(lines[i], to))
  }

  /** Line `i` from character `from` on, slice by slice. */
  function LinePieces(lines: seq<string>, i: nat, from: nat, maxChars: nat): (ps: seq<Chunk>)
    requires i < |lines| && from <= |lines[i]| && maxChars > 0
    ensures |ps| > 0 <==> from < |lines[i]|
    decreases |lines[i]| - from
  {
    if from == |lines[i]| then []
    else
      var to := SliceEnd(lines[i], from, maxChars);
      [LinePiece(lines, i, from, to)] + LinePieces(lines, i, to, maxChars)
  }

  /** The cursors of a slicing loop move together, in characters and in bytes. */
  lemma {:induction false} CursorsMove(line: string, from: nat, to: nat)
    requires from <= to <= |line|
    ensures BytesTo(line, to) == BytesTo(line, from) + Bytes(Sub(line, from, to))
  {
    if from == to {
    } else {
      CursorsMove(line, from, to - 1);
      BytesOfSameStart(Sub(line, from, to), Sub(line, from, to - 1), to - 1 - from);
    }
  }

  lemma SubStands(text: string, start: nat, line: string, from: nat, to: nat)
    requires StandsAt(text, start, line) && from <= to <= |line|
    ensures text[start + from..start + to] == Sub(line, from, to)
  {
    forall k | 0 <= k < to - from ensures text[start + from..start + to][k] == Sub(line, from, to)[k] {
      assert text[start + from + k] == line[from + k];
    }
  }

  lemma PieceIsCut(lines: seq<string>, i: nat, from: nat, to: nat)
    requires i < |lines| && from <= to <= |lines[i]| && Unbroken(lines)
    ensures Cut(Join(lines), LinePiece(lines, i, from, to), CharStart(lines, i) + from, CharStart(lines, i) + to)
  {
    LinesStand(lines, i, i + 1);
    SubStands(Join(lines), CharStart(lines, i), lines[i], from, to);
    PositionInLine(lines, i, from);
    PositionInLine(lines, i, to);
  }

  lemma PieceAdvances(lines: seq<string>, i: nat, from: nat, to: nat)
    requires i < |lines| && from < to <= |lines[i]|
    ensures BytesTo(lines[i], from) < BytesTo(lines[i], to) <= Bytes(lines[i])
  {
    BytesGrow(lines[i], from, to);
    if to < |lines[i]| {
      BytesGrow(lines[i], to, |lines[i]|);
    }
  }

  lemma PieceInOrder(lines: seq<string>, i: nat, from: nat, to: nat, maxChars: nat)
    requires i < |lines| && from < to <= |lines[i]| && to - from <= maxChars && Unbroken(lines)
    ensures var c, base := [LinePiece(lines, i, from, to)], ByteStart(lines, i);
      && InOrder(Join(lines), c, maxChars)
      && StartWithin(c, base + BytesTo(lines[i], from), base + BytesTo(lines[i], to))
      && BytesTo(lines[i], from) <= BytesTo(lines[i], to) <= Bytes(lines[i])
  {
    PieceIsCut(lines, i, from, to);
    PieceAdvances(lines, i, from, to);
  }

  lemma PieceSpreads(lines: seq<string>, i: nat, from: nat, to: nat, rest: seq<Chunk>)
    requires i < |lines| && from <= to <= |lines[i]| && Unbroken(lines)
    requires Spread(Join(lines), rest, CharStart(lines, i) + to, CharEnd(lines, i))
    ensures Spread(Join(lines), [LinePiece(lines, i, from, to)] + rest, CharStart(lines, i) + from, CharEnd(lines, i))
  {
    var c, start := LinePiece(lines, i, from, to), CharStart(lines, i);
    PieceIsCut(lines, i, from, to);
    SpreadOne(Join(lines), c, start + from, start + to);
    SpreadJoins(Join(lines), [c], rest, start + from, start + to, start + to, CharEnd(lines, i));
  }

  /** The slices of a line are exact, fit and follow one another. */
  lemma {:induction false} PiecesInOrder(lines: seq<string>, i: nat, from: nat, maxChars: nat)
    requires i < |lines| && from <= |lines[i]| && maxChars > 0 && Unbroken(lines)
    ensures var ps, base := LinePieces(lines, i, from, maxChars), ByteStart(lines, i);
      && InOrder(Join(lines), ps, maxChars)
      && StartWithin(ps, base + BytesTo(lines[i], from), base + Bytes(lines[i]) + 1)
    decreases |lines[i]| - from
  {
    if from >= |lines[i]| {
    } else {
      var to := SliceEnd(lines[i], from, maxChars);
      var c, base := LinePiece(lines, i, from, to), ByteStart(lines, i);
      PiecesInOrder(lines, i, to, maxChars);
      PieceInOrder(lines, i, from, to, maxChars);
      OrderJoins(Join(lines), [c], LinePieces(lines, i, to, maxChars), maxChars,
        base + BytesTo(lines[i], from), base + BytesTo(lines[i], to), base + Bytes(lines[i]) + 1);
    }
  }

  /** The slices of a line leave nothing out. */
  lemma {:induction false} PiecesSpread(lines: seq<string>, i: nat, from: nat, maxChars: nat)
    requires i < |lines| && from <= |lines[i]| && maxChars > 0 && Unbroken(lines)
    ensures Spread(Join(lines), LinePieces(lines, i, from, maxChars), CharStart(lines, i) + from, CharEnd(lines, i))
    decreases |lines[i]| - from
  {
    if from >= |lines[i]| {
    } else {
      var to := SliceEnd(lines[i], from, maxChars);
      var rest := LinePieces(lines, i, to, maxChars);
      assert LinePieces(lines, i, from, maxChars) == [LinePiece(lines, i, from, to)] + rest;
      PiecesSpread(lines, i, to, maxChars);
      PieceSpreads(lines, i, from, to, rest);
    }
  }

  // ----- From windows to whole texts

  /** Windows from line `i` up to line `stop`: exact, bounded, advancing, with nothing left out. */
  ghost predicate GoodWindows(lines: seq<string>, ws: seq<Chunk>, i: nat, stop: nat, maxChars: nat)
    requires i <= stop <= |lines|
  {
    && InOrder(Join(lines), ws, maxChars)
    && StartWithin(ws, ByteStart(lines, i), ByteStart(lines, stop))
    && Spread(Join(lines), ws, CharStart(lines, i), CharStart(lines, stop))
  }

  lemma {:induction false} ByteStartsGrow(lines: seq<string>, i: nat, j: nat)
    requires i < j <= |lines|
    ensures ByteStart(lines, i) + Bytes(lines[i]) + 1 <= ByteStart(lines, j)
  {
    if i == j - 1 {
    } else {
      ByteStartsGrow(lines, i, j - 1);
    }
  }

  lemma SlicesThenSpread(lines: seq<string>, rest: seq<Chunk>, i: nat, stop: nat, maxChars: nat)
    requires i < stop <= |lines| && maxChars > 0 && Unbroken(lines)
    requires Spread(Join(lines), rest, CharStart(lines, i + 1), CharStart(lines, stop))
    ensures Spread(Join(lines), LinePieces(lines, i, 0, maxChars) + rest, CharStart(lines, i), CharStart(lines, stop))
  {
    PiecesSpread(lines, i, 0, maxChars);
    LinesAreSeparated(lines, i + 1);
    SpreadJoins(Join(lines), LinePieces(lines, i, 0, maxChars), rest, CharStart(lines, i), CharEnd(lines, i),
      CharStart(lines, i + 1), CharStart(lines, stop));
  }

  lemma SlicesThenOrder(lines: seq<string>, rest: seq<Chunk>, i: nat, stop: nat, maxChars: nat)
    requires i < stop <= |lines| && maxChars > 0 && Unbroken(lines)
    requires InOrder(Join(lines), rest, maxChars) && StartWithin(rest, ByteStart(lines, i + 1), ByteStart(lines, stop))
    ensures InOrder(Join(lines), LinePieces(lines, i, 0, maxChars) + rest, maxChars)
    ensures StartWithin(LinePieces(lines, i, 0, maxChars) + rest, ByteStart(lines, i), ByteStart(lines, stop))
  {
    var ps := LinePieces(lines, i, 0, maxChars);
    PiecesInOrder(lines, i, 0, maxChars);
    if i + 1 < stop {
      ByteStartsGrow(lines, i + 1, stop);
    }
    OrderJoins(Join(lines), ps, rest, maxChars, ByteStart(lines, i), ByteStart(lines, i + 1), ByteStart(lines, stop));
  }

  lemma SlicesThenWindows(lines: seq<string>, rest: seq<Chunk>, i: nat, stop: nat, maxChars: nat)
    requires i < stop <= |lines| && maxChars > 0 && Unbroken(lines)
    requires GoodWindows(lines, rest, i + 1, stop, maxChars)
    ensures GoodWindows(lines, LinePieces(lines, i, 0, maxChars) + rest, i, stop, maxChars)
  {
    SlicesThenSpread(lines, rest, i, stop, maxChars);
    SlicesThenOrder(lines, rest, i, stop, maxChars);
  }

  lemma WindowInOrder(lines: seq<string>, i: nat, j: nat, maxChars: nat)
    requires i < j <= |lines| && CharStart(lines, j) - CharStart(lines, i) <= maxChars + 1 && Unbroken(lines)
    ensures InOrder(Join(lines), [LineWindow(lines, i, j)], maxChars)
    ensures Spread(Join(lines), [LineWindow(lines, i, j)], CharStart(lines, i), CharEnd(lines, j - 1))
  {
    WindowIsCut(lines, i, j);
    SpreadOne(Join(lines), LineWindow(lines, i, j), CharStart(lines, i), CharEnd(lines, j - 1));
  }

  lemma WindowThenSpread(lines: seq<string>, rest: seq<Chunk>, i: nat, j: nat, next: nat, stop: nat)
    requires i < next <= j <= stop <= |lines| && Unbroken(lines)
    requires Spread(Join(lines), [LineWindow(lines, i, j)], CharStart(lines, i), CharEnd(lines, j - 1))
    requires Spread(Join(lines), rest, CharStart(lines, next), CharStart(lines, stop))
    ensures Spread(Join(lines), [LineWindow(lines, i, j)] + rest, CharStart(lines, i), CharStart(lines, stop))
  {
    LinesAreSeparated(lines, j);
    if next < j {
      StartsGrow(lines, next, j);
    }
    SpreadJoins(Join(lines), [LineWindow(lines, i, j)], rest, CharStart(lines, i), CharEnd(lines, j - 1),
      CharStart(lines, next), CharStart(lines, stop));
  }

  lemma WindowThenOrder(lines: seq<string>, rest: seq<Chunk>, i: nat, j: nat, next: nat, stop: nat, maxChars: nat)
    requires i < next <= j <= stop <= |lines| && InOrder(Join(lines), [LineWindow(lines, i, j)], maxChars)
    requires InOrder(Join(lines), rest, maxChars) && StartWithin(rest, ByteStart(lines, next), ByteStart(lines, stop))
    ensures InOrder(Join(lines), [LineWindow(lines, i, j)] + rest, maxChars)
    ensures StartWithin([LineWindow(lines, i, j)] + rest, ByteStart(lines, i), ByteStart(lines, stop))
  {
    ByteStartsGrow(lines, i, next);
    if next < stop {
      ByteStartsGrow(lines, next, stop);
    }
    OrderJoins(Join(lines), [LineWindow(lines, i, j)], rest, maxChars, ByteStart(lines, i), ByteStart(lines, next),
      ByteStart(lines, stop));
  }

  /** One window of lines, then windows from a line inside it or just after it. */
  lemma WindowThenWindows(lines: seq<string>, rest: seq<Chunk>, i: nat, j: nat, next: nat, stop: nat, maxChars: nat)
    requires i < next <= j <= stop <= |lines| && Unbroken(lines)
    requires CharStart(lines, j) - CharStart(lines, i) <= maxChars + 1
    requires GoodWindows(lines, rest, next, stop, maxChars)
    ensures GoodWindows(lines, [LineWindow(lines, i, j)] + rest, i, stop, maxChars)
  {
    WindowInOrder(lines, i, j, maxChars);
    WindowThenSpread(lines, rest, i, j, next, stop);
    WindowThenOrder(lines, rest, i, j, next, stop, maxChars);
  }

  /** How many characters lines `i` to `j - 1` take with their newlines. */
  function Used(lines: seq<string>, i: nat, j: nat): nat
    requires i <= j <= |lines|
  {
    if i < j then Used(lines, i, j - 1) + |lines[j - 1]| + 1 else 0
  }

  lemma {:induction false} UsedIsSpan(lines: seq<string>, i: nat, j: nat)
    requires i <= j <= |lines|
    ensures Used(lines, i, j) == CharStart(lines, j) - CharStart(lines, i)
  {
    if i == j {
    } else {
      UsedIsSpan(lines, i, j - 1);
    }
  }

  /** Where a window that starts at `start` and reaches `end` so far ends: it takes lines while they fit, and
      the first line in any case. */
  function WindowEnd(lines: seq<string>, start: nat, end: nat, stop: nat, maxChars: nat): nat
    requires start <= end <= stop <= |lines|
    decreases stop - end
  {
    if end == stop || (end > start && Used(lines, start, end + 1) > maxChars) then end
    else WindowEnd(lines, start, end + 1, stop, maxChars)
  }

  /** A window is as long as it can be. */
  lemma {:induction false} WindowEndIsGreedy(lines: seq<string>, start: nat, end: nat, stop: nat, maxChars: nat)
    requires start <= end <= stop <= |lines|
    requires end <= start + 1 || Used(lines, start, end) <= maxChars
    ensures var r := WindowEnd(lines, start, end, stop, maxChars);
      && end <= r <= stop
      && (start < stop ==> start < r)
      && (r <= start + 1 || Used(lines, start, r) <= maxChars)
      && (r == stop || Used(lines, start, r + 1) > maxChars)
    decreases stop - end
  {
    if end == stop || (end > start && Used(lines, start, end + 1) > maxChars) {
    } else {
      WindowEndIsGreedy(lines, start, end + 1, stop, maxChars);
    }
  }
}
