/** Two marked blocks in one file: how editing one of them leaves the other, and what putting and removing both does. */
module BlockPairs {
  import opened Options
  import opened MarkedBlocks

  /** Puts a first block, then a second one unless the user has what it would set: `owns` says so of a text. */
  function PutTwo(text: string, m1: Markers, b1: string, m2: Markers, b2: string, owns: string -> bool): string {
    var first := PutBlock(text, m1, b1);
    if BlockSpan(first, m2).Some? || !owns(first) then PutBlock(first, m2, b2) else first
  }

  function RemoveTwo(text: string, m1: Markers, m2: Markers): string {
    RemoveBlock(RemoveBlock(text, m2), m1)
  }

  /** A marker that neither the text nor the block contains is not in the text with the block appended. */
  lemma AppendedIsFree(text: string, block: string, part: string)
    requires part != "" && '\n' !in part && !Contains(text, part) && !Contains(block, part)
    ensures !Contains(Append(text, block), part)
  {
    var before, all := LineEnded(text), Append(text, block);
    assert all == before + (block + "\n") && all == before + block + "\n";
    forall j: nat ensures !OccursAt(all, j, part) {
      if j < |before| {
        NoStraddle(text, block + "\n", part, j);
      } else if j + |part| <= |before| + |block| {
        OccursInside(all, before, block, "\n", j, part);
        assert !OccursAt(block, j - |before|, part);
      } else {
        assert all[|before| + |block|] == '\n';
        var k := |before| + |block| - j;
        assert 0 <= k < |part| ==> part[k] != '\n';
      }
    }
  }

  // ----- The same block in a changed text

  lemma SameOccurrence(t: string, u: string, n: nat, part: string, j: nat)
    requires n <= |t| && n <= |u| && t[..n] == u[..n] && j + |part| <= n
    ensures OccursAt(t, j, part) <==> OccursAt(u, j, part)
  {
    forall k | 0 <= k < n ensures t[k] == u[k] {
      assert t[..n][k] == u[..n][k];
    }
  }

  lemma ShiftedOccurrence(t: string, a: nat, u: string, b: nat, part: string, j: nat)
    requires a <= j && a <= |t| && b <= |u| && t[a..] == u[b..]
    ensures OccursAt(t, j, part) <==> OccursAt(u, j - a + b, part)
  {
    assert t == t[..a] + t[a..] + "" && u == u[..b] + u[b..] + "";
    if j + |part| <= |t| {
      OccursInside(t, t[..a], t[a..], "", j, part);
      OccursInside(u, u[..b], u[b..], "", j - a + b, part);
    }
  }

  lemma {:induction false} NextLineFacts(text: string, i: nat)
    requires i <= |text|
    ensures forall k :: i <= k < NextLine(text, i) - 1 ==> text[k] != '\n'
    ensures NextLine(text, i) < |text| ==> NextLine(text, i) > i && text[NextLine(text, i) - 1] == '\n'
    decreases |text| - i
  {
    if i == |text| {
    } else if text[i] != '\n' {
      NextLineFacts(text, i + 1);
    }
  }

  lemma {:induction false} NextLineShifted(t: string, a: nat, u: string, b: nat, i: nat)
    requires a <= i <= |t| && b <= |u| && t[a..] == u[b..]
    ensures NextLine(u, i - a + b) == NextLine(t, i) - a + b
    decreases |t| - i
  {
    if i == |t| {
      assert |t[a..]| == |u[b..]|;
    } else {
      assert t[i] == t[a..][i - a] == u[b..][i - a];
      if t[i] != '\n' {
        NextLineShifted(t, a, u, b, i + 1);
      }
    }
  }

  /** A block that ends its last line is found in every text that begins in the same way. */
  lemma SpanOfPrefix(t: string, u: string, m: Markers, s: Span)
    requires LineMarkers(m) && BlockSpan(t, m) == Some(s) && s.to <= |u| && t[..s.to] == u[..s.to]
    requires s.to > 0 && t[s.to - 1] == '\n'
    ensures BlockSpan(u, m) == Some(s)
  {
    var end := FindFrom(t, m.end, s.from).value;
    NextLineFacts(t, end);
    MarkerBefore(t, s.from, m.start, s.to - 1);
    MarkerBefore(t, end, m.end, s.to - 1);
    FindsTheSame(t, u, s.to, m.start, 0, s.from);
    FindsTheSame(t, u, s.to, m.end, s.from, end);
    forall k | end <= k < s.to ensures u[k] == t[k] {
      assert t[..s.to][k] == u[..s.to][k];
    }
    NextLineIs(u, end, s.to - 1);
  }

  lemma FindsTheSame(t: string, u: string, n: nat, part: string, i: nat, at: nat)
    requires n <= |t| && n <= |u| && t[..n] == u[..n]
    requires FindFrom(t, part, i) == Some(at) && at + |part| <= n
    ensures FindFrom(u, part, i) == Some(at)
  {
    SameOccurrence(t, u, n, part, at);
    forall j: nat | i <= j < at ensures !OccursAt(u, j, part) {
      SameOccurrence(t, u, n, part, j);
    }
    FindIs(u, part, i, at);
  }

  lemma FindShifted(t: string, a: nat, u: string, b: nat, part: string, i: nat, at: nat, i': nat, at': nat)
    requires a <= i <= at && a <= |t| && b <= |u| && t[a..] == u[b..] && FindFrom(t, part, i) == Some(at)
    requires i' == i - a + b && at' == at - a + b
    ensures FindFrom(u, part, i') == Some(at')
  {
    ShiftedOccurrence(t, a, u, b, part, at);
    forall j: nat | i' <= j < at' ensures !OccursAt(u, j, part) {
      ShiftedOccurrence(t, a, u, b, part, j - b + a);
    }
    FindIs(u, part, i', at');
  }

  lemma StartShifted(t: string, a: nat, u: string, b: nat, part: string, at: nat, at': nat)
    requires a <= at && a <= |t| && b <= |u| && t[a..] == u[b..] && FindFrom(t, part, 0) == Some(at)
    requires at' == at - a + b && NoneBefore(u, at', part)
    ensures FindFrom(u, part, 0) == Some(at')
  {
    ShiftedOccurrence(t, a, u, b, part, at);
    FindIs(u, part, 0, at');
  }

  lemma SpanFrom(text: string, m: Markers, start: nat, end: nat)
    requires FindFrom(text, m.start, 0) == Some(start) && FindFrom(text, m.end, start) == Some(end)
    ensures BlockSpan(text, m) == Some(Span(start, NextLine(text, end)))
  {
  }

  /** A block is found in every text that ends in the same way and has no start marker before. */
  lemma SpanShifted(t: string, a: nat, u: string, b: nat, m: Markers, s: Span)
    requires BlockSpan(t, m) == Some(s) && a <= s.from && a <= |t| && b <= |u| && t[a..] == u[b..]
    requires NoneBefore(u, s.from - a + b, m.start)
    ensures s.to - a + b <= |u| && BlockSpan(u, m) == Some(Span(s.from - a + b, s.to - a + b))
  {
    var end := FindFrom(t, m.end, s.from).value;
    var start', end' := s.from - a + b, end - a + b;
    StartShifted(t, a, u, b, m.start, s.from, start');
    FindShifted(t, a, u, b, m.end, s.from, end, start', end');
    NextLineShifted(t, a, u, b, end);
    SpanFrom(u, m, start', end');
  }

  // ----- Editing one block

  /** What the edit of a block needs to leave the other one alone. */
  ghost predicate Fits(m: Markers, b: string, other: Markers) {
    && LineMarkers(m) && LineMarkers(other) && IsBlock(b, m)
    && !Contains(b, other.start) && !Contains(other.start, m.start)
  }

  /** Each start marker has its end behind it, and the two blocks do not overlap. */
  ghost predicate Apart(text: string, m1: Markers, m2: Markers) {
    && WellMarked(text, m1) && WellMarked(text, m2)
    && (BlockSpan(text, m1).Some? && BlockSpan(text, m2).Some? ==>
          || BlockSpan(text, m1).value.to <= BlockSpan(text, m2).value.from
          || BlockSpan(text, m2).value.to <= BlockSpan(text, m1).value.from)
  }

  /** The block found in the text is this one. */
  ghost predicate Carries(text: string, m: Markers, b: string) {
    BlockSpan(text, m).Some? && text[BlockSpan(text, m).value.from..BlockSpan(text, m).value.to] == b + "\n"
  }

  function Edited(t: string, s: Span, b: string): string
    requires s.from <= s.to <= |t|
  {
    t[..s.from] + b + "\n" + t[s.to..]
  }

  lemma EditedParts(t: string, s: Span, b: string)
    requires s.from <= s.to <= |t|
    ensures var u := Edited(t, s, b); var after := s.from + |b| + 1;
      && |u| == after + |t| - s.to
      && u[..s.from] == t[..s.from] && u[after..] == t[s.to..] && u[s.from..after] == b + "\n"
      && u == t[..s.from] + b + ("\n" + t[s.to..]) && u[s.from + |b|] == '\n'
  {
  }

  /** The edit brings in no start marker of the other block before position `n` of the old text. */
  lemma EditKeepsNone(t: string, m: Markers, s: Span, b: string, other: Markers, n: nat)
    requires Fits(m, b, other) && BlockSpan(t, m) == Some(s) && s.to <= n && NoneBefore(t, n, other.start)
    ensures NoneBefore(Edited(t, s, b), n - s.to + s.from + |b| + 1, other.start)
  {
    var u, after := Edited(t, s, b), s.from + |b| + 1;
    EditedParts(t, s, b);
    forall j: nat | j < n - s.to + after ensures !OccursAt(u, j, other.start) {
      if j < s.from {
        assert !OccursAt(t, j, other.start);
        NoStraddleIntoBlock(t, m, s, b, other, j);
      } else if j + |other.start| <= s.from + |b| {
        OccursInside(u, t[..s.from], b, "\n" + t[s.to..], j, other.start);
        assert !OccursAt(b, j - s.from, other.start);
      } else if j < after {
        if OccursAt(u, j, other.start) {
          MarkerBefore(u, j, other.start, s.from + |b|);
        }
      } else {
        ShiftedOccurrence(u, after, t, s.to, other.start, j);
        assert !OccursAt(t, j - after + s.to, other.start);
      }
    }
  }

  /** A text that ends behind a marker it runs into contains that marker. */
  lemma RunsOver(u: string, j: nat, part: string, n: nat, marker: string)
    requires OccursAt(u, j, part) && OccursAt(u, n, marker) && j <= n && n + |marker| <= j + |part|
    ensures OccursAt(part, n - j, marker)
  {
    forall k | 0 <= k < |marker| ensures part[n - j + k] == marker[k] {
      assert u[j + (n - j + k)] == part[n - j + k] && u[n + k] == marker[k];
    }
  }

  lemma NoStraddleIntoBlock(t: string, m: Markers, s: Span, b: string, other: Markers, j: nat)
    requires Fits(m, b, other) && BlockSpan(t, m) == Some(s) && j < s.from && !OccursAt(t, j, other.start)
    ensures !OccursAt(Edited(t, s, b), j, other.start)
  {
    var u := Edited(t, s, b);
    EditedParts(t, s, b);
    StartInEdited(t, m, s, b);
    if j + |other.start| <= s.from + |m.start| {
      SameUpToMarker(t, u, s.from, m.start);
      SameOccurrence(t, u, s.from + |m.start|, other.start, j);
    } else if OccursAt(u, j, other.start) {
      RunsOver(u, j, other.start, s.from, m.start);
    }
  }

  lemma StartInEdited(t: string, m: Markers, s: Span, b: string)
    requires IsBlock(b, m) && BlockSpan(t, m) == Some(s)
    ensures OccursAt(Edited(t, s, b), s.from, m.start) && OccursAt(t, s.from, m.start)
  {
    EditedParts(t, s, b);
    OccursInside(Edited(t, s, b), t[..s.from], b, "\n" + t[s.to..], s.from, m.start);
  }

  lemma SameUpToMarker(t: string, u: string, n: nat, marker: string)
    requires n <= |t| && n <= |u| && t[..n] == u[..n] && OccursAt(t, n, marker) && OccursAt(u, n, marker)
    ensures t[..n + |marker|] == u[..n + |marker|]
  {
    forall k | 0 <= k < n + |marker| ensures t[k] == u[k] {
      if k < n {
        assert t[..n][k] == u[..n][k];
      } else {
        assert t[n + (k - n)] == marker[k - n] && u[n + (k - n)] == marker[k - n];
      }
    }
  }

  /** A block that does not reach the end of the text ends its last line. */
  lemma EndsItsLine(t: string, m: Markers, s: Span)
    requires LineMarkers(m) && BlockSpan(t, m) == Some(s) && s.to < |t|
    ensures s.to > 0 && t[s.to - 1] == '\n'
  {
    NextLineFacts(t, FindFrom(t, m.end, s.from).value);
  }

  lemma SlicesInPrefix(t: string, u: string, n: nat, from: nat, to: nat)
    requires n <= |t| && n <= |u| && t[..n] == u[..n] && from <= to <= n
    ensures t[from..to] == u[from..to] && t[..to] == u[..to]
  {
    assert t[from..to] == t[..n][from..to] && u[from..to] == u[..n][from..to];
    assert t[..to] == t[..n][..to] && u[..to] == u[..n][..to];
  }

  lemma SlicesInSuffix(t: string, a: nat, u: string, b: nat, from: nat, to: nat)
    requires a <= |t| && b <= |u| && t[a..] == u[b..] && a <= from <= to <= |t|
    ensures to - a + b <= |u| && t[from..to] == u[from - a + b..to - a + b]
  {
    assert |t[a..]| == |u[b..]|;
    forall k | 0 <= k < to - from ensures t[from..to][k] == u[from - a + b..to - a + b][k] {
      assert t[a..][from - a + k] == u[b..][from - a + k];
    }
  }

  /** `u` is `t` with the stretch `s` exchanged; what follows it is at `after` now. */
  ghost predicate IsEdit(t: string, s: Span, u: string, after: nat) {
    && s.from <= s.to <= |t| && s.from <= after <= |u|
    && u[..s.from] == t[..s.from] && u[after..] == t[s.to..]
  }

  lemma EditedIsEdit(t: string, s: Span, b: string)
    requires s.from <= s.to <= |t|
    ensures IsEdit(t, s, Edited(t, s, b), s.from + |b| + 1)
  {
    EditedParts(t, s, b);
  }

  lemma EarlierStays(t: string, s: Span, u: string, after: nat, m: Markers, o: Span)
    requires IsEdit(t, s, u, after) && s.from < s.to
    requires LineMarkers(m) && BlockSpan(t, m) == Some(o) && o.to <= s.from
    ensures BlockSpan(u, m) == Some(o)
  {
    SpansAreNotEmpty(t, m);
    EndsItsLine(t, m, o);
    SlicesInPrefix(t, u, s.from, o.from, o.to);
    SpanOfPrefix(t, u, m, o);
  }

  lemma LaterIsShifted(t: string, s: Span, u: string, after: nat, m: Markers, o: Span, v: Span)
    requires IsEdit(t, s, u, after) && BlockSpan(t, m) == Some(o) && s.to <= o.from
    requires v == Span(o.from - s.to + after, o.to - s.to + after) && NoneBefore(u, v.from, m.start)
    ensures BlockSpan(u, m) == Some(v)
  {
    SpanShifted(t, s.to, u, after, m, o);
  }

  /** A stretch outside the edit is as before, wherever it stands now. */
  lemma EditKeepsContent(t: string, s: Span, u: string, after: nat, o: Span, v: Span)
    requires IsEdit(t, s, u, after) && o.from <= o.to <= |t| && v.from <= v.to
    requires (o.to <= s.from && v == o)
      || (s.to <= o.from && v.from == o.from - s.to + after && v.to == o.to - s.to + after)
    ensures v.to <= |u| && u[v.from..v.to] == t[o.from..o.to]
  {
    if o.to <= s.from && v == o {
      SlicesInPrefix(t, u, s.from, o.from, o.to);
    } else {
      SlicesInSuffix(t, s.to, u, after, o.from, o.to);
    }
  }

  /** Where the other block stands after the edit. */
  lemma EditTracks(t: string, s: Span, u: string, after: nat, m: Markers, o: Span) returns (v: Span)
    requires IsEdit(t, s, u, after) && s.from < s.to && LineMarkers(m) && BlockSpan(t, m) == Some(o)
    requires o.to <= s.from || (s.to <= o.from && NoneBefore(u, o.from - s.to + after, m.start))
    ensures BlockSpan(u, m) == Some(v) && v.from <= v.to
    ensures if o.to <= s.from then v == o else v.from == o.from - s.to + after && v.to == o.to - s.to + after
  {
    if o.to <= s.from {
      EarlierStays(t, s, u, after, m, o);
      v := o;
    } else {
      v := Span(o.from - s.to + after, o.to - s.to + after);
      LaterIsShifted(t, s, u, after, m, o, v);
    }
  }

  lemma NoneMeansFree(text: string, part: string)
    requires part != ""
    ensures NoneBefore(text, |text|, part) <==> !Contains(text, part)
  {
    if !Contains(text, part) {
      forall j: nat | j < |text| ensures !OccursAt(text, j, part) {
      }
    }
  }

  lemma EditLeavesFree(t: string, m: Markers, s: Span, b: string, other: Markers)
    requires Fits(m, b, other) && BlockSpan(t, m) == Some(s) && !Contains(t, other.start)
    ensures !Contains(Edited(t, s, b), other.start)
  {
    EditedParts(t, s, b);
    NoneMeansFree(t, other.start);
    EditKeepsNone(t, m, s, b, other, |t|);
    NoneMeansFree(Edited(t, s, b), other.start);
  }

  /** Appending a block leaves the other one where it is; only when that one ended the text without a newline, the
      newline that is added becomes its own. */
  lemma AppendTracks(t: string, b: string, other: Markers, o: Span)
    requires LineMarkers(other) && BlockSpan(t, other) == Some(o)
    ensures var u := Append(t, b); var v := BlockSpan(u, other);
      v == Some(Span(o.from, if t[o.to - 1] == '\n' then o.to else |LineEnded(t)|))
  {
    var u := Append(t, b);
    SpansAreNotEmpty(t, other);
    assert u == LineEnded(t) + (b + "\n");
    if t[o.to - 1] == '\n' {
      assert t[..o.to] == u[..o.to];
      SpanOfPrefix(t, u, other, o);
    } else {
      OpenBlockIsEnded(t, b + "\n", other, o);
    }
  }

  lemma EndedKeeps(t: string, tail: string)
    requires t != "" && t[|t| - 1] != '\n'
    ensures var u := LineEnded(t) + tail;
      |LineEnded(t)| == |t| + 1 <= |u| && t[..|t|] == u[..|t|] && u[|t|] == '\n'
  {
  }

  lemma OpenLineIsEnded(t: string, u: string, i: nat)
    requires i < |t| < |u| && t[..|t|] == u[..|t|] && u[|t|] == '\n'
    requires NextLine(t, i) == |t| && t[|t| - 1] != '\n'
    ensures NextLine(u, i) == |t| + 1
  {
    NextLineFacts(t, i);
    forall k | i <= k < |t| ensures u[k] != '\n' {
      assert u[..|t|][k] == t[..|t|][k];
      assert k < |t| - 1 || k == |t| - 1;
    }
    NextLineIs(u, i, |t|);
  }

  lemma OpenBlockIsEnded(t: string, tail: string, other: Markers, o: Span)
    requires LineMarkers(other) && BlockSpan(t, other) == Some(o) && o.to > 0 && t[o.to - 1] != '\n'
    ensures BlockSpan(LineEnded(t) + tail, other) == Some(Span(o.from, |LineEnded(t)|))
  {
    var u, n := LineEnded(t) + tail, |t|;
    var end := FindFrom(t, other.end, o.from).value;
    NextLineFacts(t, end);
    assert o.to == n;
    EndedKeeps(t, tail);
    FindsTheSame(t, u, n, other.start, 0, o.from);
    FindsTheSame(t, u, n, other.end, o.from, end);
    OpenLineIsEnded(t, u, end);
  }

  /** Putting one block keeps the two apart, does not bring the other one in or lose it, and leaves a proper other one
      as it is. */
  lemma PutTracks(t: string, m: Markers, b: string, other: Markers)
    requires Fits(m, b, other) && Apart(t, m, other)
    ensures var u := PutBlock(t, m, b);
      && Carries(u, m, b) && Apart(u, m, other)
      && (BlockSpan(u, other) == None <==> BlockSpan(t, other) == None)
      && (forall c :: Carries(t, other, c) ==> Carries(u, other, c))
  {
    PutCarries(t, m, b);
    if BlockSpan(t, m).Some? {
      PutEditTracks(t, m, BlockSpan(t, m).value, b, other);
    } else {
      PutAppendTracks(t, m, b, other);
    }
  }

  lemma PutEditTracks(t: string, m: Markers, s: Span, b: string, other: Markers)
    requires Fits(m, b, other) && Apart(t, m, other) && BlockSpan(t, m) == Some(s)
    requires Carries(PutBlock(t, m, b), m, b)
    ensures var u := PutBlock(t, m, b);
      && Apart(u, m, other)
      && (BlockSpan(u, other) == None <==> BlockSpan(t, other) == None)
      && (forall c :: Carries(t, other, c) ==> Carries(u, other, c))
  {
    var u := Edited(t, s, b);
    assert PutBlock(t, m, b) == u;
    EditedParts(t, s, b);
    ReplacedIsFound(t, m, b);
    if BlockSpan(t, other).Some? {
      var o := BlockSpan(t, other).value;
      if s.to <= o.from {
        EditKeepsNone(t, m, s, b, other, o.from);
      }
      EditedIsEdit(t, s, b);
      SpansAreNotEmpty(t, m);
      var v := EditTracks(t, s, u, s.from + |b| + 1, other, o);
      EditKeepsContent(t, s, u, s.from + |b| + 1, o, v);
    } else {
      EditLeavesFree(t, m, s, b, other);
    }
  }

  lemma AppendKeeps(t: string, b: string)
    ensures |t| <= |Append(t, b)| && t[..|t|] == Append(t, b)[..|t|]
  {
  }

  lemma AppendCarries(t: string, b: string, other: Markers, o: Span, c: string)
    requires LineMarkers(other) && BlockSpan(t, other) == Some(o) && Carries(t, other, c)
    ensures Carries(Append(t, b), other, c)
  {
    SpansAreNotEmpty(t, other);
    assert t[o.from..o.to][o.to - 1 - o.from] == (c + "\n")[|c|];
    AppendTracks(t, b, other, o);
    AppendKeeps(t, b);
    SlicesInPrefix(t, Append(t, b), |t|, o.from, o.to);
  }

  lemma PutAppendTracks(t: string, m: Markers, b: string, other: Markers)
    requires Fits(m, b, other) && Apart(t, m, other) && BlockSpan(t, m) == None
    ensures var u := PutBlock(t, m, b);
      && Apart(u, m, other)
      && (BlockSpan(u, other) == None <==> BlockSpan(t, other) == None)
      && (forall c :: Carries(t, other, c) ==> Carries(u, other, c))
  {
    var u := PutBlock(t, m, b);
    AppendedIsFound(t, m, b);
    assert u == LineEnded(t) + (b + "\n");
    if BlockSpan(t, other).Some? {
      var o := BlockSpan(t, other).value;
      AppendTracks(t, b, other, o);
      SpansAreNotEmpty(t, other);
      forall c | Carries(t, other, c) ensures Carries(u, other, c) {
        AppendCarries(t, b, other, o, c);
      }
    } else {
      AppendedIsFree(t, b, other.start);
    }
  }

  lemma PutCarries(text: string, m: Markers, b: string)
    requires LineMarkers(m) && IsBlock(b, m) && WellMarked(text, m)
    ensures Carries(PutBlock(text, m, b), m, b)
  {
    if BlockSpan(text, m).Some? {
      ReplacedIsFound(text, m, b);
      EditedParts(text, BlockSpan(text, m).value, b);
    } else {
      AppendedIsFound(text, m, b);
      var before := LineEnded(text);
      assert (before + b + "\n" + "")[|before|..|before| + |b| + 1] == b + "\n";
    }
  }

  lemma CarriedIsKept(text: string, m: Markers, b: string)
    requires Carries(text, m, b)
    ensures PutBlock(text, m, b) == text
  {
    var s := BlockSpan(text, m).value;
    assert text == text[..s.from] + text[s.from..s.to] + text[s.to..];
    assert text[..s.from] + (b + "\n") + text[s.to..] == text[..s.from] + b + "\n" + text[s.to..];
  }

  // ----- Putting both

  /** What the two blocks need to live in one file. */
  ghost predicate FitTogether(m1: Markers, b1: string, m2: Markers, b2: string) {
    Fits(m1, b1, m2) && Fits(m2, b2, m1)
  }

  /** Putting both blocks twice is putting them once, in every file whose markers are paired and whose old blocks, if
      any, do not overlap. */
  lemma PutTwoTwice(text: string, m1: Markers, b1: string, m2: Markers, b2: string, owns: string -> bool)
    requires FitTogether(m1, b1, m2, b2) && Apart(text, m1, m2)
    ensures var once := PutTwo(text, m1, b1, m2, b2, owns);
      && Carries(once, m1, b1) && (Carries(once, m2, b2) || BlockSpan(once, m2) == None)
      && PutTwo(once, m1, b1, m2, b2, owns) == once
  {
    var first, once := PutBlock(text, m1, b1), PutTwo(text, m1, b1, m2, b2, owns);
    PutTracks(text, m1, b1, m2);
    if BlockSpan(first, m2).Some? || !owns(first) {
      PutTracks(first, m2, b2, m1);
      CarriedIsKept(once, m2, b2);
    }
    CarriedIsKept(once, m1, b1);
  }

  // ----- Removing both

  /** The block, if there is one, begins on a line of its own. */
  predicate StartsLine(text: string, m: Markers) {
    var span := BlockSpan(text, m);
    span.Some? ==> LineEnded(text[..span.value.from]) == text[..span.value.from]
  }

  function Cut(t: string, s: Span): string
    requires s.from <= s.to <= |t|
  {
    t[..s.from] + t[s.to..]
  }

  lemma CutIsEdit(t: string, s: Span)
    requires s.from <= s.to <= |t|
    ensures IsEdit(t, s, Cut(t, s), s.from)
  {
  }

  /** Cutting whole lines brings in no marker. */
  lemma CutKeepsNone(t: string, s: Span, marker: string, n: nat)
    requires s.from <= s.to <= |t| && LineEnded(t[..s.from]) == t[..s.from]
    requires marker != "" && '\n' !in marker && s.to <= n && NoneBefore(t, n, marker)
    ensures NoneBefore(Cut(t, s), n - s.to + s.from, marker)
  {
    var u := Cut(t, s);
    CutIsEdit(t, s);
    forall j: nat | j < n - s.to + s.from ensures !OccursAt(u, j, marker) {
      if j < s.from {
        assert t[..s.from] + t[s.to..] == u;
        assert !OccursAt(t, j, marker);
        NoStraddle(t[..s.from], t[s.to..], marker, j);
        NoStraddle(t[..s.from], t[s.from..], marker, j);
        assert t[..s.from] + t[s.from..] == t;
      } else {
        ShiftedOccurrence(u, s.from, t, s.to, marker, j);
        assert !OccursAt(t, j - s.from + s.to, marker);
      }
    }
  }

  /** Where the other block stands once one is removed. */
  lemma CutTracks(t: string, m: Markers, s: Span, other: Markers, o: Span)
    requires LineMarkers(m) && LineMarkers(other) && Apart(t, m, other)
    requires BlockSpan(t, m) == Some(s) && StartsLine(t, m) && BlockSpan(t, other) == Some(o)
    ensures BlockSpan(Cut(t, s), other) ==
      Some(if o.to <= s.from then o else Span(o.from - s.to + s.from, o.to - s.to + s.from))
  {
    CutIsEdit(t, s);
    SpansAreNotEmpty(t, m);
    if o.to <= s.from {
      EarlierStays(t, s, Cut(t, s), s.from, other, o);
    } else {
      CutKeepsNone(t, s, other.start, o.from);
      LaterIsShifted(t, s, Cut(t, s), s.from, other, o, Span(o.from - s.to + s.from, o.to - s.to + s.from));
    }
  }

  lemma CutLeavesFree(t: string, m: Markers, s: Span, other: Markers)
    requires LineMarkers(m) && LineMarkers(other) && !Contains(t, other.start)
    requires BlockSpan(t, m) == Some(s) && StartsLine(t, m)
    ensures !Contains(Cut(t, s), other.start)
  {
    CutIsEdit(t, s);
    NoneMeansFree(t, other.start);
    CutKeepsNone(t, s, other.start, |t|);
    NoneMeansFree(Cut(t, s), other.start);
  }

  lemma CutThenEditLater(t: string, o: Span, s: Span, b: string, moved: Span)
    requires o.from <= o.to <= s.from <= s.to <= |t|
    requires moved == Span(s.from - o.to + o.from, s.to - o.to + o.from)
    ensures Cut(Edited(t, s, b), o) == Edited(Cut(t, o), moved, b)
  {
    var x, y, z := t[..o.from], t[o.to..s.from], t[s.to..];
    var u, r := Edited(t, s, b), Cut(t, o);
    assert u[..o.from] == x && u[o.to..] == y + b + "\n" + z;
    assert r[..moved.from] == x + y && r[moved.to..] == z;
    assert x + (y + b + "\n" + z) == (x + y) + b + "\n" + z;
  }

  lemma CutThenEditEarlier(t: string, o: Span, s: Span, b: string, moved: Span)
    requires s.from <= s.to <= o.from <= o.to <= |t|
    requires moved == Span(o.from - s.to + s.from + |b| + 1, o.to - s.to + s.from + |b| + 1)
    ensures moved.to <= |Edited(t, s, b)|
    ensures Cut(Edited(t, s, b), moved) == Edited(Cut(t, o), s, b)
  {
    var x, y, z := t[..s.from], t[s.to..o.from], t[o.to..];
    var u, r := Edited(t, s, b), Cut(t, o);
    assert u[..moved.from] == x + b + "\n" + y && u[moved.to..] == z;
    assert r[..s.from] == x && r[s.to..] == y + z;
    assert (x + b + "\n" + y) + z == x + b + "\n" + (y + z);
  }

  lemma RemoveIsCut(text: string, m: Markers, s: Span)
    requires BlockSpan(text, m) == Some(s)
    ensures RemoveBlock(text, m) == Cut(text, s)
  {
  }

  /** Removing the second block and putting the first one can be done in either order. */
  lemma RemoveThenPut(t: string, m1: Markers, b1: string, m2: Markers)
    requires Fits(m1, b1, m2) && Apart(t, m1, m2) && StartsLine(t, m2)
    ensures WellMarked(RemoveBlock(t, m2), m1)
    ensures RemoveBlock(PutBlock(t, m1, b1), m2) == PutBlock(RemoveBlock(t, m2), m1, b1)
    ensures BlockSpan(RemoveBlock(t, m2), m1) == None <==> BlockSpan(t, m1) == None
  {
    PutTracks(t, m1, b1, m2);
    if BlockSpan(t, m2).Some? {
      var o := BlockSpan(t, m2).value;
      RemoveIsCut(t, m2, o);
      if BlockSpan(t, m1).Some? {
        CutTracks(t, m2, o, m1, BlockSpan(t, m1).value);
        RemoveThenEdit(t, m1, BlockSpan(t, m1).value, b1, m2, o);
      } else {
        CutLeavesFree(t, m2, o, m1);
        RemoveThenAppend(t, b1, m2, o);
      }
    }
  }

  lemma CutIsEditedExactly(u: string, m2: Markers, v: Span, r: string, m1: Markers, w: Span, b: string)
    requires BlockSpan(u, m2) == Some(v) && BlockSpan(r, m1) == Some(w) && Cut(u, v) == Edited(r, w, b)
    ensures RemoveBlock(u, m2) == PutBlock(r, m1, b)
  {
  }

  lemma RemoveThenEditLater(t: string, m1: Markers, s: Span, b1: string, m2: Markers, o: Span, moved: Span)
    requires Fits(m1, b1, m2) && BlockSpan(t, m1) == Some(s) && BlockSpan(t, m2) == Some(o) && o.to <= s.from
    requires moved == Span(s.from - o.to + o.from, s.to - o.to + o.from) && BlockSpan(Cut(t, o), m1) == Some(moved)
    ensures RemoveBlock(Edited(t, s, b1), m2) == PutBlock(Cut(t, o), m1, b1)
  {
    SpansAreNotEmpty(t, m1);
    EditedIsEdit(t, s, b1);
    EarlierStays(t, s, Edited(t, s, b1), s.from + |b1| + 1, m2, o);
    CutThenEditLater(t, o, s, b1, moved);
    CutIsEditedExactly(Edited(t, s, b1), m2, o, Cut(t, o), m1, moved, b1);
  }

  lemma LaterAfterEdit(
      t: string, m1: Markers, s: Span, b1: string, m2: Markers, o: Span, after: nat, moved: Span)
    requires Fits(m1, b1, m2) && BlockSpan(t, m1) == Some(s) && BlockSpan(t, m2) == Some(o) && s.to <= o.from
    requires after == s.from + |b1| + 1 && moved == Span(o.from - s.to + after, o.to - s.to + after)
    ensures BlockSpan(Edited(t, s, b1), m2) == Some(moved)
  {
    EditedIsEdit(t, s, b1);
    EditKeepsNone(t, m1, s, b1, m2, o.from);
    LaterIsShifted(t, s, Edited(t, s, b1), after, m2, o, moved);
  }

  lemma RemoveThenEditEarlier(t: string, m1: Markers, s: Span, b1: string, m2: Markers, o: Span, moved: Span)
    requires Fits(m1, b1, m2) && BlockSpan(t, m1) == Some(s) && BlockSpan(t, m2) == Some(o) && s.to <= o.from
    requires moved == Span(o.from - s.to + s.from + |b1| + 1, o.to - s.to + s.from + |b1| + 1)
    requires BlockSpan(Cut(t, o), m1) == Some(s)
    ensures RemoveBlock(Edited(t, s, b1), m2) == PutBlock(Cut(t, o), m1, b1)
  {
    LaterAfterEdit(t, m1, s, b1, m2, o, s.from + |b1| + 1, moved);
    CutThenEditEarlier(t, o, s, b1, moved);
    CutIsEditedExactly(Edited(t, s, b1), m2, moved, Cut(t, o), m1, s, b1);
  }

  lemma RemoveThenEdit(t: string, m1: Markers, s: Span, b1: string, m2: Markers, o: Span)
    requires Fits(m1, b1, m2) && Apart(t, m1, m2) && StartsLine(t, m2)
    requires BlockSpan(t, m1) == Some(s) && BlockSpan(t, m2) == Some(o)
    ensures RemoveBlock(Edited(t, s, b1), m2) == PutBlock(Cut(t, o), m1, b1)
  {
    CutTracks(t, m2, o, m1, s);
    if o.to <= s.from {
      SpansAreNotEmpty(t, m2);
      RemoveThenEditLater(t, m1, s, b1, m2, o, Span(s.from - o.to + o.from, s.to - o.to + o.from));
    } else {
      RemoveThenEditEarlier(t, m1, s, b1, m2, o,
                            Span(o.from - s.to + s.from + |b1| + 1, o.to - s.to + s.from + |b1| + 1));
    }
  }

  lemma EndedAfterCut(t: string, o: Span, to: nat)
    requires o.from < o.to <= |t| && LineEnded(t[..o.from]) == t[..o.from]
    requires if t[o.to - 1] == '\n' then to == o.to else to == |LineEnded(t)| && o.to == |t|
    ensures to <= |LineEnded(t)| && LineEnded(Cut(t, o)) == t[..o.from] + LineEnded(t)[to..]
  {
    if o.to < |t| {
      assert Cut(t, o)[|Cut(t, o)| - 1] == t[|t| - 1];
    }
  }

  lemma CutOfSum(ended: string, tail: string, from: nat, to: nat)
    requires from <= to <= |ended|
    ensures Cut(ended + tail, Span(from, to)) == ended[..from] + ended[to..] + tail
  {
  }

  lemma RemoveThenAppend(t: string, b1: string, m2: Markers, o: Span)
    requires LineMarkers(m2) && BlockSpan(t, m2) == Some(o) && StartsLine(t, m2)
    ensures RemoveBlock(Append(t, b1), m2) == Append(Cut(t, o), b1)
  {
    AppendTracks(t, b1, m2, o);
    SpansAreNotEmpty(t, m2);
    NextLineFacts(t, FindFrom(t, m2.end, o.from).value);
    var to := if t[o.to - 1] == '\n' then o.to else |LineEnded(t)|;
    EndedAfterCut(t, o, to);
    CutOfSum(LineEnded(t), b1 + "\n", o.from, to);
    SumsAgree(LineEnded(t), b1);
    SumsAgree(LineEnded(Cut(t, o)), b1);
    assert LineEnded(t)[..o.from] == t[..o.from];
  }

  lemma SumsAgree(a: string, b: string)
    ensures a + b + "\n" == a + (b + "\n")
  {
  }

  /** What is left when the last line of a text may get its newline. */
  predicate SameSaveNewline(a: string, b: string) {
    a == b || a == b + "\n"
  }

  /** Removing both blocks after putting both leaves what removing them before would have left, save for a newline at
      its end; a file without blocks comes back with its last line ended. */
  lemma PutTwoThenRemove(text: string, m1: Markers, b1: string, m2: Markers, b2: string, owns: string -> bool)
    requires FitTogether(m1, b1, m2, b2) && Apart(text, m1, m2) && StartsLine(text, m2)
    ensures var once := PutTwo(text, m1, b1, m2, b2, owns);
      && SameSaveNewline(RemoveTwo(once, m1, m2), RemoveTwo(text, m1, m2))
      && (BlockSpan(text, m1) == None && BlockSpan(text, m2) == None ==> RemoveTwo(once, m1, m2) == LineEnded(text))
  {
    var first, once := PutBlock(text, m1, b1), PutTwo(text, m1, b1, m2, b2, owns);
    var rest := RemoveBlock(text, m2);
    PutTracks(text, m1, b1, m2);
    RemoveThenPut(text, m1, b1, m2);
    PutForgets(rest, m1, b1, b1);
    assert RemoveTwo(first, m1, m2) == if BlockSpan(rest, m1) == None then LineEnded(rest) else RemoveBlock(rest, m1);
    if once != first {
      PutForgets(first, m2, b2, b2);
      if BlockSpan(first, m2) == None {
        LastLineEnded(first, m1, b1);
        if BlockSpan(text, m1) == None {
          assert LineEnded(first) == first;
        }
      }
    }
  }

  lemma LastLineEnded(t: string, m: Markers, b: string)
    requires LineMarkers(m) && Carries(t, m, b)
    ensures SameSaveNewline(RemoveBlock(LineEnded(t), m), RemoveBlock(t, m))
  {
    var s := BlockSpan(t, m).value;
    SpansAreNotEmpty(t, m);
    assert t[s.from..s.to][s.to - 1 - s.from] == (b + "\n")[|b|];
    assert t[..s.to] == LineEnded(t)[..s.to];
    SpanOfPrefix(t, LineEnded(t), m, s);
    assert LineEnded(t)[..s.from] == t[..s.from];
    if LineEnded(t) != t {
      assert LineEnded(t)[s.to..] == t[s.to..] + "\n";
    }
  }
}
