/** The marked block that the installer keeps in a configuration file it does not own: installing, replacing and
    removing it, as functions of the file's text. */
module MarkedBlocks {
  import opened Options

  const CONFIG_START := "# ZVEC_GREP_START"
  const CONFIG_END := "# ZVEC_GREP_END"
  const PERMISSION_START := "# ZVEC_GREP_PERMISSION_START"
  const PERMISSION_END := "# ZVEC_GREP_PERMISSION_END"
  const SERVER_TABLE := "[mcp_servers.zvec_grep]"

  // ----- Finding

  /** `part` stands at position `i` of the text. */
  predicate OccursAt(text: string, i: nat, part: string) {
    i + |part| <= |text| && forall k :: 0 <= k < |part| ==> text[i + k] == part[k]
  }

  /** The first occurrence of `part` from position `i` on. */
  function FindFrom(text: string, part: string, i: nat): (r: Option<nat>)
    ensures r.Some? ==> i <= r.value && OccursAt(text, r.value, part)
    ensures forall j: nat {:trigger OccursAt(text, j, part)} ::
      i <= j && (r.Some? ==> j < r.value) ==> !OccursAt(text, j, part)
    decreases |text| - i
  {
    if i + |part| > |text| then None
    else if OccursAt(text, i, part) then Some(i)
    else FindFrom(text, part, i + 1)
  }

  predicate Contains(text: string, part: string) {
    FindFrom(text, part, 0).Some?
  }

  /** The start of the next line behind position `i`, or the end of the text. */
  function NextLine(text: string, i: nat): (r: nat)
    requires i <= |text|
    ensures i <= r <= |text|
    decreases |text| - i
  {
    if i == |text| then i else if text[i] == '\n' then i + 1 else NextLine(text, i + 1)
  }

  /** The two comment lines a block lives between. */
  datatype Markers = Markers(start: string, end: string)

  const CONFIG := Markers(CONFIG_START, CONFIG_END)
  const PERMISSION := Markers(PERMISSION_START, PERMISSION_END)

  datatype Span = Span(from: nat, to: nat)

  /** Where the block stands: from the first start marker to the end of the line of the first end marker behind it. */
  function BlockSpan(text: string, m: Markers): (r: Option<Span>)
    ensures r.Some? ==> r.value.from <= r.value.to <= |text|
  {
    var start := FindFrom(text, m.start, 0);
    if start == None then None
    else
      var end := FindFrom(text, m.end, start.value);
      if end == None then None else Some(Span(start.value, NextLine(text, end.value)))
  }

  function ReplaceBlock(text: string, m: Markers, block: string): Option<string> {
    var span := BlockSpan(text, m);
    if span == None then None
    else Some(text[..span.value.from] + block + "\n" + text[span.value.to..])
  }

  function RemoveBlock(text: string, m: Markers): string {
    var span := BlockSpan(text, m);
    if span == None then text else text[..span.value.from] + text[span.value.to..]
  }

  /** A text that ends its last line, as everything appended to a file follows a newline. */
  function LineEnded(text: string): string {
    if text == "" || text[|text| - 1] == '\n' then text else text + "\n"
  }

  function Append(text: string, block: string): string {
    LineEnded(text) + block + "\n"
  }

  /** Puts the block in the place of the old one, or at the end. */
  function PutBlock(text: string, m: Markers, block: string): string {
    var replaced := ReplaceBlock(text, m, block);
    if replaced.Some? then replaced.value else Append(text, block)
  }

  /** The block begins with its start marker, ends with its end marker and mentions the end marker only there. */
  ghost predicate IsBlock(block: string, m: Markers) {
    && |m.start| + |m.end| <= |block|
    && OccursAt(block, 0, m.start) && OccursAt(block, |block| - |m.end|, m.end)
    && forall j: nat {:trigger OccursAt(block, j, m.end)} :: j < |block| - |m.end| ==> !OccursAt(block, j, m.end)
  }

  predicate LineMarkers(m: Markers) {
    m.start != "" && m.end != "" && '\n' !in m.start && '\n' !in m.end
  }

  /** `text` is `before`, a block and `after`, and the block is the one that is found. */
  ghost predicate Holds(text: string, m: Markers, before: string, block: string, after: string) {
    && text == before + block + "\n" + after
    && BlockSpan(text, m) == Some(Span(|before|, |before| + |block| + 1))
  }

  lemma {:induction false} NextLineIs(text: string, i: nat, at: nat)
    requires i <= at < |text| && text[at] == '\n' && forall k :: i <= k < at ==> text[k] != '\n'
    ensures NextLine(text, i) == at + 1
    decreases at - i
  {
    if i == at {
    } else {
      NextLineIs(text, i + 1, at);
    }
  }

  /** A marker that ends its line. */
  lemma LineOfEnd(text: string, marker: string, at: nat)
    requires OccursAt(text, at, marker) && '\n' !in marker
    requires at + |marker| < |text| && text[at + |marker|] == '\n'
    ensures NextLine(text, at) == at + |marker| + 1
  {
    forall k | at <= k < at + |marker| ensures text[k] != '\n' {
      assert text[k] == marker[k - at];
    }
    NextLineIs(text, at, at + |marker|);
  }

  lemma FindIs(text: string, part: string, i: nat, at: nat)
    requires i <= at && OccursAt(text, at, part)
    requires forall j: nat {:trigger OccursAt(text, j, part)} :: i <= j < at ==> !OccursAt(text, j, part)
    ensures FindFrom(text, part, i) == Some(at)
  {
    var r := FindFrom(text, part, i);
    assert r.Some? ==> OccursAt(text, r.value, part);
  }

  lemma OccursInside(text: string, before: string, part: string, after: string, j: nat, m: string)
    requires text == before + part + after && |before| <= j && j + |m| <= |before| + |part|
    ensures OccursAt(text, j, m) <==> OccursAt(part, j - |before|, m)
  {
    forall k | |before| <= k < |before| + |part| ensures text[k] == part[k - |before|] {
    }
  }

  ghost predicate NoneBefore(text: string, n: nat, part: string) {
    forall j: nat {:trigger OccursAt(text, j, part)} :: j < n ==> !OccursAt(text, j, part)
  }

  lemma StartIsFound(before: string, m: Markers, block: string, after: string)
    requires OccursAt(block, 0, m.start)
    requires NoneBefore(before + block + "\n" + after, |before|, m.start)
    ensures FindFrom(before + block + "\n" + after, m.start, 0) == Some(|before|)
  {
    var text, rest := before + block + "\n" + after, "\n" + after;
    assert text == before + block + rest;
    OccursInside(text, before, block, rest, |before|, m.start);
    FindIs(text, m.start, 0, |before|);
  }

  /** A block put where no start marker stands before it is found again. */
  lemma PutIsFound(before: string, m: Markers, block: string, after: string)
    requires LineMarkers(m) && IsBlock(block, m)
    requires NoneBefore(before + block + "\n" + after, |before|, m.start)
    ensures Holds(before + block + "\n" + after, m, before, block, after)
  {
    var text, rest := before + block + "\n" + after, "\n" + after;
    StartIsFound(before, m, block, after);
    assert text == before + block + rest;
    var endAt := |before| + |block| - |m.end|;
    OccursInside(text, before, block, rest, endAt, m.end);
    forall j: nat | |before| <= j < endAt ensures !OccursAt(text, j, m.end) {
      OccursInside(text, before, block, rest, j, m.end);
      assert !OccursAt(block, j - |before|, m.end);
    }
    FindIs(text, m.end, |before|, endAt);
    LineOfEnd(text, m.end, endAt);
  }

  lemma HeldIsReplaced(text: string, m: Markers, before: string, block: string, after: string, other: string)
    requires Holds(text, m, before, block, after)
    ensures ReplaceBlock(text, m, other) == Some(before + other + "\n" + after)
    ensures RemoveBlock(text, m) == before + after
  {
    var to := |before| + |block| + 1;
    assert text[..|before|] == before;
    assert text[to..] == after;
  }

  /** No marker starts in the old text and ends in what is appended behind its last newline. */
  lemma NoStraddle(text: string, tail: string, part: string, j: nat)
    requires part != "" && '\n' !in part && j < |LineEnded(text)|
    ensures OccursAt(LineEnded(text) + tail, j, part) <==> OccursAt(text, j, part)
  {
    var ended := LineEnded(text);
    var all := ended + tail;
    assert forall k :: 0 <= k < |text| ==> all[k] == text[k];
    assert ended[|ended| - 1] == '\n' && all[|ended| - 1] == '\n';
    var k := |ended| - 1 - j;
    assert k < |part| ==> part[k] != '\n';
  }

  lemma SameBeforeMarker(text: string, next: string, before: string, marker: string, j: nat)
    requires before <= text && before <= next && j < |before|
    requires OccursAt(text, |before|, marker) && OccursAt(next, |before|, marker)
    ensures OccursAt(next, j, marker) <==> OccursAt(text, j, marker)
  {
    forall k | 0 <= k < |before| + |marker| ensures next[k] == text[k] {
      if k >= |before| {
        assert marker[k - |before|] == next[k] && marker[k - |before|] == text[k];
      } else {
        assert before[k] == text[k] && before[k] == next[k];
      }
    }
  }

  lemma NoneBeforeAppended(text: string, m: Markers, block: string)
    requires LineMarkers(m) && !Contains(text, m.start)
    ensures NoneBefore(LineEnded(text) + block + "\n" + "", |LineEnded(text)|, m.start)
    ensures LineEnded(text) + block + "\n" + "" == Append(text, block)
  {
    var before := LineEnded(text);
    assert before + block + "\n" + "" == Append(text, block) == before + (block + "\n");
    forall j: nat | j < |before| ensures !OccursAt(Append(text, block), j, m.start) {
      NoStraddle(text, block + "\n", m.start, j);
    }
  }

  lemma NoneBeforeReplaced(text: string, m: Markers, block: string)
    requires OccursAt(block, 0, m.start) && BlockSpan(text, m).Some?
    ensures var span := BlockSpan(text, m).value;
      NoneBefore(text[..span.from] + block + "\n" + text[span.to..], span.from, m.start)
  {
    var span := BlockSpan(text, m).value;
    var before, rest := text[..span.from], "\n" + text[span.to..];
    var next := before + block + "\n" + text[span.to..];
    assert next == before + block + rest;
    OccursInside(next, before, block, rest, span.from, m.start);
    forall j: nat | j < |before| ensures !OccursAt(next, j, m.start) {
      assert !OccursAt(text, j, m.start);
      SameBeforeMarker(text, next, before, m.start, j);
    }
  }

  lemma AppendedIsFound(text: string, m: Markers, block: string)
    requires LineMarkers(m) && IsBlock(block, m) && !Contains(text, m.start)
    ensures Holds(Append(text, block), m, LineEnded(text), block, "")
  {
    NoneBeforeAppended(text, m, block);
    PutIsFound(LineEnded(text), m, block, "");
  }

  lemma ReplacedIsFound(text: string, m: Markers, block: string)
    requires LineMarkers(m) && IsBlock(block, m) && BlockSpan(text, m).Some?
    ensures var span := BlockSpan(text, m).value;
      Holds(ReplaceBlock(text, m, block).value, m, text[..span.from], block, text[span.to..])
  {
    var span := BlockSpan(text, m).value;
    NoneBeforeReplaced(text, m, block);
    PutIsFound(text[..span.from], m, block, text[span.to..]);
  }

  /** The file has no start marker, or an end marker behind its first one. */
  predicate WellMarked(text: string, m: Markers) {
    Contains(text, m.start) ==> BlockSpan(text, m).Some?
  }

  /** Putting another block, of any content, forgets the first one; removing forgets both. */
  lemma PutForgets(text: string, m: Markers, first: string, second: string)
    requires LineMarkers(m) && IsBlock(first, m) && WellMarked(text, m)
    ensures PutBlock(PutBlock(text, m, first), m, second) == PutBlock(text, m, second)
    ensures RemoveBlock(PutBlock(text, m, first), m) ==
      if BlockSpan(text, m) == None then LineEnded(text) else RemoveBlock(text, m)
  {
    if BlockSpan(text, m).Some? {
      var span := BlockSpan(text, m).value;
      ReplacedIsFound(text, m, first);
      HeldIsReplaced(PutBlock(text, m, first), m, text[..span.from], first, text[span.to..], second);
    } else {
      AppendedIsFound(text, m, first);
      HeldIsReplaced(PutBlock(text, m, first), m, LineEnded(text), first, "", second);
      assert LineEnded(text) + "" == LineEnded(text);
      assert LineEnded(text) + second + "\n" + "" == Append(text, second);
    }
  }

  /** Behind a start marker that has no end marker, an appended block is taken for the end of an old one. */
  lemma OrphanMarkerTakesBlock(text: string, m: Markers, block: string)
    requires LineMarkers(m) && IsBlock(block, m) && !WellMarked(text, m)
    ensures BlockSpan(Append(text, block), m) == Some(Span(FindFrom(text, m.start, 0).value, |Append(text, block)|))
  {
    var before := LineEnded(text);
    var once := Append(text, block);
    assert before + (block + "\n") == once && before + block + "\n" == once;
    var start := FindFrom(text, m.start, 0).value;
    forall j: nat | j < start ensures !OccursAt(once, j, m.start) {
      NoStraddle(text, block + "\n", m.start, j);
    }
    NoStraddle(text, block + "\n", m.start, start);
    FindIs(once, m.start, 0, start);
    var endAt := |before| + |block| - |m.end|;
    OccursInside(once, before, block, "\n", endAt, m.end);
    forall j: nat | start <= j < endAt ensures !OccursAt(once, j, m.end) {
      if j < |before| {
        NoStraddle(text, block + "\n", m.end, j);
      } else {
        OccursInside(once, before, block, "\n", j, m.end);
        assert !OccursAt(block, j - |before|, m.end);
      }
    }
    FindIs(once, m.end, start, endAt);
    LineOfEnd(once, m.end, endAt);
  }

  /** So putting a second block deletes everything from that marker on. */
  lemma OrphanMarkerEatsText(text: string, m: Markers, block: string)
    requires LineMarkers(m) && IsBlock(block, m) && !WellMarked(text, m)
    ensures |PutBlock(PutBlock(text, m, block), m, block)| < |PutBlock(text, m, block)|
    ensures |RemoveBlock(PutBlock(text, m, block), m)| < |text|
  {
    OrphanMarkerTakesBlock(text, m, block);
  }

  /** A block that is found is not empty. */
  lemma SpansAreNotEmpty(text: string, m: Markers)
    requires m.end != "" && BlockSpan(text, m).Some?
    ensures BlockSpan(text, m).value.from < BlockSpan(text, m).value.to
  {
  }

  /** Putting the same block twice is putting it once exactly when no start marker stands without its end. */
  lemma PutTwiceExactly(text: string, m: Markers, block: string)
    requires LineMarkers(m) && IsBlock(block, m)
    ensures PutBlock(PutBlock(text, m, block), m, block) == PutBlock(text, m, block) <==> WellMarked(text, m)
  {
    if WellMarked(text, m) {
      PutForgets(text, m, block, block);
    } else {
      OrphanMarkerEatsText(text, m, block);
    }
  }

  /** Removing the block gives back the text as it was, with its last line ended, exactly when that text had no start
      marker. */
  lemma RemoveRestoresExactly(text: string, m: Markers, block: string)
    requires LineMarkers(m) && IsBlock(block, m)
    ensures RemoveBlock(PutBlock(text, m, block), m) == LineEnded(text) <==> !Contains(text, m.start)
  {
    if WellMarked(text, m) {
      PutForgets(text, m, block, block);
      if BlockSpan(text, m).Some? {
        SpansAreNotEmpty(text, m);
      }
    } else {
      OrphanMarkerEatsText(text, m, block);
    }
  }

  // ----- Blocks made from a body

  function MakeBlock(m: Markers, body: string): string {
    m.start + "\n" + body + "\n" + m.end
  }

  lemma BodyInBlock(m: Markers, body: string, part: string, j: nat)
    requires j + |part| <= |body|
    ensures OccursAt(MakeBlock(m, body), |m.start| + 1 + j, part) <==> OccursAt(body, j, part)
  {
    var before, after := m.start + "\n", "\n" + m.end;
    assert MakeBlock(m, body) == before + body + after;
    OccursInside(MakeBlock(m, body), before, body, after, |m.start| + 1 + j, part);
  }

  lemma MarkersInBlock(m: Markers, body: string)
    ensures var block := MakeBlock(m, body);
      && |block| == |m.start| + |body| + |m.end| + 2
      && OccursAt(block, 0, m.start) && OccursAt(block, |block| - |m.end|, m.end)
      && block[|m.start|] == '\n' && block[|m.start| + 1 + |body|] == '\n'
  {
  }

  /** A marker that starts no later than a newline ends before it. */
  lemma MarkerBefore(text: string, at: nat, marker: string, newline: nat)
    requires OccursAt(text, at, marker) && '\n' !in marker && at <= newline < |text| && text[newline] == '\n'
    ensures at + |marker| <= newline
  {
    forall k | at <= k < at + |marker| ensures text[k] != '\n' {
      assert text[at + (k - at)] == marker[k - at];
    }
  }

  lemma StartMarkerInBlock(m: Markers, body: string, part: string, j: nat)
    requires j + |part| <= |m.start|
    ensures OccursAt(MakeBlock(m, body), j, part) <==> OccursAt(m.start, j, part)
  {
    var after := "\n" + body + "\n" + m.end;
    assert MakeBlock(m, body) == "" + m.start + after;
    OccursInside(MakeBlock(m, body), "", m.start, after, j, part);
  }

  /** An end marker in a block stands in its start marker, in its body, or at its end. */
  lemma EndStandsWhere(m: Markers, body: string, j: nat)
    requires LineMarkers(m) && !Contains(m.start, m.end) && OccursAt(MakeBlock(m, body), j, m.end)
    ensures j == |MakeBlock(m, body)| - |m.end| || (|m.start| < j && j - |m.start| - 1 + |m.end| <= |body|)
  {
    var block, first, second := MakeBlock(m, body), |m.start|, |m.start| + 1 + |body|;
    MarkersInBlock(m, body);
    if j <= first {
      MarkerBefore(block, j, m.end, first);
      StartMarkerInBlock(m, body, m.end, j);
    } else if j <= second {
      MarkerBefore(block, j, m.end, second);
    }
  }

  lemma DirtyBodyShows(m: Markers, body: string)
    requires Contains(body, m.end)
    ensures !IsBlock(MakeBlock(m, body), m)
  {
    var at := FindFrom(body, m.end, 0).value;
    MarkersInBlock(m, body);
    BodyInBlock(m, body, m.end, at);
    assert OccursAt(MakeBlock(m, body), |m.start| + 1 + at, m.end);
  }

  lemma CleanBodyStays(m: Markers, body: string, j: nat)
    requires LineMarkers(m) && !Contains(m.start, m.end) && !Contains(body, m.end)
    requires j < |MakeBlock(m, body)| - |m.end|
    ensures !OccursAt(MakeBlock(m, body), j, m.end)
  {
    if OccursAt(MakeBlock(m, body), j, m.end) {
      EndStandsWhere(m, body, j);
      BodyInBlock(m, body, m.end, j - |m.start| - 1);
    }
  }

  /** A block is proper exactly when its body does not mention the end marker. */
  lemma BlockIsProperExactly(m: Markers, body: string)
    requires LineMarkers(m) && !Contains(m.start, m.end)
    ensures IsBlock(MakeBlock(m, body), m) <==> !Contains(body, m.end)
  {
    if Contains(body, m.end) {
      DirtyBodyShows(m, body);
    } else {
      MarkersInBlock(m, body);
      forall j: nat | j < |MakeBlock(m, body)| - |m.end| ensures !OccursAt(MakeBlock(m, body), j, m.end) {
        CleanBodyStays(m, body, j);
      }
    }
  }

  /** Whatever was put is found again, in some way. */
  lemma PutIsThere(text: string, m: Markers, body: string)
    ensures BlockSpan(PutBlock(text, m, MakeBlock(m, body)), m).Some?
  {
    var block := MakeBlock(m, body);
    var once := PutBlock(text, m, block);
    MarkersInBlock(m, body);
    var span := BlockSpan(text, m);
    var before := if span.Some? then text[..span.value.from] else LineEnded(text);
    var after := if span.Some? then text[span.value.to..] else "";
    assert once == before + block + "\n" + after && once == before + block + ("\n" + after);
    var startAt, endAt := |before|, |before| + |block| - |m.end|;
    OccursInside(once, before, block, "\n" + after, startAt, m.start);
    OccursInside(once, before, block, "\n" + after, endAt, m.end);
    assert OccursAt(once, startAt, m.start) && OccursAt(once, endAt, m.end);
  }

  lemma WrongFirst(text: string, part: string, j: nat)
    requires part != "" && (j >= |text| || text[j] != part[0])
    ensures !OccursAt(text, j, part)
  {
  }

  /** A block that mentions the end marker before its last line is only half replaced: the rest of it stays. */
  lemma EarlyEndGrows(before: string, m: Markers, block: string, after: string, early: nat, lineEnd: nat)
    requires OccursAt(block, 0, m.start) && OccursAt(block, early, m.end)
    requires early <= lineEnd < |block| && block[lineEnd] == '\n'
    requires NoneBefore(before + block + "\n" + after, |before|, m.start)
    ensures var once := before + block + "\n" + after; |PutBlock(once, m, block)| > |once|
  {
    var once, rest := before + block + "\n" + after, "\n" + after;
    StartIsFound(before, m, block, after);
    assert once == before + block + rest;
    OccursInside(once, before, block, rest, |before| + early, m.end);
    var end := FindFrom(once, m.end, |before|);
    assert end.Some? && end.value <= |before| + early;
    assert once[|before| + lineEnd] == block[lineEnd];
    NextLineAtMost(once, end.value, |before| + lineEnd);
  }

  lemma DirtyBlockGrows(before: string, m: Markers, body: string, after: string)
    requires Contains(body, m.end)
    requires NoneBefore(before + MakeBlock(m, body) + "\n" + after, |before|, m.start)
    ensures var once := before + MakeBlock(m, body) + "\n" + after;
      |PutBlock(once, m, MakeBlock(m, body))| > |once|
  {
    MarkersInBlock(m, body);
    var at := FindFrom(body, m.end, 0).value;
    BodyInBlock(m, body, m.end, at);
    EarlyEndGrows(before, m, MakeBlock(m, body), after, |m.start| + 1 + at, |m.start| + 1 + |body|);
  }

  lemma {:induction false} NextLineAtMost(text: string, i: nat, at: nat)
    requires i <= at < |text| && text[at] == '\n'
    ensures NextLine(text, i) <= at + 1
    decreases at - i
  {
    if i == at || text[i] == '\n' {
    } else {
      NextLineAtMost(text, i + 1, at);
    }
  }

  /** In a file whose markers are paired, putting a block twice is putting it once exactly when its body does not
      mention the end marker. */
  lemma PutMadeBlockTwiceExactly(text: string, m: Markers, body: string)
    requires LineMarkers(m) && !Contains(m.start, m.end) && WellMarked(text, m)
    ensures var block := MakeBlock(m, body);
      PutBlock(PutBlock(text, m, block), m, block) == PutBlock(text, m, block) <==> !Contains(body, m.end)
  {
    var block := MakeBlock(m, body);
    BlockIsProperExactly(m, body);
    MarkersInBlock(m, body);
    if !Contains(body, m.end) {
      PutForgets(text, m, block, block);
    } else if BlockSpan(text, m).Some? {
      var span := BlockSpan(text, m).value;
      NoneBeforeReplaced(text, m, block);
      DirtyBlockGrows(text[..span.from], m, body, text[span.to..]);
    } else {
      NoneBeforeAppended(text, m, block);
      DirtyBlockGrows(LineEnded(text), m, body, "");
    }
  }
}
