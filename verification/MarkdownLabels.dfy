/** What the sections and fragments of a markdown text are called: which headings enclose which, where each section
    runs, and what the header of a fragment says. */
module MarkdownLabels {
  import opened Options
  import opened Texts
  import opened Chunks
  import opened VectorContent
  import opened MarkdownHeadings
  import opened MarkdownSections
  import opened MarkdownWindows
  import opened MarkdownFragments

  // ----- Breadcrumbs

  /** Every heading from behind `j` up to and including `i` is deeper than `j`. */
  ghost predicate Encloses(hs: seq<Heading>, j: nat, i: nat)
    requires i < |hs|
  {
    j < i && forall k :: j < k <= i ==> hs[k].level > hs[j].level
  }

  /** `chain` is the headings at these places, in order. */
  ghost predicate StandAt(hs: seq<Heading>, chain: seq<Heading>, places: seq<nat>) {
    && |chain| == |places|
    && (forall n :: 0 <= n < |places| ==> places[n] < |hs| && chain[n] == hs[places[n]])
    && (forall m, n :: 0 <= m < n < |places| ==> places[m] < places[n])
  }

  /** Heading `m - 1` is the nearest before `i` that is less deep, or there is none. */
  ghost predicate IsNearest(hs: seq<Heading>, i: nat, m: nat)
    requires i < |hs|
  {
    m <= i && (m > 0 ==> hs[m - 1].level < hs[i].level) && forall k :: m <= k < i ==> hs[k].level >= hs[i].level
  }

  lemma EnclosedByNearest(hs: seq<Heading>, i: nat, m: nat, j: nat)
    requires i < |hs| && IsNearest(hs, i, m)
    ensures Encloses(hs, j, i) <==> m > 0 && (j == m - 1 || Encloses(hs, j, m - 1))
  {
    if Encloses(hs, j, i) {
      assert hs[i].level > hs[j].level;
      assert j < m;
    }
    if m > 0 && Encloses(hs, j, m - 1) {
      assert hs[m - 1].level > hs[j].level;
    }
  }

  /** The places of heading `i` and of those that enclose it. */
  ghost predicate ArePlaces(hs: seq<Heading>, places: seq<nat>, i: nat)
    requires i < |hs|
  {
    forall j: nat :: j in places <==> j == i || Encloses(hs, j, i)
  }

  lemma PlacesBehindNearest(hs: seq<Heading>, i: nat, m: nat, above: seq<nat>)
    requires i < |hs| && IsNearest(hs, i, m) && if m == 0 then above == [] else ArePlaces(hs, above, m - 1)
    ensures ArePlaces(hs, above + [i], i)
    ensures forall j: nat :: j in above <==> Encloses(hs, j, i)
  {
    forall j: nat
      ensures j in above <==> Encloses(hs, j, i)
      ensures j in above + [i] <==> j == i || Encloses(hs, j, i)
    {
      EnclosedByNearest(hs, i, m, j);
    }
  }

  /** `chain` is the heading at `i` and those that enclose it. */
  ghost predicate ChainAt(hs: seq<Heading>, chain: seq<Heading>, places: seq<nat>, i: nat)
    requires i < |hs|
  {
    StandAt(hs, chain, places) && ArePlaces(hs, places, i)
  }

  lemma OneMorePlace(hs: seq<Heading>, i: nat, m: nat, chain: seq<Heading>, places: seq<nat>)
    requires i < |hs| && IsNearest(hs, i, m)
    requires if m == 0 then chain == [] && places == [] else ChainAt(hs, chain, places, m - 1)
    ensures ChainAt(hs, chain + [hs[i]], places + [i], i)
    ensures StandAt(hs, chain, places) && forall j: nat :: j in places <==> Encloses(hs, j, i)
  {
    PlacesBehindNearest(hs, i, m, places);
    forall a, b | 0 <= a < b < |places + [i]| ensures (places + [i])[a] < (places + [i])[b] {
      assert places[a] in places;
    }
  }

  lemma ChainUnfolds(hs: seq<Heading>, n: nat, m: nat, above: seq<Heading>, chain: seq<Heading>)
    requires 0 < n <= |hs| && m == Above(hs, hs[n - 1].level, n - 1)
    requires above == Chain(hs, m) && chain == Chain(hs, n)
    ensures IsNearest(hs, n - 1, m) && chain == above + [hs[n - 1]] && (m == 0 ==> above == [])
  {
  }

  lemma {:induction false} ChainStands(hs: seq<Heading>, n: nat, chain: seq<Heading>) returns (places: seq<nat>)
    requires 0 < n <= |hs| && chain == Chain(hs, n)
    ensures ChainAt(hs, chain, places, n - 1)
    decreases n
  {
    var m := Above(hs, hs[n - 1].level, n - 1);
    var above, aboveAt: seq<nat> := Chain(hs, m), [];
    ChainUnfolds(hs, n, m, above, chain);
    if m > 0 {
      aboveAt := ChainStands(hs, m, above);
    }
    OneMorePlace(hs, n - 1, m, above, aboveAt);
    places := aboveAt + [n - 1];
  }

  /** The headings a heading stands under are exactly those that enclose it, in the order of the text. */
  lemma AncestorsEncloseExactly(hs: seq<Heading>, i: nat) returns (places: seq<nat>)
    requires i < |hs|
    ensures StandAt(hs, Ancestors(hs, i), places)
    ensures forall j: nat :: j in places <==> Encloses(hs, j, i)
  {
    var m := Above(hs, hs[i].level, i);
    var above := Chain(hs, m);
    ChainUnfolds(hs, i + 1, m, above, Chain(hs, i + 1));
    places := [];
    if m > 0 {
      places := ChainStands(hs, m, above);
    }
    OneMorePlace(hs, i, m, above, places);
  }

  lemma {:induction false} TitlesAre(hs: seq<Heading>, n: nat)
    ensures |Titles(hs)| == |hs| && (n < |hs| ==> Titles(hs)[n] == hs[n].text)
  {
    if hs == [] {
    } else {
      TitlesAre(hs[..|hs| - 1], n);
    }
  }

  /** The breadcrumb of a section is the titles of the headings that enclose its own. */
  lemma BreadcrumbEnclosesExactly(lines: seq<string>, hs: seq<Heading>, i: nat) returns (places: seq<nat>)
    requires i < |hs| && Placed(lines, hs)
    ensures forall j: nat :: j in places <==> Encloses(hs, j, i)
    ensures
      var breadcrumb := SectionOf(lines, hs, i).breadcrumb;
      && |breadcrumb| == |places|
      && (forall m, n :: 0 <= m < n < |places| ==> places[m] < places[n])
      && (forall n :: 0 <= n < |places| ==> places[n] < |hs| && breadcrumb[n] == hs[places[n]].text)
  {
    places := AncestorsEncloseExactly(hs, i);
    TitlesAre(Ancestors(hs, i), 0);
    forall n | 0 <= n < |places| ensures SectionOf(lines, hs, i).breadcrumb[n] == hs[places[n]].text {
      TitlesAre(Ancestors(hs, i), n);
    }
  }

  // ----- Sections

  lemma {:induction false} BlankLinesJoin(lines: seq<string>, n: nat)
    requires n <= |lines|
    ensures Blank(JoinLines(lines, 0, n)) <==> forall k :: 0 <= k < n ==> Blank(lines[k])
  {
    if n <= 1 {
    } else {
      BlankLinesJoin(lines, n - 1);
      BlankSum(JoinLines(lines, 0, n - 1), lines[n - 1]);
    }
  }

  lemma BlankSum(a: string, b: string)
    ensures Blank(a + "\n" + b) <==> Blank(a) && Blank(b)
  {
    var s := a + "\n" + b;
    assert forall k :: 0 <= k < |a| ==> s[k] == a[k];
    assert forall k :: 0 <= k < |b| ==> b[k] == s[|a| + 1 + k];
  }

  /** The number of sections before the headings' own. */
  ghost function Before(lines: seq<string>, hs: seq<Heading>): nat
    requires hs != [] && hs[0].lineIndex <= |lines|
  {
    if forall k :: 0 <= k < hs[0].lineIndex ==> Blank(lines[k]) then 0 else 1
  }

  lemma SectionsOneMore(lines: seq<string>, hs: seq<Heading>, n: nat)
    requires n < |hs| && Placed(lines, hs)
    ensures SectionsUpTo(lines, hs, n + 1) == SectionsUpTo(lines, hs, n) + [SectionOf(lines, hs, n)]
  {
  }

  /** Each list is the one before it and one more section. */
  ghost predicate ListsGrow(lists: seq<seq<Section>>, added: seq<Section>) {
    && |lists| == |added| + 1
    && forall k {:trigger added[k]} :: 0 <= k < |added| ==> lists[k + 1] == lists[k] + [added[k]]
  }

  lemma {:induction false} AddedStand(lists: seq<seq<Section>>, added: seq<Section>, n: nat, i: nat)
    requires ListsGrow(lists, added) && n <= |added|
    ensures |lists[n]| == |lists[0]| + n
    ensures i < n ==> lists[n][|lists[0]| + i] == added[i]
    ensures i < |lists[0]| ==> lists[n][i] == lists[0][i]
  {
    if n == 0 {
    } else {
      AddedStand(lists, added, n - 1, i);
      assert lists[n] == lists[n - 1] + [added[n - 1]];
    }
  }

  ghost predicate AreLists(lines: seq<string>, hs: seq<Heading>, lists: seq<seq<Section>>)
    requires Placed(lines, hs)
  {
    |lists| == |hs| + 1 && forall k {:trigger lists[k]} :: 0 <= k <= |hs| ==> lists[k] == SectionsUpTo(lines, hs, k)
  }

  ghost predicate AreOwn(lines: seq<string>, hs: seq<Heading>, added: seq<Section>)
    requires Placed(lines, hs)
  {
    |added| == |hs| && forall k {:trigger added[k]} :: 0 <= k < |hs| ==> added[k] == SectionOf(lines, hs, k)
  }

  function ListsOf(lines: seq<string>, hs: seq<Heading>): (lists: seq<seq<Section>>)
    requires Placed(lines, hs)
    ensures AreLists(lines, hs, lists)
  {
    seq(|hs| + 1, k requires 0 <= k <= |hs| => SectionsUpTo(lines, hs, k))
  }

  function OwnSections(lines: seq<string>, hs: seq<Heading>): (added: seq<Section>)
    requires Placed(lines, hs)
    ensures AreOwn(lines, hs, added)
  {
    seq(|hs|, k requires 0 <= k < |hs| => SectionOf(lines, hs, k))
  }

  lemma GrowsAt(lines: seq<string>, hs: seq<Heading>, lists: seq<seq<Section>>, added: seq<Section>, k: nat)
    requires Placed(lines, hs) && AreLists(lines, hs, lists) && AreOwn(lines, hs, added) && k < |hs|
    ensures lists[k + 1] == lists[k] + [added[k]]
  {
    SectionsOneMore(lines, hs, k);
  }

  /** The sections are the preamble and the headings' own. */
  lemma SectionsStand(lines: seq<string>, hs: seq<Heading>, lists: seq<seq<Section>>, added: seq<Section>, i: nat)
    requires Placed(lines, hs) && AreLists(lines, hs, lists) && AreOwn(lines, hs, added) && i < |hs|
    ensures |lists[|hs|]| == |lists[0]| + |hs| && lists[|hs|][|lists[0]| + i] == added[i]
    ensures lists[0] != [] ==> lists[|hs|][0] == lists[0][0]
  {
    forall k | 0 <= k < |added| ensures lists[k + 1] == lists[k] + [added[k]] {
      GrowsAt(lines, hs, lists, added, k);
    }
    AddedStand(lists, added, |hs|, i);
    AddedStand(lists, added, |hs|, 0);
  }

  lemma SectionsAreListed(lines: seq<string>, hs: seq<Heading>, i: nat, preamble: seq<Section>, all: seq<Section>)
    requires Placed(lines, hs) && i < |hs| && all == SectionsOf(lines, hs) && preamble == Preamble(lines, hs)
    ensures |all| == |preamble| + |hs| && all[|preamble| + i] == SectionOf(lines, hs, i)
    ensures preamble != [] ==> all[0] == preamble[0]
  {
    var lists, added := ListsOf(lines, hs), OwnSections(lines, hs);
    SectionsStand(lines, hs, lists, added, i);
    assert lists[0] == preamble && lists[|hs|] == all && added[i] == SectionOf(lines, hs, i);
  }

  lemma PreambleIs(lines: seq<string>, hs: seq<Heading>, preamble: seq<Section>)
    requires hs != [] && Placed(lines, hs) && preamble == Preamble(lines, hs)
    ensures |preamble| == Before(lines, hs)
    ensures preamble != [] ==> preamble[0] == Section(None, 0, hs[0].lineIndex - 1, [])
  {
    BlankLinesJoin(lines, hs[0].lineIndex);
  }

  /** The section of heading `i` runs from its line to before the next heading's, or to the end of the text. */
  ghost predicate RunsFrom(lines: seq<string>, hs: seq<Heading>, i: nat, s: Section)
    requires i < |hs|
  {
    && s.heading == Some(hs[i]) && s.startIndex == hs[i].lineIndex
    && s.endIndex + 1 == if i + 1 < |hs| then hs[i + 1].lineIndex else |lines|
  }

  lemma OwnSectionRuns(lines: seq<string>, hs: seq<Heading>, i: nat, s: Section)
    requires i < |hs| && Placed(lines, hs) && s == SectionOf(lines, hs, i)
    ensures RunsFrom(lines, hs, i, s)
  {
    SectionIsWithin(lines, hs, i);
  }

  /** One section per heading, in order; before them one without a heading exactly when a line before the first heading
      is not blank. */
  lemma SectionsAreExactly(lines: seq<string>, hs: seq<Heading>, i: nat, sections: seq<Section>)
    requires i < |hs| && Placed(lines, hs) && sections == SectionsOf(lines, hs)
    ensures
      var p := Before(lines, hs);
      && |sections| == p + |hs|
      && (p == 1 ==> sections[0] == Section(None, 0, hs[0].lineIndex - 1, []))
      && RunsFrom(lines, hs, i, sections[p + i]) && sections[p + i] == SectionOf(lines, hs, i)
  {
    var preamble := Preamble(lines, hs);
    PreambleIs(lines, hs, preamble);
    SectionsAreListed(lines, hs, i, preamble, sections);
    OwnSectionRuns(lines, hs, i, sections[|preamble| + i]);
  }

  // ----- What a section contributes

  lemma {:induction false} MembersStand(packets: seq<Packet>, n: nat, k: nat, j: nat)
    requires k < n <= |packets| && j < Size(packets[k])
    ensures Total(packets, k) + j < Total(packets, n)
    ensures FragmentAt(packets, n, Total(packets, k) + j) == MemberAt(packets[k], Total(packets, k), j)
  {
    if k == n - 1 {
    } else {
      MembersStand(packets, n - 1, k, j);
    }
  }

  /** The fragments of a section stand together: its windows in order, and, exactly when there are several, an outline
      in front of them that gives the group its name. */
  lemma SectionContributes(packets: seq<Packet>, n: nat, k: nat, j: nat)
    requires k < n <= |packets| && j < |packets[k].windows|
    ensures
      var fs, first := Flatten(packets, n), Total(packets, k);
      && (|packets[k].windows| == 1 ==>
            first < |fs| && fs[first] == Fragment(first, packets[k].windows[0], packets[k].metadata, None))
      && (|packets[k].windows| > 1 ==>
            && first + 1 + j < |fs|
            && fs[first] == Fragment(first, packets[k].outline, packets[k].metadata, Some(first))
            && fs[first + 1 + j] == Fragment(first + 1 + j, packets[k].windows[j], packets[k].metadata, Some(first)))
      && Total(packets, k + 1) == first + |packets[k].windows| + if |packets[k].windows| > 1 then 1 else 0
  {
    MembersStand(packets, n, k, 0);
    MembersStand(packets, n, k, if |packets[k].windows| > 1 then j + 1 else j);
  }

  // ----- Labels

  function ReadNumber(digits: string): int {
    if digits == "" then 0
    else 10 * ReadNumber(digits[..|digits| - 1]) + (digits[|digits| - 1] as int - '0' as int)
  }

  /** A number is written in decimal digits without a leading zero. */
  lemma {:induction false} DecimalReadsBack(n: nat)
    ensures ReadNumber(Decimal(n)) == n && Decimal(n) != "" && (n > 0 ==> Decimal(n)[0] != '0')
    ensures forall k :: 0 <= k < |Decimal(n)| ==> '0' <= Decimal(n)[k] <= '9'
  {
    if n >= 10 {
      DecimalReadsBack(n / 10);
      var front := Decimal(n / 10);
      assert Decimal(n)[..|Decimal(n)| - 1] == front;
    } else {
      assert Decimal(n)[..0] == "";
    }
  }

  /** A scope is the names with "::" between them. */
  lemma {:induction false} ScopeByHead(names: seq<string>)
    ensures names == [] ==> JoinScope(names) == ""
    ensures |names| == 1 ==> JoinScope(names) == names[0]
    ensures |names| > 1 ==> JoinScope(names) == names[0] + "::" + JoinScope(names[1..])
  {
    if |names| > 2 {
      var n := |names| - 1;
      ScopeByHead(names[..n]);
      assert names[..n][1..] == names[1..][..n - 1];
      ThreeNames(names[0], JoinScope(names[1..][..n - 1]), names[n]);
    }
  }

  lemma ThreeNames(a: string, b: string, c: string)
    ensures a + "::" + b + "::" + c == a + "::" + (b + "::" + c)
  {
  }

  /** The header of a fragment names its section's heading and level and the scope, as far as there are any. */
  lemma HeaderNamesTheSection(s: Section)
    ensures
      var header := HeaderLines(SectionMetadata(s));
      && |header| == 3
      && header[0] == (if s.heading == None then None else Some("heading: " + s.heading.value.text))
      && header[1] == (if s.heading == None then None else Some("heading_level: " + Decimal(s.heading.value.level)))
      && header[2] == (if s.breadcrumb == [] then None else Some("scope: " + JoinScope(s.breadcrumb)))
  {
  }

  /** The fragment belongs to the section: it carries its heading, level and scope, and shows its lines; an outline
      stands for all of them, under the heading's text cut to the limit for the section. */
  ghost predicate Belongs(lines: seq<string>, f: Fragment, s: Section, limit: nat) {
    && Within(lines, s)
    && f.metadata.heading == (if s.heading == None then None else Some(s.heading.value.text))
    && f.metadata.level == (if s.heading == None then None else Some(s.heading.value.level))
    && f.metadata.scope == (if s.breadcrumb == [] then None else Some(JoinScope(s.breadcrumb)))
    && f.chunk.startOffset >= ByteStart(lines, s.startIndex)
    && f.chunk.endOffset <= ByteStart(lines, s.endIndex) + Bytes(lines[s.endIndex])
    && (IsOutline(f) ==>
          && f.chunk.startLine == s.startIndex + 1 && f.chunk.endLine == s.endIndex + 1
          && f.chunk.startOffset == ByteStart(lines, s.startIndex)
          && f.chunk.endOffset == ByteStart(lines, s.endIndex) + Bytes(lines[s.endIndex])
          && f.chunk.text ==
               FitTextToChars(if s.heading == None then "markdown section" else s.heading.value.text, limit))
  }

  lemma FromSectionBelongs(lines: seq<string>, s: Section, maxChars: nat, overlap: nat, p: Packet, f: Fragment)
    requires Within(lines, s) && Unbroken(lines) && p == PacketOf(lines, s, maxChars, overlap) && ComesFrom(f, p)
    ensures Belongs(lines, f, s, ChunkOptionsForMetadata(maxChars, overlap, HeaderLines(f.metadata)).maxChars)
  {
    WindowsInOutline(lines, s, LimitsFor(SectionMetadata(s), maxChars, overlap), p);
  }

  /** Every fragment belongs to a section of the text. */
  lemma FragmentsBelong(text: string, maxChars: nat, overlap: nat, f: Fragment) returns (s: Section)
    requires ExtractMarkdown(text, maxChars, overlap).Some? && f in ExtractMarkdown(text, maxChars, overlap).value
    ensures
      var lines := Split(text);
      var hs := HeadingsUpTo(lines, |lines|);
      && Placed(lines, hs) && s in SectionsOf(lines, hs)
      && Belongs(lines, f, s, ChunkOptionsForMetadata(maxChars, overlap, HeaderLines(f.metadata)).maxChars)
  {
    var lines := Split(text);
    var hs := HeadingsUpTo(lines, |lines|);
    SplitThenJoin(text);
    HeadingsAreOrdered(lines, |lines|);
    s := FragmentOfSections(lines, hs, maxChars, overlap, f);
  }

  lemma FragmentOfSections(lines: seq<string>, hs: seq<Heading>, maxChars: nat, overlap: nat, f: Fragment)
    returns (s: Section)
    requires hs != [] && Placed(lines, hs) && Unbroken(lines) && f in AllFragments(lines, hs, maxChars, overlap)
    ensures s in SectionsOf(lines, hs)
    ensures Belongs(lines, f, s, ChunkOptionsForMetadata(maxChars, overlap, HeaderLines(f.metadata)).maxChars)
  {
    SectionsPartitionTheLines(lines, hs);
    var sections := SectionsOf(lines, hs);
    var packets := Packets(lines, sections, maxChars, overlap);
    var i :| 0 <= i < |Flatten(packets, |packets|)| && Flatten(packets, |packets|)[i] == f;
    var k := FragmentsComeFrom(packets, |packets|, i);
    s := sections[k];
    assert s in sections;
    FromSectionBelongs(lines, s, maxChars, overlap, packets[k], f);
  }
}
