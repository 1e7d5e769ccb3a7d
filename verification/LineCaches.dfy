/** The bounded line cache of one search: a recency queue over files whose contents do not change meanwhile. */
module LineCaches {
  import opened Options
  import opened Texts
  import opened VectorContent

  type Path = string
  type Lines = seq<string>

  /** What loading each file gives; `None` for an unreadable one. */
  type Disk = Path -> Option<Lines>

  const MAX_CACHED_FILES: nat := 32
  const MAX_CACHED_BYTES: nat := 4 * 1024 * 1024

  // ----- Loading

  function StripReturn(line: string): string {
    if line != "" && line[|line| - 1] == '\r' then line[..|line| - 1] else line
  }

  function StripAll(lines: Lines): Lines {
    seq(|lines|, k requires 0 <= k < |lines| => StripReturn(lines[k]))
  }

  /** The lines of a text, without carriage returns at their ends and without a last empty line. */
  function LoadLines(text: string): Lines {
    var lines := StripAll(Split(text));
    if lines[|lines| - 1] == "" then lines[..|lines| - 1] else lines
  }

  /** The text without each carriage return that stands right before a newline, or at the end when `ends` says that the
      text ends a line there. */
  function WithoutReturns(text: string, ends: bool): string {
    if text == "" then ""
    else
      var before, c := text[..|text| - 1], text[|text| - 1];
      if c == '\r' && ends then WithoutReturns(before, false) else WithoutReturns(before, c == '\n') + [c]
  }

  /** The character is a carriage return and ends a line. */
  predicate EndsLine(text: string, k: nat, ends: bool)
    requires k < |text|
  {
    text[k] == '\r' && if k == |text| - 1 then ends else text[k + 1] == '\n'
  }

  predicate EndsClean(text: string, ends: bool) {
    forall k: nat :: k < |text| ==> !EndsLine(text, k, ends)
  }

  /** The lines stripped, the last one only when `ends` is set. */
  function StripTo(lines: Lines, ends: bool): Lines
    requires lines != []
  {
    seq(|lines|, k requires 0 <= k < |lines| => if k < |lines| - 1 || ends then StripReturn(lines[k]) else lines[k])
  }

  lemma StripToLonger(lines: Lines, c: char, ends: bool)
    requires lines != [] && !(c == '\r' && ends)
    ensures StripTo(lines[|lines| - 1 := lines[|lines| - 1] + [c]], ends) ==
      StripTo(lines, false)[|lines| - 1 := lines[|lines| - 1] + [c]]
  {
  }

  lemma StripToReturn(lines: Lines)
    requires lines != []
    ensures StripTo(lines[|lines| - 1 := lines[|lines| - 1] + ['\r']], true) == StripTo(lines, false)
  {
  }

  lemma StripToEnded(lines: Lines, ends: bool)
    requires lines != []
    ensures Join(StripTo(lines + [""], ends)) == Join(StripTo(lines, true)) + "\n"
  {
    var stripped := StripTo(lines, true);
    var more := StripTo(lines + [""], ends);
    JoinOfSameLines(more, stripped, 0, |lines|);
    assert JoinLines(more, 0, |more|) == JoinLines(more, 0, |lines|) + "\n" + "";
  }

  /** The lines once one more character has been read. */
  function OneMoreChar(lines: Lines, c: char): Lines
    requires lines != []
  {
    if c == '\n' then lines + [""] else lines[|lines| - 1 := lines[|lines| - 1] + [c]]
  }

  lemma StripOneMore(lines: Lines, c: char, ends: bool)
    requires lines != []
    ensures Join(StripTo(OneMoreChar(lines, c), ends)) ==
      if c == '\r' && ends then Join(StripTo(lines, false)) else Join(StripTo(lines, c == '\n')) + [c]
  {
    if c == '\n' {
      StripToEnded(lines, ends);
    } else if c == '\r' && ends {
      StripToReturn(lines);
    } else {
      StripToLonger(lines, c, ends);
      LongerLastLine(StripTo(lines, false), c);
    }
  }

  lemma {:induction false} StrippedLinesJoin(text: string, ends: bool)
    ensures Join(StripTo(Split(text), ends)) == WithoutReturns(text, ends)
  {
    if text == "" {
      assert StripTo(Split(text), ends) == [""];
    } else {
      var before, c := text[..|text| - 1], text[|text| - 1];
      StrippedLinesJoin(before, if c == '\r' && ends then false else c == '\n');
      assert Split(text) == OneMoreChar(Split(before), c);
      StripOneMore(Split(before), c, ends);
    }
  }

  lemma EndsCleanLonger(before: string, c: char, ends: bool, newline: bool)
    requires newline == (c == '\n')
    ensures EndsClean(before + [c], ends) <==> EndsClean(before, newline) && !(c == '\r' && ends)
  {
    var text := before + [c];
    assert EndsLine(text, |before|, ends) <==> c == '\r' && ends;
    forall k: nat | k < |before| ensures EndsLine(text, k, ends) <==> EndsLine(before, k, newline) {
      assert text[k] == before[k];
    }
  }

  lemma SameBefore(a: string, b: string, c: char)
    ensures a + [c] == b + [c] <==> a == b
  {
    assert (a + [c])[..|a|] == a && (b + [c])[..|b|] == b;
    assert |a + [c]| == |a| + 1 && |b + [c]| == |b| + 1;
  }

  lemma {:induction false} CleanExactly(text: string, ends: bool)
    ensures |WithoutReturns(text, ends)| <= |text|
    ensures WithoutReturns(text, ends) == text <==> EndsClean(text, ends)
  {
    if text == "" {
    } else {
      var before, c := text[..|text| - 1], text[|text| - 1];
      assert text == before + [c];
      EndsCleanLonger(before, c, ends, c == '\n');
      if c == '\r' && ends {
        CleanExactly(before, false);
      } else {
        CleanExactly(before, c == '\n');
        SameBefore(WithoutReturns(before, c == '\n'), before, c);
      }
    }
  }

  lemma StripAllIsStripTo(lines: Lines)
    requires lines != []
    ensures StripAll(lines) == StripTo(lines, true)
  {
  }

  lemma JoinWithoutLast(lines: Lines)
    requires |lines| > 1 && lines[|lines| - 1] == ""
    ensures Join(lines) == Join(lines[..|lines| - 1]) + "\n"
  {
    JoinOfSameLines(lines, lines[..|lines| - 1], 0, |lines| - 1);
    assert Join(lines) == JoinLines(lines, 0, |lines| - 1) + "\n" + "";
  }

  /** The loaded lines join to the text without the carriage returns that end its lines, save for its last newline when
      its last line is empty; the stripping loses nothing exactly when no carriage return ends a line. */
  lemma LoadedLinesRejoin(text: string)
    ensures WithoutReturns(text, true) ==
      if |LoadLines(text)| == |Split(text)| || LoadLines(text) == [] then Join(LoadLines(text))
      else Join(LoadLines(text)) + "\n"
    ensures WithoutReturns(text, true) == text <==> EndsClean(text, true)
  {
    var lines := StripAll(Split(text));
    CleanExactly(text, true);
    StrippedLinesJoin(text, true);
    StripAllIsStripTo(Split(text));
    if lines[|lines| - 1] == "" && |lines| > 1 {
      JoinWithoutLast(lines);
    }
  }

  /** Each loaded line is the text's line without one carriage return at its end, and the last line is left out exactly
      when nothing remains of it. */
  lemma LoadedLinesAre(text: string)
    ensures
      var lines := Split(text);
      var last := lines[|lines| - 1];
      && |LoadLines(text)| == (if last == "" || last == "\r" then |lines| - 1 else |lines|)
      && forall k :: 0 <= k < |LoadLines(text)| ==>
           LoadLines(text)[k] ==
             if lines[k] != "" && lines[k][|lines[k]| - 1] == '\r' then lines[k][..|lines[k]| - 1] else lines[k]
  {
    LoadedFrom(Split(text), StripAll(Split(text)), LoadLines(text));
  }

  lemma LoadedFrom(lines: Lines, stripped: Lines, loaded: Lines)
    requires lines != [] && stripped == StripAll(lines)
    requires loaded == if stripped[|stripped| - 1] == "" then stripped[..|stripped| - 1] else stripped
    ensures var last := lines[|lines| - 1];
      |loaded| == if last == "" || last == "\r" then |lines| - 1 else |lines|
    ensures forall k :: 0 <= k < |loaded| ==> loaded[k] == StripReturn(lines[k])
  {
    NothingRemainsExactly(lines[|lines| - 1]);
  }

  lemma NothingRemainsExactly(line: string)
    ensures StripReturn(line) == "" <==> line == "" || line == "\r"
  {
  }

  function LinesBytes(lines: Lines): nat {
    if lines == [] then 0 else LinesBytes(lines[..|lines| - 1]) + Bytes(lines[|lines| - 1])
  }

  /** What a file costs in the cache; an unreadable one costs nothing. */
  function Cost(disk: Disk, p: Path): nat {
    if disk(p).Some? then LinesBytes(disk(p).value) else 0
  }

  /** A file costs the bytes of its text, the newlines between its lines left out. */
  lemma {:induction false} CostIsTextWithoutNewlines(lines: Lines, n: nat)
    requires n <= |lines|
    ensures Bytes(JoinLines(lines, 0, n)) == LinesBytes(lines[..n]) + if n == 0 then 0 else n - 1
  {
    if n > 0 {
      var before := JoinLines(lines, 0, n - 1);
      assert lines[..n][..n - 1] == lines[..n - 1];
      CostIsTextWithoutNewlines(lines, n - 1);
      if n > 1 {
        BytesOfSum(before + "\n", lines[n - 1], |lines[n - 1]|);
        BytesOfSum(before, "\n", 1);
      }
    }
  }

  predicate Oversized(disk: Disk, p: Path) {
    Cost(disk, p) > MAX_CACHED_BYTES
  }

  // ----- The recency queue

  function Weight(disk: Disk, order: seq<Path>): nat {
    if order == [] then 0 else Cost(disk, order[0]) + Weight(disk, order[1..])
  }

  function Without(order: seq<Path>, p: Path): seq<Path> {
    if order == [] then []
    else if order[0] == p then order[1..]
    else [order[0]] + Without(order[1..], p)
  }

  predicate Fits(disk: Disk, order: seq<Path>) {
    |order| <= MAX_CACHED_FILES && Weight(disk, order) <= MAX_CACHED_BYTES
  }

  /** Drops the least recently used until both caps hold. */
  function Trimmed(disk: Disk, order: seq<Path>): (r: seq<Path>)
    ensures Fits(disk, r)
  {
    if Fits(disk, order) then order else Trimmed(disk, order[1..])
  }

  /** The queue after a read of `p`, which is cacheable. */
  function AfterUse(disk: Disk, order: seq<Path>, p: Path): seq<Path> {
    if p in order then Without(order, p) + [p] else Trimmed(disk, order + [p])
  }

  predicate NoDuplicates(order: seq<Path>) {
    order == [] || (order[0] !in order[1..] && NoDuplicates(order[1..]))
  }

  lemma {:induction false} WithoutMembers(order: seq<Path>, p: Path)
    requires NoDuplicates(order)
    ensures forall q :: q in Without(order, p) <==> q in order && q != p
  {
    if order == [] {
    } else {
      assert forall q :: q in order <==> q == order[0] || q in order[1..];
      WithoutMembers(order[1..], p);
    }
  }

  lemma {:induction false} WithoutIsRest(disk: Disk, order: seq<Path>, p: Path)
    requires NoDuplicates(order)
    ensures NoDuplicates(Without(order, p))
    ensures Weight(disk, order) == Weight(disk, Without(order, p)) + if p in order then Cost(disk, p) else 0
    ensures |order| == |Without(order, p)| + if p in order then 1 else 0
  {
    if order == [] || order[0] == p {
    } else {
      var rest := Without(order[1..], p);
      WithoutIsRest(disk, order[1..], p);
      WithoutMembers(order[1..], p);
      assert ([order[0]] + rest)[1..] == rest;
    }
  }

  lemma {:induction false} AppendedHasNoDuplicates(order: seq<Path>, p: Path)
    requires NoDuplicates(order) && p !in order
    ensures NoDuplicates(order + [p])
  {
    if order == [] {
    } else {
      AppendedHasNoDuplicates(order[1..], p);
      assert (order + [p])[1..] == order[1..] + [p];
    }
  }

  lemma {:induction false} WeightOfSum(disk: Disk, a: seq<Path>, b: seq<Path>)
    ensures Weight(disk, a + b) == Weight(disk, a) + Weight(disk, b)
  {
    if a == [] {
      assert a + b == b;
    } else {
      WeightOfSum(disk, a[1..], b);
      assert (a + b)[1..] == a[1..] + b;
    }
  }

  /** Trimming drops the shortest prefix that makes the rest fit. */
  lemma {:induction false} TrimmedIsMinimal(disk: Disk, order: seq<Path>) returns (n: nat)
    ensures n <= |order| && Trimmed(disk, order) == order[n..]
    ensures forall m: nat :: m < n ==> !Fits(disk, order[m..])
  {
    if Fits(disk, order) {
      n := 0;
      assert order[0..] == order;
    } else {
      var k := TrimmedIsMinimal(disk, order[1..]);
      n := k + 1;
      assert order[1..][k..] == order[n..];
      forall m: nat | m < n ensures !Fits(disk, order[m..]) {
        if m == 0 {
          assert order[0..] == order;
        } else {
          assert order[1..][m - 1..] == order[m..];
        }
      }
    }
  }

  /** What was just put at the end survives the trimming, because on its own it fits. */
  lemma {:induction false} LastSurvives(disk: Disk, order: seq<Path>, p: Path)
    requires !Oversized(disk, p)
    ensures p in Trimmed(disk, order + [p]) && Trimmed(disk, order + [p])[|Trimmed(disk, order + [p])| - 1] == p
  {
    var all := order + [p];
    if order == [] {
      assert all == [p] && Weight(disk, all) == Cost(disk, p) + Weight(disk, all[1..]);
    } else if !Fits(disk, all) {
      assert all[1..] == order[1..] + [p];
      LastSurvives(disk, order[1..], p);
    }
  }

  // ----- Recency over a whole search

  /** The files read so far that are not oversized, by last use, most recent last. */
  function Recency(disk: Disk, history: seq<Path>): seq<Path> {
    if history == [] then []
    else
      var p, before := history[|history| - 1], Recency(disk, history[..|history| - 1]);
      if Oversized(disk, p) then before else Without(before, p) + [p]
  }

  /** The queue after some reads. */
  function QueueAfter(disk: Disk, history: seq<Path>): seq<Path> {
    if history == [] then []
    else
      var p, before := history[|history| - 1], QueueAfter(disk, history[..|history| - 1]);
      if Oversized(disk, p) then before else AfterUse(disk, before, p)
  }

  /** The file in the scratch slot after a read of `p`. */
  function ScratchAfterUse(disk: Disk, slot: Option<Path>, p: Path): Option<Path> {
    if Oversized(disk, p) then Some(p) else slot
  }

  /** The file in the scratch slot after some reads. */
  function ScratchAfter(disk: Disk, history: seq<Path>): Option<Path> {
    if history == [] then None
    else ScratchAfterUse(disk, ScratchAfter(disk, history[..|history| - 1]), history[|history| - 1])
  }

  lemma ScratchOneMore(disk: Disk, history: seq<Path>, p: Path)
    ensures ScratchAfter(disk, history + [p]) == ScratchAfterUse(disk, ScratchAfter(disk, history), p)
  {
    assert (history + [p])[..|history|] == history;
  }

  lemma SumsAgree(a: seq<Path>, b: seq<Path>, c: seq<Path>)
    ensures a + b + c == a + (b + c)
  {
  }

  /** The slot holds `p` after every beginning of `later`. */
  ghost predicate StaysInScratch(disk: Disk, history: seq<Path>, later: seq<Path>, p: Path) {
    forall n {:trigger later[..n]} :: 0 <= n <= |later| ==> ScratchAfter(disk, history + later[..n]) == Some(p)
  }

  lemma StaysOneMore(disk: Disk, history: seq<Path>, front: seq<Path>, last: Path, p: Path)
    ensures StaysInScratch(disk, history, front + [last], p) <==>
      StaysInScratch(disk, history, front, p) && ScratchAfter(disk, history + (front + [last])) == Some(p)
  {
    var later := front + [last];
    assert later[..|later|] == later;
    forall n | 0 <= n <= |front| ensures later[..n] == front[..n] {
    }
  }

  /** A file in the scratch slot stays there through further reads, hits or misses, exactly as long as no other
      oversized file is read. */
  lemma {:induction false} ScratchStaysExactly(disk: Disk, history: seq<Path>, later: seq<Path>, p: Path)
    requires ScratchAfter(disk, history) == Some(p)
    ensures StaysInScratch(disk, history, later, p) <==> forall q :: q in later && Oversized(disk, q) ==> q == p
    decreases |later|
  {
    if later == [] {
      assert history + [] == history;
    } else {
      var front, last := later[..|later| - 1], later[|later| - 1];
      assert later == front + [last];
      ScratchStaysExactly(disk, history, front, p);
      StaysOneMore(disk, history, front, last, p);
      SumsAgree(history, front, [last]);
      ScratchOneMore(disk, history + front, last);
      if StaysInScratch(disk, history, front, p) {
        StaysToTheEnd(disk, history, front, p);
      }
    }
  }

  lemma StaysToTheEnd(disk: Disk, history: seq<Path>, later: seq<Path>, p: Path)
    requires StaysInScratch(disk, history, later, p)
    ensures ScratchAfter(disk, history + later) == Some(p)
  {
    assert later[..|later|] == later;
  }

  lemma {:induction false} AtLeastOneByteEach(s: string, k: nat)
    requires k <= |s|
    ensures BytesTo(s, k) >= k
  {
    if k == 0 {
    } else {
      AtLeastOneByteEach(s, k - 1);
    }
  }

  const BIG: Path := "big"
  const SMALL: Path := "small"

  /** A disk with one file of a single line longer than the byte cap; every other file is empty. */
  function OneBigFile(): Disk {
    p => if p == BIG then Some([seq(MAX_CACHED_BYTES + 1, _ => 'a')]) else Some([])
  }

  /** After the oversized file, the small one is a miss, and the oversized one is still in the slot. */
  lemma ScratchOutlivesAMiss()
    ensures
      && SMALL !in QueueAfter(OneBigFile(), [BIG]) && SMALL in QueueAfter(OneBigFile(), [BIG, SMALL])
      && ScratchAfter(OneBigFile(), [BIG]) == Some(BIG) && ScratchAfter(OneBigFile(), [BIG, SMALL]) == Some(BIG)
  {
    var disk := OneBigFile();
    var line: string := seq(MAX_CACHED_BYTES + 1, _ => 'a');
    AtLeastOneByteEach(line, |line|);
    assert LinesBytes([line]) == LinesBytes([]) + Bytes(line);
    assert BIG != SMALL && Oversized(disk, BIG) && !Oversized(disk, SMALL);
    assert [BIG, SMALL][..1] == [BIG] && [BIG][..0] == [];
    assert QueueAfter(disk, [BIG]) == [];
    LastSurvives(disk, [], SMALL);
  }

  ghost predicate IsSuffix(part: seq<Path>, whole: seq<Path>) {
    exists n :: 0 <= n <= |whole| && part == whole[n..]
  }

  lemma {:induction false} WithoutSplits(a: seq<Path>, b: seq<Path>, p: Path)
    ensures Without(a + b, p) == if p in a then Without(a, p) + b else a + Without(b, p)
  {
    if a == [] {
      assert a + b == b;
      assert [] + Without(b, p) == Without(b, p);
    } else {
      assert (a + b)[1..] == a[1..] + b;
      assert p in a <==> p == a[0] || p in a[1..];
      if a[0] != p {
        WithoutSplits(a[1..], b, p);
        assert a == [a[0]] + a[1..];
      }
    }
  }

  lemma {:induction false} RecencyHasNoDuplicates(disk: Disk, history: seq<Path>)
    ensures NoDuplicates(Recency(disk, history))
  {
    if history == [] {
    } else {
      var p, before := history[|history| - 1], Recency(disk, history[..|history| - 1]);
      RecencyHasNoDuplicates(disk, history[..|history| - 1]);
      WithoutIsRest(disk, before, p);
      WithoutMembers(before, p);
      AppendedHasNoDuplicates(Without(before, p), p);
    }
  }

  ghost predicate LastUseAt(history: seq<Path>, p: Path, i: nat) {
    i < |history| && history[i] == p && forall k :: i < k < |history| ==> history[k] != p
  }

  /** One file was last used before the other. */
  ghost predicate UsedBefore(history: seq<Path>, p: Path, q: Path) {
    exists i: nat, j: nat :: i < j && LastUseAt(history, p, i) && LastUseAt(history, q, j)
  }

  lemma UsedBeforeStays(history: seq<Path>, p: Path, q: Path, last: Path)
    requires UsedBefore(history, p, q) && p != last && q != last
    ensures UsedBefore(history + [last], p, q)
  {
    var i: nat, j: nat :| i < j && LastUseAt(history, p, i) && LastUseAt(history, q, j);
    assert LastUseAt(history + [last], p, i) && LastUseAt(history + [last], q, j);
  }

  lemma UsedBeforeLast(history: seq<Path>, p: Path, last: Path)
    requires p in history && p != last
    ensures UsedBefore(history + [last], p, last)
  {
    var i := LastUse(history, p);
    assert LastUseAt(history + [last], p, i) && LastUseAt(history + [last], last, |history|);
  }

  lemma {:induction false} LastUse(history: seq<Path>, p: Path) returns (i: nat)
    requires p in history
    ensures LastUseAt(history, p, i)
  {
    var n := |history| - 1;
    if history[n] == p {
      i := n;
    } else {
      i := LastUse(history[..n], p);
    }
  }

  /** What is left keeps its order. */
  lemma {:induction false} WithoutKeepsOrder(order: seq<Path>, p: Path, m: nat, n: nat) returns (i: nat, j: nat)
    requires NoDuplicates(order) && m < n < |Without(order, p)|
    ensures i < j < |order| && order[i] == Without(order, p)[m] && order[j] == Without(order, p)[n]
    ensures order[i] != p && order[j] != p
  {
    WithoutMembers(order, p);
    assert Without(order, p)[m] in Without(order, p) && Without(order, p)[n] in Without(order, p);
    if order[0] == p {
      i, j := m + 1, n + 1;
    } else if m > 0 {
      var a, b := WithoutKeepsOrder(order[1..], p, m - 1, n - 1);
      i, j := a + 1, b + 1;
    } else {
      var x := Without(order[1..], p)[n - 1];
      WithoutMembers(order[1..], p);
      assert x in Without(order[1..], p);
      var b :| 0 <= b < |order| - 1 && order[1..][b] == x;
      i, j := 0, b + 1;
    }
  }

  /** The recency list holds the files read that are not oversized, in the order of their last use. */
  lemma {:induction false} RecencyIsByLastUse(disk: Disk, history: seq<Path>, m: nat, n: nat)
    requires m < n < |Recency(disk, history)|
    ensures UsedBefore(history, Recency(disk, history)[m], Recency(disk, history)[n])
  {
    var front, p := history[..|history| - 1], history[|history| - 1];
    var before := Recency(disk, front);
    assert history == front + [p];
    RecencyMembers(disk, front);
    RecencyHasNoDuplicates(disk, front);
    if Oversized(disk, p) {
      RecencyIsByLastUse(disk, front, m, n);
      assert before[m] in before && before[n] in before;
      UsedBeforeStays(front, before[m], before[n], p);
    } else if n == |Without(before, p)| {
      WithoutMembers(before, p);
      assert Without(before, p)[m] in Without(before, p);
      UsedBeforeLast(front, Without(before, p)[m], p);
    } else {
      var i, j := WithoutKeepsOrder(before, p, m, n);
      RecencyIsByLastUse(disk, front, i, j);
      UsedBeforeStays(front, before[i], before[j], p);
    }
  }

  lemma {:induction false} RecencyMembers(disk: Disk, history: seq<Path>)
    ensures forall q :: q in Recency(disk, history) <==> q in history && !Oversized(disk, q)
  {
    if history == [] {
    } else {
      var front, p := history[..|history| - 1], history[|history| - 1];
      RecencyMembers(disk, front);
      RecencyHasNoDuplicates(disk, front);
      WithoutMembers(Recency(disk, front), p);
      assert forall q :: q in history <==> q in front || q == p;
    }
  }

  /** A file is too large for the cache when its lines take more than 4 MiB, an unreadable one never, as it costs
      nothing; the cache holds 32 files and 4 MiB. */
  lemma CapsAre(disk: Disk, p: Path, order: seq<Path>)
    ensures Oversized(disk, p) <==> disk(p).Some? && LinesBytes(disk(p).value) > 4_194_304
    ensures disk(p) == None ==> Cost(disk, p) == 0
    ensures Fits(disk, order) <==> |order| <= 32 && Weight(disk, order) <= 4_194_304
  {
  }

  lemma SuffixOfSum(a: seq<Path>, b: seq<Path>, n: nat)
    requires n <= |b|
    ensures IsSuffix(b[n..], a + b)
  {
    assert b[n..] == (a + b)[|a| + n..];
  }

  lemma {:induction false} DroppedHasNoDuplicates(a: seq<Path>, b: seq<Path>)
    requires NoDuplicates(a + b)
    ensures NoDuplicates(b) && forall p :: p in a ==> p !in b
  {
    if a == [] {
      assert a + b == b;
    } else {
      assert (a + b)[1..] == a[1..] + b;
      DroppedHasNoDuplicates(a[1..], b);
      assert forall p :: p in a <==> p == a[0] || p in a[1..];
    }
  }

  lemma {:induction false} WithoutAbsent(order: seq<Path>, p: Path)
    requires p !in order
    ensures Without(order, p) == order
  {
    if order == [] {
    } else {
      WithoutAbsent(order[1..], p);
    }
  }

  lemma HitKeepsSuffix(older: seq<Path>, rest: seq<Path>, p: Path)
    ensures IsSuffix(rest + [p], older + rest + [p])
  {
    SumsAgree(older, rest, [p]);
    SuffixOfSum(older, rest + [p], 0);
    assert (rest + [p])[0..] == rest + [p];
  }

  lemma MissKeepsSuffix(disk: Disk, kept: seq<Path>, order: seq<Path>, p: Path)
    ensures IsSuffix(Trimmed(disk, order + [p]), kept + order + [p])
  {
    var m := TrimmedIsMinimal(disk, order + [p]);
    SumsAgree(kept, order, [p]);
    SuffixOfSum(kept, order + [p], m);
  }

  lemma UseKeepsSuffix(disk: Disk, older: seq<Path>, order: seq<Path>, p: Path)
    requires NoDuplicates(older + order)
    ensures IsSuffix(AfterUse(disk, order, p), Without(older + order, p) + [p])
  {
    DroppedHasNoDuplicates(older, order);
    WithoutSplits(older, order, p);
    if p in order {
      HitKeepsSuffix(older, Without(order, p), p);
    } else {
      WithoutAbsent(order, p);
      MissKeepsSuffix(disk, if p in older then Without(older, p) else older, order, p);
    }
  }

  /** The cache always holds the files used last: its queue is the end of the recency list of the whole search. */
  lemma {:induction false} CacheHoldsTheMostRecent(disk: Disk, history: seq<Path>)
    ensures IsSuffix(QueueAfter(disk, history), Recency(disk, history))
  {
    if history == [] {
      assert QueueAfter(disk, history) == Recency(disk, history)[0..];
    } else {
      CacheHoldsTheMostRecent(disk, history[..|history| - 1]);
      RecencyHasNoDuplicates(disk, history[..|history| - 1]);
      var order, recent := QueueAfter(disk, history[..|history| - 1]), Recency(disk, history[..|history| - 1]);
      var n :| 0 <= n <= |recent| && order == recent[n..];
      assert recent == recent[..n] + order;
      UseKeepsSuffix(disk, recent[..n], order, history[|history| - 1]);
    }
  }

  // ----- The cache in place

  datatype Slot = Slot(path: Path, lines: Lines)

  /** The entries are exactly what the disk holds for the queued files, none of which is oversized; the queue has no
      duplicates and the byte count is exact. */
  ghost predicate Agrees(disk: Disk, entries: map<Path, Option<Lines>>, order: seq<Path>, bytes: nat) {
    && NoDuplicates(order)
    && (forall p :: p in entries <==> p in order)
    && (forall p :: p in entries ==> entries[p] == disk(p) && !Oversized(disk, p))
    && bytes == Weight(disk, order) && |entries| == |order|
  }

  lemma UseAgrees(disk: Disk, entries: map<Path, Option<Lines>>, order: seq<Path>, bytes: nat, p: Path)
    requires Agrees(disk, entries, order, bytes) && p in order
    ensures Agrees(disk, entries, Without(order, p) + [p], bytes)
    ensures Fits(disk, order) ==> Fits(disk, Without(order, p) + [p])
  {
    WithoutIsRest(disk, order, p);
    WithoutMembers(order, p);
    AppendedHasNoDuplicates(Without(order, p), p);
    WeightOfSum(disk, Without(order, p), [p]);
    assert [p][1..] == [];
  }

  lemma InsertAgrees(disk: Disk, entries: map<Path, Option<Lines>>, order: seq<Path>, bytes: nat, p: Path)
    requires Agrees(disk, entries, order, bytes) && p !in order && !Oversized(disk, p)
    ensures Agrees(disk, entries[p := disk(p)], order + [p], bytes + Cost(disk, p))
  {
    AppendedHasNoDuplicates(order, p);
    WeightOfSum(disk, order, [p]);
    assert [p][1..] == [];
    assert |entries[p := disk(p)]| == |entries| + 1;
  }

  lemma DropAgrees(disk: Disk, entries: map<Path, Option<Lines>>, order: seq<Path>, bytes: nat)
    requires Agrees(disk, entries, order, bytes) && order != []
    ensures order[0] in entries && Cost(disk, order[0]) <= bytes
    ensures Agrees(disk, entries - {order[0]}, order[1..], bytes - Cost(disk, order[0]))
  {
    assert forall q :: q in order <==> q == order[0] || q in order[1..];
    assert entries.Keys == (entries - {order[0]}).Keys + {order[0]};
    assert |entries| == |entries - {order[0]}| + 1;
  }

  lemma EmptyQueueFits(disk: Disk, entries: map<Path, Option<Lines>>, order: seq<Path>, bytes: nat)
    requires Agrees(disk, entries, order, bytes)
    ensures |entries| > MAX_CACHED_FILES || bytes > MAX_CACHED_BYTES <==> !Fits(disk, order)
    ensures !Fits(disk, order) ==> order != []
  {
  }

  lemma {:induction false} WithoutAt(order: seq<Path>, p: Path, position: nat)
    requires position < |order| && order[position] == p && p !in order[..position]
    ensures Without(order, p) == order[..position] + order[position + 1..]
  {
    if position == 0 {
    } else {
      assert order[..position][0] == order[0] && order[1..][..position - 1] == order[..position][1..];
      WithoutAt(order[1..], p, position - 1);
      assert order[..position] == [order[0]] + order[1..][..position - 1];
    }
  }

  class LineCache {
    var entries: map<Path, Option<Lines>>
    var order: seq<Path>
    var cachedBytes: nat
    var scratch: Option<Slot>

    function SlotPath(): Option<Path>
      reads this
    {
      if scratch.Some? then Some(scratch.value.path) else None
    }

    ghost predicate Consistent(disk: Disk)
      reads this
    {
      && Agrees(disk, entries, order, cachedBytes)
      && (scratch.Some? ==>
          disk(scratch.value.path) == Some(scratch.value.lines) && Oversized(disk, scratch.value.path))
    }

    /** Between reads both caps hold as well. */
    ghost predicate Valid(disk: Disk)
      reads this
    {
      Consistent(disk) && Fits(disk, order)
    }

    constructor (ghost disk: Disk)
      ensures Valid(disk) && order == [] && scratch == None
    {
      entries, order, cachedBytes, scratch := map[], [], 0, None;
    }

    static method PositionOf(order: seq<Path>, path: Path) returns (position: nat)
      requires path in order
      ensures position < |order| && order[position] == path && path !in order[..position]
    {
      position := 0;
      while order[position] != path
        invariant position < |order| && forall i :: 0 <= i < position ==> order[i] != path
        decreases |order| - position
      {
        position := position + 1;
        if position == |order| {
          assert forall i :: 0 <= i < |order| ==> order[i] != path;
        }
      }
    }

    /** Moves a cached file to the recent end. */
    method Touch(path: Path, ghost disk: Disk)
      requires Valid(disk) && path in order
      modifies this`order
      ensures Valid(disk) && order == Without(old(order), path) + [path]
    {
      var position := PositionOf(order, path);
      WithoutAt(order, path, position);
      UseAgrees(disk, entries, order, cachedBytes, path);
      order := order[..position] + order[position + 1..] + [path];
    }

    /** One round of the eviction. */
    method DropOldest(ghost disk: Disk)
      requires Consistent(disk) && order != []
      modifies this`entries, this`order, this`cachedBytes
      ensures Consistent(disk) && order == old(order)[1..]
    {
      DropAgrees(disk, entries, order, cachedBytes);
      var oldest := order[0];
      var removed := if entries[oldest].Some? then LinesBytes(entries[oldest].value) else 0;
      order := order[1..];
      entries := entries - {oldest};
      cachedBytes := Saturating(cachedBytes, removed);
    }

    /** Drops the least recently used until both caps hold. */
    method EvictToLimits(ghost disk: Disk)
      requires Consistent(disk)
      modifies this`entries, this`order, this`cachedBytes
      ensures Valid(disk) && order == Trimmed(disk, old(order))
    {
      EmptyQueueFits(disk, entries, order, cachedBytes);
      while |entries| > MAX_CACHED_FILES || cachedBytes > MAX_CACHED_BYTES
        invariant Consistent(disk) && Trimmed(disk, order) == Trimmed(disk, old(order))
        invariant |entries| > MAX_CACHED_FILES || cachedBytes > MAX_CACHED_BYTES <==> !Fits(disk, order)
        invariant !Fits(disk, order) ==> order != []
        decreases |order|
      {
        DropOldest(disk);
        EmptyQueueFits(disk, entries, order, cachedBytes);
      }
    }

    /** Keeps what was loaded for a file that is neither cached nor oversized. */
    method Insert(path: Path, lines: Option<Lines>, disk: Disk)
      requires Valid(disk) && path !in order && lines == disk(path) && !Oversized(disk, path)
      modifies this`entries, this`order, this`cachedBytes
      ensures Valid(disk) && order == Trimmed(disk, old(order) + [path]) && path in entries
    {
      InsertAgrees(disk, entries, order, cachedBytes, path);
      LastSurvives(disk, order, path);
      if lines.Some? {
        cachedBytes := cachedBytes + LinesBytes(lines.value);
      }
      entries := entries[path := lines];
      order := order + [path];
      EvictToLimits(disk);
    }

    /** The lines of a file, from the cache or from the disk: the caller cannot tell which. */
    method ReadTextLines(path: Path, disk: Disk) returns (lines: Option<Lines>)
      requires Valid(disk)
      modifies this
      ensures lines == disk(path)
      ensures Valid(disk)
      ensures order == if Oversized(disk, path) then old(order) else AfterUse(disk, old(order), path)
      ensures SlotPath() == ScratchAfterUse(disk, old(SlotPath()), path)
      ensures !Oversized(disk, path) ==> path in entries && scratch == old(scratch)
      ensures Oversized(disk, path) ==> scratch == Some(Slot(path, lines.value)) && entries == old(entries)
    {
      if path in entries {
        Touch(path, disk);
        return entries[path];
      }
      if scratch.Some? && scratch.value.path == path {
        return Some(scratch.value.lines);
      }
      lines := disk(path);
      if lines.Some? && LinesBytes(lines.value) > MAX_CACHED_BYTES {
        scratch := Some(Slot(path, lines.value));
        return;
      }
      Insert(path, lines, disk);
    }
  }

  // ----- Context windows

  datatype Window = Window(first: nat, last: nat)

  /** The whole-line window around a match, one-based; `None` when nothing is to be expanded. */
  function ContextWindow(startLine: nat, endLine: nat, before: nat, after: nat, lineCount: nat): Option<Window> {
    if (before == 0 && after == 0) || lineCount == 0 then None
    else
      var start := Min(Max(startLine, 1), lineCount + 1);
      var end := Min(Max(endLine, 1), lineCount);
      var first := Max(Saturating(start, before), 1);
      var last := Min(end + after, lineCount);
      if first > last then None else Some(Window(first, last))
  }

  /** A window stays inside the file and contains the match, clipped to the file; it has at most `before` lines before
      the match and `after` behind it, and exactly that many unless the file ends first. */
  lemma WindowsSurroundTheMatch(startLine: nat, endLine: nat, before: nat, after: nat, lineCount: nat)
    requires 1 <= startLine <= endLine && ContextWindow(startLine, endLine, before, after, lineCount).Some?
    ensures var w := ContextWindow(startLine, endLine, before, after, lineCount).value;
      && 1 <= w.first <= w.last <= lineCount
      && (startLine <= lineCount ==> w.first <= startLine && (w.first == 1 || startLine - w.first == before))
      && (endLine <= lineCount ==> endLine <= w.last && (w.last == lineCount || w.last - endLine == after))
      && (startLine > lineCount ==> w.first == 1 || lineCount + 1 - w.first == before)
      && (endLine > lineCount ==> w.last == lineCount)
  {
  }

  /** A match is left as it is exactly when no context is asked for, the file has no lines, or the match lies behind
      the end of the file and no line before it is asked for. */
  lemma NoWindowExactly(startLine: nat, endLine: nat, before: nat, after: nat, lineCount: nat)
    requires 1 <= startLine <= endLine
    ensures ContextWindow(startLine, endLine, before, after, lineCount) == None <==>
      (before == 0 && after == 0) || lineCount == 0 || (startLine > lineCount && before == 0)
  {
  }
}
