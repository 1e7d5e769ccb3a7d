/** Which break beats which, in an over-long line and between the lines of a markdown section. */
module ChunkBreaks {
  import opened Texts
  import opened Chunks
  import opened MarkdownHeadings
  import opened MarkdownWindows
  import opened VectorContent

  // ----- Inside a line

  predicate EndsSentence(c: char) {
    c == '.' || c == '!' || c == '?'
  }

  predicate EndsClause(c: char) {
    c == ',' || c == ';' || c == ':'
  }

  predicate EndsWord(c: char) {
    c == ' ' || c == '\t'
  }

  predicate JoinsWords(c: char) {
    c == '-' || c == '/' || c == '\\'
  }

  predicate Breakable(c: char) {
    EndsSentence(c) || EndsClause(c) || EndsWord(c) || JoinsWords(c)
  }

  /** Ends of sentences beat ends of clauses, these beat spaces, these beat joints, and these beat everything else. */
  predicate Beats(c: char, d: char) {
    || (EndsSentence(c) && !EndsSentence(d))
    || (EndsClause(c) && !EndsSentence(d) && !EndsClause(d))
    || (EndsWord(c) && (JoinsWords(d) || !Breakable(d)))
    || (JoinsWords(c) && !Breakable(d))
  }

  lemma BreakOrderExactly(c: char, d: char)
    ensures BreakScore(c) > BreakScore(d) <==> Beats(c, d)
    ensures BreakScore(c) > 0 <==> Breakable(c)
  {
  }

  /** `to` is behind a character that no other in the last 30% of the window beats, and that beats all behind it. */
  ghost predicate BestCut(line: string, lo: nat, hi: nat, to: nat)
    requires lo <= hi <= |line|
  {
    && lo < to <= hi && Breakable(line[to - 1])
    && (forall k :: lo <= k < to ==> !Beats(line[k], line[to - 1]))
    && (forall k :: to <= k < hi ==> Beats(line[to - 1], line[k]))
  }

  /** Where a slice of `maxChars` characters at most ends: with the line, behind the best break, or at its full size. */
  ghost predicate SliceEndsAt(line: string, from: nat, maxChars: nat, to: nat)
    requires from <= |line|
  {
    if |line| - from <= maxChars then to == |line|
    else
      var lo, hi := from + maxChars * 7 / 10, from + maxChars;
      if forall k :: lo <= k < hi ==> !Breakable(line[k]) then to == hi else BestCut(line, lo, hi, to)
  }

  lemma BestCutExactly(line: string, lo: nat, hi: nat, to: nat)
    requires lo <= hi <= |line|
    ensures BestCut(line, lo, hi, to) <==> IsBestBreak(line, lo, hi, to)
  {
    if lo < to <= hi {
      BreakOrderExactly(line[to - 1], line[to - 1]);
      forall k | lo <= k < hi
        ensures Beats(line[k], line[to - 1]) <==> BreakScore(line[k]) > BreakScore(line[to - 1])
        ensures Beats(line[to - 1], line[k]) <==> BreakScore(line[to - 1]) > BreakScore(line[k])
      {
        BreakOrderExactly(line[k], line[to - 1]);
        BreakOrderExactly(line[to - 1], line[k]);
      }
    }
  }

  /** The slice ends there and nowhere else. */
  lemma SliceEndsExactly(line: string, from: nat, maxChars: nat, to: nat)
    requires from <= |line| && maxChars > 0
    ensures to == SliceEnd(line, from, maxChars) <==> SliceEndsAt(line, from, maxChars, to)
  {
    if |line| - from > maxChars {
      var lo, hi := from + maxChars * 7 / 10, from + maxChars;
      forall k | lo <= k < hi ensures BreakScore(line[k]) > 0 <==> Breakable(line[k]) {
        BreakOrderExactly(line[k], line[k]);
      }
      SliceEndTaken(line, from, maxChars, to);
      BestCutExactly(line, lo, hi, to);
    }
  }

  lemma SliceEndTaken(line: string, from: nat, maxChars: nat, to: nat)
    requires maxChars > 0 && from + maxChars < |line|
    ensures var lo, hi := from + maxChars * 7 / 10, from + maxChars;
      to == SliceEnd(line, from, maxChars) <==>
        if forall k :: lo <= k < hi ==> BreakScore(line[k]) == 0 then to == hi else IsBestBreak(line, lo, hi, to)
  {
    SliceEndIsBest(line, from, maxChars, to);
  }

  // ----- Between lines

  /** Where a window of a section may be cut, the best place first. */
  datatype Break = AtHeading | BehindBlanks | BehindBlank | AtListItem | AtQuote | Elsewhere

  ghost predicate StartsHeading(t: string) {
    exists h: nat :: 1 <= h <= 6 && h < |t| && IsWhitespace(t[h]) && forall k :: 0 <= k < h ==> t[k] == '#'
  }

  ghost predicate StartsNumber(t: string, d: nat) {
    && 0 < d && d + 1 < |t| && (forall k :: 0 <= k < d ==> '0' <= t[k] <= '9')
    && t[d] == '.' && IsWhitespace(t[d + 1])
  }

  ghost predicate StartsItem(t: string) {
    || (|t| > 1 && (t[0] == '-' || t[0] == '*' || t[0] == '+') && IsWhitespace(t[1]))
    || exists d: nat :: StartsNumber(t, d)
  }

  ghost predicate StartsQuote(t: string) {
    |t| > 1 && t[0] == '>' && IsWhitespace(t[1])
  }

  /** What kind of break stands before line `i`. */
  ghost function BreakAt(lines: seq<string>, i: nat): Break
    requires 0 < i < |lines|
  {
    if StartsHeading(Trim(lines[i])) then AtHeading
    else if Blank(lines[i - 1]) && Blank(lines[i]) then BehindBlanks
    else if Blank(lines[i - 1]) then BehindBlank
    else if StartsItem(Trim(lines[i])) then AtListItem
    else if StartsQuote(Trim(lines[i])) then AtQuote
    else Elsewhere
  }

  /** How far down the list above a break stands. */
  function Place(b: Break): nat {
    match b
    case AtHeading => 1
    case BehindBlanks => 2
    case BehindBlank => 3
    case AtListItem => 4
    case AtQuote => 5
    case Elsewhere => 6
  }

  lemma HeadingStartsExactly(t: string)
    ensures IsHeadingLine(t) <==> StartsHeading(t)
  {
    var hashes := HashesTo(t, 0);
    if h: nat :| 1 <= h <= 6 && h < |t| && IsWhitespace(t[h]) && forall k :: 0 <= k < h ==> t[k] == '#' {
      assert hashes == h;
    }
  }

  lemma {:induction false} DigitsStop(t: string, k: nat, d: nat)
    requires k <= d < |t| && (forall i :: k <= i < d ==> '0' <= t[i] <= '9') && !('0' <= t[d] <= '9')
    ensures DigitsTo(t, k) == d
    decreases d - k
  {
    if k == d {
    } else {
      DigitsStop(t, k + 1, d);
    }
  }

  lemma {:induction false} DigitsAre(t: string, k: nat)
    requires k <= |t|
    ensures forall i :: k <= i < DigitsTo(t, k) ==> '0' <= t[i] <= '9'
    decreases |t| - k
  {
    if k < |t| && '0' <= t[k] <= '9' {
      DigitsAre(t, k + 1);
    }
  }

  lemma ItemStartsExactly(t: string)
    ensures IsListItem(t) <==> StartsItem(t)
  {
    var digits := DigitsTo(t, 0);
    DigitsAre(t, 0);
    if IsListItem(t) {
      assert t[0] != '-' && t[0] != '*' && t[0] != '+' ==> StartsNumber(t, digits);
    }
    if d: nat :| StartsNumber(t, d) {
      DigitsStop(t, 0, d);
    }
  }

  /** Outside every fence, the break that stands higher on the list scores higher; a fenced line scores least. */
  lemma LineBreakOrderExactly(lines: seq<string>, i: nat, j: nat)
    requires 0 < i < |lines| && 0 < j < |lines|
    ensures MarkdownBreakScore(lines, i) > MarkdownBreakScore(lines, j) <==>
      !Fenced(lines, i) && (Fenced(lines, j) || Place(BreakAt(lines, i)) < Place(BreakAt(lines, j)))
  {
    PlaceOfScore(lines, i);
    PlaceOfScore(lines, j);
  }

  lemma PlaceOfScore(lines: seq<string>, i: nat)
    requires 0 < i < |lines|
    ensures MarkdownBreakScore(lines, i) ==
      if Fenced(lines, i) then 0
      else match BreakAt(lines, i)
        case AtHeading => 100
        case BehindBlanks => 70
        case BehindBlank => 60
        case AtListItem => 35
        case AtQuote => 25
        case Elsewhere => 10
  {
    TrimIsEmptyExactlyWhenBlank(lines[i]);
    TrimIsEmptyExactlyWhenBlank(lines[i - 1]);
    HeadingStartsExactly(Trim(lines[i]));
    ItemStartsExactly(Trim(lines[i]));
  }
}
