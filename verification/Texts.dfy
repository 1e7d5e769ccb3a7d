/** Text as the extractors see it: characters with a UTF-8 width, lines, trimming and byte offsets. */
module Texts {
  /** The bytes one character takes in UTF-8 (RFC 3629, section 3). */
  function Utf8Width(c: char): (w: nat)
    ensures 1 <= w <= 4
  {
    if c as int < 0x80 then 1 else if c as int < 0x800 then 2 else if c as int < 0x10000 then 3 else 4
  }

  /** The bytes of the first `k` characters: the byte offset of character `k`. */
  function BytesTo(s: string, k: nat): nat
    requires k <= |s|
  {
    if k == 0 then 0 else BytesTo(s, k - 1) + Utf8Width(s[k - 1])
  }

  function Bytes(s: string): nat {
    BytesTo(s, |s|)
  }

  /** The characters with the Unicode property White_Space. */
  predicate IsWhitespace(c: char) {
    var u := c as int;
    || 9 <= u <= 13 || u == 0x20 || u == 0x85 || u == 0xA0 || u == 0x1680 || 0x2000 <= u <= 0x200A
    || u == 0x2028 || u == 0x2029 || u == 0x202F || u == 0x205F || u == 0x3000
  }

  /** Trimming leaves nothing. */
  predicate Blank(s: string) {
    forall k :: 0 <= k < |s| ==> IsWhitespace(s[k])
  }

  /** The characters `from` to `to` of a text. */
  function Sub(s: string, from: nat, to: nat): (r: string)
    requires from <= to <= |s|
    ensures |r| == to - from
  {
    seq(to - from, k requires 0 <= k < to - from => s[from + k])
  }

  /** The first position from `k` on that is not whitespace. */
  function InkFrom(s: string, k: nat): (r: nat)
    requires k <= |s|
    ensures k <= r <= |s| && (r < |s| ==> !IsWhitespace(s[r]))
    ensures forall j :: k <= j < r ==> IsWhitespace(s[j])
    decreases |s| - k
  {
    if k < |s| && IsWhitespace(s[k]) then InkFrom(s, k + 1) else k
  }

  /** The position behind the last character before `k` that is not whitespace. */
  function InkTo(s: string, k: nat): (r: nat)
    requires k <= |s|
    ensures r <= k && (r > 0 ==> !IsWhitespace(s[r - 1]))
    ensures forall j :: r <= j < k ==> IsWhitespace(s[j])
  {
    if k > 0 && IsWhitespace(s[k - 1]) then InkTo(s, k - 1) else k
  }

  function TrimStart(s: string): string {
    Sub(s, InkFrom(s, 0), |s|)
  }

  function TrimEnd(s: string): string {
    Sub(s, 0, InkTo(s, |s|))
  }

  function Trim(s: string): string {
    TrimEnd(TrimStart(s))
  }

  predicate StartsWith(s: string, prefix: string) {
    |prefix| <= |s| && forall k :: 0 <= k < |prefix| ==> s[k] == prefix[k]
  }

  lemma TrimIsEmptyExactlyWhenBlank(s: string)
    ensures Trim(s) == "" <==> Blank(s)
    ensures TrimStart(s) == "" <==> Blank(s)
  {
    var start, t := InkFrom(s, 0), TrimStart(s);
    if start < |s| {
      assert t[0] == s[start];
    }
  }

  /** Trimming cuts away whitespace alone, and as much of it as there is. */
  lemma TrimCutsExactly(s: string) returns (from: nat, to: nat)
    ensures from <= to <= |s| && Trim(s) == s[from..to]
    ensures forall k :: 0 <= k < from || to <= k < |s| ==> IsWhitespace(s[k])
    ensures from < to ==> !IsWhitespace(s[from]) && !IsWhitespace(s[to - 1])
  {
    var t := TrimStart(s);
    from := InkFrom(s, 0);
    to := from + InkTo(t, |t|);
    assert forall k :: 0 <= k < |t| ==> t[k] == s[from + k];
    forall k | to <= k < |s| ensures IsWhitespace(s[k]) {
      assert t[k - from] == s[k];
    }
    if from < to {
      assert t[to - 1 - from] == s[to - 1];
    }
  }

  /** Whitespace alone stands before `k`, and the marker stands there. */
  ghost predicate MarkerAt(line: string, marker: string, k: nat) {
    && k + |marker| <= |line| && (forall j :: 0 <= j < k ==> IsWhitespace(line[j]))
    && forall j :: 0 <= j < |marker| ==> line[k + j] == marker[j]
  }

  ghost predicate BeginsWith(line: string, marker: string) {
    exists k: nat :: MarkerAt(line, marker, k)
  }

  /** A trimmed line starts with a marker exactly when the marker follows the line's leading whitespace. */
  lemma TrimmedStartExactly(line: string, marker: string)
    requires marker != "" && !IsWhitespace(marker[0]) && !IsWhitespace(marker[|marker| - 1])
    ensures StartsWith(TrimStart(line), marker) <==> BeginsWith(line, marker)
    ensures StartsWith(Trim(line), marker) <==> BeginsWith(line, marker)
  {
    var ink, t := InkFrom(line, 0), TrimStart(line);
    assert forall j :: 0 <= j < |t| ==> t[j] == line[ink + j];
    if StartsWith(t, marker) {
      assert MarkerAt(line, marker, ink);
      assert t[|marker| - 1] == marker[|marker| - 1];
    }
    if k: nat :| MarkerAt(line, marker, k) {
      assert line[k + 0] == marker[0];
      assert k == ink;
    }
  }

  // ----- Bytes

  lemma {:induction false} BytesOfSameStart(a: string, b: string, k: nat)
    requires k <= |a| && k <= |b| && forall i :: 0 <= i < k ==> a[i] == b[i]
    ensures BytesTo(a, k) == BytesTo(b, k)
  {
    if k == 0 {
    } else {
      BytesOfSameStart(a, b, k - 1);
    }
  }

  lemma {:induction false} BytesOfSum(a: string, b: string, k: nat)
    requires k <= |b|
    ensures BytesTo(a + b, |a| + k) == Bytes(a) + BytesTo(b, k)
  {
    if k == 0 {
      BytesOfSameStart(a + b, a, |a|);
    } else {
      BytesOfSum(a, b, k - 1);
    }
  }

  /** Byte offsets of character positions grow strictly. */
  lemma {:induction false} BytesGrow(s: string, i: nat, j: nat)
    requires i < j <= |s|
    ensures BytesTo(s, i) < BytesTo(s, j)
  {
    if i == j - 1 {
    } else {
      BytesGrow(s, i, j - 1);
    }
  }

  /** The newlines among the first `k` characters. */
  function NewlinesTo(s: string, k: nat): nat
    requires k <= |s|
  {
    if k == 0 then 0 else NewlinesTo(s, k - 1) + if s[k - 1] == '\n' then 1 else 0
  }

  lemma {:induction false} NewlinesOfSameStart(a: string, b: string, k: nat)
    requires k <= |a| && k <= |b| && forall i :: 0 <= i < k ==> a[i] == b[i]
    ensures NewlinesTo(a, k) == NewlinesTo(b, k)
  {
    if k == 0 {
    } else {
      NewlinesOfSameStart(a, b, k - 1);
    }
  }

  lemma {:induction false} NewlinesOfSum(a: string, b: string, k: nat)
    requires k <= |b|
    ensures NewlinesTo(a + b, |a| + k) == NewlinesTo(a, |a|) + NewlinesTo(b, k)
  {
    if k == 0 {
      NewlinesOfSameStart(a + b, a, |a|);
    } else {
      NewlinesOfSum(a, b, k - 1);
    }
  }

  lemma {:induction false} NoNewlines(s: string, k: nat)
    requires k <= |s| && '\n' !in s
    ensures NewlinesTo(s, k) == 0
  {
    if k == 0 {
    } else {
      NoNewlines(s, k - 1);
    }
  }

  // ----- Lines

  /** Lines `i` to `j - 1`, with newlines between them. */
  function JoinLines(lines: seq<string>, i: nat, j: nat): string
    requires i <= j <= |lines|
  {
    if i == j then ""
    else if j == i + 1 then lines[i]
    else JoinLines(lines, i, j - 1) + "\n" + lines[j - 1]
  }

  function Join(lines: seq<string>): string {
    JoinLines(lines, 0, |lines|)
  }

  lemma {:induction false} JoinOfSameLines(a: seq<string>, b: seq<string>, i: nat, j: nat)
    requires i <= j <= |a| && j <= |b| && forall k :: i <= k < j ==> a[k] == b[k]
    ensures JoinLines(a, i, j) == JoinLines(b, i, j)
  {
    if i == j {
    } else {
      JoinOfSameLines(a, b, i, j - 1);
    }
  }

  /** The pieces between newlines: always one more than there are newlines. */
  function Split(s: string): (lines: seq<string>)
    ensures |lines| > 0
  {
    if s == "" then [""]
    else
      var lines := Split(s[..|s| - 1]);
      var c := s[|s| - 1];
      if c == '\n' then lines + [""] else lines[|lines| - 1 := lines[|lines| - 1] + [c]]
  }

  lemma LongerLastLine(lines: seq<string>, c: char)
    requires lines != []
    ensures Join(lines[|lines| - 1 := lines[|lines| - 1] + [c]]) == Join(lines) + [c]
  {
    var n := |lines|;
    var longer := lines[n - 1 := lines[n - 1] + [c]];
    JoinOfSameLines(longer, lines, 0, n - 1);
    if n > 1 {
      assert JoinLines(longer, 0, n) == JoinLines(lines, 0, n - 1) + "\n" + (lines[n - 1] + [c]);
    }
  }

  lemma JoinWithEmpty(lines: seq<string>)
    requires lines != []
    ensures Join(lines + [""]) == Join(lines) + "\n"
  {
    JoinOfSameLines(lines + [""], lines, 0, |lines|);
    assert JoinLines(lines + [""], 0, |lines| + 1) == JoinLines(lines + [""], 0, |lines|) + "\n" + "";
  }

  lemma {:induction false} SplitThenJoin(s: string)
    ensures Join(Split(s)) == s
    ensures forall i :: 0 <= i < |Split(s)| ==> '\n' !in Split(s)[i]
  {
    if s == "" {
    } else {
      var before, c := s[..|s| - 1], s[|s| - 1];
      SplitThenJoin(before);
      if c == '\n' {
        JoinWithEmpty(Split(before));
      } else {
        LongerLastLine(Split(before), c);
      }
      assert s == before + [c];
    }
  }

  /** Everything before line `i`, with the newlines that end those lines. */
  function Lead(lines: seq<string>, i: nat): string
    requires i <= |lines|
  {
    if i == 0 then "" else Lead(lines, i - 1) + lines[i - 1] + "\n"
  }

  /** The character position at which line `i` starts. */
  function CharStart(lines: seq<string>, i: nat): nat
    requires i <= |lines|
  {
    if i == 0 then 0 else CharStart(lines, i - 1) + |lines[i - 1]| + 1
  }

  /** The byte offset at which line `i` starts. */
  function ByteStart(lines: seq<string>, i: nat): nat
    requires i <= |lines|
  {
    if i == 0 then 0 else ByteStart(lines, i - 1) + Bytes(lines[i - 1]) + 1
  }

  ghost predicate Unbroken(lines: seq<string>) {
    forall i :: 0 <= i < |lines| ==> '\n' !in lines[i]
  }

  lemma BytesWithLine(before: string, line: string)
    ensures Bytes(before + line + "\n") == Bytes(before) + Bytes(line) + 1
  {
    BytesOfSum(before + line, "\n", 1);
    BytesOfSum(before, line, |line|);
  }

  lemma {:induction false} LeadSizes(lines: seq<string>, i: nat)
    requires i <= |lines|
    ensures |Lead(lines, i)| == CharStart(lines, i) && Bytes(Lead(lines, i)) == ByteStart(lines, i)
  {
    if i == 0 {
    } else {
      LeadSizes(lines, i - 1);
      BytesWithLine(Lead(lines, i - 1), lines[i - 1]);
    }
  }

  lemma {:induction false} LinesBefore(lines: seq<string>, i: nat)
    requires i <= |lines| && Unbroken(lines)
    ensures NewlinesTo(Lead(lines, i), |Lead(lines, i)|) == i
  {
    if i == 0 {
    } else {
      LinesBefore(lines, i - 1);
      NewlinesOfSum(Lead(lines, i - 1) + lines[i - 1], "\n", 1);
      NewlinesOfSum(Lead(lines, i - 1), lines[i - 1], |lines[i - 1]|);
      NoNewlines(lines[i - 1], |lines[i - 1]|);
    }
  }

  /** Line starts grow, and a later line starts past the end of an earlier one. */
  lemma {:induction false} StartsGrow(lines: seq<string>, i: nat, j: nat)
    requires i < j <= |lines|
    ensures CharStart(lines, i) + |lines[i]| + 1 <= CharStart(lines, j)
  {
    if i == j - 1 {
    } else {
      StartsGrow(lines, i, j - 1);
    }
  }

  lemma {:induction false} LeadThenJoin(lines: seq<string>, i: nat, j: nat)
    requires i < j <= |lines|
    ensures Lead(lines, i) + JoinLines(lines, i, j) + "\n" == Lead(lines, j)
  {
    if j <= i + 1 {
    } else {
      LeadThenJoin(lines, i, j - 1);
      OneMoreLine(Lead(lines, i), JoinLines(lines, i, j - 1), lines[j - 1]);
    }
  }

  lemma OneMoreLine(a: string, b: string, line: string)
    ensures a + (b + "\n" + line) + "\n" == (a + b + "\n") + line + "\n"
  {
  }

  lemma DropLast(a: string, b: string, c: char)
    requires a + [c] == b + [c]
    ensures a == b
  {
    assert |a| == |b|;
    forall k | 0 <= k < |a| ensures a[k] == b[k] {
      assert (a + [c])[k] == (b + [c])[k];
    }
  }

  /** The text is what precedes line `i` and all lines from there on. */
  lemma LeadThenRest(lines: seq<string>, i: nat)
    requires i < |lines|
    ensures Join(lines) == Lead(lines, i) + JoinLines(lines, i, |lines|)
  {
    LeadThenJoin(lines, 0, |lines|);
    LeadThenJoin(lines, i, |lines|);
    assert Lead(lines, 0) + Join(lines) == Join(lines);
    DropLast(Join(lines), Lead(lines, i) + JoinLines(lines, i, |lines|), '\n');
  }

  /** `part` stands in the text from position `from` on. */
  ghost predicate StandsAt(text: string, from: nat, part: string) {
    from + |part| <= |text| && forall k :: from <= k < from + |part| ==> text[k] == part[k - from]
  }

  /** Lines `i` to `j - 1` stand where line `i` starts, and end the text or are followed by a newline. */
  lemma LinesStand(lines: seq<string>, i: nat, j: nat)
    requires i < j <= |lines|
    ensures |JoinLines(lines, i, j)| == CharStart(lines, j) - CharStart(lines, i) - 1
    ensures StandsAt(Join(lines), CharStart(lines, i), JoinLines(lines, i, j))
    ensures if j == |lines| then CharStart(lines, j) == |Join(lines)| + 1
      else CharStart(lines, j) <= |Join(lines)| && Join(lines)[CharStart(lines, j) - 1] == '\n'
  {
    var before, middle, end := Lead(lines, i), JoinLines(lines, i, j), Lead(lines, j);
    LeadSizes(lines, i);
    LeadSizes(lines, j);
    LeadThenJoin(lines, i, j);
    LeadLengths(before, middle, end);
    if j < |lines| {
      LeadThenRest(lines, j);
      LeadStands(before, middle, end, Join(lines), JoinLines(lines, j, |lines|));
    } else {
      LeadThenRest(lines, i);
      EndStands(before, middle, Join(lines));
    }
  }

  lemma LeadLengths(before: string, middle: string, end: string)
    requires before + middle + "\n" == end
    ensures |end| == |before| + |middle| + 1
  {
    assert |before + middle + "\n"| == |before| + |middle| + 1;
  }

  lemma EndStands(before: string, middle: string, text: string)
    requires text == before + middle
    ensures StandsAt(text, |before|, middle) && |text| == |before| + |middle|
  {
  }

  /** A newline, or the end of the text, stands before the start of line `j`. */
  lemma LinesAreSeparated(lines: seq<string>, j: nat)
    requires 0 < j <= |lines|
    ensures if j == |lines| then CharStart(lines, j) == |Join(lines)| + 1
      else CharStart(lines, j) <= |Join(lines)| && Join(lines)[CharStart(lines, j) - 1] == '\n'
  {
    LinesStand(lines, 0, j);
  }

  lemma LeadStands(before: string, middle: string, end: string, text: string, rest: string)
    requires before + middle + "\n" == end && text == end + rest
    ensures StandsAt(text, |before|, middle) && text[|end| - 1] == '\n'
  {
    assert forall k :: 0 <= k < |end| ==> text[k] == end[k];
  }

  /** What precedes line `i` stands at the start of the text. */
  lemma LeadStandsFirst(lines: seq<string>, i: nat)
    requires i < |lines|
    ensures StandsAt(Join(lines), 0, Lead(lines, i))
  {
    LeadThenRest(lines, i);
  }
}
