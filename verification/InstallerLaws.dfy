/** What the installers promise of a file: when they refuse, what the blocks they write say, and that they never give
    the user a second server or permission table. */
module InstallerLaws {
  import opened Options
  import opened Texts
  import opened MarkedBlocks
  import opened BlockPairs
  import opened TomlStrings
  import opened Installers

  ghost predicate Mentions(text: string, part: string) {
    exists i: nat :: OccursAt(text, i, part)
  }

  // ----- When an install is refused

  /** The first start marker stands at `i`, and an end marker at `j`, not before it. */
  ghost predicate BlockAt(text: string, start: string, end: string, i: nat, j: nat) {
    && OccursAt(text, i, start) && i <= j && OccursAt(text, j, end)
    && forall k: nat {:trigger OccursAt(text, k, start)} :: k < i ==> !OccursAt(text, k, start)
  }

  ghost predicate HasBlock(text: string, start: string, end: string) {
    exists i: nat, j: nat :: BlockAt(text, start, end, i, j)
  }

  lemma HasBlockExactly(text: string, m: Markers)
    ensures BlockSpan(text, m).Some? <==> HasBlock(text, m.start, m.end)
  {
    var start := FindFrom(text, m.start, 0);
    if start.Some? {
      var end := FindFrom(text, m.end, start.value);
      if end.Some? {
        assert BlockAt(text, m.start, m.end, start.value, end.value);
      }
    }
    if i: nat, j: nat :| BlockAt(text, m.start, m.end, i, j) {
      FindIs(text, m.start, 0, i);
    }
  }

  /** Without `--force`, an install for Codex is refused exactly when the file mentions the server's table and has no
      block of an earlier install; with it, never. */
  lemma CodexRefusesExactly(text: string, o: InstallOptions)
    ensures InstallCodex(text, o) == Refused <==>
      && !o.force && Mentions(text, "[mcp_servers.zvec_grep]")
      && !HasBlock(text, "# ZVEC_GREP_START", "# ZVEC_GREP_END")
  {
    HasBlockExactly(text, CONFIG);
    assert Contains(text, SERVER_TABLE) <==> Mentions(text, SERVER_TABLE);
  }

  /** Likewise for Grok. */
  lemma GrokRefusesExactly(text: string, o: InstallOptions)
    ensures InstallGrok(text, o) == Refused <==>
      && !o.force && Mentions(text, "[mcp_servers.zvec_grep]")
      && !HasBlock(text, "# ZVEC_GREP_START", "# ZVEC_GREP_END")
  {
    HasBlockExactly(text, CONFIG);
    assert Contains(text, SERVER_TABLE) <==> Mentions(text, SERVER_TABLE);
  }

  // ----- What is written

  /** The line that holds position `i` ends at `e`: behind its newline, or with the text. */
  ghost predicate LineEndsAt(text: string, i: nat, e: nat) {
    && i <= e <= |text|
    && if i < e && text[e - 1] == '\n' then forall k :: i <= k < e - 1 ==> text[k] != '\n'
       else e == |text| && forall k :: i <= k < e ==> text[k] != '\n'
  }

  lemma {:induction false} NextLineExactly(text: string, i: nat)
    requires i <= |text|
    ensures LineEndsAt(text, i, NextLine(text, i))
    decreases |text| - i
  {
    if i == |text| || text[i] == '\n' {
    } else {
      NextLineExactly(text, i + 1);
    }
  }

  /** The old block runs from its start marker at `i` to the end `e` of the line of the first end marker behind that. */
  ghost predicate BlockRuns(text: string, start: string, end: string, i: nat, e: nat) {
    exists j: nat ::
      && BlockAt(text, start, end, i, j) && LineEndsAt(text, j, e)
      && forall k: nat {:trigger OccursAt(text, k, end)} :: i <= k < j ==> !OccursAt(text, k, end)
  }

  lemma SpanRuns(text: string, m: Markers)
    requires BlockSpan(text, m).Some?
    ensures BlockRuns(text, m.start, m.end, BlockSpan(text, m).value.from, BlockSpan(text, m).value.to)
  {
    var start := FindFrom(text, m.start, 0).value;
    var end := FindFrom(text, m.end, start).value;
    assert BlockAt(text, m.start, m.end, start, end);
    NextLineExactly(text, end);
  }

  /** An install for Codex that is not refused puts the block where an old one was; without an old one, behind the text,
      on a line of its own. Everything else stays. An uninstall takes an old block out. */
  lemma CodexWritesExactly(text: string, o: InstallOptions) returns (i: nat, e: nat)
    requires InstallCodex(text, o).Written?
    ensures i <= e <= |text|
    ensures HasBlock(text, "# ZVEC_GREP_START", "# ZVEC_GREP_END") ==>
      && BlockRuns(text, "# ZVEC_GREP_START", "# ZVEC_GREP_END", i, e)
      && InstallCodex(text, o).text == text[..i] + CodexBlock(o) + "\n" + text[e..]
      && UninstallCodex(text) == text[..i] + text[e..]
    ensures !HasBlock(text, "# ZVEC_GREP_START", "# ZVEC_GREP_END") ==>
      && InstallCodex(text, o).text ==
           (if text == "" || text[|text| - 1] == '\n' then text else text + "\n") + CodexBlock(o) + "\n"
      && UninstallCodex(text) == text
  {
    HasBlockExactly(text, CONFIG);
    i, e := 0, 0;
    if BlockSpan(text, CONFIG).Some? {
      i, e := BlockSpan(text, CONFIG).value.from, BlockSpan(text, CONFIG).value.to;
      SpanRuns(text, CONFIG);
    }
  }

  // ----- Where a part can stand

  lemma OccursBehind(a: string, b: string, i: nat, part: string)
    requires i >= |a|
    ensures OccursAt(a + b, i, part) <==> OccursAt(b, i - |a|, part)
  {
    var s := a + b;
    assert forall x :: |a| <= x < |s| ==> s[x] == b[x - |a|];
  }

  lemma OccursBefore(a: string, b: string, i: nat, part: string)
    requires i + |part| <= |a|
    ensures OccursAt(a + b, i, part) <==> OccursAt(a, i, part)
  {
    var s := a + b;
    assert forall x :: 0 <= x < |a| ==> s[x] == a[x];
  }

  /** A part does not stand across a character it does not contain. */
  lemma NotAcross(s: string, i: nat, part: string, at: nat)
    requires OccursAt(s, i, part) && at < |s| && s[at] !in part
    ensures i + |part| <= at || at < i
  {
    forall x | i <= x < i + |part| ensures s[x] in part {
      assert s[i + (x - i)] == part[x - i];
    }
  }

  /** A part that does not contain the separator is mentioned on one side of it. */
  lemma MentionedOnOneSide(a: string, c: char, b: string, part: string)
    requires c !in part
    ensures Mentions(a + [c] + b, part) <==> Mentions(a, part) || Mentions(b, part)
  {
    var head := a + [c];
    var s := head + b;
    assert s[|a|] == c;
    if i: nat :| OccursAt(s, i, part) {
      NotAcross(s, i, part, |a|);
      if i + |part| <= |a| {
        assert s == a + ([c] + b);
        OccursBefore(a, [c] + b, i, part);
      } else {
        OccursBehind(head, b, i, part);
      }
    }
    if i: nat :| OccursAt(a, i, part) {
      assert s == a + ([c] + b);
      OccursBefore(a, [c] + b, i, part);
    }
    if i: nat :| OccursAt(b, i, part) {
      OccursBehind(head, b, |head| + i, part);
    }
  }

  lemma TooShortToMention(s: string, part: string)
    requires |s| < |part|
    ensures !Mentions(s, part)
  {
  }

  // ----- What a quoted value mentions

  /** No character of the part is escaped, and its first one is in no escape. */
  predicate Plain(part: string) {
    part != "" && part[0] == '[' && forall k :: 0 <= k < |part| ==> Escape(part[k]) == [part[k]]
  }

  lemma NoBracketInEscape(c: char)
    requires |Escape(c)| != 1
    ensures forall k :: 0 <= k < |Escape(c)| ==> Escape(c)[k] != '['
    ensures Escape(c)[0] == '\\'
  {
  }

  predicate AllPlain(part: string) {
    forall k :: 0 <= k < |part| ==> Escape(part[k]) == [part[k]]
  }

  lemma BehindFirst(s: string, part: string)
    requires part != ""
    ensures OccursAt(s, 0, part) <==> s != "" && s[0] == part[0] && OccursAt(s[1..], 0, part[1..])
  {
    if OccursAt(s, 0, part) {
      assert s[0 + 0] == part[0];
      forall k | 0 <= k < |part| - 1 ensures s[1..][0 + k] == part[1..][k] {
        assert s[0 + (k + 1)] == part[k + 1];
      }
    }
    if s != "" && s[0] == part[0] && OccursAt(s[1..], 0, part[1..]) {
      forall k | 0 <= k < |part| ensures s[0 + k] == part[k] {
        if k > 0 {
          assert s[1..][0 + (k - 1)] == part[1..][k - 1];
        }
      }
    }
  }

  /** A text begins with plain characters exactly when its escaped form does. */
  lemma {:induction false} EscapedBegins(value: string, part: string)
    requires AllPlain(part)
    ensures OccursAt(EscapeAll(value), 0, part) <==> OccursAt(value, 0, part)
    decreases |part|
  {
    if part == "" || value == "" {
    } else {
      var c, rest := value[0], EscapeAll(value[1..]);
      BehindFirst(value, part);
      BehindFirst(EscapeAll(value), part);
      if |Escape(c)| == 1 {
        assert EscapeAll(value)[1..] == rest;
        EscapedBegins(value[1..], part[1..]);
      } else {
        NoBracketInEscape(c);
        assert Escape(part[0]) == [part[0]];
      }
    }
  }

  lemma {:induction false} EscapedMentions(value: string, part: string)
    requires Plain(part)
    ensures Mentions(EscapeAll(value), part) <==> Mentions(value, part)
  {
    if value == "" {
    } else {
      var e, rest, tail := Escape(value[0]), EscapeAll(value[1..]), value[1..];
      EscapedMentions(tail, part);
      EscapedBegins(value, part);
      MentionedBehind([value[0]], tail, value, part);
      MentionedBehind(e, rest, EscapeAll(value), part);
      assert value[0 + 0] == value[0];
    }
  }

  /** Behind one character, or an escape, a plain part is mentioned in what follows, or right at the start. */
  lemma MentionedBehind(e: string, rest: string, s: string, part: string)
    requires Plain(part) && s == e + rest && (|e| == 1 || exists c :: e == Escape(c))
    ensures Mentions(s, part) <==> OccursAt(s, 0, part) || Mentions(rest, part)
  {
    if i: nat :| OccursAt(s, i, part) {
      if i >= |e| {
        OccursBehind(e, rest, i, part);
      } else if |e| != 1 {
        var c :| e == Escape(c);
        assert s[i + 0] == part[0] && s[i] == e[i];
        NoBracketInEscape(c);
      }
    }
    if i: nat :| OccursAt(rest, i, part) {
      OccursBehind(e, rest, |e| + i, part);
    }
  }

  lemma QuoteMentions(before: string, value: string, tail: string, part: string)
    requires Plain(part) && '"' !in part
    ensures Mentions(before + Quote(value) + tail, part) <==>
      Mentions(before, part) || Mentions(value, part) || Mentions(tail, part)
  {
    var e := EscapeAll(value);
    assert before + Quote(value) + tail == before + ['"'] + (e + ['"'] + tail);
    MentionedOnOneSide(before, '"', e + ['"'] + tail, part);
    MentionedOnOneSide(e, '"', tail, part);
    EscapedMentions(value, part);
  }

  ghost predicate SomeMentions(values: seq<string>, part: string) {
    exists k :: 0 <= k < |values| && Mentions(values[k], part)
  }

  lemma SomeMentionsBySnoc(values: seq<string>, part: string)
    requires values != []
    ensures SomeMentions(values, part) <==>
      SomeMentions(values[..|values| - 1], part) || Mentions(values[|values| - 1], part)
  {
  }

  /** A list of quoted values, with too little around it to matter. */
  lemma {:induction false} ListMentions(before: string, values: seq<string>, tail: string, part: string)
    requires Plain(part) && '"' !in part && |before| + |tail| < |part| && |before| + 2 < |part|
    ensures Mentions(before + Quoted(values) + tail, part) <==> SomeMentions(values, part)
    decreases |values|
  {
    TooShortToMention(before, part);
    TooShortToMention(tail, part);
    if values == [] {
      TooShortToMention(before + Quoted(values) + tail, part);
    } else {
      var n := |values| - 1;
      SomeMentionsBySnoc(values, part);
      if n == 0 {
        QuoteMentions(before, values[0], tail, part);
      } else {
        ListMentions(before, values[..n], ", ", part);
        QuoteMentions(before + Quoted(values[..n]) + ", ", values[n], tail, part);
        LastQuoted(before, Quoted(values[..n]), Quote(values[n]), tail, Quoted(values));
      }
    }
  }

  lemma LastQuoted(before: string, init: string, last: string, tail: string, all: string)
    requires all == init + ", " + last
    ensures before + all + tail == before + init + ", " + last + tail
  {
  }

  // ----- One server table

  predicate IsOrdinary(c: char) {
    ' ' <= c && c != '"' && c != '\\'
  }

  lemma OrdinaryIsPlain(c: char)
    requires IsOrdinary(c)
    ensures Escape(c) == [c]
  {
  }

  lemma TableIsOrdinary()
    ensures forall k :: 0 <= k < |SERVER_TABLE| ==> IsOrdinary(SERVER_TABLE[k])
    ensures |SERVER_TABLE| == 23 && SERVER_TABLE[0] == '['
  {
  }

  lemma TableIsPlain()
    ensures Plain(SERVER_TABLE) && '"' !in SERVER_TABLE && '\n' !in SERVER_TABLE && |SERVER_TABLE| == 23
  {
    TableIsOrdinary();
    forall k | 0 <= k < |SERVER_TABLE| ensures Escape(SERVER_TABLE[k]) == [SERVER_TABLE[k]] {
      OrdinaryIsPlain(SERVER_TABLE[k]);
    }
    assert !IsOrdinary('"') && !IsOrdinary('\n');
  }

  /** What follows the table's name in the block. */
  function Settings(t: Transport): string {
    match t
    case Stdio(args) => "command = \"zg\"\n" + ("args = [" + Quoted(args) + "]")
    case Http(url) => "url = " + Quote(url)
  }

  function TokenSetting(tokenEnv: Option<string>): string {
    if tokenEnv.Some? then "\nbearer_token_env_var = " + Quote(tokenEnv.value) else ""
  }

  ghost predicate TransportMentions(t: Transport, part: string) {
    match t
    case Stdio(args) => SomeMentions(args, part)
    case Http(url) => Mentions(url, part)
  }

  /** Some option value mentions the part. */
  ghost predicate OptionsMention(o: InstallOptions, part: string) {
    TransportMentions(o.transport, part) || (o.tokenEnv.Some? && Mentions(o.tokenEnv.value, part))
  }

  lemma SettingsMention(t: Transport)
    ensures Mentions(Settings(t), SERVER_TABLE) <==> TransportMentions(t, SERVER_TABLE)
  {
    TableIsPlain();
    match t
    case Stdio(args) =>
      ArgsMention(args, "args = [" + Quoted(args) + "]");
    case Http(url) =>
      TooShortToMention("url = ", SERVER_TABLE);
      TooShortToMention("", SERVER_TABLE);
      QuoteMentions("url = ", url, "", SERVER_TABLE);
      assert Settings(t) == "url = " + Quote(url) + "";
  }

  lemma ArgsMention(args: seq<string>, line: string)
    requires line == "args = [" + Quoted(args) + "]"
    ensures Mentions("command = \"zg\"\n" + line, SERVER_TABLE) <==> SomeMentions(args, SERVER_TABLE)
  {
    TableIsPlain();
    var command := "command = \"zg\"";
    assert command + ['\n'] + line == "command = \"zg\"\n" + line;
    TooShortToMention(command, SERVER_TABLE);
    MentionedOnOneSide(command, '\n', line, SERVER_TABLE);
    ListMentions("args = [", args, "]", SERVER_TABLE);
  }

  lemma TokenMentions(tokenEnv: Option<string>, before: string)
    ensures Mentions(before + TokenSetting(tokenEnv), SERVER_TABLE) <==>
      Mentions(before, SERVER_TABLE) || (tokenEnv.Some? && Mentions(tokenEnv.value, SERVER_TABLE))
  {
    if tokenEnv.Some? {
      TokenLineMentions(before, tokenEnv.value, before + TokenSetting(tokenEnv));
    } else {
      assert before + TokenSetting(tokenEnv) == before;
    }
  }

  lemma TokenLineMentions(before: string, value: string, all: string)
    requires all == before + ("\nbearer_token_env_var = " + Quote(value))
    ensures Mentions(all, SERVER_TABLE) <==> Mentions(before, SERVER_TABLE) || Mentions(value, SERVER_TABLE)
  {
    var line := "bearer_token_env_var = " + Quote(value) + "";
    TableIsPlain();
    TokenLine(before, Quote(value), line, all);
    MentionedOnOneSide(before, '\n', line, SERVER_TABLE);
    NamedMentions("bearer_token_env_var = ", value, line);
  }

  lemma TokenLine(before: string, quoted: string, line: string, all: string)
    requires all == before + ("\nbearer_token_env_var = " + quoted)
    requires line == "bearer_token_env_var = " + quoted + ""
    ensures all == before + ['\n'] + line
  {
    assert "\nbearer_token_env_var = " == ['\n'] + "bearer_token_env_var = ";
  }

  lemma NamedMentions(name: string, value: string, line: string)
    requires '[' !in name && line == name + Quote(value) + ""
    ensures Mentions(line, SERVER_TABLE) <==> Mentions(value, SERVER_TABLE)
  {
    TableIsPlain();
    NameMentionsNothing(name);
    NameMentionsNothing("");
    QuoteMentions(name, value, "", SERVER_TABLE);
  }

  lemma NameMentionsNothing(name: string)
    requires '[' !in name
    ensures !Mentions(name, SERVER_TABLE)
  {
    TableIsPlain();
    forall i: nat ensures !OccursAt(name, i, SERVER_TABLE) {
      WrongFirst(name, SERVER_TABLE, i);
    }
  }

  /** Everything in the block behind the table's name. */
  function BehindTable(o: InstallOptions): string {
    Settings(o.transport) + TokenSetting(o.tokenEnv)
  }

  lemma BehindTableMentions(o: InstallOptions)
    ensures Mentions(BehindTable(o), SERVER_TABLE) <==> OptionsMention(o, SERVER_TABLE)
  {
    TokenMentions(o.tokenEnv, Settings(o.transport));
    SettingsMention(o.transport);
  }

  lemma ServerLinesAre(t: Transport)
    ensures ServerLines(t) == SERVER_TABLE + "\n" + Settings(t)
  {
    assert "[mcp_servers.zvec_grep]\n" == SERVER_TABLE + "\n";
    match t
    case Stdio(args) => TwoLines("[mcp_servers.zvec_grep]\n", Quoted(args));
    case Http(_) =>
  }

  lemma TwoLines(head: string, list: string)
    ensures head + ("command = \"zg\"\nargs = [" + list + "]") ==
      head + ("command = \"zg\"\n" + ("args = [" + list + "]"))
  {
    assert "command = \"zg\"\nargs = [" == "command = \"zg\"\n" + "args = [";
  }

  lemma CodexBlockIs(o: InstallOptions)
    ensures CodexBlock(o) + "\n" ==
      CONFIG_START + "\n" + SERVER_TABLE + "\n" + (BehindTable(o) + "\n" + (CONFIG_END + "\n"))
  {
    ServerLinesAre(o.transport);
    Regroup(CONFIG_START, SERVER_TABLE, Settings(o.transport), TokenSetting(o.tokenEnv), CONFIG_END);
    assert CodexBody(o) == ServerLines(o.transport) + TokenSetting(o.tokenEnv);
  }

  lemma Regroup(start: string, table: string, settings: string, token: string, end: string)
    ensures start + "\n" + (table + "\n" + settings + token) + "\n" + end + "\n" ==
      start + "\n" + table + "\n" + (settings + token + "\n" + (end + "\n"))
  {
  }

  /** A part that stands on a line of its own, in text that does not mention it otherwise, stands only there. */
  lemma StandsOnceExactly(a: string, part: string, r: string, s: string)
    requires part != "" && '\n' !in part && !Mentions(a, part) && s == a + "\n" + part + "\n" + r
    ensures (forall j: nat :: OccursAt(s, j, part) <==> j == |a| + 1) <==> !Mentions(r, part)
  {
    StandsThere(a, part, r, s);
    if j: nat :| OccursAt(r, j, part) {
      StandsBehind(a, part, r, s, j);
    }
    forall j: nat | OccursAt(s, j, part) && j != |a| + 1 ensures Mentions(r, part) {
      StandsElsewhere(a, part, r, s, j);
    }
  }

  lemma StandsBehind(a: string, part: string, r: string, s: string, j: nat)
    requires s == a + "\n" + part + "\n" + r && OccursAt(r, j, part)
    ensures OccursAt(s, |a| + |part| + 2 + j, part)
  {
    OccursBehind(a + "\n" + part + "\n", r, |a| + |part| + 2 + j, part);
  }

  lemma StandsThere(a: string, part: string, r: string, s: string)
    requires s == a + "\n" + part + "\n" + r
    ensures OccursAt(s, |a| + 1, part) && s[|a|] == '\n' && s[|a| + 1 + |part|] == '\n'
  {
    assert forall k :: 0 <= k < |part| ==> s[|a| + 1 + k] == part[k];
  }

  lemma StandsElsewhere(a: string, part: string, r: string, s: string, j: nat)
    requires part != "" && '\n' !in part && !Mentions(a, part) && s == a + "\n" + part + "\n" + r
    requires OccursAt(s, j, part) && j != |a| + 1
    ensures Mentions(r, part)
  {
    StandsThere(a, part, r, s);
    NotAcross(s, j, part, |a|);
    NotAcross(s, j, part, |a| + 1 + |part|);
    if j + |part| <= |a| {
      assert s == a + ("\n" + part + "\n" + r);
      OccursBefore(a, "\n" + part + "\n" + r, j, part);
    } else {
      OccursBehind(a + "\n" + part + "\n", r, j, part);
    }
  }

  lemma EndMentionsNothing(b: string)
    ensures Mentions(b + "\n" + (CONFIG_END + "\n"), SERVER_TABLE) <==> Mentions(b, SERVER_TABLE)
  {
    TableIsPlain();
    ConfigEndIsMarker();
    TooShortToMention(CONFIG_END + "\n", SERVER_TABLE);
    assert b + "\n" + (CONFIG_END + "\n") == b + ['\n'] + (CONFIG_END + "\n");
    MentionedOnOneSide(b, '\n', CONFIG_END + "\n", SERVER_TABLE);
  }

  lemma BeforeMentionsNothing(text: string)
    requires !Mentions(text, SERVER_TABLE)
    ensures !Mentions(LineEnded(text) + CONFIG_START, SERVER_TABLE)
  {
    TableIsPlain();
    ConfigStartIsMarker();
    var a := LineEnded(text) + CONFIG_START;
    forall j: nat ensures !OccursAt(a, j, SERVER_TABLE) {
      if j < |LineEnded(text)| {
        NoStraddle(text, CONFIG_START, SERVER_TABLE, j);
      }
    }
  }

  /** A file without an old block that is written without `--force` mentions the server's table once, in the new block,
      exactly when no option value mentions it. */
  lemma ServerTableStandsOnceExactly(text: string, o: InstallOptions)
    requires !o.force && !HasBlock(text, "# ZVEC_GREP_START", "# ZVEC_GREP_END") && InstallCodex(text, o).Written?
    ensures
      var next, at := InstallCodex(text, o).text, |LineEnded(text)| + 18;
      (forall j: nat :: OccursAt(next, j, "[mcp_servers.zvec_grep]") <==> j == at) <==>
        !OptionsMention(o, "[mcp_servers.zvec_grep]")
  {
    HasBlockExactly(text, CONFIG);
    CodexRefusesExactly(text, o);
    var next, a := InstallCodex(text, o).text, LineEnded(text) + CONFIG_START;
    var r := BehindTable(o) + "\n" + (CONFIG_END + "\n");
    ConfigStartIsMarker();
    TableIsPlain();
    BeforeMentionsNothing(text);
    CodexBlockIs(o);
    Appended(LineEnded(text), CONFIG_START, SERVER_TABLE, r, CodexBlock(o), next);
    StandsOnceExactly(a, SERVER_TABLE, r, next);
    EndMentionsNothing(BehindTable(o));
    BehindTableMentions(o);
  }

  lemma Appended(before: string, start: string, table: string, r: string, block: string, next: string)
    requires block + "\n" == start + "\n" + table + "\n" + r && next == before + block + "\n"
    ensures next == (before + start) + "\n" + table + "\n" + r
  {
    assert next == before + (block + "\n");
  }
}
