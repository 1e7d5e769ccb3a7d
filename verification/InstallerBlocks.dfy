/** What the managed blocks say, line by line and as a TOML reader sees them, and that a permission table is never
    written beside the user's. */
module InstallerBlocks {
  import opened Options
  import opened Texts
  import opened MarkedBlocks
  import opened BlockPairs
  import opened TomlStrings
  import opened Installers
  import opened InstallerLaws

  // ----- Lines

  lemma {:induction false} LinesOfSum(a: string, b: string)
    ensures Split(a + "\n" + b) == Split(a) + Split(b)
  {
    var s := a + "\n" + b;
    if b == "" {
      assert s[..|s| - 1] == a && s[|s| - 1] == '\n';
      assert Split(b) == [""];
    } else {
      var n := |b| - 1;
      assert s[..|s| - 1] == a + "\n" + b[..n] && s[|s| - 1] == b[n];
      LinesOfSum(a, b[..n]);
      LastOfSum(Split(a), Split(b[..n]), b[n]);
    }
  }

  lemma LastOfSum(x: seq<string>, y: seq<string>, c: char)
    requires y != []
    ensures (x + y)[|x + y| - 1 := (x + y)[|x + y| - 1] + [c]] == x + y[|y| - 1 := y[|y| - 1] + [c]]
    ensures (x + y) + [""] == x + (y + [""])
  {
  }

  lemma {:induction false} OneLine(s: string)
    requires '\n' !in s
    ensures Split(s) == [s]
  {
    if s == "" {
    } else {
      OneLine(s[..|s| - 1]);
      assert s == s[..|s| - 1] + [s[|s| - 1]];
    }
  }

  lemma FirstLine(line: string, rest: string)
    requires '\n' !in line
    ensures Split(line + "\n" + rest) == [line] + Split(rest)
  {
    OneLine(line);
    LinesOfSum(line, rest);
  }

  // ----- Lists of strings

  /** Reads a list of basic strings with a comma and a space between them, up to the end of the text. */
  function ReadList(s: string): Option<seq<string>>
    decreases |s|
  {
    var first := ReadQuoted(s);
    if first == None then None
    else if first.value.rest == "" then Some([first.value.value])
    else if |first.value.rest| < 2 || first.value.rest[..2] != ", " || |first.value.rest| >= |s| then None
    else
      var more := ReadList(first.value.rest[2..]);
      if more == None then None else Some([first.value.value] + more.value)
  }

  lemma {:induction false} QuotedByHead(values: seq<string>)
    requires |values| > 1
    ensures Quoted(values) == Quote(values[0]) + ", " + Quoted(values[1..])
  {
    var n := |values| - 1;
    if n == 1 {
      assert values[..1] == [values[0]] && values[1..] == [values[1]];
    } else {
      QuotedByHead(values[..n]);
      assert values[..n][1..] == values[1..][..n - 1] && values[1..][n - 1] == values[n];
      Reassociate(Quote(values[0]), Quoted(values[1..][..n - 1]), Quote(values[n]));
    }
  }

  lemma Reassociate(a: string, b: string, c: string)
    ensures a + ", " + b + ", " + c == a + ", " + (b + ", " + c)
  {
  }

  ghost predicate Readable(values: seq<string>) {
    forall k :: 0 <= k < |values| ==> 0x7F as char !in values[k]
  }

  /** A list of quoted values reads back as itself exactly when no value contains U+007F. */
  lemma {:induction false} ListReadsBackExactly(values: seq<string>)
    requires values != []
    ensures ReadList(Quoted(values)) == if Readable(values) then Some(values) else None
    decreases |values|
  {
    var v, more := values[0], Quoted(values[1..]);
    if |values| == 1 {
      EscapedReads(v, "");
      OneReads(v, Quoted(values));
      assert values == [v] && (Readable(values) <==> 0x7F as char !in values[0]);
    } else {
      QuotedByHead(values);
      EscapedReads(v, ", " + more);
      ListReadsBackExactly(values[1..]);
      MoreReads(v, more, Quoted(values));
      assert Readable(values) <==> 0x7F as char !in v && Readable(values[1..]);
      assert values == [v] + values[1..];
    }
  }

  lemma OneReads(v: string, s: string)
    requires s == Quote(v)
    requires ReadChars(EscapeAll(v) + "\"" + "") == if 0x7F as char in v then None else Some(Read(v, ""))
    ensures ReadList(s) == if 0x7F as char in v then None else Some([v])
  {
    assert s[1..] == EscapeAll(v) + "\"" + "";
  }

  lemma MoreReads(v: string, more: string, s: string)
    requires s == Quote(v) + ", " + more
    requires ReadChars(EscapeAll(v) + "\"" + (", " + more)) ==
      if 0x7F as char in v then None else Some(Read(v, ", " + more))
    ensures ReadList(s) ==
      if 0x7F as char in v || ReadList(more) == None then None else Some([v] + ReadList(more).value)
  {
    QuotedThenMore(v, more, s);
    var rest := ", " + more;
    assert rest[..2] == ", " && rest[2..] == more;
  }

  lemma QuotedThenMore(v: string, more: string, s: string)
    requires s == Quote(v) + ", " + more
    ensures |s| > |more| + 2 && s[0] == '"' && s[1..] == EscapeAll(v) + "\"" + (", " + more)
  {
  }

  // ----- The blocks

  /** Behind `name` the line has a basic string that reads as `value`, if that can be written at all, then `rest`. */
  ghost predicate Sets(line: string, name: string, value: string, rest: string) {
    && name <= line
    && (ReadQuoted(line[|name|..]) == Some(Read(value, rest)) <==> 0x7F as char !in value)
  }

  lemma QuotedSets(name: string, value: string, rest: string, line: string)
    requires line == name + Quote(value) + rest
    ensures Sets(line, name, value, rest) && '\n' !in Quote(value)
  {
    assert line[|name|..] == Quote(value) + rest;
    QuotedReadsBackExactly(value, rest);
    QuotedHasNoNewline(value);
  }

  /** A line `args = [...]` whose list reads as `values`, if those can be written at all. */
  ghost predicate SetsArgs(line: string, values: seq<string>) {
    && |line| >= 9 && line[..8] == "args = [" && line[|line| - 1] == ']'
    && (if values == [] then |line| == 9
        else ReadList(line[8..|line| - 1]) == if Readable(values) then Some(values) else None)
  }

  lemma ArgsSet(values: seq<string>)
    ensures SetsArgs("args = [" + Quoted(values) + "]", values)
  {
    var line := "args = [" + Quoted(values) + "]";
    assert line[8..|line| - 1] == Quoted(values);
    if values != [] {
      ListReadsBackExactly(values);
    }
  }

  lemma {:induction false} ListHasNoNewline(values: seq<string>)
    ensures '\n' !in Quoted(values)
  {
    if values == [] {
    } else {
      QuotedHasNoNewline(values[|values| - 1]);
      if |values| > 1 {
        ListHasNoNewline(values[..|values| - 1]);
      }
    }
  }

  /** The lines of the server table: its name, then a command with its arguments, or an address. */
  ghost predicate ServerTable(lines: seq<string>, t: Transport) {
    && |lines| > 1 && lines[0] == "[mcp_servers.zvec_grep]"
    && match t
       case Stdio(args) => |lines| == 3 && lines[1] == "command = \"zg\"" && SetsArgs(lines[2], args)
       case Http(url) => |lines| == 2 && Sets(lines[1], "url = ", url, "")
  }

  lemma ArgsLines(args: seq<string>)
    ensures ServerTable([SERVER_TABLE] + Split(Settings(Stdio(args))), Stdio(args))
  {
    var line := "args = [" + Quoted(args) + "]";
    ArgsSet(args);
    ArgsIsOneLine(args, line);
    FirstLine("command = \"zg\"", line);
    CommandThenArgs(line);
  }

  lemma ArgsIsOneLine(args: seq<string>, line: string)
    requires line == "args = [" + Quoted(args) + "]"
    ensures Split(line) == [line]
  {
    ListHasNoNewline(args);
    OneLine(line);
  }

  lemma CommandThenArgs(line: string)
    ensures "command = \"zg\"\n" + line == "command = \"zg\"" + "\n" + line
  {
  }

  lemma UrlLines(url: string)
    ensures ServerTable([SERVER_TABLE] + Split(Settings(Http(url))), Http(url))
  {
    var line := "url = " + Quote(url) + "";
    QuotedSets("url = ", url, "", line);
    OneLine(line);
    assert Settings(Http(url)) == line;
  }

  lemma ServerTableLines(t: Transport) returns (lines: seq<string>)
    ensures lines == Split(ServerLines(t)) && ServerTable(lines, t)
  {
    ServerLinesAre(t);
    FirstLine(SERVER_TABLE, Settings(t));
    lines := [SERVER_TABLE] + Split(Settings(t));
    match t
    case Stdio(args) => ArgsLines(args);
    case Http(url) => UrlLines(url);
  }

  lemma LinesOfBlock(m: Markers, body: string)
    requires '\n' !in m.start && '\n' !in m.end
    ensures Split(MakeBlock(m, body)) == [m.start] + Split(body) + [m.end]
  {
    FirstLine(m.start, body);
    LinesOfSum(m.start + "\n" + body, m.end);
    OneLine(m.end);
  }

  /** The line that says where the token comes from, if there is one. */
  ghost predicate TokenLines(lines: seq<string>, tokenEnv: Option<string>) {
    if tokenEnv == None then lines == []
    else |lines| == 1 && Sets(lines[0], "bearer_token_env_var = ", tokenEnv.value, "")
  }

  lemma TokenSettingLines(server: string, tokenEnv: Option<string>) returns (token: seq<string>)
    ensures Split(server + TokenSetting(tokenEnv)) == Split(server) + token && TokenLines(token, tokenEnv)
  {
    token := [];
    if tokenEnv.Some? {
      var line := "bearer_token_env_var = " + Quote(tokenEnv.value) + "";
      QuotedSets("bearer_token_env_var = ", tokenEnv.value, "", line);
      LinesOfSum(server, line);
      NameHasNoNewline("bearer_token_env_var = ", Quote(tokenEnv.value), line);
      TokenBehind(server, Quote(tokenEnv.value), line);
      token := [line];
    } else {
      assert server + "" == server;
    }
  }

  lemma NameHasNoNewline(name: string, quoted: string, line: string)
    requires line == name + quoted + "" && '\n' !in name && '\n' !in quoted
    ensures Split(line) == [line]
  {
    OneLine(line);
  }

  lemma TokenBehind(server: string, quoted: string, line: string)
    requires line == "bearer_token_env_var = " + quoted + ""
    ensures server + ("\nbearer_token_env_var = " + quoted) == server + "\n" + line
  {
    assert "\nbearer_token_env_var = " == "\n" + "bearer_token_env_var = ";
  }

  lemma CodexMarkersHaveNoNewline()
    ensures '\n' !in CONFIG_START && '\n' !in CONFIG_END
  {
    ConfigStartIsMarker();
    ConfigEndIsMarker();
  }

  /** Codex is told the server's table and, with a token, where the token comes from. */
  lemma CodexBlockSays(o: InstallOptions) returns (table: seq<string>, token: seq<string>)
    ensures Split(CodexBlock(o)) == ["# ZVEC_GREP_START"] + (table + token) + ["# ZVEC_GREP_END"]
    ensures ServerTable(table, o.transport) && TokenLines(token, o.tokenEnv)
  {
    CodexMarkersHaveNoNewline();
    table := ServerTableLines(o.transport);
    token := TokenSettingLines(ServerLines(o.transport), o.tokenEnv);
    CodexBodyIs(o);
    LinesOfBlock(CONFIG, CodexBody(o));
  }

  lemma CodexBodyIs(o: InstallOptions)
    ensures CodexBody(o) == ServerLines(o.transport) + TokenSetting(o.tokenEnv)
  {
  }

  /** Grok's lines behind the table: a longer startup time for a command, the token in a header for an address. */
  ghost predicate GrokExtras(lines: seq<string>, o: InstallOptions) {
    if o.transport.Stdio? then
      && |lines| == 2 && lines[0] != "" && lines[0][0] == '#' && lines[1] == "startup_timeout_sec = 120"
    else if o.tokenEnv == None then lines == []
    else
      |lines| == 1 && Sets(lines[0], "headers = { Authorization = ", "Bearer ${" + o.tokenEnv.value + "}", " }")
  }

  lemma StartupLines(server: string)
    ensures Split(server + ("\n" + STARTUP_COMMENT + "\n" + STARTUP_TIMEOUT)) ==
      Split(server) + [STARTUP_COMMENT, STARTUP_TIMEOUT]
  {
    StartupIsOneLineEach();
    TwoMoreLines(server, STARTUP_COMMENT, STARTUP_TIMEOUT);
  }

  lemma TwoMoreLines(server: string, a: string, b: string)
    requires '\n' !in a && '\n' !in b
    ensures Split(server + ("\n" + a + "\n" + b)) == Split(server) + [a, b]
  {
    var rest := a + "\n" + b;
    assert server + ("\n" + a + "\n" + b) == server + "\n" + rest;
    LinesOfSum(server, rest);
    FirstLine(a, b);
    OneLine(b);
  }

  lemma StartupIsOneLineEach()
    ensures '\n' !in STARTUP_COMMENT && '\n' !in STARTUP_TIMEOUT && STARTUP_COMMENT != "" && STARTUP_COMMENT[0] == '#'
  {
    CommentHead();
    CommentTail();
  }

  lemma CommentHead()
    ensures '\n' !in COMMENT_HEAD && COMMENT_HEAD != "" && COMMENT_HEAD[0] == '#'
  {
  }

  lemma CommentTail()
    ensures '\n' !in COMMENT_BODY && '\n' !in COMMENT_TAIL && '\n' !in STARTUP_TIMEOUT
  {
  }

  lemma HeaderLine(server: string, env: string) returns (lines: seq<string>)
    ensures Split(server + HeaderSetting(env)) == Split(server) + lines
    ensures |lines| == 1 && Sets(lines[0], "headers = { Authorization = ", "Bearer ${" + env + "}", " }")
  {
    var name, value := "headers = { Authorization = ", "Bearer ${" + env + "}";
    var line := name + Quote(value) + " }";
    QuotedSets(name, value, " }", line);
    LinesOfSum(server, line);
    HeaderIsOneLine(name, Quote(value), line);
    HeaderBehind(server, Quote(value), line);
    lines := [line];
  }

  lemma HeaderBehind(server: string, quoted: string, line: string)
    requires line == "headers = { Authorization = " + quoted + " }"
    ensures server + ("\nheaders = { Authorization = " + quoted + " }") == server + "\n" + line
  {
    assert "\nheaders = { Authorization = " == "\n" + "headers = { Authorization = ";
  }

  lemma HeaderIsOneLine(name: string, quoted: string, line: string)
    requires line == name + quoted + " }" && '\n' !in name && '\n' !in quoted
    ensures Split(line) == [line]
  {
    OneLine(line);
  }

  function HeaderSetting(env: string): string {
    "\nheaders = { Authorization = " + Quote("Bearer ${" + env + "}") + " }"
  }

  /** Grok is told the server's table and the lines above. */
  lemma GrokBlockSays(o: InstallOptions) returns (table: seq<string>, extras: seq<string>)
    ensures Split(GrokBlock(o)) == ["# ZVEC_GREP_START"] + (table + extras) + ["# ZVEC_GREP_END"]
    ensures ServerTable(table, o.transport) && GrokExtras(extras, o)
  {
    CodexMarkersHaveNoNewline();
    table := ServerTableLines(o.transport);
    extras := GrokBodyLines(o, ServerLines(o.transport));
    LinesOfBlock(CONFIG, GrokBody(o));
  }

  lemma GrokBodyLines(o: InstallOptions, server: string) returns (extras: seq<string>)
    requires server == ServerLines(o.transport)
    ensures Split(GrokBody(o)) == Split(server) + extras && GrokExtras(extras, o)
  {
    extras := [];
    if o.transport.Stdio? {
      StartupLines(server);
      StartupIsOneLineEach();
      StartupBody(o, server);
      extras := [STARTUP_COMMENT, STARTUP_TIMEOUT];
    } else if o.tokenEnv.Some? {
      extras := HeaderLine(server, o.tokenEnv.value);
    } else {
      assert GrokBody(o) == server;
    }
  }

  lemma StartupBody(o: InstallOptions, server: string)
    requires o.transport.Stdio? && server == ServerLines(o.transport)
    ensures GrokBody(o) == server + ("\n" + STARTUP_COMMENT + "\n" + STARTUP_TIMEOUT)
  {
  }

  // ----- The permission table

  /** A line that begins a permission table, in any of the ways TOML has. */
  ghost predicate IsTableLine(line: string) {
    || BeginsWith(line, "[permission]") || BeginsWith(line, "[permission.")
    || BeginsWith(line, "permission =") || BeginsWith(line, "permission.")
  }

  lemma PermissionLineExactly(line: string)
    ensures IsPermissionLine(line) <==> IsTableLine(line)
  {
    TrimmedStartExactly(line, "[permission]");
    TrimmedStartExactly(line, "[permission.");
    TrimmedStartExactly(line, "permission =");
    TrimmedStartExactly(line, "permission.");
  }

  ghost predicate OwnsTable(text: string) {
    exists i :: 0 <= i < |Split(text)| && IsTableLine(Split(text)[i])
  }

  lemma OwnsTableExactly(text: string)
    ensures HasPermissionTable(text) <==> OwnsTable(text)
  {
    if i :| 0 <= i < |Split(text)| && IsPermissionLine(Split(text)[i]) {
      PermissionLineExactly(Split(text)[i]);
    }
    if i :| 0 <= i < |Split(text)| && IsTableLine(Split(text)[i]) {
      PermissionLineExactly(Split(text)[i]);
    }
  }

  /** Once Grok's server is in, its permission block replaces an old one; without an old one it is appended exactly
      when no line of the file begins a permission table. */
  lemma GrokPermissionExactly(text: string, o: InstallOptions)
    requires InstallGrok(text, o).Written?
    ensures
      var next := PutBlock(text, CONFIG, GrokBlock(o));
      var had := HasBlock(next, "# ZVEC_GREP_PERMISSION_START", "# ZVEC_GREP_PERMISSION_END");
      && (had ==> ReplaceBlock(next, PERMISSION, PermissionBlock()) == Some(InstallGrok(text, o).text))
      && (!had && OwnsTable(next) ==> InstallGrok(text, o).text == next)
      && (!had && !OwnsTable(next) ==> InstallGrok(text, o).text == LineEnded(next) + PermissionBlock() + "\n")
  {
    var next := PutBlock(text, CONFIG, GrokBlock(o));
    HasBlockExactly(next, PERMISSION);
    OwnsTableExactly(next);
    GrokTextIs(text, o, next);
  }

  lemma GrokTextIs(text: string, o: InstallOptions, next: string)
    requires next == PutBlock(text, CONFIG, GrokBlock(o))
    ensures GrokText(text, o) ==
      if BlockSpan(next, PERMISSION).Some? || !HasPermissionTable(next) then
        PutBlock(next, PERMISSION, PermissionBlock())
      else next
  {
  }

  lemma PermissionLinesAre()
    ensures Split(PermissionBlock()) ==
      ["# ZVEC_GREP_PERMISSION_START", "[permission]", "allow = [\"MCPTool(zvec_grep__*)\"]",
       "# ZVEC_GREP_PERMISSION_END"]
  {
    PermissionStartIsMarker();
    PermissionEndIsMarker();
    LinesOfBlock(PERMISSION, PERMISSION_BODY);
    PermissionBodyIs();
    FirstLine("[permission]", ALLOWED_HEAD + ALLOWED_TAIL);
    OneLine(ALLOWED_HEAD + ALLOWED_TAIL);
    AllowedIs();
  }

  lemma PermissionBodyIs()
    ensures PERMISSION_BODY == "[permission]" + "\n" + (ALLOWED_HEAD + ALLOWED_TAIL)
    ensures '\n' !in ALLOWED_HEAD + ALLOWED_TAIL
  {
  }

  lemma AllowedIs()
    ensures ALLOWED_HEAD + ALLOWED_TAIL == "allow = [\"MCPTool(zvec_grep__*)\"]"
  {
  }

  lemma NotTableLine(line: string)
    requires line == "" || (!IsWhitespace(line[0]) && line[0] != '[' && line[0] != 'p')
    ensures !IsTableLine(line)
  {
    NotBegun(line, "[permission]");
    NotBegun(line, "[permission.");
    NotBegun(line, "permission =");
    NotBegun(line, "permission.");
  }

  lemma NotBegun(line: string, marker: string)
    requires marker != "" && (line == "" || (!IsWhitespace(line[0]) && line[0] != marker[0]))
    ensures !BeginsWith(line, marker)
  {
    forall k: nat ensures !MarkerAt(line, marker, k) {
      if k == 0 && line != "" {
        assert line[k + 0] != marker[0];
      }
    }
  }

  /** Of the lines the permission block adds, the second begins a permission table and no other does. */
  lemma BlockLinesBeginOneTable()
    ensures Split(PermissionBlock() + "\n") == Split(PermissionBlock()) + [""]
    ensures |Split(PermissionBlock())| == 4 && Split(PermissionBlock())[1] == "[permission]"
    ensures forall k :: 0 <= k < 5 ==> (IsTableLine(Split(PermissionBlock() + "\n")[k]) <==> k == 1)
  {
    var lines := Split(PermissionBlock() + "\n");
    PermissionLinesAre();
    LinesOfSum(PermissionBlock(), "");
    assert PermissionBlock() + "\n" + "" == PermissionBlock() + "\n";
    NotTableLine(lines[0]);
    NotTableLine(lines[2]);
    NotTableLine(lines[3]);
    NotTableLine(lines[4]);
    TableBeginsTable();
  }

  lemma TableBeginsTable()
    ensures IsTableLine("[permission]")
  {
    assert MarkerAt("[permission]", "[permission]", 0);
  }

  /** The lines before an appended block. */
  lemma LinesBeforeAppended(text: string, tail: string) returns (before: seq<string>)
    ensures Split(LineEnded(text) + tail) == before + Split(tail)
    ensures forall k :: 0 <= k < |before| ==> before[k] in Split(text)
  {
    if text == "" {
      before := [];
      assert LineEnded(text) + tail == tail;
    } else if text[|text| - 1] == '\n' {
      var a := text[..|text| - 1];
      before := Split(a);
      assert text == a + "\n" + "";
      LinesOfSum(a, "");
      LinesOfSum(a, tail);
      assert LineEnded(text) + tail == a + "\n" + tail;
    } else {
      before := Split(text);
      LinesOfSum(text, tail);
    }
  }

  /** So a file that had no permission table gets exactly one, and one that had a table keeps what it had. */
  lemma PermissionTableStandsOnce(text: string, o: InstallOptions) returns (i: nat)
    requires InstallGrok(text, o).Written?
    requires
      var next := PutBlock(text, CONFIG, GrokBlock(o));
      && !HasBlock(next, "# ZVEC_GREP_PERMISSION_START", "# ZVEC_GREP_PERMISSION_END") && !OwnsTable(next)
    ensures
      var lines := Split(InstallGrok(text, o).text);
      && i < |lines| && lines[i] == "[permission]"
      && forall k :: 0 <= k < |lines| ==> (IsTableLine(lines[k]) <==> k == i)
  {
    var next := PutBlock(text, CONFIG, GrokBlock(o));
    GrokPermissionExactly(text, o);
    i := AppendedTable(next, InstallGrok(text, o).text);
  }

  lemma AppendedTable(next: string, done: string) returns (i: nat)
    requires !OwnsTable(next) && done == LineEnded(next) + PermissionBlock() + "\n"
    ensures
      var lines := Split(done);
      && i < |lines| && lines[i] == "[permission]"
      && forall k :: 0 <= k < |lines| ==> (IsTableLine(lines[k]) <==> k == i)
  {
    var tail := PermissionBlock() + "\n";
    assert done == LineEnded(next) + tail;
    var before := LinesBeforeAppended(next, tail);
    BlockLinesBeginOneTable();
    i := |before| + 1;
    TableAmong(Split(next), before, Split(tail), Split(done));
  }

  lemma TableAmong(owned: seq<string>, before: seq<string>, added: seq<string>, lines: seq<string>)
    requires lines == before + added && |added| == 5
    requires forall k :: 0 <= k < |before| ==> before[k] in owned
    requires forall k :: 0 <= k < |owned| ==> !IsTableLine(owned[k])
    requires forall k :: 0 <= k < 5 ==> (IsTableLine(added[k]) <==> k == 1)
    ensures forall k :: 0 <= k < |lines| ==> (IsTableLine(lines[k]) <==> k == |before| + 1)
  {
    forall k | 0 <= k < |lines| ensures IsTableLine(lines[k]) <==> k == |before| + 1 {
      if k < |before| {
        assert lines[k] == before[k];
      } else {
        assert lines[k] == added[k - |before|];
      }
    }
  }
}
