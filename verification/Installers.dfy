/** Installing and uninstalling the managed server entry of Codex and Grok, on the text of their configuration. */
module Installers {
  import opened Options
  import opened Texts
  import opened MarkedBlocks
  import opened BlockPairs
  import opened TomlStrings

  datatype Transport = Stdio(args: seq<string>) | Http(url: string)

  datatype InstallOptions = InstallOptions(transport: Transport, tokenEnv: Option<string>, force: bool)

  datatype Outcome = Written(text: string) | Refused

  // ----- The blocks

  function Quoted(values: seq<string>): string {
    if values == [] then ""
    else if |values| == 1 then Quote(values[0])
    else Quoted(values[..|values| - 1]) + ", " + Quote(values[|values| - 1])
  }

  function ServerLines(t: Transport): string {
    "[mcp_servers.zvec_grep]\n" +
    match t
    case Stdio(args) => "command = \"zg\"\nargs = [" + Quoted(args) + "]"
    case Http(url) => "url = " + Quote(url)
  }

  function CodexBody(o: InstallOptions): string {
    ServerLines(o.transport) +
    if o.tokenEnv.Some? then "\nbearer_token_env_var = " + Quote(o.tokenEnv.value) else ""
  }

  const COMMENT_HEAD := "# First-run daemon and local-model "
  const COMMENT_BODY := "warmup can exceed Grok's "
  const COMMENT_TAIL := "30s startup default."
  const STARTUP_COMMENT := COMMENT_HEAD + COMMENT_BODY + COMMENT_TAIL
  const STARTUP_TIMEOUT := "startup_timeout_sec = 120"

  function GrokBody(o: InstallOptions): string {
    ServerLines(o.transport) +
    if o.transport.Stdio? then "\n" + STARTUP_COMMENT + "\n" + STARTUP_TIMEOUT
    else if o.tokenEnv.Some? then "\nheaders = { Authorization = " + Quote("Bearer ${" + o.tokenEnv.value + "}") + " }"
    else ""
  }

  function CodexBlock(o: InstallOptions): string {
    MakeBlock(CONFIG, CodexBody(o))
  }

  function GrokBlock(o: InstallOptions): string {
    MakeBlock(CONFIG, GrokBody(o))
  }

  const PERMISSION_TABLE := "[permission]\n"
  const ALLOWED_HEAD := "allow = [\"MCPTool"
  const ALLOWED_TAIL := "(zvec_grep__*)\"]"
  const PERMISSION_BODY := PERMISSION_TABLE + ALLOWED_HEAD + ALLOWED_TAIL

  function PermissionBlock(): string {
    MakeBlock(PERMISSION, PERMISSION_BODY)
  }

  // ----- Codex

  function Install(text: string, block: string, force: bool): Outcome {
    if BlockSpan(text, CONFIG) == None && Contains(text, SERVER_TABLE) && !force then Refused
    else Written(PutBlock(text, CONFIG, block))
  }

  function InstallCodex(text: string, o: InstallOptions): Outcome {
    Install(text, CodexBlock(o), o.force)
  }

  function UninstallCodex(text: string): string {
    RemoveBlock(text, CONFIG)
  }

  // ----- The markers are told apart

  predicate HashFree(s: string) {
    '#' !in s
  }

  /** A comment line: one hash, in front. */
  predicate IsMarker(s: string) {
    s != "" && s[0] == '#' && '\n' !in s && forall k :: 0 < k < |s| ==> s[k] != '#'
  }

  lemma ConfigStartIsMarker()
    ensures IsMarker(CONFIG_START) && |CONFIG_START| == 17 && CONFIG_START[12] == 'S'
  {
  }

  lemma ConfigEndIsMarker()
    ensures IsMarker(CONFIG_END) && |CONFIG_END| == 15 && CONFIG_END[12] == 'E'
  {
  }

  lemma PermissionStartIsMarker()
    ensures IsMarker(PERMISSION_START) && |PERMISSION_START| == 28
    ensures PERMISSION_START[12] == 'P' && PERMISSION_START[23] == 'S'
  {
  }

  lemma PermissionEndIsMarker()
    ensures IsMarker(PERMISSION_END) && |PERMISSION_END| == 26
    ensures PERMISSION_END[12] == 'P' && PERMISSION_END[23] == 'E'
  {
  }

  /** Markers that differ somewhere do not contain one another. */
  lemma MarkersDiffer(a: string, b: string, at: nat)
    requires IsMarker(a) && IsMarker(b) && at < |a| && at < |b| && a[at] != b[at]
    ensures !Contains(a, b)
  {
    forall j: nat ensures !OccursAt(a, j, b) {
      if j > 0 {
        WrongFirst(a, b, j);
      }
    }
  }

  /** The only hashes of a block around a hash-free body are those of its markers. */
  lemma HashesInBlock(m: Markers, body: string, j: nat)
    requires IsMarker(m.start) && IsMarker(m.end) && HashFree(body)
    requires 0 < j < |MakeBlock(m, body)| && j != |MakeBlock(m, body)| - |m.end|
    ensures MakeBlock(m, body)[j] != '#'
  {
    var block, first, second := MakeBlock(m, body), |m.start|, |m.start| + 1 + |body|;
    assert block == m.start + "\n" + body + "\n" + m.end;
    if j < first {
      assert block[j] == m.start[j];
    } else if first < j < second {
      assert block[j] == body[j - first - 1];
    } else if j > second {
      assert block[j] == m.end[j - second - 1];
    }
  }

  lemma BlockLacks(m: Markers, body: string, other: string, at: nat)
    requires IsMarker(m.start) && IsMarker(m.end) && HashFree(body) && IsMarker(other)
    requires at < |m.start| && at < |m.end| && at < |other| && other[at] != m.start[at] && other[at] != m.end[at]
    ensures !Contains(MakeBlock(m, body), other)
  {
    var block := MakeBlock(m, body);
    var endAt := |block| - |m.end|;
    MarkersInBlock(m, body);
    forall j: nat ensures !OccursAt(block, j, other) {
      if j == 0 {
        assert block[0 + at] == m.start[at];
      } else if j == endAt {
        assert block[endAt + at] == m.end[at];
      } else {
        if j < |block| {
          HashesInBlock(m, body, j);
        }
        WrongFirst(block, other, j);
      }
    }
  }

  lemma ConfigMarkersAreApart()
    ensures LineMarkers(CONFIG) && !Contains(CONFIG_START, CONFIG_END)
  {
    ConfigStartIsMarker();
    ConfigEndIsMarker();
    MarkersDiffer(CONFIG_START, CONFIG_END, 12);
  }

  // ----- Codex, twice and undone

  /** Once a block is in, installing again with the same options leaves the file as it is; this holds exactly when
      no option value smuggles the end marker into the block. */
  lemma CodexTwiceExactly(text: string, o: InstallOptions, force: bool)
    requires WellMarked(text, CONFIG) && InstallCodex(text, o).Written?
    ensures InstallCodex(InstallCodex(text, o).text, o.(force := force)) == InstallCodex(text, o) <==>
      !Contains(CodexBody(o), CONFIG_END)
  {
    ConfigMarkersAreApart();
    PutMadeBlockTwiceExactly(text, CONFIG, CodexBody(o));
    PutIsThere(text, CONFIG, CodexBody(o));
  }

  /** Installing with other options leaves nothing of the first ones behind. */
  lemma CodexReinstallForgets(text: string, first: InstallOptions, second: InstallOptions)
    requires WellMarked(text, CONFIG) && !Contains(CodexBody(first), CONFIG_END)
    requires InstallCodex(text, first).Written?
    ensures InstallCodex(InstallCodex(text, first).text, second) == InstallCodex(text, second.(force := true))
  {
    ConfigMarkersAreApart();
    BlockIsProperExactly(CONFIG, CodexBody(first));
    PutForgets(text, CONFIG, CodexBlock(first), CodexBlock(second));
    PutIsThere(text, CONFIG, CodexBody(first));
  }

  /** Uninstalling gives back the text as it was before the install, with its last line ended, exactly when that text
      had no start marker. */
  lemma CodexUninstallRestoresExactly(text: string, o: InstallOptions)
    requires !Contains(CodexBody(o), CONFIG_END) && InstallCodex(text, o).Written?
    ensures UninstallCodex(InstallCodex(text, o).text) == LineEnded(text) <==> !Contains(text, CONFIG_START)
  {
    ConfigMarkersAreApart();
    BlockIsProperExactly(CONFIG, CodexBody(o));
    RemoveRestoresExactly(text, CONFIG, CodexBlock(o));
  }

  // ----- Grok

  predicate IsPermissionLine(line: string) {
    var trimmed := Trim(line);
    || StartsWith(trimmed, "[permission]") || StartsWith(trimmed, "[permission.")
    || StartsWith(trimmed, "permission =") || StartsWith(trimmed, "permission.")
  }

  predicate HasPermissionTable(text: string) {
    exists i :: 0 <= i < |Split(text)| && IsPermissionLine(Split(text)[i])
  }

  /** The server block, then the permission block unless the user owns a permission table already. */
  function GrokText(text: string, o: InstallOptions): string {
    PutTwo(text, CONFIG, GrokBlock(o), PERMISSION, PermissionBlock(), HasPermissionTable)
  }

  function InstallGrok(text: string, o: InstallOptions): Outcome {
    if BlockSpan(text, CONFIG) == None && Contains(text, SERVER_TABLE) && !o.force then Refused
    else Written(GrokText(text, o))
  }

  function UninstallGrok(text: string): string {
    RemoveTwo(text, CONFIG, PERMISSION)
  }

  lemma HashFreeSum(a: string, b: string)
    requires HashFree(a) && HashFree(b)
    ensures HashFree(a + b)
  {
  }

  lemma HashFreeHasNoMarker(s: string, marker: string)
    requires HashFree(s) && IsMarker(marker)
    ensures !Contains(s, marker)
  {
    forall j: nat ensures !OccursAt(s, j, marker) {
      WrongFirst(s, marker, j);
    }
  }

  lemma TableIsHashFree()
    ensures HashFree(PERMISSION_TABLE)
  {
  }

  lemma AllowedIsHashFree()
    ensures HashFree(ALLOWED_HEAD) && HashFree(ALLOWED_TAIL)
  {
  }

  lemma PermissionBodyIsHashFree()
    ensures HashFree(PERMISSION_BODY)
  {
    TableIsHashFree();
    AllowedIsHashFree();
    HashFreeSum(PERMISSION_TABLE, ALLOWED_HEAD);
    HashFreeSum(PERMISSION_TABLE + ALLOWED_HEAD, ALLOWED_TAIL);
  }

  lemma PermissionMarkersAreApart()
    ensures LineMarkers(PERMISSION) && !Contains(PERMISSION_START, PERMISSION_END)
  {
    PermissionStartIsMarker();
    PermissionEndIsMarker();
    MarkersDiffer(PERMISSION_START, PERMISSION_END, 23);
  }

  lemma StartsDiffer()
    ensures !Contains(PERMISSION_START, CONFIG_START)
  {
    PermissionStartIsMarker();
    ConfigStartIsMarker();
    MarkersDiffer(PERMISSION_START, CONFIG_START, 12);
  }

  lemma PermissionBlockHasNoConfigStart()
    ensures !Contains(PermissionBlock(), CONFIG_START)
  {
    PermissionStartIsMarker();
    PermissionEndIsMarker();
    ConfigStartIsMarker();
    PermissionBodyIsHashFree();
    BlockLacks(PERMISSION, PERMISSION_BODY, CONFIG_START, 12);
  }

  lemma ConfigStartHasNoPermissionStart()
    ensures !Contains(CONFIG_START, PERMISSION_START)
  {
    PermissionStartIsMarker();
    ConfigStartIsMarker();
    MarkersDiffer(CONFIG_START, PERMISSION_START, 12);
  }

  lemma PermissionBlockIsProper()
    ensures IsBlock(PermissionBlock(), PERMISSION)
  {
    PermissionMarkersAreApart();
    PermissionEndIsMarker();
    PermissionBodyIsHashFree();
    HashFreeHasNoMarker(PERMISSION_BODY, PERMISSION_END);
    BlockIsProperExactly(PERMISSION, PERMISSION_BODY);
  }

  lemma GrokBlocksFit(o: InstallOptions)
    requires !Contains(GrokBody(o), CONFIG_END) && !Contains(GrokBlock(o), PERMISSION_START)
    ensures FitTogether(CONFIG, GrokBlock(o), PERMISSION, PermissionBlock())
  {
    ConfigMarkersAreApart();
    PermissionMarkersAreApart();
    StartsDiffer();
    ConfigStartHasNoPermissionStart();
    PermissionBlockHasNoConfigStart();
    PermissionBlockIsProper();
    BlockIsProperExactly(CONFIG, GrokBody(o));
  }

  ghost predicate GrokReady(text: string, o: InstallOptions) {
    && Apart(text, CONFIG, PERMISSION)
    && !Contains(GrokBody(o), CONFIG_END) && !Contains(GrokBlock(o), PERMISSION_START)
  }

  lemma GrokTextTwice(text: string, o: InstallOptions)
    requires GrokReady(text, o)
    ensures GrokText(GrokText(text, o), o) == GrokText(text, o) && BlockSpan(GrokText(text, o), CONFIG).Some?
  {
    GrokBlocksFit(o);
    PutTwoTwice(text, CONFIG, GrokBlock(o), PERMISSION, PermissionBlock(), HasPermissionTable);
  }

  lemma GrokWritesOverItsBlock(text: string, o: InstallOptions, force: bool)
    requires BlockSpan(text, CONFIG).Some?
    ensures InstallGrok(text, o.(force := force)) == Written(GrokText(text, o))
  {
  }

  lemma GrokRestores(text: string, o: InstallOptions)
    requires GrokReady(text, o) && StartsLine(text, PERMISSION)
    ensures SameSaveNewline(UninstallGrok(GrokText(text, o)), UninstallGrok(text))
    ensures BlockSpan(text, CONFIG) == None && BlockSpan(text, PERMISSION) == None ==>
      UninstallGrok(GrokText(text, o)) == LineEnded(text)
  {
    GrokBlocksFit(o);
    PutTwoThenRemove(text, CONFIG, GrokBlock(o), PERMISSION, PermissionBlock(), HasPermissionTable);
  }

  /** Installing for Grok twice is installing once, also over blocks of an earlier install: in every file whose markers
      are paired and whose blocks do not overlap, when the option values mention no marker. Uninstalling then leaves
      what uninstalling before would have left, save for a newline at its end. */
  lemma GrokInstallsOnceAndRestores(text: string, o: InstallOptions, force: bool)
    requires Apart(text, CONFIG, PERMISSION) && InstallGrok(text, o).Written?
    requires !Contains(GrokBody(o), CONFIG_END) && !Contains(GrokBlock(o), PERMISSION_START)
    ensures InstallGrok(InstallGrok(text, o).text, o.(force := force)) == InstallGrok(text, o)
    ensures StartsLine(text, PERMISSION) ==>
      SameSaveNewline(UninstallGrok(InstallGrok(text, o).text), UninstallGrok(text))
    ensures BlockSpan(text, CONFIG) == None && BlockSpan(text, PERMISSION) == None ==>
      UninstallGrok(InstallGrok(text, o).text) == LineEnded(text)
  {
    GrokTextTwice(text, o);
    GrokWritesOverItsBlock(GrokText(text, o), o, force);
    if StartsLine(text, PERMISSION) {
      GrokRestores(text, o);
    }
  }

  // ----- The edits as they are made

  /** Builds the text in steps: the old text, a newline where one is missing, the block, a newline. */
  method PushBlock(existing: string, block: string) returns (next: string)
    ensures next == Append(existing, block)
  {
    next := existing;
    if next != "" && next[|next| - 1] != '\n' {
      next := next + "\n";
    }
    next := next + block;
    next := next + "\n";
  }

  method InstallCodexText(existing: string, o: InstallOptions) returns (outcome: Outcome)
    ensures outcome == InstallCodex(existing, o)
  {
    var block := CodexBlock(o);
    var replaced := ReplaceBlock(existing, CONFIG, block);
    if replaced.Some? {
      return Written(replaced.value);
    }
    if Contains(existing, SERVER_TABLE) && !o.force {
      return Refused;
    }
    var next := PushBlock(existing, block);
    outcome := Written(next);
  }

  /** One block: in the place of the old one, or at the end. */
  method Put(existing: string, m: Markers, block: string) returns (next: string)
    ensures next == PutBlock(existing, m, block)
  {
    var replaced := ReplaceBlock(existing, m, block);
    if replaced.Some? {
      return replaced.value;
    }
    next := PushBlock(existing, block);
  }

  method PutBoth(existing: string, m1: Markers, b1: string, m2: Markers, b2: string, owns: string -> bool)
    returns (next: string)
    ensures next == PutTwo(existing, m1, b1, m2, b2, owns)
  {
    next := Put(existing, m1, b1);
    if BlockSpan(next, m2).Some? || !owns(next) {
      next := Put(next, m2, b2);
    }
  }

  method InstallGrokText(existing: string, o: InstallOptions) returns (outcome: Outcome)
    ensures outcome == InstallGrok(existing, o)
  {
    if BlockSpan(existing, CONFIG) == None && Contains(existing, SERVER_TABLE) && !o.force {
      return Refused;
    }
    var next := PutBoth(existing, CONFIG, GrokBlock(o), PERMISSION, PermissionBlock(), HasPermissionTable);
    outcome := Written(next);
  }
}
