/** The message generator: the fixed wording of announcements. Todo
    completions in the past tense, read and edit announcements built from
    the file name, the session's task summary, the contextual message for
    a hook, the sound-mapping fallback, approval requests, and the
    personalised acknowledgment and completion. The configured personality
    and nickname are a `Voice`; every random pick among configured
    templates is a parameter. */
module Messages {
  import opened Prelude
  import opened Text
  import opened Paths
  import opened StateStore

  // ---------------------------------------------------------------------
  // Configuration
  // ---------------------------------------------------------------------

  /** The three personalities; any configured name other than "butler" or
      "casual" (the default is "friendly_professional") behaves as the
      friendly one. */
  datatype Personality = Butler | Casual | Friendly

  function PersonalityOf(name: string): (p: Personality)
    ensures p == Butler <==> name == "butler"
    ensures p == Casual <==> name == "casual"
  {
    if name == "butler" then Butler else if name == "casual" then Casual else Friendly
  }

  /** `voice_settings.personality` and `voice_settings.user_nickname`. */
  datatype Voice = Voice(personality: Personality, nickname: Option<string>)

  /** `a + b + c` contains `b`. */
  lemma ContainsMiddle(a: string, b: string, c: string)
    ensures Contains(a + b + c, b)
  {
    assert (a + b + c)[|a|..|a| + |b|] == b;
    assert OccursAt(a + b + c, b, |a|);
  }

  // ---------------------------------------------------------------------
  // Tool action phrases
  // ---------------------------------------------------------------------

  /** `tool_action_phrases`: the short phrase announced before a tool
      runs; the todo tool and leaving plan mode have the empty phrase. */
  function ToolActionPhrase(tool: string): (r: Option<string>)
    ensures r == Some("") <==> tool == "TodoWrite" || tool == "ExitPlanMode"
  {
    match tool
    case "Read" => Some("Reading")
    case "NotebookRead" => Some("Reading notebook")
    case "Edit" => Some("Editing")
    case "MultiEdit" => Some("Editing")
    case "Write" => Some("Writing")
    case "NotebookEdit" => Some("Editing notebook")
    case "Grep" => Some("Searching")
    case "Glob" => Some("Finding files")
    case "LS" => Some("Listing")
    case "Bash" => Some("Running")
    case "Task" => Some("Starting task")
    case "WebFetch" => Some("Fetching")
    case "WebSearch" => Some("Searching")
    case "TodoWrite" => Some("")
    case "ExitPlanMode" => Some("")
    case _ => None
  }

  predicate HasActionPhrase(tool: string) {
    ToolActionPhrase(tool).Some?
  }

  // ---------------------------------------------------------------------
  // Todo completions
  // ---------------------------------------------------------------------

  const VerbCount := 7

  /** The task verbs recognised at the start of a todo, lower case. */
  function Verb(k: nat): string
    requires k < VerbCount
  {
    match k
    case 0 => "add"
    case 1 => "modify"
    case 2 => "update"
    case 3 => "create"
    case 4 => "fix"
    case 5 => "test"
    case _ => "examine"
  }

  /** Their past tenses. */
  function Past(k: nat): string
    requires k < VerbCount
  {
    match k
    case 0 => "Added"
    case 1 => "Modified"
    case 2 => "Updated"
    case 3 => "Created"
    case 4 => "Fixed"
    case 5 => "Tested"
    case _ => "Examined"
  }

  /** The first verb, from `k` on, that followed by a space begins `low`. */
  function MatchedVerb(low: string, k: nat): (r: Option<nat>)
    requires k <= VerbCount
    ensures r.Some? ==> k <= r.value < VerbCount && Verb(r.value) + " " <= low
    ensures r.Some? ==> forall j :: k <= j < r.value ==> !(Verb(j) + " " <= low)
    ensures r.None? ==> forall j :: k <= j < VerbCount ==> !(Verb(j) + " " <= low)
    decreases VerbCount - k
  {
    if k == VerbCount then None
    else if Verb(k) + " " <= low then Some(k)
    else MatchedVerb(low, k + 1)
  }

  /** Python `format_todo_completion`: a task starting, in any case, with
      one of the verbs and a space is said in the past tense with the rest
      of the task as written; anything else is "Completed: " and the task. */
  function FormatTodoCompletion(task: string): (r: string)
    ensures MatchedVerb(Lower(task), 0).None? ==> r == "Completed: " + task
    ensures MatchedVerb(Lower(task), 0).Some? ==>
              var k := MatchedVerb(Lower(task), 0).value;
              r == Past(k) + " " + task[|Verb(k)| + 1..]
  {
    match MatchedVerb(Lower(task), 0)
    case Some(k) => Past(k) + " " + task[|Verb(k)| + 1..]
    case None => "Completed: " + task
  }

  /** The verbs start with different letters, so at most one matches. */
  lemma VerbsDistinct(low: string, j: nat, k: nat)
    requires j < VerbCount && k < VerbCount && j != k
    requires Verb(k) + " " <= low
    ensures !(Verb(j) + " " <= low)
  {
    assert low[0] == Verb(k)[0];
  }

  /** A task whose head reads, ignoring case, as verb `k` and a space is
      announced as the past tense followed by the untouched remainder. */
  lemma TodoInPastTense(k: nat, head: string, rest: string)
    requires k < VerbCount && Lower(head) == Verb(k) + " "
    ensures FormatTodoCompletion(head + rest) == Past(k) + " " + rest
  {
    var task := head + rest;
    var low := Lower(task);
    assert low[..|head|] == Lower(head);
    assert Verb(k) + " " <= low;
    forall j | 0 <= j < k
      ensures !(Verb(j) + " " <= low)
    {
      VerbsDistinct(low, j, k);
    }
    assert MatchedVerb(low, k) == Some(k);
    MatchedFrom(low, 0, k);
    assert task[|head|..] == rest;
  }

  /** When no verb before `k` matches, the search from 0 agrees with the
      search from `k`. */
  lemma {:induction false} MatchedFrom(low: string, i: nat, k: nat)
    requires i <= k <= VerbCount
    requires forall j :: i <= j < k ==> !(Verb(j) + " " <= low)
    ensures MatchedVerb(low, i) == MatchedVerb(low, k)
    decreases k - i
  {
    if i < k {
      MatchedFrom(low, i + 1, k);
    }
  }

  /** "Fix the parser" is announced as "Fixed the parser". */
  lemma FixedExample()
    ensures FormatTodoCompletion("Fix the parser") == "Fixed the parser"
  {
    LowerFix();
    PastTenseExample(4, "Fix ", "the parser", "Fix the parser", "Fixed the parser");
  }

  /** "ADD tests" is announced as "Added tests": the verb is matched in any
      case. */
  lemma AddedExample()
    ensures FormatTodoCompletion("ADD tests") == "Added tests"
  {
    LowerAdd();
    PastTenseExample(0, "ADD ", "tests", "ADD tests", "Added tests");
  }

  lemma LowerFix()
    ensures Lower("Fix ") == Verb(4) + " "
  {
    var l := Lower("Fix ");
    assert l[0] == 'f' && l[1] == 'i' && l[2] == 'x' && l[3] == ' ';
  }

  lemma LowerAdd()
    ensures Lower("ADD ") == Verb(0) + " "
  {
    var l := Lower("ADD ");
    assert l[0] == 'a' && l[1] == 'd' && l[2] == 'd' && l[3] == ' ';
  }

  /** A concrete task and announcement that `TodoInPastTense` connects. */
  lemma PastTenseExample(k: nat, head: string, rest: string, task: string, said: string)
    requires k < VerbCount && Lower(head) == Verb(k) + " "
    requires task == head + rest && said == Past(k) + " " + rest
    ensures FormatTodoCompletion(task) == said
  {
    TodoInPastTense(k, head, rest);
  }

  // ---------------------------------------------------------------------
  // Read and edit announcements
  // ---------------------------------------------------------------------

  /** Extensions of programming languages, for which the file type is left
      to the speech normaliser and only the stem is announced. */
  predicate IsProgrammingExtension(e: string) {
    e in {"py", "js", "ts", "jsx", "tsx", "java", "cpp", "c", "go", "rs", "rb", "php", "swift", "kt", "scala"}
  }

  /** Python `format_read_announcement`: "Reading " and the stem for a
      programming file, the whole name otherwise. What follows "Reading "
      is always a prefix of the file name. */
  function FormatReadAnnouncement(path: string): (r: string)
    ensures "Reading " <= r && r[8..] <= Name(path)
    ensures !IsProgrammingExtension(Extension(Name(path))) ==> r == "Reading " + Name(path)
  {
    var name := Name(path);
    StemSuffix(name);
    if IsProgrammingExtension(Extension(name)) then "Reading " + Stem(name) else "Reading " + name
  }

  /** "dir/stem.ext" with a programming extension is announced by its stem. */
  lemma ReadProgrammingFile(d: string, stem: string, ext: string)
    requires IsComponent(stem + "." + ext) && stem != [] && '.' !in ext && ext != []
    requires IsProgrammingExtension(Lower(ext))
    ensures FormatReadAnnouncement(d + "/" + stem + "." + ext) == "Reading " + stem
  {
    assert d + "/" + stem + "." + ext == d + "/" + (stem + "." + ext);
    NameOfJoin(d, stem + "." + ext);
    SplitExtension(stem, ext);
    assert ("." + ext)[1..] == ext;
  }

  /** `file_type_map`: a spoken file type per extension. */
  function FileType(e: string): Option<string> {
    match e
    case "py" => Some("Python file")
    case "js" => Some("JavaScript file")
    case "json" => Some("JSON file")
    case "md" => Some("markdown file")
    case "txt" => Some("text file")
    case "yaml" => Some("YAML file")
    case "yml" => Some("YAML file")
    case "tsx" => Some("TypeScript file")
    case "ts" => Some("TypeScript file")
    case "jsx" => Some("React file")
    case "vue" => Some("Vue file")
    case "html" => Some("HTML file")
    case "css" => Some("CSS file")
    case "scss" => Some("SASS file")
    case "sh" => Some("shell script")
    case "bash" => Some("bash script")
    case "xml" => Some("XML file")
    case "toml" => Some("TOML file")
    case "ini" => Some("config file")
    case "cfg" => Some("config file")
    case "env" => Some("environment file")
    case "gitignore" => Some("gitignore")
    case "dockerfile" => Some("Dockerfile")
    case "makefile" => Some("Makefile")
    case "rs" => Some("Rust file")
    case "go" => Some("Go file")
    case "java" => Some("Java file")
    case "c" => Some("C file")
    case "cpp" => Some("C++ file")
    case "h" => Some("header file")
    case "hpp" => Some("C++ header")
    case "rb" => Some("Ruby file")
    case "php" => Some("PHP file")
    case "sql" => Some("SQL file")
    case "r" => Some("R file")
    case "swift" => Some("Swift file")
    case "kt" => Some("Kotlin file")
    case "scala" => Some("Scala file")
    case "lua" => Some("Lua file")
    case "pl" => Some("Perl file")
    case _ => None
  }

  /** The spoken type of an extension: the mapped one, or the extension
      followed by " file". */
  function SpokenType(e: string): (t: string)
    ensures FileType(e).None? ==> t == e + " file"
  {
    FileType(e).GetOr(e + " file")
  }

  /** Python `format_edit_announcement`: with an extension, "Editing ",
      the spoken type and the stem; without one, "Editing " and the name. */
  function FormatEditAnnouncement(path: string): (r: string)
    ensures Extension(Name(path)) == [] ==> r == "Editing " + Name(path)
    ensures Extension(Name(path)) != [] ==>
              r == "Editing " + SpokenType(Extension(Name(path))) + " " + Stem(Name(path))
  {
    var name := Name(path);
    var e := Extension(name);
    if e != [] then "Editing " + SpokenType(e) + " " + Stem(name) else "Editing " + name
  }

  /** "dir/stem.ext" is announced by its spoken type and its stem. */
  lemma EditFile(d: string, stem: string, ext: string)
    requires IsComponent(stem + "." + ext) && stem != [] && '.' !in ext && ext != []
    ensures FormatEditAnnouncement(d + "/" + stem + "." + ext) == "Editing " + SpokenType(Lower(ext)) + " " + stem
  {
    assert d + "/" + stem + "." + ext == d + "/" + (stem + "." + ext);
    NameOfJoin(d, stem + "." + ext);
    SplitExtension(stem, ext);
    assert ("." + ext)[1..] == ext;
  }

  /** A name whose only dot comes first has no suffix: ".gitignore" is
      announced by its name, not through the "gitignore" type entry. */
  lemma DotFileHasNoType(d: string)
    ensures FormatEditAnnouncement(d + "/.gitignore") == "Editing .gitignore"
  {
    assert d + "/.gitignore" == d + "/" + ".gitignore";
    NameOfJoin(d, ".gitignore");
    assert OccursAt(".gitignore", ".", 0);
    forall j | 0 < j
      ensures !OccursAt(".gitignore", ".", j)
    {
      if j < 10 {
        assert ".gitignore"[j] != '.';
      }
    }
    assert RFind(".gitignore", ".") == Some(0);
  }

  // ---------------------------------------------------------------------
  // Task summary
  // ---------------------------------------------------------------------

  /** Number of distinct entries, Python `len(set(xs))`. */
  function Distinct(xs: seq<string>): nat {
    |set x | x in xs|
  }

  /** The configured templates, already filled in with a count. */
  datatype Templates = Templates(
    created: nat -> string, modified: nat -> string,
    examining: string -> string, changing: string -> string,
    searching: string -> string, running: string -> string)

  /** The parts of the summary, in order: created files, modified files,
      commands run, searches made; each only when its count is positive. */
  function SummaryParts(c: TaskContext, t: Templates): (parts: seq<string>)
    requires c.Tracked?
    ensures parts == [] <==> Distinct(c.created) == 0 && Distinct(c.modified) == 0 && |c.commands| == 0 && |c.searches| == 0
  {
    (if Distinct(c.created) > 0 then [t.created(Distinct(c.created))] else [])
    + (if Distinct(c.modified) > 0 then [t.modified(Distinct(c.modified))] else [])
    + (if |c.commands| > 0 then ["Ran " + NatToString(|c.commands|) + " commands"] else [])
    + (if |c.searches| > 0 then ["Performed " + NatToString(|c.searches|) + " searches"] else [])
  }

  /** Whether the session did anything worth summarising. */
  predicate DidWork(c: TaskContext) {
    c.Tracked? && c.operations != 0
    && !(Distinct(c.created) == 0 && Distinct(c.modified) == 0 && |c.commands| == 0 && |c.searches| == 0)
  }

  /** Python `get_task_summary`: nothing without a state manager, for a
      context without operations (a bare context counts none), or when no
      part applies; otherwise the parts joined by ". ". */
  function GetTaskSummary(ctx: Option<TaskContext>, t: Templates): (r: Option<string>)
    ensures r.Some? <==> ctx.Some? && DidWork(ctx.value)
    ensures r.Some? ==> r.value == Join(SummaryParts(ctx.value, t), ". ")
  {
    if ctx.None? || ctx.value.Bare? || ctx.value.operations == 0 then None
    else
      var parts := SummaryParts(ctx.value, t);
      if parts == [] then None else Some(Join(parts, ". "))
  }

  /** The joined parts contain each part. */
  lemma JoinContains(ws: seq<string>, sep: string, i: nat)
    requires i < |ws|
    ensures Contains(Join(ws, sep), ws[i])
    decreases |ws|
  {
    if i == 0 {
      if |ws| == 1 {
        ContainsMiddle([], ws[0], []);
        assert [] + ws[0] + [] == ws[0];
      } else {
        ContainsMiddle([], ws[0], sep + Join(ws[1..], sep));
        assert [] + ws[0] + (sep + Join(ws[1..], sep)) == Join(ws, sep);
      }
    } else {
      JoinContains(ws[1..], sep, i - 1);
      var inner := Join(ws[1..], sep);
      var k :| 0 <= k <= |inner| && OccursAt(inner, ws[i], k);
      var whole := ws[0] + sep + inner;
      assert whole[|ws[0] + sep| + k..|ws[0] + sep| + k + |ws[i]|] == inner[k..k + |ws[i]|];
      assert OccursAt(whole, ws[i], |ws[0] + sep| + k);
    }
  }

  /** A session that ran commands says how many. */
  lemma SummaryCountsCommands(c: TaskContext, t: Templates)
    requires c.Tracked? && c.operations != 0 && |c.commands| > 0
    ensures GetTaskSummary(Some(c), t).Some?
    ensures Contains(GetTaskSummary(Some(c), t).value, "Ran " + NatToString(|c.commands|) + " commands")
  {
    var parts := SummaryParts(c, t);
    var k := |parts| - 1 - (if |c.searches| > 0 then 1 else 0);
    assert parts[k] == "Ran " + NatToString(|c.commands|) + " commands";
    JoinContains(parts, ". ", k);
  }

  /** Writing a file that was already created is one more operation but
      does not change the summary: created files are counted once. */
  lemma RewriteKeepsSummary(c: TaskContext, path: string, t: Templates)
    requires c.Tracked? && c.operations > 0 && path in c.created
    ensures GetTaskSummary(Some(Record(c, Some("Write"), Some(path), None, None)), t) == GetTaskSummary(Some(c), t)
  {
    var r := Record(c, Some("Write"), Some(path), None, None);
    assert r.created == c.created || r.created == c.created + [path];
    assert forall x :: x in r.created <==> x in c.created;
    assert (set x | x in r.created) == (set x | x in c.created);
    assert SummaryParts(r, t) == SummaryParts(c, t);
  }

  // ---------------------------------------------------------------------
  // Sound mapping fallback
  // ---------------------------------------------------------------------

  /** A configured message: one text, or a list to pick from. */
  datatype Mapped = Single(text: string) | Choices(items: seq<string>)

  /** The `tools` and `hook_events` tables of the sound mapping. */
  datatype SoundMapping = SoundMapping(tools: map<string, Mapped>, hooks: map<string, Mapped>)

  /** A configured message, the list's pick made by `pick`. */
  function Resolve(m: Mapped, pick: seq<string> -> string): string {
    match m
    case Single(s) => s
    case Choices(items) => pick(items)
  }

  const DefaultNotification := "Claude Code notification"

  /** Python `get_mapped_message`: the tool's entry, else the hook's entry,
      else the default notification. */
  function GetMappedMessage(hook: string, tool: Option<string>, mapping: SoundMapping,
                            pick: seq<string> -> string): (r: string)
    ensures Truthy(tool) && tool.value in mapping.tools ==> r == Resolve(mapping.tools[tool.value], pick)
    ensures !(Truthy(tool) && tool.value in mapping.tools) && hook in mapping.hooks ==> r == Resolve(mapping.hooks[hook], pick)
    ensures !(Truthy(tool) && tool.value in mapping.tools) && hook !in mapping.hooks ==> r == DefaultNotification
  {
    if Truthy(tool) && tool.value in mapping.tools then Resolve(mapping.tools[tool.value], pick)
    else if hook in mapping.hooks then Resolve(mapping.hooks[hook], pick)
    else DefaultNotification
  }

  /** A tool entry wins over the hook's entry. */
  lemma ToolEntryFirst(hook: string, tool: string, text: string, mapping: SoundMapping, pick: seq<string> -> string)
    requires tool != "" && mapping.tools == map[tool := Single(text)]
    ensures GetMappedMessage(hook, Some(tool), mapping, pick) == text
  {
  }

  // ---------------------------------------------------------------------
  // Contextual message
  // ---------------------------------------------------------------------

  /** A shell command as announced: at most 30 characters, a longer one
      cut to 27 and marked with "...". */
  function ShortCommand(command: string): (r: string)
    ensures |r| <= 30
    ensures |command| <= 30 ==> r == command
    ensures |command| > 30 ==> r == command[..27] + "..."
  {
    if |command| > 30 then command[..27] + "..." else command
  }

  /** A keyword argument of `get_contextual_message`: left out, passed as
      `None`, or passed a text. */
  datatype Kwarg = Omitted | PassedNone | Passed(text: string)

  /** `kwargs.get("query", "items")` as `format` prints it: a passed `None`
      prints as "None". */
  function QueryText(query: Kwarg): (r: string)
    ensures query.Passed? ==> r == query.text
    ensures query.Omitted? ==> r == "items"
    ensures query.PassedNone? ==> r == "None"
  {
    match query
    case Omitted => "items"
    case PassedNone => "None"
    case Passed(q) => q
  }

  /** What `get_contextual_message` does: return a message (or `None`), or
      raise `TypeError` when `len` is applied to a command passed as `None`. */
  datatype Contextual = Returns(message: Option<string>) | RaisesTypeError

  /** Python `get_contextual_message`. */
  function GetContextualMessage(hook: string, tool: Option<string>, path: Option<string>,
                                query: Kwarg, command: Kwarg,
                                ctx: Option<TaskContext>, t: Templates,
                                mapping: SoundMapping, pick: seq<string> -> string): (r: Contextual)
    ensures r.RaisesTypeError? <==>
              (hook !in {"UserPromptSubmit", "Stop"} && tool == Some("Bash")
               && !(hook == "PreToolUse" && HasActionPhrase("Bash")) && command.PassedNone?)
    ensures hook == "UserPromptSubmit" ==> r == Returns(None)
    ensures hook == "PreToolUse" && Truthy(tool) && HasActionPhrase(tool.value) ==>
              r == Returns(ToolActionPhrase(tool.value))
    ensures hook == "Stop" ==> r == Returns(GetTaskSummary(ctx, t))
    ensures hook !in {"UserPromptSubmit", "Stop"} && !Truthy(tool) ==>
              r == Returns(Some(GetMappedMessage(hook, tool, mapping, pick)))
    ensures hook !in {"UserPromptSubmit", "Stop", "PreToolUse"} && tool == Some("Bash") && command.Passed? ==>
              r == Returns(Some(t.running(ShortCommand(command.text))))
    ensures hook !in {"UserPromptSubmit", "Stop", "PreToolUse"} && tool == Some("Bash") && command.Omitted? ==>
              r == Returns(Some(t.running("command")))
  {
    if hook == "UserPromptSubmit" then Returns(None)
    else if hook == "PreToolUse" && Truthy(tool) && HasActionPhrase(tool.value) then Returns(ToolActionPhrase(tool.value))
    else if hook == "Stop" then Returns(GetTaskSummary(ctx, t))
    else if Truthy(tool) then
      var name := tool.value;
      if name in {"Read", "NotebookRead"} && Truthy(path) then Returns(Some(t.examining(Name(path.value))))
      else if name in {"Edit", "Write", "MultiEdit"} && Truthy(path) then Returns(Some(t.changing(Name(path.value))))
      else if name in {"Grep", "Glob", "WebSearch"} then Returns(Some(t.searching(QueryText(query))))
      else if name == "Bash" then
        match command
        case PassedNone => RaisesTypeError
        case Omitted => Returns(Some(t.running(ShortCommand("command"))))
        case Passed(c) => Returns(Some(t.running(ShortCommand(c))))
      else Returns(Some(GetMappedMessage(hook, tool, mapping, pick)))
    else Returns(Some(GetMappedMessage(hook, tool, mapping, pick)))
  }

  /** A read or edit announcement depends on the path only through its last
      component: two paths with the same `Path(...).name` are announced
      alike. */
  lemma ContextualNamesOnlyFile(hook: string, tool: string, p1: string, p2: string,
                                query: Kwarg, command: Kwarg, ctx: Option<TaskContext>, t: Templates,
                                mapping: SoundMapping, pick: seq<string> -> string)
    requires tool in {"Read", "NotebookRead", "Edit", "Write", "MultiEdit"}
    requires p1 != "" && p2 != "" && Name(p1) == Name(p2)
    ensures GetContextualMessage(hook, Some(tool), Some(p1), query, command, ctx, t, mapping, pick)
         == GetContextualMessage(hook, Some(tool), Some(p2), query, command, ctx, t, mapping, pick)
  {
  }

  /** Two long commands that share their first 27 characters are announced
      alike, and every announced command fits in 30 characters. */
  lemma {:induction false} LongCommandsAnnouncedAlike(hook: string, c1: string, c2: string, t: Templates)
    requires hook !in {"UserPromptSubmit", "Stop", "PreToolUse"}
    requires |c1| > 30 && |c2| > 30 && c1[..27] == c2[..27]
    ensures forall path, query, ctx, mapping, pick ::
      GetContextualMessage(hook, Some("Bash"), path, query, Passed(c1), ctx, t, mapping, pick)
      == GetContextualMessage(hook, Some("Bash"), path, query, Passed(c2), ctx, t, mapping, pick)
  {
    assert ShortCommand(c1) == ShortCommand(c2);
  }

  // ---------------------------------------------------------------------
  // Approval requests
  // ---------------------------------------------------------------------

  /** `tool_descriptions`: what a tool asks permission to do. */
  function ToolDescription(tool: string): Option<string> {
    match tool
    case "Edit" => Some("edit a file")
    case "Write" => Some("write a file")
    case "MultiEdit" => Some("edit multiple sections")
    case "NotebookEdit" => Some("edit a notebook")
    case "Delete" => Some("delete a file")
    case "Move" => Some("move a file")
    case "Create" => Some("create a file")
    case "Update" => Some("update a file")
    case "Bash" => Some("run a command")
    case "Execute" => Some("execute code")
    case _ => None
  }

  /** The action asked for: the description, or "use " and the tool. */
  function Action(tool: string): (a: string)
    ensures ToolDescription(tool).None? ==> a == "use " + tool
  {
    ToolDescription(tool).GetOr("use " + tool)
  }

  const PermissionTail := "Claude needs your permission to "
  const AttentionTail := "action requires your attention"

  /** The address before the request, by personality and nickname. */
  function ApprovalLead(v: Voice, forTool: bool): string {
    var nick := v.nickname;
    match v.personality
    case Butler => if Truthy(nick) then "Pardon me, " + nick.value + ", " else "Pardon me, "
    case Casual => if Truthy(nick) then "Hey " + nick.value + ", " else "Hey, "
    case Friendly =>
      if forTool then (if Truthy(nick) then nick.value + ", " else "")
      else (if Truthy(nick) then "Hey " + nick.value + ", " else "")
  }

  /** Python `get_approval_request_message`: with a tool, the request ends
      with "Claude needs your permission to " and the action; without one,
      with "action requires your attention". */
  function GetApprovalRequestMessage(v: Voice, tool: Option<string>): (r: string)
    ensures Truthy(tool) ==> EndsWith(r, PermissionTail + Action(tool.value))
    ensures !Truthy(tool) ==> EndsWith(r, AttentionTail)
  {
    var lead := ApprovalLead(v, Truthy(tool));
    if Truthy(tool) then
      var tail := PermissionTail + Action(tool.value);
      EndsWithConcat(lead, tail);
      lead + tail
    else if v.personality == Friendly && !Truthy(v.nickname) then
      EndsWithConcat("This ", AttentionTail);
      "This " + AttentionTail
    else
      EndsWithConcat(lead + "this ", AttentionTail);
      lead + "this " + AttentionTail
  }

  lemma EndsWithConcat(a: string, b: string)
    ensures EndsWith(a + b, b)
  {
    assert (a + b)[|a|..] == b;
  }

  /** Without a nickname the request does not depend on it. */
  lemma ApprovalWithoutNickname(v: Voice, tool: Option<string>)
    requires !Truthy(v.nickname)
    ensures GetApprovalRequestMessage(v, tool) == GetApprovalRequestMessage(v.(nickname := None), tool)
  {
  }

  /** A set nickname is named in every approval request. */
  lemma ApprovalNamesNickname(v: Voice, tool: Option<string>)
    requires Truthy(v.nickname)
    ensures Contains(GetApprovalRequestMessage(v, tool), v.nickname.value)
  {
    if Truthy(tool) {
      NickInLead(v, true, PermissionTail + Action(tool.value));
      assert GetApprovalRequestMessage(v, tool) == ApprovalLead(v, true) + (PermissionTail + Action(tool.value));
    } else {
      NickInLead(v, false, "this " + AttentionTail);
      assert GetApprovalRequestMessage(v, tool) == ApprovalLead(v, false) + ("this " + AttentionTail);
    }
  }

  /** A set nickname appears in the address. */
  lemma NickInLead(v: Voice, forTool: bool, tail: string)
    requires Truthy(v.nickname)
    ensures Contains(ApprovalLead(v, forTool) + tail, v.nickname.value)
  {
    var n := v.nickname.value;
    var lead := ApprovalLead(v, forTool);
    match v.personality
    case Butler =>
      ContainsMiddle("Pardon me, ", n, ", " + tail);
      assert lead + tail == "Pardon me, " + n + (", " + tail);
    case Casual =>
      ContainsMiddle("Hey ", n, ", " + tail);
      assert lead + tail == "Hey " + n + (", " + tail);
    case Friendly =>
      if forTool {
        ContainsMiddle([], n, ", " + tail);
        assert lead + tail == [] + n + (", " + tail);
      } else {
        ContainsMiddle("Hey ", n, ", " + tail);
        assert lead + tail == "Hey " + n + (", " + tail);
      }
  }

  // ---------------------------------------------------------------------
  // Acknowledgment and completion
  // ---------------------------------------------------------------------

  /** Python `get_personalized_acknowledgment`; `greeting` is the
      time-of-day greeting picked for the friendly personality. */
  function GetPersonalizedAcknowledgment(v: Voice, greeting: string): (r: string)
    ensures Truthy(v.nickname) ==> Contains(r, v.nickname.value)
    ensures v.personality == Friendly && !Truthy(v.nickname) ==> r == "Processing your request"
  {
    var nick := v.nickname;
    match v.personality
    case Butler =>
      if Truthy(nick) then
        ContainsMiddle("Very well, ", nick.value, ". I shall attend to your request immediately");
        "Very well, " + nick.value + ". I shall attend to your request immediately"
      else "Very well. I shall attend to your request immediately"
    case Casual =>
      if Truthy(nick) then
        ContainsMiddle("Hey ", nick.value, ", on it");
        "Hey " + nick.value + ", on it"
      else "Hey there, on it"
    case Friendly =>
      if Truthy(nick) then
        ContainsMiddle(greeting + ", ", nick.value, ". Processing your request");
        greeting + ", " + nick.value + ". Processing your request"
      else "Processing your request"
  }

  /** The closing after the base message, by personality and nickname. */
  function CompletionTail(v: Voice): string {
    var nick := v.nickname;
    match v.personality
    case Butler =>
      if Truthy(nick) then "Is there anything else I can help you with, " + nick.value + "?"
      else "Is there anything else I can help you with?"
    case Casual => if Truthy(nick) then "All done, " + nick.value else "All done"
    case Friendly => if Truthy(nick) then "Task completed, " + nick.value else "Task completed"
  }

  /** Python `get_personalized_completion`: the given summary, or else the
      task summary, followed by ". " and a closing; nothing when neither
      has text. */
  function GetPersonalizedCompletion(v: Voice, summary: Option<string>, taskSummary: Option<string>): (r: Option<string>)
    ensures r.None? <==> !Truthy(summary) && !Truthy(taskSummary)
    ensures r.Some? && Truthy(summary) ==> summary.value + ". " <= r.value
    ensures r.Some? && !Truthy(summary) ==> taskSummary.value + ". " <= r.value
  {
    var base := if Truthy(summary) then summary else taskSummary;
    if !Truthy(base) then None
    else Some(base.value + ". " + CompletionTail(v))
  }

  /** The closing names a set nickname. */
  lemma CompletionNamesNickname(v: Voice, summary: Option<string>, taskSummary: Option<string>)
    requires Truthy(v.nickname) && GetPersonalizedCompletion(v, summary, taskSummary).Some?
    ensures Contains(GetPersonalizedCompletion(v, summary, taskSummary).value, v.nickname.value)
  {
    var base := (if Truthy(summary) then summary else taskSummary).value;
    assert GetPersonalizedCompletion(v, summary, taskSummary).value == (base + ". ") + CompletionTail(v);
    TailNamesNickname(v);
    ContainsAfter(base + ". ", CompletionTail(v), v.nickname.value);
  }

  lemma TailNamesNickname(v: Voice)
    requires Truthy(v.nickname)
    ensures Contains(CompletionTail(v), v.nickname.value)
  {
    var n := v.nickname.value;
    match v.personality
    case Butler =>
      ContainsMiddle("Is there anything else I can help you with, ", n, "?");
    case Casual =>
      ContainsMiddle("All done, ", n, []);
      assert "All done, " + n + [] == "All done, " + n;
    case Friendly =>
      ContainsMiddle("Task completed, ", n, []);
      assert "Task completed, " + n + [] == "Task completed, " + n;
  }

  /** Text after a prefix keeps what it contains. */
  lemma ContainsAfter(p: string, t: string, w: string)
    requires Contains(t, w)
    ensures Contains(p + t, w)
  {
    var i :| 0 <= i <= |t| && OccursAt(t, w, i);
    assert (p + t)[|p| + i..|p| + i + |w|] == t[i..i + |w|];
    assert OccursAt(p + t, w, |p| + i);
  }
}
