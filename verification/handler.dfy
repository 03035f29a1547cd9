/** The hook handler: which hook invocations may speak, what each hook
    says, and the order in which a message is checked, locked, spoken and
    recorded. The handler's in-memory state (the state manager, the
    deduplicator, the per-tool announcement times) is a value; the clock,
    the transcript's contents, the decoder, the hash, the lock outcome and
    whether the speech raises are parameters. */
module Handler {
  import opened Prelude
  import opened Text
  import opened StateStore
  import opened TranscriptReader
  import opened Summarize
  import opened Approval
  import opened Messages
  import TranscriptLog
  import Dedup
  import SpeechLock
  import SpeechCleaning

  /** The configuration the message generator reads: the voice settings,
      the sound mapping and the choice made among listed messages. */
  datatype Config = Config(voice: Voice, mapping: SoundMapping, pick: seq<string> -> string)

  /** The `tool_input` object: its `todos` list and its `file_path`. */
  datatype ToolInput = ToolInput(todos: Option<seq<Todo>>, filePath: Option<string>)

  /** The hook's standard input, a JSON object: the keys the handler
      reads. `toolOutput` is the text of `str(tool_output)` (`"{}"` when
      the key is missing); `message` is the notification text (`""` when
      missing). An absent, empty or non-object input is `None` where the
      handler receives it. */
  datatype HookInput = HookInput(session: Option<string>, transcript: Option<string>, tool: Option<string>,
                                 toolInput: ToolInput, toolOutput: string, message: string)

  /** The handler between calls: the state manager with the state file,
      the deduplicator, and when each tool was last announced. */
  datatype Handler = Handler(store: Store, dedup: Dedup.Dedup, announced: map<string, int>)

  // ---------------------------------------------------------------------
  // Hook gating
  // ---------------------------------------------------------------------

  /** The hooks that may speak. */
  predicate ActiveHook(hook: string) {
    hook == "UserPromptSubmit" || hook == "PreToolUse" || hook == "PostToolUse" || hook == "Stop" || hook == "Notification"
  }

  /** The least time between two announcements of the same tool. */
  const ToolInterval := 3000

  /** When `tool` was last announced; 0 when it never was. */
  function LastAnnounced(announced: map<string, int>, tool: string): int {
    if tool in announced then announced[tool] else 0
  }

  /** Python `should_announce`: only the active hooks speak; a tool use
      announced again within the interval is silent, and otherwise only
      `TodoWrite` and the tools with an action phrase are announced. */
  function ShouldAnnounce(hook: Option<string>, tool: Option<string>, now: int, announced: map<string, int>): (b: bool)
    ensures b ==> hook.Some? && ActiveHook(hook.value)
    ensures hook.Some? && ActiveHook(hook.value) && !(hook.value == "PreToolUse" && Truthy(tool)) ==> b
    ensures hook == Some("PreToolUse") && Truthy(tool) && now - LastAnnounced(announced, tool.value) < ToolInterval ==> !b
  {
    if hook.None? || !ActiveHook(hook.value) then false
    else if hook.value == "PreToolUse" && Truthy(tool) then
      if now - LastAnnounced(announced, tool.value) < ToolInterval then false
      else if tool.value == "TodoWrite" then true
      else HasActionPhrase(tool.value)
    else true
  }

  /** `TodoWrite` has an (empty) action phrase, so its special case adds
      nothing: a tool use is announced exactly when the interval has passed
      and the tool has an action phrase. */
  lemma ToolGateIsPhraseTable(tool: string, now: int, announced: map<string, int>)
    requires tool != ""
    ensures ShouldAnnounce(Some("PreToolUse"), Some(tool), now, announced)
            <==> now - LastAnnounced(announced, tool) >= ToolInterval && HasActionPhrase(tool)
  {
    if tool == "TodoWrite" {
      assert ToolActionPhrase(tool) == Some("");
    }
  }

  // ---------------------------------------------------------------------
  // UserPromptSubmit
  // ---------------------------------------------------------------------

  /** Python `process_user_prompt_submit`: with a transcript path, the
      session id is taken, the task context reset, the first-response flag
      cleared, and the state saved; the reply is the acknowledgment.
      `now` is the start time of the fresh task context and `greeting` the
      time-of-day greeting. */
  function ProcessUserPromptSubmit(h: Handler, input: Option<HookInput>, now: string, greeting: string,
                                   v: Voice, writable: bool): (r: (Option<string>, Handler))
    ensures r.0.Some? <==> input.Some? && Truthy(input.value.transcript)
    ensures r.0.None? ==> r.1 == h
    ensures r.0.Some? ==>
      var m := r.1.store.m;
      && r.0.value == GetPersonalizedAcknowledgment(v, greeting)
      && m.sessionId == input.value.session && !m.announced && m.lastTodos == []
      && m.context == DefaultContext(now) && m.lastSpeech == h.store.m.lastSpeech
      && m.state.positions == (if h.store.m.state.positions.Some? then Some(map[]) else None)
      && r.1.store.file == Persist(h.store.file, m.state, writable)
      && r.1.dedup == h.dedup && r.1.announced == h.announced
  {
    if input.Some? && Truthy(input.value.transcript) then
      var s := ResetTaskContext(Store(h.store.m.(sessionId := input.value.session), h.store.file), now, writable);
      var s' := SaveState(Store(s.m.(announced := false), s.file), writable);
      (Some(GetPersonalizedAcknowledgment(v, greeting)), h.(store := s'))
    else (None, h)
  }

  /** After a prompt of session `session` is saved, a transcript reader of
      that session keeps the (emptied) cursors and reads every transcript
      from the start, and the next new manager sees the first response as
      not yet announced. */
  lemma PromptStartsSession(h: Handler, input: HookInput, now: string, greeting: string, v: Voice,
                            path: string, present: string -> bool, clock: string)
    requires Truthy(input.transcript) && h.store.m.state.positions.Some?
    ensures var f := ProcessUserPromptSubmit(h, Some(input), now, greeting, v, true).1.store.file;
      && NewReader(path, input.session, f).positions == map[]
      && StartOf(NewReader(path, input.session, f), None) == 0
      && !NewManager(f, present, clock).announced
      && NewManager(f, present, clock).sessionId == input.session
  {
  }

  // ---------------------------------------------------------------------
  // PreToolUse
  // ---------------------------------------------------------------------

  /** The tools announced by the kind of file they write. */
  predicate EditTool(tool: string) {
    tool == "Edit" || tool == "Write" || tool == "MultiEdit"
  }

  /** The file path given to the tool, when the input has one. */
  function FilePath(input: Option<HookInput>): Option<string> {
    if input.Some? then input.value.toolInput.filePath else None
  }

  /** The phrase a listed tool is announced with: its action phrase, or
      the mapped message when the phrase is empty. */
  function ToolPhrase(tool: string, cfg: Config): (r: string)
    requires HasActionPhrase(tool)
    ensures ToolActionPhrase(tool).value != "" ==> r == ToolActionPhrase(tool).value
    ensures ToolActionPhrase(tool).value == "" ==> r == GetMappedMessage("PreToolUse", Some(tool), cfg.mapping, cfg.pick)
  {
    var phrase := ToolActionPhrase(tool).value;
    if phrase != "" then phrase else GetMappedMessage("PreToolUse", Some(tool), cfg.mapping, cfg.pick)
  }

  /** Before a listed tool runs, the contextual message and the handler's
      own announcement agree whenever the tool's phrase is not empty; an
      empty phrase is returned as is by the message generator, while the
      handler falls back to the mapped message. */
  lemma ContextualAgreesWithToolPhrase(tool: string, path: Option<string>, query: Kwarg, command: Kwarg,
                                       ctx: Option<TaskContext>, t: Templates, cfg: Config)
    requires tool != "" && HasActionPhrase(tool)
    ensures ToolActionPhrase(tool).value != "" ==>
      GetContextualMessage("PreToolUse", Some(tool), path, query, command, ctx, t, cfg.mapping, cfg.pick)
      == Returns(Some(ToolPhrase(tool, cfg)))
    ensures ToolActionPhrase(tool).value == "" ==>
      GetContextualMessage("PreToolUse", Some(tool), path, query, command, ctx, t, cfg.mapping, cfg.pick)
      == Returns(Some(""))
  {
  }

  /** The todo branch: the diff against the stored snapshot (saved) and
      the last newly completed todo, formatted, if any. */
  function TodoAnnouncement(s: Store, todos: seq<Todo>, writable: bool): (r: (Option<string>, Store))
    ensures r.1 == DetectCompletedTodos(s, todos, writable).1 && r.1.m.lastTodos == todos
    ensures r.0.Some? <==> CompletedContents(ById(s.m.lastTodos), todos) != []
    ensures r.0.Some? ==>
      var done := CompletedContents(ById(s.m.lastTodos), todos);
      r.0.value == FormatTodoCompletion(done[|done| - 1])
  {
    var done := CompletedContents(ById(s.m.lastTodos), todos);
    (LastDone(done), DetectCompletedTodos(s, todos, writable).1)
  }

  /** The last of the completed todos, formatted, if any. */
  function LastDone(done: seq<string>): (r: Option<string>)
    ensures r.Some? <==> done != []
    ensures r.Some? ==> r.value == FormatTodoCompletion(done[|done| - 1])
  {
    if done != [] then Some(FormatTodoCompletion(done[|done| - 1])) else None
  }

  /** The tools the handler names specially all have an action phrase. */
  lemma SpecialToolsListed()
    ensures HasActionPhrase("TodoWrite") && HasActionPhrase("Read")
    ensures HasActionPhrase("Edit") && HasActionPhrase("Write") && HasActionPhrase("MultiEdit")
  {
  }

  /** Python `process_pre_tool_use`. `TodoWrite` with a todo list announces
      the last newly completed todo (the diff is saved either way); a read
      or an edit with a file path announces the file; any other listed
      tool is announced by its phrase and its announcement time recorded.
      Nothing else is announced. */
  function ProcessPreToolUse(h: Handler, input: Option<HookInput>, tool: Option<string>, now: int,
                             cfg: Config, writable: bool): (r: (Option<string>, Handler))
    ensures r.1.dedup == h.dedup
    ensures r.1.store != h.store ==> tool == Some("TodoWrite")
    ensures r.1.announced != h.announced ==> tool.Some? && r.1.announced == h.announced[tool.value := now]
    ensures tool == Some("TodoWrite") && input.Some? && input.value.toolInput.todos.Some? ==>
      r == (var t := TodoAnnouncement(h.store, input.value.toolInput.todos.value, writable); (t.0, h.(store := t.1)))
    ensures tool == Some("TodoWrite") && !(input.Some? && input.value.toolInput.todos.Some?) ==> r == (None, h)
    ensures tool == Some("Read") && Truthy(FilePath(input)) ==>
      r == (Some(FormatReadAnnouncement(FilePath(input).value)), h)
    ensures tool.Some? && EditTool(tool.value) && Truthy(FilePath(input)) ==>
      r == (Some(FormatEditAnnouncement(FilePath(input).value)), h)
    ensures tool.None? || !HasActionPhrase(tool.value) ==> r == (None, h)
  {
    if tool == Some("TodoWrite") then
      if input.Some? && input.value.toolInput.todos.Some? then
        var t := TodoAnnouncement(h.store, input.value.toolInput.todos.value, writable);
        (t.0, h.(store := t.1))
      else (None, h)
    else if tool.None? then (None, h)
    else OtherTool(h, input, tool.value, now, cfg)
  }

  /** A read or an edit with a file path announces the file; nothing for
      any other tool or without a path. */
  function FileAnnouncement(input: Option<HookInput>, tool: string): (r: Option<string>)
    ensures r.Some? <==> (tool == "Read" || EditTool(tool)) && Truthy(FilePath(input))
    ensures tool == "Read" && Truthy(FilePath(input)) ==> r == Some(FormatReadAnnouncement(FilePath(input).value))
    ensures EditTool(tool) && Truthy(FilePath(input)) ==> r == Some(FormatEditAnnouncement(FilePath(input).value))
  {
    if tool == "Read" && Truthy(FilePath(input)) then Some(FormatReadAnnouncement(FilePath(input).value))
    else if EditTool(tool) && Truthy(FilePath(input)) then Some(FormatEditAnnouncement(FilePath(input).value))
    else None
  }

  /** The branches after the todo one: a read or an edit with a file path
      announces the file; any other tool with a phrase is announced by it,
      and only then is its time recorded. */
  function OtherTool(h: Handler, input: Option<HookInput>, tool: string, now: int, cfg: Config): (r: (Option<string>, Handler))
    ensures r.1 == h || r.1 == h.(announced := h.announced[tool := now])
    ensures tool == "Read" && Truthy(FilePath(input)) ==> r == (Some(FormatReadAnnouncement(FilePath(input).value)), h)
    ensures EditTool(tool) && Truthy(FilePath(input)) ==> r == (Some(FormatEditAnnouncement(FilePath(input).value)), h)
    ensures !HasActionPhrase(tool) ==> r == (None, h)
  {
    var f := FileAnnouncement(input, tool);
    if f.Some? then
      SpecialToolsListed();
      (f, h)
    else if HasActionPhrase(tool) then
      (Some(ToolPhrase(tool, cfg)), h.(announced := h.announced[tool := now]))
    else (None, h)
  }

  /** A tool announced by its phrase is not announced again within the
      interval, and is again once the interval has passed. */
  lemma RateLimitAfterPhrase(h: Handler, input: Option<HookInput>, tool: string, now: int, later: int,
                             cfg: Config, writable: bool)
    requires tool != "TodoWrite" && HasActionPhrase(tool)
    requires !(tool == "Read" && Truthy(FilePath(input))) && !(EditTool(tool) && Truthy(FilePath(input)))
    ensures var a := ProcessPreToolUse(h, input, Some(tool), now, cfg, writable).1.announced;
      && (now <= later < now + ToolInterval ==> !ShouldAnnounce(Some("PreToolUse"), Some(tool), later, a))
      && (later >= now + ToolInterval ==> ShouldAnnounce(Some("PreToolUse"), Some(tool), later, a))
  {
    assert tool != "";
  }

  /** File announcements do not record an announcement time: a read or an
      edit with a file path leaves the rate limit as it was. */
  lemma FileAnnouncementNotRateLimited(h: Handler, input: Option<HookInput>, tool: string, now: int,
                                       later: int, cfg: Config, writable: bool)
    requires (tool == "Read" || EditTool(tool)) && Truthy(FilePath(input))
    ensures var a := ProcessPreToolUse(h, input, Some(tool), now, cfg, writable).1.announced;
      ShouldAnnounce(Some("PreToolUse"), Some(tool), later, a)
      == ShouldAnnounce(Some("PreToolUse"), Some(tool), later, h.announced)
  {
  }

  /** Repeating a todo list reports nothing the second time. */
  lemma TodoRepeatSilent(h: Handler, input: HookInput, now: int, cfg: Config)
    requires input.toolInput.todos.Some? && DistinctIds(input.toolInput.todos.value)
    ensures var h' := ProcessPreToolUse(h, Some(input), Some("TodoWrite"), now, cfg, true).1;
      ProcessPreToolUse(h', Some(input), Some("TodoWrite"), now, cfg, true).0.None?
  {
    var h' := ProcessPreToolUse(h, Some(input), Some("TodoWrite"), now, cfg, true).1;
    RepeatReportsNothing(h.store, input.toolInput.todos.value, true);
  }
  // ---------------------------------------------------------------------
  // PostToolUse: completion markers
  // ---------------------------------------------------------------------

  /** The two check marks the completion regex looks for. */
  predicate IsMark(c: char) {
    c == '\U{2611}' || c == '\U{2713}'
  }

  /** The first check mark at or after `k`. */
  function FirstMarkFrom(s: string, k: nat): (r: Option<nat>)
    ensures r.Some? ==> k <= r.value < |s| && IsMark(s[r.value])
    ensures r.Some? ==> forall j :: k <= j < r.value ==> !IsMark(s[j])
    ensures r.None? ==> forall j :: k <= j < |s| ==> !IsMark(s[j])
    decreases |s| - k
  {
    if k >= |s| then None
    else if IsMark(s[k]) then Some(k)
    else FirstMarkFrom(s, k + 1)
  }

  /** The first index at or after `k` that is not whitespace, or `|s|`. */
  function SkipSpaces(s: string, k: nat): (j: nat)
    requires k <= |s|
    ensures k <= j <= |s|
    ensures forall i :: k <= i < j ==> IsSpace(s[i])
    ensures j < |s| ==> !IsSpace(s[j])
    decreases |s| - k
  {
    if k == |s| || !IsSpace(s[k]) then k else SkipSpaces(s, k + 1)
  }

  /** The first newline at or after `k`, or `|s|`. */
  function LineEnd(s: string, k: nat): (j: nat)
    requires k <= |s|
    ensures k <= j <= |s|
    ensures forall i :: k <= i < j ==> s[i] != '\n'
    ensures j < |s| ==> s[j] == '\n'
    decreases |s| - k
  {
    if k == |s| || s[k] == '\n' then k else LineEnd(s, k + 1)
  }

  /** The last index in `[lo, hi)` that is not a newline. */
  function LastNonNewline(s: string, lo: nat, hi: nat): (r: Option<nat>)
    requires hi <= |s|
    ensures r.Some? ==> lo <= r.value < hi && s[r.value] != '\n'
    ensures r.Some? ==> forall i :: r.value < i < hi ==> s[i] == '\n'
    ensures r.None? ==> forall i :: lo <= i < hi ==> s[i] == '\n'
    decreases hi
  {
    if hi <= lo then None
    else if s[hi - 1] != '\n' then Some(hi - 1)
    else LastNonNewline(s, lo, hi - 1)
  }

  /** Where the group of Python `re.search(r'[☑✓]\s*(.+?)(?:\n|$)', s)`
      lies, as the pair (start, end). The search tries the marks from the
      left; at a mark, `\s*` first takes all the whitespace after it and
      the lazy group then runs to the end of the line. When that whitespace
      runs to the end of the text, `\s*` gives back characters until the
      group can take one that is not a newline: the last such character,
      alone. A mark followed by newlines only has no match, and then no
      later mark can follow it, so the first mark decides. */
  function CheckMarkGroup(s: string): (r: Option<(nat, nat)>)
    ensures r.None? <==> FirstMarkFrom(s, 0).None?
                         || forall i :: FirstMarkFrom(s, 0).value < i < |s| ==> s[i] == '\n'
    ensures r.Some? ==>
      var p := FirstMarkFrom(s, 0).value;
      p < r.value.0 < r.value.1 <= |s|
    ensures r.Some? ==> forall i :: FirstMarkFrom(s, 0).value < i < r.value.0 ==> IsSpace(s[i])
    ensures r.Some? ==> !IsSpace(s[r.value.0]) || forall i :: r.value.0 < i < |s| ==> s[i] == '\n'
    ensures r.Some? ==> forall i :: r.value.0 <= i < r.value.1 ==> s[i] != '\n'
    ensures r.Some? ==> r.value.1 == |s| || s[r.value.1] == '\n'
  {
    match FirstMarkFrom(s, 0)
    case None => None
    case Some(p) =>
      var j := SkipSpaces(s, p + 1);
      if j < |s| then
        Some((j, LineEnd(s, j)))
      else
        match LastNonNewline(s, p + 1, |s|)
        case None => None
        case Some(k) => Some((k, k + 1))
  }

  /** The group's text. */
  function CheckMarkTask(s: string): (r: Option<string>)
    ensures r.Some? ==> r.value != [] && '\n' !in r.value
  {
    match CheckMarkGroup(s)
    case None => None
    case Some(g) => Some(s[g.0..g.1])
  }

  /** What one message's completion markers make of it: an announcement,
      the error the case-sensitive split raises, or nothing, in which case
      the next message is tried. */
  datatype Marker = Announce(text: string) | Raise | Next

  /** The text after the first `pat`, as Python `msg.split(pat, 1)[1]`;
      `None` where that indexing raises. */
  function AfterFirst(msg: string, pat: string): (r: Option<string>)
    ensures r.None? <==> !Contains(msg, pat)
    ensures r.Some? ==> |r.value| <= |msg|
  {
    match Find(msg, pat)
    case Some(i) => Some(msg[i + |pat|..])
    case None => None
  }

  /** Whether the lowered message has one of the five completion markers. */
  predicate HasMarker(low: string) {
    Contains(low, "completed:") || Contains(low, "finished:")
    || '\U{2713}' in low || '\U{2611}' in low || Contains(low, "done:")
  }

  /** The marker test of the later-response loop for one message. The
      markers are looked for in the lowered message, but the task is split
      off the message as written, so a marker written with a capital
      raises. */
  function MarkerOf(msg: string): (r: Marker)
    ensures !HasMarker(Lower(msg)) ==> r == Next
    ensures r.Raise? <==>
      || (Contains(Lower(msg), "completed:") && !Contains(msg, "completed:"))
      || (!Contains(Lower(msg), "completed:") && Contains(Lower(msg), "finished:") && !Contains(msg, "finished:"))
    ensures r.Announce? ==> |r.text| <= 60
  {
    var low := Lower(msg);
    if !HasMarker(low) then Next
    else if Contains(low, "completed:") then
      match AfterFirst(msg, "completed:")
      case None => Raise
      case Some(t) => Announce("Completed " + PyPrefix(Strip(t), 50))
    else if Contains(low, "finished:") then
      match AfterFirst(msg, "finished:")
      case None => Raise
      case Some(t) => Announce("Finished " + PyPrefix(Strip(t), 50))
    else if '\U{2611}' in msg || '\U{2713}' in msg then
      match CheckMarkTask(msg)
      case None => Next
      case Some(t) => Announce("Completed " + PyPrefix(t, 50))
    else Next
  }
  /** A marker written with a capital is found in the lowered message but
      not in the message the task is split from: "Completed: ..." raises,
      and the hook says nothing. */
  lemma CapitalisedMarkerRaises(task: string)
    requires 'c' !in task
    ensures MarkerOf("Completed: " + task) == Raise
  {
    var msg := "Completed: " + task;
    var low := Lower(msg);
    assert 'c' !in "Completed: ";
    assert 'c' !in msg;
    MissingCharNotContained(msg, "completed:", 'c');
    assert low[0] == 'c' && low[1] == 'o' && low[2] == 'm' && low[3] == 'p' && low[4] == 'l';
    assert low[5] == 'e' && low[6] == 't' && low[7] == 'e' && low[8] == 'd' && low[9] == ':';
    assert low[..10] == "completed:";
    assert OccursAt(low, "completed:", 0);
  }

  /** A pattern without capitals found in a message is found in the
      lowered message too. */
  lemma LowerKeepsPattern(msg: string, pat: string)
    requires forall k :: 0 <= k < |pat| ==> !IsUpper(pat[k])
    ensures Contains(msg, pat) ==> Contains(Lower(msg), pat)
  {
    if Contains(msg, pat) {
      var i := Find(msg, pat).value;
      assert Lower(msg)[i..i + |pat|] == pat by {
        forall k | 0 <= k < |pat| ensures Lower(msg)[i..i + |pat|][k] == pat[k] {
          assert msg[i + k] == pat[k];
        }
      }
      assert OccursAt(Lower(msg), pat, i);
    }
  }

  /** A message with "completed:" as written announces the stripped text
      after its first occurrence, cut to 50 characters. */
  lemma CompletedAnnounced(msg: string)
    requires Contains(msg, "completed:")
    ensures MarkerOf(msg) == Announce("Completed " + PyPrefix(Strip(AfterFirst(msg, "completed:").value), 50))
  {
    LowerKeepsPattern(msg, "completed:");
    assert HasMarker(Lower(msg));
  }

  /** A check mark followed by a space and a line announces that line. */
  lemma CheckMarkLine(before: string, mark: char, line: string)
    requires IsMark(mark) && forall k :: 0 <= k < |before| ==> !IsMark(before[k])
    requires line != [] && !IsSpace(line[0]) && '\n' !in line
    ensures CheckMarkTask(before + [mark, ' '] + line) == Some(line)
  {
    var s := before + [mark, ' '] + line;
    var p := |before|;
    assert s[p] == mark;
    assert FirstMarkFrom(s, 0) == Some(p);
    assert s[p + 1] == ' ' && s[p + 2] == line[0];
    assert SkipSpaces(s, p + 1) == p + 2;
    forall k | p + 2 <= k < |s| ensures s[k] != '\n' {
      assert s[k] == line[k - p - 2];
    }
    assert LineEnd(s, p + 2) == |s|;
    assert CheckMarkGroup(s) == Some((p + 2, |s|));
    assert s[p + 2..|s|] == line;
  }

  /** A check mark at the end followed by blanks only: the backtracking
      regex takes the last blank as the task, so the announcement is
      "Completed " and a blank. */
  lemma TrailingMarkTakesBlank(before: string, mark: char)
    requires IsMark(mark) && forall k :: 0 <= k < |before| ==> !IsMark(before[k])
    ensures CheckMarkTask(before + [mark, ' ']) == Some(" ")
  {
    var s := before + [mark, ' '];
    var p := |before|;
    assert s[p] == mark;
    assert FirstMarkFrom(s, 0) == Some(p);
    assert SkipSpaces(s, p + 1) == |s|;
    assert LastNonNewline(s, p + 1, |s|) == Some(p + 1);
    assert s[p + 1..p + 2] == " ";
  }

  // ---------------------------------------------------------------------
  // PostToolUse: the decision cascade
  // ---------------------------------------------------------------------

  /** The first message whose markers decide, from index `k` on. */
  function FirstMarkedFrom(ts: seq<string>, k: nat): (r: Option<nat>)
    ensures r.Some? ==> k <= r.value < |ts| && !MarkerOf(ts[r.value]).Next?
    ensures r.Some? ==> forall j :: k <= j < r.value ==> MarkerOf(ts[j]).Next?
    ensures r.None? ==> forall j :: k <= j < |ts| ==> MarkerOf(ts[j]).Next?
    decreases |ts| - k
  {
    if k >= |ts| then None
    else if !MarkerOf(ts[k]).Next? then Some(k)
    else FirstMarkedFrom(ts, k + 1)
  }

  /** The last message longer than 20 characters, below index `hi`. */
  function LastLong(ts: seq<string>, hi: nat): (r: Option<nat>)
    requires hi <= |ts|
    ensures r.Some? ==> r.value < hi && |ts[r.value]| > 20
    ensures r.Some? ==> forall j :: r.value < j < hi ==> |ts[j]| <= 20
    ensures r.None? ==> forall j :: 0 <= j < hi ==> |ts[j]| <= 20
  {
    if hi == 0 then None
    else if |ts[hi - 1]| > 20 then Some(hi - 1)
    else LastLong(ts, hi - 1)
  }

  /** Whether some message asks for approval. */
  predicate AnyApproval(ts: seq<string>) {
    exists i :: 0 <= i < |ts| && DetectApprovalRequest(ts[i])
  }

  /** How soon after the last speech a later response may speak. */
  const QuietAfter := 1000

  /** A text, summarised when longer than `maxLen`. */
  function Shorten(m: string, maxLen: int, minLen: int): (r: string)
    ensures |m| <= maxLen ==> r == m
  {
    if |m| > maxLen then MeaningfulSummary(m, maxLen, minLen) else m
  }

  /** Without a list in it, a shortened text is at most `maxLen` long. */
  lemma ShortenBound(m: string, maxLen: int, minLen: int)
    requires 3 <= maxLen && Patterns.SearchIn(Patterns.ListStart, m).None?
    ensures |Shorten(m, maxLen, minLen)| <= maxLen
  {
    if |m| > maxLen {
      MeaningfulSummaryBound(m, maxLen, minLen);
    }
  }

  /** The first response of a task: the new messages joined by spaces,
      summarised to 400 characters when longer. */
  function FirstResponse(ts: seq<string>): (r: string)
    ensures |Join(ts, " ")| <= 400 ==> r == Join(ts, " ")
  {
    Shorten(Join(ts, " "), 400, 100)
  }

  /** A later response: silent within a second of the last speech; then
      an approval request anywhere wins; then the first message with a
      completion marker decides; then the last message over 20 characters
      is spoken, summarised to 200 characters when longer. */
  function LaterResponse(v: Voice, ts: seq<string>, now: int, lastSpeech: int): (r: Option<string>)
    ensures now - lastSpeech < QuietAfter ==> r.None?
    ensures now - lastSpeech >= QuietAfter && AnyApproval(ts) ==>
      r == Some(GetApprovalRequestMessage(v, None)) && EndsWith(r.value, AttentionTail)
    ensures now - lastSpeech >= QuietAfter && !AnyApproval(ts) && FirstMarkedFrom(ts, 0).Some? ==>
      var m := MarkerOf(ts[FirstMarkedFrom(ts, 0).value]);
      (r.Some? <==> m.Announce?) && (m.Announce? ==> r.value == m.text && |r.value| <= 60)
    ensures now - lastSpeech >= QuietAfter && !AnyApproval(ts) && FirstMarkedFrom(ts, 0).None? ==>
      (r.Some? <==> LastLong(ts, |ts|).Some?)
      && (r.Some? ==> r.value == Shorten(ts[LastLong(ts, |ts|).value], 200, 50))
  {
    if now - lastSpeech < QuietAfter then None
    else if AnyApproval(ts) then Some(GetApprovalRequestMessage(v, None))
    else match FirstMarkedFrom(ts, 0)
      case Some(i) => (match MarkerOf(ts[i]) case Announce(text) => Some(text) case _ => None)
      case None =>
        match LastLong(ts, |ts|)
        case Some(i) => Some(Shorten(ts[i], 200, 50))
        case None => None
  }

  /** A marker that raises silences the hook, even when later messages
      would have been spoken. */
  lemma RaisedMarkerSilences(v: Voice, ts: seq<string>, now: int, lastSpeech: int, i: nat)
    requires i < |ts| && MarkerOf(ts[i]).Raise? && !AnyApproval(ts)
    requires forall j :: 0 <= j < i ==> MarkerOf(ts[j]).Next?
    ensures LaterResponse(v, ts, now, lastSpeech).None?
  {
    assert FirstMarkedFrom(ts, 0) == Some(i);
  }

  /** Unmarked, non-approval messages: the latest message over 20
      characters and at most 200 is spoken as it is. */
  lemma LatestMessageSpoken(v: Voice, ts: seq<string>, now: int, lastSpeech: int, i: nat)
    requires now - lastSpeech >= QuietAfter && !AnyApproval(ts)
    requires forall j :: 0 <= j < |ts| ==> MarkerOf(ts[j]).Next?
    requires i < |ts| && 20 < |ts[i]| <= 200 && forall j :: i < j < |ts| ==> |ts[j]| <= 20
    ensures LaterResponse(v, ts, now, lastSpeech) == Some(ts[i])
  {
    var f := FirstMarkedFrom(ts, 0);
    assert f.None?;
    var l := LastLong(ts, |ts|);
    assert l.Some?;
    assert l.value == i;
    assert Shorten(ts[i], 200, 50) == ts[i];
  }

  /** Corrected save, not used by the hooks: the state manager's save with
      the transcript cursors the state file holds when it is written, so
      that the cursor the transcript reader saved in between is kept.
      Everything else is as in `save_state`. */
  function SaveKeepingCursors(s: Store, writable: bool): (r: Store)
    ensures r.m == s.m.(state := r.m.state)
    ensures r.m.state == Saved(s.m).(positions := if s.file.Stored? then s.file.doc.positions else s.m.state.positions)
    ensures r.file == Persist(s.file, r.m.state, writable)
  {
    var ps := if s.file.Stored? then s.file.doc.positions else s.m.state.positions;
    SaveState(Store(s.m.(state := s.m.state.(positions := ps)), s.file), writable)
  }

  /** Saving this way writes the tracked fields and leaves the file's
      cursors as they are. */
  lemma SaveKeepsReaderCursor(s: Store)
    requires s.file.Stored?
    ensures var f := SaveKeepingCursors(s, true).file;
      && f.Stored? && f.doc.positions == s.file.doc.positions
      && f.doc.context == Some(s.m.context) && f.doc.lastSpeech == s.m.lastSpeech
      && f.doc.announced == s.m.announced && f.doc.sessionId == s.m.sessionId
      && f.doc.lastTodos == s.m.lastTodos
  {
  }

  /** `save_state` as written, run after a transcript reader saved a
      cursor: it writes back the cursors the manager loaded, so the
      reader's cursor is lost. Here the manager loaded no cursors and the
      reader had moved `path` to byte 120. */
  lemma SaveStateDropsCursor(m: Manager, doc: StateDoc, path: string)
    requires m.state.positions == Some(map[]) && doc.positions == Some(map[path := 120])
    ensures var f := SaveState(Store(m, Stored(doc)), true).file;
      f.Stored? && f.doc.positions == Some(map[]) && f.doc.positions != doc.positions
  {
    assert path in map[path := 120];
  }

  /** Python `process_post_tool_use`. Without an input nothing is said. A
      todo tool whose output mentions "completed" says "Task completed".
      Otherwise, with a transcript path, a reader for the session takes
      the new messages, moving its cursor; with messages, the first
      response of a task is all of them (and is recorded as announced),
      a later one goes through `LaterResponse`. */
  function ProcessPostToolUse(h: Handler, input: Option<HookInput>, log: Option<string>,
                              parse: string -> TranscriptLog.Entry, now: int, v: Voice, writable: bool): (r: (Option<string>, Handler))
    ensures input.None? ==> r == (None, h)
    ensures r.1.dedup == h.dedup && r.1.announced == h.announced
    ensures input.Some? && input.value.tool == Some("TodoWrite") && Contains(Lower(input.value.toolOutput), "completed") ==>
      r == (Some("Task completed"), h)
    ensures r.1.store.m != h.store.m ==>
      && input.Some? && Truthy(input.value.transcript) && !h.store.m.announced
      && r.0.Some? && r.1.store.m.announced
    ensures input.Some? && !Truthy(input.value.transcript) && r.0.Some? ==> r.0 == Some("Task completed")
    ensures input.Some? && Truthy(input.value.transcript)
            && !(input.value.tool == Some("TodoWrite") && Contains(Lower(input.value.toolOutput), "completed")) ==>
      var got := MessagesSinceLastCheck(NewReader(input.value.transcript.value, input.value.session, h.store.file),
                                        log, parse, h.store.file, writable);
      && (got.0 == [] ==> r == (None, h.(store := h.store.(file := got.1.file))))
      && (got.0 != [] && !h.store.m.announced ==>
            && r.0.Some? && r.1.store.m.announced
            && (|Join(got.0, " ")| <= 400 ==> r.0 == Some(Join(got.0, " ")))
            && r.1.store == SaveState(Store(h.store.m.(announced := true), got.1.file), writable))
      && (h.store.m.announced ==>
            && r.1.store.m == h.store.m
            && (got.0 != [] ==> r.0 == LaterResponse(v, got.0, now, h.store.m.lastSpeech)))
  {
    if input.None? then (None, h)
    else
      var i := input.value;
      if i.tool == Some("TodoWrite") && Contains(Lower(i.toolOutput), "completed") then (Some("Task completed"), h)
      else if !Truthy(i.transcript) then (None, h)
      else
        var reader := NewReader(i.transcript.value, i.session, h.store.file);
        var got := MessagesSinceLastCheck(reader, log, parse, h.store.file, writable);
        var ts := got.0;
        var file := got.1.file;
        if ts == [] then (None, h.(store := h.store.(file := file)))
        else if !h.store.m.announced then
          var s := SaveState(Store(h.store.m.(announced := true), file), writable);
          (Some(FirstResponse(ts)), h.(store := s))
        else (LaterResponse(v, ts, now, h.store.m.lastSpeech), h.(store := h.store.(file := file)))
  }
  /** The first response is the joined messages when they fit in 400
      characters, and never longer than 400 when they hold no list. */
  lemma FirstResponseFits(ts: seq<string>)
    requires Patterns.SearchIn(Patterns.ListStart, Join(ts, " ")).None?
    ensures |FirstResponse(ts)| <= 400
  {
    ShortenBound(Join(ts, " "), 400, 100);
  }

  /** The cursor the manager loaded for `path`, or 0 when it has none. */
  function LoadedCursor(h: Handler, path: string): int {
    var ps := h.store.m.state.positions.GetOr(map[]);
    if path in ps then ps[path] else 0
  }

  /** As written, after a first response the next reader of the same
      session starts at the cursor the manager loaded when the process
      began, not where this reader stopped: `save_state` writes the
      manager's cursor map over the one the reader saved. When the manager
      loaded the cursors the file held, the next reader starts where this
      one started and reads the same messages again. */
  lemma NextReaderRestartsStale(h: Handler, input: HookInput, log: string, parse: string -> TranscriptLog.Entry,
                                now: int, v: Voice)
    requires Truthy(input.transcript) && !h.store.m.announced
    requires !(input.tool == Some("TodoWrite") && Contains(Lower(input.toolOutput), "completed"))
    requires !Truthy(input.session) || h.store.m.sessionId == input.session
    requires MessagesSinceLastCheck(NewReader(input.transcript.value, input.session, h.store.file), Some(log), parse, h.store.file, true).0 != []
    ensures var f := ProcessPostToolUse(h, Some(input), Some(log), parse, now, v, true).1.store.file;
      StartOf(NewReader(input.transcript.value, input.session, f), None) == LoadedCursor(h, input.transcript.value)
    ensures h.store.file.Stored? && h.store.file.doc.positions == h.store.m.state.positions
            && h.store.file.doc.sessionId == h.store.m.sessionId ==>
      var f := ProcessPostToolUse(h, Some(input), Some(log), parse, now, v, true).1.store.file;
      StartOf(NewReader(input.transcript.value, input.session, f), None)
      == StartOf(NewReader(input.transcript.value, input.session, h.store.file), None)
  {
    var path := input.transcript.value;
    var reader := NewReader(path, input.session, h.store.file);
    var x := ExtractRecent(reader, Some(log), None, parse, h.store.file, true);
    var s := SaveState(Store(h.store.m.(announced := true), x.file), true);
    assert ProcessPostToolUse(h, Some(input), Some(log), parse, now, v, true).1.store == s;
    assert s.file.doc.positions == h.store.m.state.positions;
    assert s.file.doc.sessionId == h.store.m.sessionId;
  }

  /** Corrected: with the save that keeps the file's cursors, the next
      reader of the same session starts where this one stopped. */
  lemma CorrectedSaveResumes(h: Handler, path: string, session: Option<string>, log: string,
                             parse: string -> TranscriptLog.Entry)
    requires !Truthy(session) || h.store.m.sessionId == session
    requires var reader := NewReader(path, session, h.store.file);
      && ScanOf(log, StartOf(reader, None), parse).Some?
      && ScanOf(log, StartOf(reader, None), parse).value.position > StartOf(reader, None)
    ensures var reader := NewReader(path, session, h.store.file);
      var x := ExtractRecent(reader, Some(log), None, parse, h.store.file, true);
      var f := SaveKeepingCursors(Store(h.store.m.(announced := true), x.file), true).file;
      StartOf(NewReader(path, session, f), None) == ScanOf(log, StartOf(reader, None), parse).value.position
  {
    var reader := NewReader(path, session, h.store.file);
    var pos := ScanOf(log, StartOf(reader, None), parse).value.position;
    var x := ExtractRecent(reader, Some(log), None, parse, h.store.file, true);
    assert x.reader == SavePosition(reader, pos);
    assert x.file == Stored(x.reader.state);
    var s := SaveKeepingCursors(Store(h.store.m.(announced := true), x.file), true);
    assert s.file.doc.positions == Some(reader.positions[path := pos]);
    assert s.file.doc.sessionId == h.store.m.sessionId;
  }

  // ---------------------------------------------------------------------
  // Speaking
  // ---------------------------------------------------------------------

  /** What the lock and the speech do on one call: the lock wait, the
      stamp file, the time the lock was taken, whether the speech
      returns, the clock after it (for the state) and at the stamp write. */
  datatype SpeechRun = SpeechRun(wait: SpeechLock.LockWait, stamp: SpeechLock.StampFile, lockedAt: int,
                                 body: SpeechLock.Body, spokenAt: int, finish: int)

  /** How `speak` ends: a duplicate skipped before the lock, the lock
      timeout swallowed, the speech's exception passed on to the caller,
      or spoken and recorded. */
  datatype Spoken = Duplicate | LockTimedOut | SinkRaised | Said

  /** The lock session a non-duplicate message runs. */
  function SessionFor(run: SpeechRun): SpeechLock.Session {
    SpeechLock.SessionOf(run.wait, run.stamp, run.lockedAt, SpeechLock.DefaultSpacing, run.body, run.finish)
  }

  /** Python `speak`: the deduplicator first (a duplicate returns at
      once), then the lock with one second of spacing, the speech, and,
      only once the speech has returned, the last speech time set and the
      state saved, inside the lock. A lock timeout is swallowed; the
      speech's own exception is not. */
  function Speak(h: Handler, message: string, now: int, hash: string -> nat, run: SpeechRun,
                 writable: bool): (r: (Spoken, Handler, Option<SpeechLock.Session>))
    ensures r.1.dedup == Dedup.IsDuplicate(h.dedup, message, now, hash).1 && r.1.announced == h.announced
    ensures r.0 == Duplicate <==> Dedup.Seen(h.dedup, message, now, hash)
    ensures r.2.None? <==> r.0 == Duplicate
    ensures r.2.Some? ==> r.2.value == SessionFor(run)
    ensures r.0 == LockTimedOut <==> r.2.Some? && run.wait.TimedOut?
    ensures r.0 == SinkRaised <==> r.2.Some? && run.wait.Locked? && run.body == SpeechLock.Raises
    ensures r.0 != Said ==> r.1.store == h.store
    ensures r.0 == Said ==>
      r.1.store == SaveState(Store(h.store.m.(lastSpeech := run.spokenAt), h.store.file), writable)
  {
    var d := Dedup.IsDuplicate(h.dedup, message, now, hash);
    var h1 := h.(dedup := d.1);
    if d.0 then (Duplicate, h1, None)
    else
      var s := SessionFor(run);
      match s.exit
      case Timeout => (LockTimedOut, h1, Some(s))
      case BodyError => (SinkRaised, h1, Some(s))
      case Done =>
        var m := h.store.m.(lastSpeech := run.spokenAt);
        (Said, h1.(store := SaveState(Store(m, h.store.file), writable)), Some(s))
  }

  /** The order inside `speak`: the state changes only for a message that
      was not a duplicate, whose speech was made under the lock and
      returned; the stamp is written after it and the lock released last. */
  lemma SpeakOrder(h: Handler, message: string, now: int, hash: string -> nat, run: SpeechRun, writable: bool)
    ensures var r := Speak(h, message, now, hash, run, writable);
      r.1.store != h.store ==>
        && !Dedup.Seen(h.dedup, message, now, hash)
        && r.2.Some? && SpeechLock.Speak in r.2.value.trace && SpeechLock.Write(run.finish) in r.2.value.trace
        && r.2.value.trace[|r.2.value.trace| - 1] == SpeechLock.Unlock
        && r.1.store.m.lastSpeech == run.spokenAt
  {
    var r := Speak(h, message, now, hash, run, writable);
    if r.1.store != h.store {
      SpeechLock.StampOnlyOnReturn(run.wait, run.stamp, run.lockedAt, SpeechLock.DefaultSpacing, run.body, run.finish);
      SpeechLock.SpeaksAtMostOnce(run.wait, run.stamp, run.lockedAt, SpeechLock.DefaultSpacing, run.body, run.finish);
      SpeechLock.ReleasedOnEveryPath(run.wait, run.stamp, run.lockedAt, SpeechLock.DefaultSpacing, run.body, run.finish);
      assert multiset(r.2.value.trace)[SpeechLock.Speak] == 1;
    }
  }

  /** A message spoken (or attempted) once is a duplicate when it comes
      again, at any later time: nothing is locked or spoken the second
      time. */
  lemma SecondTimeSkipped(h: Handler, message: string, now: int, later: int, hash: string -> nat,
                          run: SpeechRun, run': SpeechRun, writable: bool)
    requires message != "" && !Dedup.Seen(h.dedup, message, now, hash)
    ensures var h' := Speak(h, message, now, hash, run, writable).1;
      var r := Speak(h', message, later, hash, run', writable);
      r.0 == Duplicate && r.2.None? && r.1.store == h'.store
  {
    Dedup.LastTextNeverExpires(h.dedup, message, now, later, hash);
  }

  // ---------------------------------------------------------------------
  // Stop
  // ---------------------------------------------------------------------

  /** The latest new message of the transcript, read without a session
      id and cut to 350 characters, with the extraction it made. */
  function StopMessage(h: Handler, path: string, log: Option<string>, parse: string -> TranscriptLog.Entry,
                       writable: bool): (Option<string>, Extraction)
  {
    GetLastMessage(NewReader(path, None, h.store.file), log, parse, h.store.file, writable, 350, 50)
  }

  /** The message generator's `get_task_summary()`: the summary of the
      task context held by the handler's own state manager. */
  function StopSummary(h: Handler, t: Templates): (r: Option<string>)
    ensures r == GetTaskSummary(Some(h.store.m.context), t)
  {
    GetTaskSummary(Some(h.store.m.context), t)
  }

  /** Python `process_stop`: the latest new message closes the task, with
      the personality's closing; without one, the summary of this
      session's work does; with neither, nothing is said. Reading the
      transcript saves its cursor. */
  function ProcessStop(h: Handler, input: Option<HookInput>, log: Option<string>,
                       parse: string -> TranscriptLog.Entry, v: Voice, t: Templates,
                       writable: bool): (r: (Option<string>, Handler))
    ensures r.1.store.m == h.store.m && r.1.dedup == h.dedup && r.1.announced == h.announced
    ensures !(input.Some? && Truthy(input.value.transcript)) ==>
      r == (GetPersonalizedCompletion(v, None, GetTaskSummary(Some(h.store.m.context), t)), h)
    ensures input.Some? && Truthy(input.value.transcript) ==>
      var g := StopMessage(h, input.value.transcript.value, log, parse, writable);
      && r.1.store.file == g.1.file
      && (Truthy(g.0) ==> r.0.Some? && g.0.value + ". " <= r.0.value)
      && (!Truthy(g.0) ==> r.0 == GetPersonalizedCompletion(v, None, GetTaskSummary(Some(h.store.m.context), t)))
  {
    if input.Some? && Truthy(input.value.transcript) then
      var g := StopMessage(h, input.value.transcript.value, log, parse, writable);
      (GetPersonalizedCompletion(v, g.0, StopSummary(h, t)), h.(store := h.store.(file := g.1.file)))
    else (GetPersonalizedCompletion(v, None, StopSummary(h, t)), h)
  }

  /** Without a transcript, Stop speaks only when the session's task
      context records work, and then opens with that work's summary;
      a session that did nothing gets no announcement. */
  lemma StopWithoutTranscriptSummarises(h: Handler, input: Option<HookInput>, log: Option<string>,
                                        parse: string -> TranscriptLog.Entry, v: Voice, t: Templates, writable: bool)
    requires !(input.Some? && Truthy(input.value.transcript))
    ensures !DidWork(h.store.m.context) ==> ProcessStop(h, input, log, parse, v, t, writable).0.None?
    ensures ProcessStop(h, input, log, parse, v, t, writable).0.Some? ==>
      && DidWork(h.store.m.context)
      && Join(SummaryParts(h.store.m.context, t), ". ") + ". " <= ProcessStop(h, input, log, parse, v, t, writable).0.value
  {
    var ts := GetTaskSummary(Some(h.store.m.context), t);
    assert ProcessStop(h, input, log, parse, v, t, writable).0 == GetPersonalizedCompletion(v, None, ts);
  }

  /** When the newest new message cleans to at most 350 characters, the
      stop announcement starts with it. */
  lemma StopSpeaksLatest(h: Handler, input: HookInput, log: string, parse: string -> TranscriptLog.Entry,
                         v: Voice, t: Templates, writable: bool)
    requires Truthy(input.transcript)
    requires var x := ExtractRecent(NewReader(input.transcript.value, None, h.store.file), Some(log), None,
                                    parse, h.store.file, writable);
      && x.messages != []
      && Truthy(SpeechCleaning.Clean(x.messages[|x.messages| - 1].text))
      && |SpeechCleaning.Clean(x.messages[|x.messages| - 1].text).value| <= 350
    ensures var x := ExtractRecent(NewReader(input.transcript.value, None, h.store.file), Some(log), None,
                                   parse, h.store.file, writable);
      var r := ProcessStop(h, Some(input), Some(log), parse, v, t, writable).0;
      r.Some? && SpeechCleaning.Clean(x.messages[|x.messages| - 1].text).value + ". " <= r.value
  {
    var path := input.transcript.value;
    var x := ExtractRecent(NewReader(path, None, h.store.file), Some(log), None, parse, h.store.file, writable);
    var c := SpeechCleaning.Clean(x.messages[|x.messages| - 1].text).value;
    var g := StopMessage(h, path, Some(log), parse, writable);
    assert g.1 == x;
    assert g.0 == Some(c);
  }

  // ---------------------------------------------------------------------
  // Notification
  // ---------------------------------------------------------------------

  /** The phrase a permission notification carries. */
  const PermissionPhrase := "permission to use"

  /** The notification text: the input's `message`, `""` without an input. */
  function NotificationText(input: Option<HookInput>): string {
    if input.Some? then input.value.message else ""
  }

  /** The second part of `message.split(pat)`: the text between the first
      occurrence of `pat` and the next one (or the end); `None` when `pat`
      does not occur. */
  function SecondPart(message: string, pat: string): (r: Option<string>)
    requires pat != []
    ensures r.None? <==> !Contains(message, pat)
    ensures r.Some? ==> |r.value| <= |message| - |pat|
  {
    match Find(message, pat)
    case None => None
    case Some(i) =>
      var rest := message[i + |pat|..];
      match Find(rest, pat)
      case Some(j) => Some(rest[..j])
      case None => Some(rest)
  }

  /** Python `process_notification`: a permission notification asks for
      approval of the tool named after the phrase (stripped); any other
      notification, or one naming no tool, gives the generic request. */
  function ProcessNotification(v: Voice, input: Option<HookInput>): (r: string)
    ensures var part := SecondPart(NotificationText(input), PermissionPhrase);
      part.Some? && Strip(part.value) != "" ==> EndsWith(r, PermissionTail + Action(Strip(part.value)))
    ensures var part := SecondPart(NotificationText(input), PermissionPhrase);
      !(part.Some? && Strip(part.value) != "") ==> EndsWith(r, AttentionTail)
  {
    match SecondPart(NotificationText(input), PermissionPhrase)
    case Some(part) => GetApprovalRequestMessage(v, Some(Strip(part)))
    case None => GetApprovalRequestMessage(v, None)
  }

  /** In "<prefix>permission to use<tool>", with the phrase in neither
      part, the second part is the tool. */
  lemma PermissionTool(prefix: string, tool: string)
    requires !Contains(prefix, PermissionPhrase) && !Contains(tool, PermissionPhrase)
    ensures SecondPart(prefix + PermissionPhrase + tool, PermissionPhrase) == Some(tool)
  {
    var pat := PermissionPhrase;
    var s := prefix + pat + tool;
    var n := |prefix|;
    assert pat[0] == 'p';
    assert forall k :: 1 <= k < |pat| ==> pat[k] != 'p';
    assert s[n..n + |pat|] == pat;
    forall i | 0 <= i < n
      ensures !OccursAt(s, pat, i)
    {
      if i + |pat| <= n {
        assert s[i..i + |pat|] == prefix[i..i + |pat|];
        NotOccursAt(prefix, pat, i);
      } else if i + |pat| <= |s| {
        assert s[i..i + |pat|][n - i] == s[n] == 'p';
      }
    }
    assert OccursAt(s, pat, n);
    var f := Find(s, pat);
    assert f.Some? && !(f.value < n);
    assert f.value == n;
    assert s[n + |pat|..] == tool;
  }

  /** "Claude needs your permission to use Bash" style notifications ask
      for approval of the named tool. */
  lemma NotificationNamesTool(v: Voice, input: HookInput, prefix: string, tool: string)
    requires input.message == prefix + PermissionPhrase + tool
    requires !Contains(prefix, PermissionPhrase) && !Contains(tool, PermissionPhrase) && Strip(tool) != ""
    ensures EndsWith(ProcessNotification(v, Some(input)), PermissionTail + Action(Strip(tool)))
  {
    PermissionTool(prefix, tool);
  }
}
