/** The persisted session state shared by every hook invocation: one JSON
    document in a state file, read whole and written whole. The document
    is modelled by the keys the handler, the state manager and the
    transcript reader look at. A key the state manager always writes and
    reads back with a default (`last_speech_time`, `last_todos`,
    `initial_summary_announced`, `current_session_id`) is kept as its
    value, its absence standing as the default the reader of the key
    would use; `transcript_positions` and `task_context` keep their
    presence, because code branches on it. */
module StateStore {
  import opened Prelude

  /** The operation bookkeeping of the current task. `Bare` is the empty
      object `{}` the transcript reader writes when it found no state
      file; any lookup in it raises. */
  datatype TaskContext =
    | Tracked(created: seq<string>, modified: seq<string>, deleted: seq<string>,
              commands: seq<string>, searches: seq<string>, startTime: string, operations: int)
    | Bare

  /** A todo item as the todo tool reports it: the `id`, `status` and
      `content` keys (`None` when missing) and how many other keys it has. */
  datatype Todo = Todo(id: Option<string>, status: Option<string>, content: Option<string>, others: nat)

  /** The state document. */
  datatype StateDoc = StateDoc(
    positions: Option<map<string, int>>,
    context: Option<TaskContext>,
    lastSpeech: int,
    lastTodos: seq<Todo>,
    announced: bool,
    sessionId: Option<string>)

  /** The state file: missing, present but not decodable, or a document. */
  datatype StateFile = Missing | Unreadable | Stored(doc: StateDoc)

  /** Writing `doc` replaces the file when the write succeeds; a failed
      write leaves the file as it was. */
  function Persist(file: StateFile, doc: StateDoc, writable: bool): (r: StateFile)
    ensures writable ==> r == Stored(doc)
    ensures !writable ==> r == file
  {
    if writable then Stored(doc) else file
  }

  // ---------------------------------------------------------------------
  // Task context
  // ---------------------------------------------------------------------

  /** A fresh task context: no operations, five empty lists, started `now`. */
  function DefaultContext(now: string): (c: TaskContext)
    ensures c.Tracked? && c.operations == 0 && c.startTime == now
    ensures c.created == c.modified == c.deleted == c.commands == c.searches == []
  {
    Tracked([], [], [], [], [], now, 0)
  }

  /** The bookkeeping invariant: every list entry was added by a counted
      operation, so the lists together never hold more entries than the
      operation count. */
  predicate Consistent(c: TaskContext) {
    c.Tracked? && |c.created| + |c.modified| + |c.deleted| + |c.commands| + |c.searches| <= c.operations
  }

  /** The list an operation adds to, if any. */
  datatype Bucket = Created | Modified | Commands | Searches | NoBucket

  /** Which list the operation lands in: a written file, an edited file, a
      shell command, a search query; each only when the value is truthy,
      checked in that order. */
  function BucketOf(tool: Option<string>, path: Option<string>, command: Option<string>, query: Option<string>): (b: Bucket)
    ensures b == Created <==> tool == Some("Write") && Truthy(path)
    ensures b == Modified <==> tool in {Some("Edit"), Some("MultiEdit")} && Truthy(path)
    ensures b == Commands <==> tool == Some("Bash") && Truthy(command)
    ensures b == Searches <==> tool in {Some("Grep"), Some("Glob"), Some("WebSearch")} && Truthy(query)
  {
    if tool == Some("Write") && Truthy(path) then Created
    else if tool in {Some("Edit"), Some("MultiEdit")} && Truthy(path) then Modified
    else if tool == Some("Bash") && Truthy(command) then Commands
    else if tool in {Some("Grep"), Some("Glob"), Some("WebSearch")} && Truthy(query) then Searches
    else NoBucket
  }

  /** One operation recorded in a tracked context: the count goes up by
      one and at most one list grows, by the value given. */
  function Record(c: TaskContext, tool: Option<string>, path: Option<string>, command: Option<string>, query: Option<string>): (r: TaskContext)
    requires c.Tracked?
    ensures r.Tracked? && r.operations == c.operations + 1 && r.startTime == c.startTime && r.deleted == c.deleted
    ensures r.created == c.created + (if BucketOf(tool, path, command, query) == Created then [path.value] else [])
    ensures r.modified == c.modified + (if BucketOf(tool, path, command, query) == Modified then [path.value] else [])
    ensures r.commands == c.commands + (if BucketOf(tool, path, command, query) == Commands then [command.value] else [])
    ensures r.searches == c.searches + (if BucketOf(tool, path, command, query) == Searches then [query.value] else [])
  {
    var c1 := c.(operations := c.operations + 1);
    match BucketOf(tool, path, command, query)
    case Created => c1.(created := c.created + [path.value])
    case Modified => c1.(modified := c.modified + [path.value])
    case Commands => c1.(commands := c.commands + [command.value])
    case Searches => c1.(searches := c.searches + [query.value])
    case NoBucket => c1
  }

  /** Recording an operation keeps the bookkeeping invariant, and grows the
      lists by at most one entry in total. */
  lemma RecordConsistent(c: TaskContext, tool: Option<string>, path: Option<string>, command: Option<string>, query: Option<string>)
    requires Consistent(c)
    ensures Consistent(Record(c, tool, path, command, query))
    ensures var r := Record(c, tool, path, command, query);
      |r.created| + |r.modified| + |r.deleted| + |r.commands| + |r.searches|
        <= |c.created| + |c.modified| + |c.deleted| + |c.commands| + |c.searches| + 1
  {
  }

  // ---------------------------------------------------------------------
  // Loading
  // ---------------------------------------------------------------------

  /** Keeps the cursors of transcripts that still exist, unchanged. */
  method CleanOldPositions(positions: map<string, int>, present: string -> bool) returns (cleaned: map<string, int>)
    ensures forall p :: p in cleaned <==> p in positions && present(p)
    ensures forall p :: p in cleaned ==> cleaned[p] == positions[p]
  {
    cleaned := map[];
    var todo := positions.Keys;
    while todo != {}
      invariant todo <= positions.Keys
      invariant forall p :: p in cleaned <==> p in positions && p !in todo && present(p)
      invariant forall p :: p in cleaned ==> cleaned[p] == positions[p]
      decreases |todo|
    {
      var p :| p in todo;
      if present(p) {
        cleaned := cleaned[p := positions[p]];
      }
      todo := todo - {p};
    }
  }

  /** The cleaned cursors, as a value. */
  function Cleaned(positions: map<string, int>, present: string -> bool): map<string, int> {
    map p | p in positions && present(p) :: positions[p]
  }

  /** The document a state manager starts from: the stored document with
      its cursors cleaned, or, when the file is missing or unreadable, the
      default document with no cursors and a fresh task context. */
  function LoadState(file: StateFile, present: string -> bool, now: string): (d: StateDoc)
    ensures file.Stored? ==> d == file.doc.(positions := d.positions)
    ensures file.Stored? && file.doc.positions.None? ==> d.positions.None?
    ensures file.Stored? && file.doc.positions.Some? ==> d.positions == Some(Cleaned(file.doc.positions.value, present))
    ensures !file.Stored? ==> d == StateDoc(Some(map[]), Some(DefaultContext(now)), 0, [], false, None)
  {
    match file
    case Stored(doc) =>
      if doc.positions.Some? then doc.(positions := Some(Cleaned(doc.positions.value, present))) else doc
    case _ => StateDoc(Some(map[]), Some(DefaultContext(now)), 0, [], false, None)
  }

  /** A state manager: the loaded document and the tracked fields it
      keeps in memory. */
  datatype Manager = Manager(state: StateDoc, context: TaskContext, lastSpeech: int,
                             lastTodos: seq<Todo>, announced: bool, sessionId: Option<string>)

  /** The state manager in memory and the state file on disk. */
  datatype Store = Store(m: Manager, file: StateFile)

  /** A new state manager: the loaded document, with each tracked field
      taken from it (a missing task context becomes a fresh one). */
  function NewManager(file: StateFile, present: string -> bool, now: string): (m: Manager)
    ensures m.state == LoadState(file, present, now)
    ensures m.context == (if m.state.context.Some? then m.state.context.value else DefaultContext(now))
    ensures m.lastSpeech == m.state.lastSpeech && m.lastTodos == m.state.lastTodos
    ensures m.announced == m.state.announced && m.sessionId == m.state.sessionId
  {
    var d := LoadState(file, present, now);
    Manager(d, d.context.GetOr(DefaultContext(now)), d.lastSpeech, d.lastTodos, d.announced, d.sessionId)
  }

  /** A manager whose file was missing or unreadable starts from a fresh,
      consistent task context, no cursors and the key defaults. */
  lemma NewManagerDefaults(file: StateFile, present: string -> bool, now: string)
    requires !file.Stored?
    ensures var m := NewManager(file, present, now);
      && m.context == DefaultContext(now) && Consistent(m.context)
      && m.state.positions == Some(map[])
      && m.lastSpeech == 0 && m.lastTodos == [] && !m.announced && m.sessionId.None?
  {
  }

  // ---------------------------------------------------------------------
  // Saving
  // ---------------------------------------------------------------------

  /** The document with the five tracked fields written in. */
  function Saved(m: Manager): (d: StateDoc)
    ensures d.positions == m.state.positions
    ensures d.context == Some(m.context) && d.lastSpeech == m.lastSpeech && d.lastTodos == m.lastTodos
    ensures d.announced == m.announced && d.sessionId == m.sessionId
  {
    m.state.(context := Some(m.context), lastSpeech := m.lastSpeech, lastTodos := m.lastTodos,
             announced := m.announced, sessionId := m.sessionId)
  }

  /** Python `save_state`: the tracked fields go into the document, which
      is written whole; a failed write is ignored. */
  function SaveState(s: Store, writable: bool): (r: Store)
    ensures r.m == s.m.(state := Saved(s.m))
    ensures r.file == Persist(s.file, Saved(s.m), writable)
  {
    Store(s.m.(state := Saved(s.m)), Persist(s.file, Saved(s.m), writable))
  }

  /** Saving then loading gives back every tracked field; the cursors come
      back cleaned of transcripts that no longer exist. */
  lemma SaveLoadRoundTrip(s: Store, present: string -> bool, now: string)
    requires s.m.state.positions.Some?
    ensures var m := NewManager(SaveState(s, true).file, present, now);
      && m.context == s.m.context && m.lastSpeech == s.m.lastSpeech && m.lastTodos == s.m.lastTodos
      && m.announced == s.m.announced && m.sessionId == s.m.sessionId
      && m.state.positions == Some(Cleaned(s.m.state.positions.value, present))
  {
  }

  /** Cleaning cursors twice against the same existing transcripts changes
      nothing more. */
  lemma CleanedIdempotent(positions: map<string, int>, present: string -> bool)
    ensures Cleaned(Cleaned(positions, present), present) == Cleaned(positions, present)
  {
  }

  // ---------------------------------------------------------------------
  // Operations
  // ---------------------------------------------------------------------

  /** Python `update_context`: one operation recorded, then saved. A bare
      `{}` task context has no count to increment: the lookup raises, shown
      as `None`. */
  function UpdateContext(s: Store, tool: Option<string>, path: Option<string>, command: Option<string>,
                         query: Option<string>, writable: bool): (r: Option<Store>)
    ensures r.None? <==> s.m.context.Bare?
    ensures r.Some? ==> r.value == SaveState(Store(s.m.(context := Record(s.m.context, tool, path, command, query)), s.file), writable)
  {
    if s.m.context.Bare? then None
    else Some(SaveState(Store(s.m.(context := Record(s.m.context, tool, path, command, query)), s.file), writable))
  }

  /** Python `reset_task_context`: a fresh context, the announcement flag
      and the todo snapshot cleared, cursors emptied if the key is there;
      the session id and last speech time are kept. Then saved. */
  function ResetTaskContext(s: Store, now: string, writable: bool): (r: Store)
    ensures r.m.context == DefaultContext(now) && Consistent(r.m.context)
    ensures !r.m.announced && r.m.lastTodos == []
    ensures r.m.sessionId == s.m.sessionId && r.m.lastSpeech == s.m.lastSpeech
    ensures r.m.state.positions == (if s.m.state.positions.Some? then Some(map[]) else None)
    ensures r.file == Persist(s.file, r.m.state, writable)
  {
    var ps := if s.m.state.positions.Some? then Some(map[]) else None;
    var m := s.m.(context := DefaultContext(now), announced := false, lastTodos := [], state := s.m.state.(positions := ps));
    SaveState(Store(m, s.file), writable)
  }

  // ---------------------------------------------------------------------
  // Todo completion
  // ---------------------------------------------------------------------

  /** Python truthiness of a todo object: it has at least one key. */
  predicate NonEmpty(t: Todo) {
    t.id.Some? || t.status.Some? || t.content.Some? || t.others > 0
  }

  /** The lookup `{todo.get('id'): todo for todo in todos}`: built left to
      right, so the last todo with a given id wins (todos without an id
      share the key `None`). */
  function ById(todos: seq<Todo>): map<Option<string>, Todo>
    decreases |todos|
  {
    if todos == [] then map[]
    else ById(todos[..|todos| - 1])[todos[|todos| - 1].id := todos[|todos| - 1]]
  }

  /** Reference for the lookup: an id maps to the todo at the last index
      carrying it, and to nothing when no todo carries it. */
  lemma {:induction false} ByIdLast(todos: seq<Todo>, i: nat)
    requires i < |todos|
    requires forall j :: i < j < |todos| ==> todos[j].id != todos[i].id
    ensures todos[i].id in ById(todos) && ById(todos)[todos[i].id] == todos[i]
    decreases |todos|
  {
    var n := |todos| - 1;
    if i < n {
      ByIdLast(todos[..n], i);
    }
  }

  lemma {:induction false} ByIdKeys(todos: seq<Todo>, id: Option<string>)
    ensures id in ById(todos) <==> exists i :: 0 <= i < |todos| && todos[i].id == id
    decreases |todos|
  {
    if todos != [] {
      var n := |todos| - 1;
      ByIdKeys(todos[..n], id);
      if id in ById(todos[..n]) {
        var i :| 0 <= i < n && todos[..n][i].id == id;
        assert todos[i].id == id;
      }
      if id != todos[n].id && exists i :: 0 <= i < |todos| && todos[i].id == id {
        var i :| 0 <= i < |todos| && todos[i].id == id;
        assert todos[..n][i].id == id;
      }
    }
  }

  /** Whether a new todo counts as just completed against the lookup: an
      earlier todo (a non-empty one) has its id, its status (default `pending`)
      was not `completed`, and the new status is `completed`. */
  predicate JustCompleted(prev: map<Option<string>, Todo>, t: Todo) {
    t.id in prev && NonEmpty(prev[t.id])
    && prev[t.id].status.GetOr("pending") != "completed"
    && t.status.GetOr("pending") == "completed"
  }

  /** The contents (default `task`) of the just-completed new todos, in
      the order of the new list. */
  function CompletedContents(prev: map<Option<string>, Todo>, news: seq<Todo>): (r: seq<string>)
    ensures |r| <= |news|
    ensures (forall t :: t in news ==> t.id !in prev) ==> r == []
  {
    if news == [] then []
    else
      (if JustCompleted(prev, news[0]) then [news[0].content.GetOr("task")] else [])
      + CompletedContents(prev, news[1..])
  }

  /** Python `detect_completed_todos`: the completed contents against the
      stored snapshot; the snapshot becomes the new list and is saved. */
  function DetectCompletedTodos(s: Store, news: seq<Todo>, writable: bool): (r: (seq<string>, Store))
    ensures r.0 == CompletedContents(ById(s.m.lastTodos), news)
    ensures r.1.m.lastTodos == news
    ensures r.1 == SaveState(Store(s.m.(lastTodos := news), s.file), writable)
  {
    (CompletedContents(ById(s.m.lastTodos), news), SaveState(Store(s.m.(lastTodos := news), s.file), writable))
  }

  /** An id that was not in the previous snapshot is never reported. */
  lemma {:induction false} UnknownIdsNotReported(prev: seq<Todo>, news: seq<Todo>)
    requires forall i, j :: 0 <= i < |news| && 0 <= j < |prev| ==> news[i].id != prev[j].id
    ensures CompletedContents(ById(prev), news) == []
  {
    forall t | t in news ensures t.id !in ById(prev) {
      ByIdKeys(prev, t.id);
    }
  }

  /** Ids all distinct: each todo is the last carrying its id. */
  predicate DistinctIds(todos: seq<Todo>) {
    forall i, j :: 0 <= i < j < |todos| ==> todos[i].id != todos[j].id
  }

  /** With distinct ids, diffing a list against itself reports nothing,
      so repeating a call with the same list reports nothing the second
      time. */
  lemma RepeatReportsNothing(s: Store, news: seq<Todo>, writable: bool)
    requires DistinctIds(news)
    ensures DetectCompletedTodos(DetectCompletedTodos(s, news, writable).1, news, writable).0 == []
  {
    var lookup := ById(news);
    forall i | 0 <= i < |news| ensures !JustCompleted(lookup, news[i]) {
      ByIdLast(news, i);
    }
    NothingJustCompleted(lookup, news);
  }

  lemma {:induction false} NothingJustCompleted(prev: map<Option<string>, Todo>, news: seq<Todo>)
    requires forall i :: 0 <= i < |news| ==> !JustCompleted(prev, news[i])
    ensures CompletedContents(prev, news) == []
    decreases |news|
  {
    if news != [] {
      NothingJustCompleted(prev, news[1..]);
    }
  }

  /** Without distinct ids the repeat can report: the lookup holds the
      last todo with an id, so an earlier completed todo with the same id
      is compared against a later pending one. */
  lemma RepeatWithSharedId()
    ensures var a := Todo(Some("1"), Some("completed"), Some("Write tests"), 0);
      var b := Todo(Some("1"), Some("pending"), Some("Write docs"), 0);
      CompletedContents(ById([a, b]), [a, b]) == ["Write tests"]
  {
    var a := Todo(Some("1"), Some("completed"), Some("Write tests"), 0);
    var b := Todo(Some("1"), Some("pending"), Some("Write docs"), 0);
    assert [a, b][..1] == [a];
    assert [a][..0] == [];
    assert ById([a]) == map[Some("1") := a];
    assert ById([a, b]) == map[Some("1") := b];
    assert [a, b][1..] == [b];
  }
}
