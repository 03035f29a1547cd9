# Voice notifications for a coding assistant, in Dafny

The system speaks short announcements while a coding assistant works. The
assistant runs one short-lived process per hook event (`UserPromptSubmit`,
`PreToolUse`, `PostToolUse`, `Stop`, `Notification`). Each process works out
what to say from four sources: the event's input, the assistant's
line-delimited JSON transcript, a shared state file, and its configuration.
It then checks the text against a deduplicator and speaks it under an
inter-process lock that keeps consecutive speeches at least one second apart.

This project models the decision logic and the text it produces, and proves
properties of it:

- **Transcript mining** (`TranscriptLog`, `TranscriptReader`, `Utf8`):
  - A byte cursor per transcript, advanced by the UTF-8 length of every line
    read, including a trailing unterminated one.
  - Only the stripped, non-empty text items of assistant records are taken;
    malformed lines are skipped.
  - A new session resets every cursor.
- **Cleaning and summaries** (`SpeechCleaning`, `Patterns`, `Summarize`,
  `Approval`):
  - Messages are cleaned in order: code fence, JSON payload, path-heavy text,
    whitespace, markdown markers.
  - Summaries are built from sentences or from lists, with the regular
    expressions written out as matchers.
  - Approval requests are detected by phrase.
- **Shared state** (`StateStore`): load with fallback, cursor cleaning, save,
  operation bookkeeping, session reset, and todo-completion diffing.
- **Deduplication** (`Dedup`): a time-windowed hash cache plus a check
  against the last text.
- **Speech pacing** (`SpeechLock`): a state machine. It polls the lock until
  a timeout, paces, runs the speech, writes the stamp, and releases the lock
  on every path.
- **Messages** (`Messages`, `Paths`): todo past tense, read and edit
  announcements built on `pathlib`'s name, suffix and stem, the task
  summary, contextual and mapped messages, approval and completion wording.
- **Speech text** (`SpeechText`): `format_message_for_speech`, and the guards
  in front of the network engine.
- **Event decisions** (`Handler`): hook gating, per-tool rate limiting, and
  each hook's cascade. `speak` runs dedup first, then the lock, then the
  speech, then the state update.

Conventions:

- Time is an integer number of milliseconds.
- Clocks, file existence, JSON decoding, the MD5 hash, lock attempts, the
  speech sink and random choices are parameters.
- A failed state-file write is a `writable: bool` parameter; the file keeps
  its old content.
- `None`-or-value lookups use `Option`.

Two behaviours of the code shape the model:

- **A speech that raises writes no stamp.** The last-spoken stamp is
  written after the `yield` of a `@contextmanager` (speech_lock.py:77-82),
  so an exception from the speech skips it. `speak` does not catch that
  exception (voice_handler.py:131-139). `SpeechLock.SessionOf` and
  `Handler.Speak` model this.
- **The state file is written several times in one event.** On a first
  response, the transcript reader saves its cursor (transcript_reader.py:36-44),
  then the state manager saves its own document whole
  (voice_handler.py:269-271, state_manager.py:86-100). A speech saves that
  document again (voice_handler.py:135-136). The second finding below comes
  from this.

## Model

| member | source | states |
|---|---|---|
| Utf8.ByteLen | transcript_reader.py:72 | A line's UTF-8 length is at least its character count, at most four times it, and positive for a non-empty line |
| Utf8.ByteLenAppend | transcript_reader.py:71-72 | Byte lengths add up over concatenation, so counting line by line counts the joined text |
| Utf8.TailAt | transcript_reader.py:63-69 | Seeking to byte `k` leaves a suffix whose preceding prefix has exactly `k` bytes. Decoding fails only when `k` falls inside a character; seeking past the end leaves nothing |
| Prelude.PyPrefix | transcript_reader.py:157 | Python `s[:n]` is a prefix of `s` of length `n` clipped to the text, counted from the end for negative `n` |
| Prelude.ScaleTenths | transcript_reader.py:161 | `int(n * 0.9)` and `int(n * 0.6)` truncate: the result lies within one unit below the exact product |
| TranscriptLog.ItemText | transcript_reader.py:85-87 | A content item yields at most one text |
| TranscriptLog.StrippedTextsAreStripped | transcript_reader.py:86-87 | Every collected text is non-empty and already stripped |
| TranscriptLog.ItemTextsAgree | transcript_reader.py:84-93 | The item loop raises exactly when some item raises. Otherwise it collects every stripped text of the `text` items; in all cases it collects a prefix of them |
| TranscriptLog.EntryTexts | transcript_reader.py:74-95 | A malformed line yields nothing and does not abort; a non-object raises. Texts come only from records of type "assistant" |
| TranscriptLog.EntryTextsAgree | transcript_reader.py:78-93 | A record yields all of its assistant texts (type and role "assistant", content items of type "text") when nothing raised, and a prefix of them otherwise |
| TranscriptLog.SplitLines | transcript_reader.py:69 | The lines `readlines` returns join back to the text read |
| TranscriptLog.SplitLinesShape | transcript_reader.py:69 | Lines are non-empty, every line but the last ends in a newline, and none holds a newline before its end |
| TranscriptLog.ScanCursor | transcript_reader.py:60-72 | The offset reached is the start plus the UTF-8 length of the lines consumed |
| TranscriptLog.ScanStops | transcript_reader.py:71-97 | The scan stops early only at a line whose reading raised, and no earlier line raised |
| TranscriptLog.ScanTexts | transcript_reader.py:71-95 | The texts found are the assistant texts of the lines in file order: all of them when no line raised, a prefix otherwise |
| TranscriptLog.ScanPositions | transcript_reader.py:72-92 | Every message carries a running offset after some line, strictly after the start and at most the offset reached; offsets never decrease |
| TranscriptLog.LineOffsets | transcript_reader.py:72-92 | The offset recorded after line `j` is the start plus the UTF-8 length of the first `j + 1` lines |
| TranscriptLog.LineMessagesFacts | transcript_reader.py:88-93 | A line gives one message per text, in order, each stamped with the offset after that line |
| TranscriptLog.ScanOfWholeText | transcript_reader.py:60-72 | Reading every line moves the cursor by the UTF-8 length of the whole text, a trailing unterminated line included |
| TranscriptReader.ReaderLoad | transcript_reader.py:23-34 | The reader takes the stored document as is, or the fallback with no cursors when the file is missing or unreadable |
| TranscriptReader.NewReader | transcript_reader.py:12-21 | A session id that differs from the stored one clears every cursor; no session id keeps the stored cursors |
| TranscriptReader.NewSessionReadsFromStart | transcript_reader.py:19-21 | A new session reads from offset 0; without a session id, reading starts at the stored cursor, or 0 when there is none |
| TranscriptReader.Unread | transcript_reader.py:62-69 | A non-positive start reads the whole transcript; a positive one seeks to that byte |
| TranscriptReader.SavePosition | transcript_reader.py:36-45 | Saving moves only this transcript's cursor and writes the cursor map into the document |
| TranscriptReader.ExtractRecent | transcript_reader.py:47-103 | A missing transcript gives no messages and changes nothing. Otherwise the messages are the scan's, and the cursor is saved (and the file written when writable) exactly when it advanced |
| TranscriptReader.ScanOf | transcript_reader.py:62-69 | The scan fails exactly when decoding from the start offset fails |
| TranscriptReader.ExtractTexts | transcript_reader.py:71-95 | Extracted texts are the transcript's assistant texts after the cursor, in order: all of them unless a line raised |
| TranscriptReader.ExtractPositions | transcript_reader.py:88-101 | Message offsets lie after the start and up to the new cursor, in non-decreasing order |
| TranscriptReader.UnreadLength | transcript_reader.py:63-72 | The start plus the UTF-8 length of the rest is the transcript's length |
| TranscriptReader.ExtractReachesEnd | transcript_reader.py:60-101 | After a full read the saved cursor is the transcript's UTF-8 length |
| TranscriptReader.ExtractAtEndIsIdle | transcript_reader.py:99-103 | Reading at the end finds nothing and changes neither the reader nor the file |
| TranscriptReader.ExtractTwice | transcript_reader.py:99-103 | Reading again with nothing appended returns nothing and leaves the cursor and the file as they were |
| TranscriptReader.LastSpoken | transcript_reader.py:114-132 | Nothing when the text cleans to nothing. The cleaned text unchanged when it fits `max_length`; its meaningful summary otherwise |
| TranscriptReader.LastSpokenBound | transcript_reader.py:125-132 | Without a list, the last message as spoken never exceeds `max_length` (for `max_length >= 3`) |
| TranscriptReader.GetLastMessage | transcript_reader.py:105-132 | Nothing when there are no new messages; otherwise the newest one as `LastSpoken` prepares it, after the same extraction |
| TranscriptReader.CleanedTexts | transcript_reader.py:313-317 | At most one non-empty cleaned text per message |
| TranscriptReader.CleanedTextsAll | transcript_reader.py:313-319 | Every message yields a text exactly when each one cleans to something |
| TranscriptReader.MessagesSinceLastCheck | transcript_reader.py:309-319 | The new messages, cleaned, with those that clean to nothing dropped, after one extraction |
| SpeechCleaning.PairAt | transcript_reader.py:303-305 | A match of `d(.*?)d` is the delimiter, the inner text, the delimiter, and the rest |
| SpeechCleaning.PairAtLazy | transcript_reader.py:303-305 | The match is the lazy one: the inner text has no line break and no `d` starts inside it. There is no match exactly when the text does not start with `d` or every later `d` has a line break before it |
| SpeechCleaning.StripPairsKeeps | transcript_reader.py:303-305 | Removing delimiter pairs deletes only delimiter characters; every other character survives in order |
| SpeechCleaning.StripPairsLeavesOne | transcript_reader.py:304-305 | On one line, removing pairs of a one-character marker leaves at most one such marker |
| SpeechCleaning.Clean | transcript_reader.py:283-307 | Returns None exactly when there is no fence and the text looks like JSON or has more than five slashes or backslashes; an empty `Some("")` result (a message that opens with a fence, or only markup) is dropped later by the callers |
| SpeechCleaning.CleanFenced | transcript_reader.py:286-289 | A fenced message keeps the non-space characters before its first fence, in order, holds no fence, and never returns None |
| SpeechCleaning.CleanSpoken | transcript_reader.py:299-307 | Every visible character survives in order, the only whitespace left is ' ', and at most one '*' and one '`' remain |
| SpeechCleaning.SpokenVisible | transcript_reader.py:299-307 | Collapsing whitespace and removing markers keeps every visible character in order |
| SpeechCleaning.SpokenSpaces | transcript_reader.py:300 | After `' '.join(text.split())` the only whitespace is ' ' |
| SpeechCleaning.SpokenMarkers | transcript_reader.py:303-305 | After the three substitutions at most one italic and one inline-code marker remain |
| Approval.AnyPhraseFrom | transcript_reader.py:378 | True exactly when one of the phrases from the given index on occurs |
| Approval.DetectApprovalRequest | transcript_reader.py:321-378 | False for empty text; otherwise true exactly when the lower-cased text contains one of the 38 phrases |
| Approval.ApprovalAsked | transcript_reader.py:331-378 | "Should I proceed with the deployment?" is an approval request |
| Approval.ApprovalNotAsked | transcript_reader.py:331-378 | "The build succeeded." is not |
| Patterns.MarkerEnd | transcript_reader.py:144 | The list marker is `*`, `-`, or digits followed by a dot |
| Patterns.SearchIn | transcript_reader.py:144-145 | `re.search` finds the leftmost match; no match starts before it, and none exists when it finds none |
| Patterns.SplitText | transcript_reader.py:151 | `re.split` loses nothing: the pieces and the matched separators rejoin to the text |
| Patterns.SplitPiece | transcript_reader.py:151 | `re.split` cuts only at matches: each piece sits in the text at its start and no match starts inside it. The separator after a piece is the match where the piece ends, and the next piece starts where that match ends |
| Summarize.StrippedNonEmptyKeeps | transcript_reader.py:154 | The cleaned list is the stripped inputs with the empty ones dropped, in input order |
| Summarize.Sentences | transcript_reader.py:150-154 | Sentences are non-empty |
| Summarize.Punct | transcript_reader.py:165-166 | A period is added exactly when a non-empty sentence does not end in `.`, `!` or `?` |
| Summarize.FirstSeparator | transcript_reader.py:189-194 | The break point used is the first of ". ", ", ", " - ", ": " that occurs in the head, in that order |
| Summarize.CutFirst | transcript_reader.py:186-197 | An over-long first sentence is cut just after the last occurrence of the chosen break point in its head, or else to `max_length - 3` characters and "..." |
| Summarize.GatherJoins | transcript_reader.py:159-184 | Unless the first sentence is cut, the gathered summary is the first sentences used, punctuated, joined by single spaces |
| Summarize.GatherBound | transcript_reader.py:159-198 | The gathered summary never exceeds `max_length` |
| Summarize.PadFrom | transcript_reader.py:200-207 | Padding adds " ", part of a sentence and "..." only to a short summary, and keeps it within `max_length` |
| Summarize.SentenceSummaryBound | transcript_reader.py:156-209 | A sentence summary never exceeds `max_length` (for `max_length >= 3`), both as written and corrected |
| Summarize.SentenceSummaryShape | transcript_reader.py:159-209 | As written: the summary is the first sentences used, joined, possibly followed by a prefix of `sentences[1]` and "...", whether or not that sentence is already used |
| Summarize.CorrectedSummaryShape | transcript_reader.py:200-207 | Corrected: the padding is a prefix of the first sentence not yet used |
| Summarize.AsWrittenAgreesWhenOneUsed | transcript_reader.py:200-207 | When the loop used exactly one sentence, the summary as written and the corrected one are the same |
| Summarize.PadRepeatsSentence | transcript_reader.py:200-207 | As written: for three sentences "Ok.", "Twelve chars." and a long one, the padding repeats "Twelve chars." |
| Summarize.PadTakesNextSentence | transcript_reader.py:200-207 | Corrected: the same input is padded from the third sentence |
| Summarize.ExampleGathering | transcript_reader.py:163-184 | On that input the loop stops after two sentences, with summary "Ok. Twelve chars." |
| Summarize.TwoShortThenLong | transcript_reader.py:159-184 | Two finished sentences that stay under `min_length`, followed by one that passes the target, give those two joined and stop |
| Summarize.DropMarker | transcript_reader.py:250 | Removing a leading marker only drops a prefix |
| Summarize.PickItemsFirstTwo | transcript_reader.py:248-259 | The list loop keeps exactly the first two non-empty cleaned items, or all of them when fewer |
| Summarize.IntroHead | transcript_reader.py:237-243 | A non-empty intro is forced to end with ':'; an empty one gives nothing |
| Summarize.ItemsLine | transcript_reader.py:262-268 | One item is added after a space; two are added as "first, second" with the second lower-cased |
| Summarize.WithMore | transcript_reader.py:270-275 | " and N more" is appended exactly when items remain and the result still fits `max_length` |
| Summarize.ListItems | transcript_reader.py:226-235 | List items are non-empty |
| Summarize.ListSummary | transcript_reader.py:211-281 | The result ends in `.`, `!` or `?`, or is "Completed tasks" |
| Summarize.ListSummaryKeepsIntro | transcript_reader.py:216-243 | The whole intro is always kept, whatever `max_length` is: the list path has no length cap |
| Summarize.MeaningfulSummaryBound | transcript_reader.py:142-209 | Without a list, the summary never exceeds `max_length` (for `max_length >= 3`) |
| StateStore.Persist | state_manager.py:95-100 | A successful write replaces the file; a failed one is swallowed and leaves it as it was |
| StateStore.DefaultContext | state_manager.py:31-46 | A fresh context has no operations, five empty lists and the given start time |
| StateStore.BucketOf | state_manager.py:114-121 | Write with a path → created. Edit or MultiEdit with a path → modified. Bash with a command → commands. Grep, Glob or WebSearch with a query → searches |
| StateStore.Record | state_manager.py:112-121 | The count goes up by exactly one; at most one list grows, by the value given; deletions and the start time are untouched |
| StateStore.RecordConsistent | state_manager.py:112-121 | Recording keeps the bookkeeping invariant and adds at most one entry in total |
| StateStore.CleanOldPositions | state_manager.py:70-84 | Exactly the cursors of transcripts that still exist are kept, with their values |
| StateStore.CleanedIdempotent | state_manager.py:80-84 | Cleaning twice changes nothing more |
| StateStore.LoadState | state_manager.py:48-68 | A stored document loads with its cursors cleaned; a missing or unreadable file gives the default document |
| StateStore.NewManager | state_manager.py:16-29 | Each tracked field comes from the loaded document; a missing task context becomes a fresh one |
| StateStore.NewManagerDefaults | state_manager.py:24-29 | With no readable file the manager starts from a fresh context, no cursors, time 0, no todos, not announced, no session |
| StateStore.Saved | state_manager.py:90-94 | The five tracked fields are written into the document; the cursors are kept as the manager loaded them |
| StateStore.SaveState | state_manager.py:86-100 | The document with the tracked fields is written whole; a failed write is ignored |
| StateStore.SaveLoadRoundTrip | state_manager.py:48-100 | Saving and loading again gives back every tracked field, with the cursors cleaned |
| StateStore.UpdateContext | state_manager.py:102-123 | The operation is recorded and the state saved; it fails exactly when the stored context is `{}` |
| StateStore.ResetTaskContext | state_manager.py:125-133 | Fresh context, not announced, no todos, cursors emptied if present; session id and last speech time kept; then saved |
| StateStore.ByIdLast | state_manager.py:148 | An id maps to the last todo carrying it |
| StateStore.ByIdKeys | state_manager.py:148 | An id is a key exactly when some todo carries it |
| StateStore.CompletedContents | state_manager.py:150-161 | New todos whose ids were all unknown report nothing |
| StateStore.DetectCompletedTodos | state_manager.py:135-167 | Reports the contents of the just-completed todos against the snapshot; the snapshot becomes the new list and is saved |
| StateStore.UnknownIdsNotReported | state_manager.py:148-155 | An id absent from the previous snapshot is never reported |
| StateStore.RepeatReportsNothing | state_manager.py:148-165 | The same list twice in a row reports nothing the second time (ids distinct) |
| StateStore.NothingJustCompleted | state_manager.py:155-161 | No todo that just turned completed means nothing is reported |
| StateStore.RepeatWithSharedId | state_manager.py:148-161 | With a repeated id, the lookup keeps the later todo, so the earlier one is compared against it |
| Dedup.NewDedup | deduplication.py:15-24 | A new deduplicator has an empty cache and no last text |
| Dedup.Pruned | deduplication.py:47-51 | Exactly the entries younger than the window are kept, in order |
| Dedup.FindHash | deduplication.py:53-56 | The hash is found exactly when a retained entry carries it |
| Dedup.IsDuplicate | deduplication.py:26-61 | An empty text is never a duplicate and changes nothing. The last text is one and changes nothing. A hash hit only prunes. Anything else appends one stamp and becomes the last text |
| Dedup.IsDuplicateKeepsFresh | deduplication.py:47-51 | After a check that reaches the cache, every entry is younger than the window |
| Dedup.LastTextNeverExpires | deduplication.py:40-41 | A text accepted once is a duplicate at any later time |
| Dedup.TwiceInARow | deduplication.py:36-61 | The same text twice in a row: not a duplicate, then a duplicate |
| Dedup.HashExpires | deduplication.py:47-61 | Once every cached entry has aged past the window, a text other than the last is new |
| Dedup.ClearCache | deduplication.py:63-66 | Clearing empties the cache and the last text |
| Dedup.ClearedForgetsAll | deduplication.py:63-66 | After clearing, no non-empty text is a duplicate |
| SpeechLock.WaitForLock | speech_lock.py:45-60 | Every earlier attempt failed within the timeout; it ends holding the lock, or failing after more than the timeout; it made at most one attempt per poll interval of the timeout |
| SpeechLock.Pause | speech_lock.py:62-75 | With a stamp less than `spacing` old, the pause ends exactly `spacing` after it; otherwise, or without a usable stamp, there is no pause |
| SpeechLock.Retries | speech_lock.py:56-60 | One sleep per failed attempt |
| SpeechLock.SessionOf | speech_lock.py:45-89 | Timeout exactly when the wait timed out; the speech's error exactly when it raised; a new stamp exactly on normal return |
| SpeechLock.Acquire | speech_lock.py:35-89 | Raises the timeout exactly when some attempt failed after the timeout, all earlier ones failing within it; the stamp is rewritten exactly when the speech returned |
| SpeechLock.ReleasedOnEveryPath | speech_lock.py:84-89 | The lock is released exactly once, as the last step, on every path |
| SpeechLock.SpeaksAtMostOnce | speech_lock.py:77-78 | The speech runs once, or never when the lock timed out |
| SpeechLock.StampOnlyOnReturn | speech_lock.py:77-82 | The stamp is written exactly when the speech returned, at most once |
| SpeechLock.SpeaksUnderLock | speech_lock.py:52-78 | The speech comes after the lock is taken and before it is released |
| Paths.Name | message_generator.py:473 | `Path.name` holds no separator and is not "." |
| Paths.NameOfJoin | message_generator.py:472-473 | The name of "dir/component" is the component |
| Paths.Suffix | message_generator.py:474 | The suffix is empty, or a dot followed by a dot-free, non-empty rest |
| Paths.StemSuffix | message_generator.py:474-525 | Stem and suffix split the name, with a non-empty stem whenever there is a suffix |
| Paths.SplitExtension | message_generator.py:474-525 | "stem.ext" has suffix ".ext" and stem "stem" |
| Paths.Extension | message_generator.py:446 | Empty exactly when there is no suffix; otherwise the lower-cased suffix without its dot |
| Messages.PersonalityOf | message_generator.py:319-330 | "butler" and "casual" select those personalities; anything else is the friendly one |
| Messages.ToolActionPhrase | message_generator.py:30-46 | Only TodoWrite and ExitPlanMode have the empty phrase |
| Messages.MatchedVerb | message_generator.py:289-305 | The first task verb, in the source's order, that followed by a space begins the lower-cased task |
| Messages.FormatTodoCompletion | message_generator.py:279-308 | A matched verb gives its past tense and the task's remainder as written; otherwise "Completed: " and the task |
| Messages.VerbsDistinct | message_generator.py:292-305 | At most one verb matches |
| Messages.TodoInPastTense | message_generator.py:289-305 | A head that reads as a verb and a space, in any case, becomes the past tense and the untouched remainder |
| Messages.FixedExample | message_generator.py:300-301 | "Fix the parser" becomes "Fixed the parser" |
| Messages.AddedExample | message_generator.py:292-293 | "ADD tests" becomes "Added tests" |
| Messages.FormatReadAnnouncement | message_generator.py:432-457 | "Reading " and a prefix of the name; the whole name unless the extension is a programming one |
| Messages.ReadProgrammingFile | message_generator.py:445-454 | A programming file is announced by its stem |
| Messages.SpokenType | message_generator.py:521-522 | An unmapped extension is spoken as the extension and " file" |
| Messages.FormatEditAnnouncement | message_generator.py:459-528 | With an extension: "Editing ", the spoken type and the stem. Without one: "Editing " and the name |
| Messages.EditFile | message_generator.py:472-526 | "dir/stem.ext" is announced by the type of the lower-cased extension and the stem |
| Messages.DotFileHasNoType | message_generator.py:474-528 | ".gitignore" has no suffix, so it is announced by its name and not through the "gitignore" entry |
| Messages.SummaryParts | message_generator.py:105-127 | No parts exactly when no distinct created or modified file, no command and no search |
| Messages.GetTaskSummary | message_generator.py:89-133 | A summary exactly when there is a context with operations and some work; the parts joined by ". " |
| Messages.SummaryCountsCommands | message_generator.py:110-124 | A session that ran commands says "Ran N commands" |
| Messages.RewriteKeepsSummary | message_generator.py:108 | Writing an already-created file again does not change the summary: created files count once |
| Messages.GetMappedMessage | message_generator.py:196-220 | The tool's entry, else the hook's entry, else "Claude Code notification" |
| Messages.ToolEntryFirst | message_generator.py:207-211 | A tool entry wins over the hook's |
| Messages.ShortCommand | message_generator.py:187-190 | A command over 30 characters is cut to 27 and "..."; the result is at most 30 |
| Messages.GetContextualMessage | message_generator.py:135-194 | UserPromptSubmit gives nothing; a listed tool before use gives its phrase; Stop gives the task summary; without a tool, the mapped message. For Bash, a command passed as `None` raises `TypeError` and a missing one reads "command" |
| Messages.QueryText | message_generator.py:180-183 | The search text is the query passed, "items" when none is passed, and "None" when `None` is passed |
| Messages.ContextualNamesOnlyFile | message_generator.py:170-178 | A read or edit announcement depends on the path only through `Path(...).name` |
| Messages.LongCommandsAnnouncedAlike | message_generator.py:185-191 | Long commands that agree on their first 27 characters are announced alike |
| Messages.Action | message_generator.py:390-403 | An undescribed tool is asked for as "use " and its name |
| Messages.GetApprovalRequestMessage | message_generator.py:374-430 | With a tool, it ends "Claude needs your permission to " and the action; without one, "action requires your attention" |
| Messages.ApprovalWithoutNickname | message_generator.py:384-430 | A falsy nickname is the same as none |
| Messages.ApprovalNamesNickname | message_generator.py:405-429 | A set nickname is named in every approval request |
| Messages.GetPersonalizedAcknowledgment | message_generator.py:310-334 | A set nickname is named; the friendly personality without one says "Processing your request" |
| Messages.GetPersonalizedCompletion | message_generator.py:336-372 | Nothing when neither summary has text; otherwise it begins with the summary given, else the task summary, and ". " |
| Messages.CompletionNamesNickname | message_generator.py:361-372 | The closing names a set nickname |
| SpeechText.Spaced | tts_provider.py:120 | No '_' or '-' remains |
| SpeechText.ReadAs | tts_provider.py:122-125 | Reading an extension out brings in no separator, and text without the extension is unchanged |
| SpeechText.FormatForSpeech | tts_provider.py:109-126 | No '_' or '-' survives, and no inserted phrase brings one back |
| SpeechText.PlainTextUnchanged | tts_provider.py:119-126 | Text without '_', '-', ".py", ".json", ".js" or ".md" is returned unchanged |
| SpeechText.JsonBeforeJs | tts_provider.py:121-125 | "stem.json" becomes "stem JSON file", not a JavaScript rewrite |
| SpeechText.ReplaceOnce | tts_provider.py:123 | `replace` on a text with a single occurrence of the pattern at the end rewrites just that occurrence |
| SpeechText.CompressText | tts_provider.py:52-107 | No client, under 50 characters, or a failed call: the input unchanged; otherwise the compressed text |
| SpeechText.CompressOnlyLongWithClient | tts_provider.py:62-107 | Compression changes a text only with a client, at least 50 characters and an answer, and then gives that answer; a short text is spoken whatever the service answers |
| SpeechText.OpenAiGuard | tts_provider.py:139-148 | False exactly without a client; true, with nothing synthesised, exactly for a stripped message under 3 characters |
| SpeechText.BlankNotSynthesised | tts_provider.py:144-148 | A blank message is never synthesised |
| Handler.ShouldAnnounce | voice_handler.py:141-168 | Only active hooks speak. A tool announced under 3 s ago is silent. An active hook without a tool check always speaks |
| Handler.ToolGateIsPhraseTable | voice_handler.py:156-166 | Before a tool use, it speaks exactly when the interval has passed and the tool is in the phrase table, TodoWrite included |
| Handler.ProcessUserPromptSubmit | voice_handler.py:170-190 | With a transcript path: acknowledgment, session id stored, context reset, not announced, state written; otherwise nothing changes |
| Handler.PromptStartsSession | voice_handler.py:180-187 | After a prompt, the next reader of that session reads from 0, and the next manager is in that session, not yet announced |
| Handler.ToolPhrase | voice_handler.py:227-232 | The action phrase, or the mapped message when the phrase is empty |
| Handler.ContextualAgreesWithToolPhrase | message_generator.py:156-159 | Before a listed tool runs, the contextual message is the handler's announcement when the phrase is not empty, and the empty text otherwise |
| Handler.TodoAnnouncement | voice_handler.py:195-206 | The snapshot is updated and saved; the last newly completed todo is announced in past tense, or nothing |
| Handler.SpecialToolsListed | message_generator.py:30-46 | The tools the handler names specially are all in the phrase table |
| Handler.ProcessPreToolUse | voice_handler.py:192-234 | Todo, read and edit branches as in the source. Only TodoWrite touches the state; only phrase-table tools record a time; unlisted tools say nothing |
| Handler.OtherTool | voice_handler.py:209-232 | A read or edit with a path announces the file and records no time; a tool without a phrase says nothing and changes nothing; otherwise only the tool's time is recorded |
| Handler.RateLimitAfterPhrase | voice_handler.py:156-161 | A tool announced by its phrase is silent for 3 s and announced again afterwards |
| Handler.FileAnnouncementNotRateLimited | voice_handler.py:209-220 | Read and edit announcements with a path record no time |
| Handler.TodoRepeatSilent | voice_handler.py:195-206 | The same todo list twice reports nothing the second time |
| Handler.CheckMarkGroup | voice_handler.py:298 | `[☑✓]\s*(.+?)(?:\n\|$)` matches at the first mark, skips whitespace, and captures up to the line end; it fails only when only newlines follow the mark |
| Handler.CheckMarkTask | voice_handler.py:296-300 | The captured text is non-empty and holds no newline |
| Handler.AfterFirst | voice_handler.py:291-294 | `split(pat, 1)[1]` raises exactly when the case-sensitive pattern is absent |
| Handler.MarkerOf | voice_handler.py:287-313 | No marker: the next message is tried. The split raises exactly on a case mismatch. An announcement is at most 60 characters |
| Handler.CapitalisedMarkerRaises | voice_handler.py:290-313 | "Completed: x" raises inside the split, so the hook says nothing |
| Handler.CompletedAnnounced | voice_handler.py:290-292 | "completed:" as written announces the stripped text after it, cut to 50 |
| Handler.CheckMarkLine | voice_handler.py:296-300 | A check mark, a space and a line announce that line |
| Handler.TrailingMarkTakesBlank | voice_handler.py:298-300 | A mark followed only by a space captures the space |
| Handler.FirstMarkedFrom | voice_handler.py:287-289 | The first message whose markers decide |
| Handler.LastLong | voice_handler.py:303-304 | The last message over 20 characters |
| Handler.Shorten | voice_handler.py:268-269 | A text within the limit is unchanged |
| Handler.ShortenBound | voice_handler.py:268-269 | Without a list, a shortened text is within the limit |
| Handler.FirstResponse | voice_handler.py:263-269 | The joined messages unchanged when at most 400 characters |
| Handler.FirstResponseFits | voice_handler.py:263-272 | Without a list, the first response is at most 400 characters |
| Handler.LaterResponse | voice_handler.py:274-308 | Nothing within 1 s of the last speech. Otherwise approval first, then completion markers, then the last message over 20 characters, summarised to 200 |
| Handler.RaisedMarkerSilences | voice_handler.py:287-313 | A raising marker silences the hook even when later messages would speak |
| Handler.LatestMessageSpoken | voice_handler.py:302-307 | Without approval or markers, the latest message over 20 and at most 200 characters is spoken as it is |
| Handler.SaveStateDropsCursor | state_manager.py:90-100 | As written: a cursor saved by the reader is overwritten by the manager's stale map |
| Handler.SaveKeepingCursors | voice_handler.py:269-271 | Corrected save, not used by the hooks: the tracked fields are written and the file's cursors kept |
| Handler.SaveKeepsReaderCursor | voice_handler.py:269-271 | The corrected save keeps the cursor the reader stored |
| Handler.ProcessPostToolUse | voice_handler.py:236-313 | TodoWrite output with "completed" gives "Task completed". Without a transcript, nothing else is said. Otherwise the new messages since the cursor decide: none says nothing and only advances the cursor; the first response of a task is said (the joined messages when they fit in 400 characters), marks the task announced and writes the manager's whole document over the file; once announced the manager is left as it was and the response is the later-response rule on the new messages. Only a first response changes the manager |
| Handler.NextReaderRestartsStale | voice_handler.py:257-271 | As written: after a first response, the next reader of the session starts at the cursor the manager loaded, so with unchanged cursors it reads the same messages again |
| Handler.CorrectedSaveResumes | voice_handler.py:257-271 | Corrected: with the save that keeps the file's cursors, the next reader of the session starts where this one stopped |
| Handler.Speak | voice_handler.py:109-139 | A duplicate gets no lock and no change. A lock timeout is swallowed. A raising speech changes nothing and propagates. A returned speech sets the last speech time and writes the manager's whole document |
| Handler.SpeakOrder | voice_handler.py:124-137 | The state changes only for a non-duplicate spoken under the lock, stamped, and released last |
| Handler.SecondTimeSkipped | voice_handler.py:124-126 | The same message at any later time is skipped before the lock |
| Handler.ProcessStop | voice_handler.py:315-331 | The newest message closes the task; without one, the summary of the task context held by the handler's own state manager does (message_generator.py:350-354). Reading saves the cursor, and nothing else changes |
| Handler.StopWithoutTranscriptSummarises | message_generator.py:350-357 | Without a transcript, Stop says nothing for a session that did no work; otherwise it opens with that work's summary parts joined by ". " |
| Handler.StopSpeaksLatest | voice_handler.py:320-326 | A newest message that cleans to at most 350 characters begins the stop announcement |
| Handler.SecondPart | voice_handler.py:349-350 | The second part exists exactly when the phrase occurs |
| Handler.ProcessNotification | voice_handler.py:333-355 | A permission notification naming a tool asks for that tool; anything else gets the generic request |
| Handler.PermissionTool | voice_handler.py:349-351 | In "prefix permission to use tool" the second part is the tool |
| Handler.NotificationNamesTool | voice_handler.py:347-352 | Such a notification asks permission to do what the stripped tool name describes |

## Left out

- Logging (`logger.py` and every log call): diagnostics only.
- The speech engines are left out: the OpenAI chat and speech calls, audio
  playback, and the `say`, `espeak` and PowerShell subprocesses. The speech
  is an opaque step that returns or raises (`SpeechLock.Body`).
- Real locking (`fcntl.flock`) and real sleeping are left out. Each lock
  attempt is an oracle `free: nat -> bool`, and the clock is integer
  milliseconds.
- Randomness is left out: `random.choice`, the time-of-day greeting,
  `apply_personality_to_message` and template picks. Each choice is a
  parameter (`pick`, `greeting`, `Templates`).
- MD5 is an abstract `hash: string -> nat` parameter.
- JSON decoding is a parameter `parse` that gives a record, `Malformed` or a
  non-object. `str()` of a non-string `tool_output` is given as its text.
- `Path.exists` is a predicate parameter. `str(Path(p))` normalisation of
  transcript keys is not modelled: cursors are keyed by the path as given.
- Text-mode newline translation is left out: lines end in '\n'.
- Regular expressions are written out by hand for the patterns used.
  Lower-casing is ASCII only (`Text.Lower`), so Unicode case folding is
  outside the model.
- `Approval.DetectApprovalRequest`: lower-cases ASCII letters only. Python's
  `str.lower` also folds non-ASCII capitals, so a phrase spelled with them is
  not detected here.
- The CLI and plumbing are left out: `main`, `read_stdin_data`,
  `load_config`, `load_sound_mapping` and `check_speech_delay`. An input
  that is not a dict is `None`.
- `Handler.Speak`: a `dict` message is not converted to a string first
  (voice_handler.py:118-121); the message is given as text.
- `Handler.ProcessPostToolUse`: exceptions other than the modelled
  `IndexError` are not modelled; the transcript's own read errors are
  handled inside the extraction.
- The per-tool announcement times live in the handler object, which each
  process creates fresh, so in practice the map starts empty every time.
  The model keeps it as a value (`Handler.announced`).
- `clean_old_positions` does not clean the cursors the transcript reader
  loads; the reader uses the stored document as is (`TranscriptReader.ReaderLoad`).

## Findings

| source | as written | input that shows it | evidently intended | confidence | as-written member | corrected member |
|---|---|---|---|---|---|---|
| transcript_reader.py:200-207 | A short summary is always padded from `sentences[1]`, even when the loop has already used it | Sentences "Ok.", "Twelve chars." and one of 400 characters, with `max_length` 350 and `min_length` 50: the summary "Ok. Twelve chars." is padded with "Twelve chars." again | Pad from the first sentence not yet used | not executed | Summarize.PadRepeatsSentence | Summarize.PadTakesNextSentence |
| state_manager.py:90-100 | On the first response, the transcript reader writes its new cursor. Then `save_state` writes the manager's document, loaded before the read, back whole | The manager loaded cursors `{}`; the reader then stored `{path: 120}`; the save writes `{}` back | Keep the cursor the reader saved, so the next event does not re-read the same messages | not executed | Handler.SaveStateDropsCursor | Handler.SaveKeepsReaderCursor |

About the first finding: `Summarize.SentenceSummaryAsWritten` pads from
`sentences[1]` as the code does, and the rest of the model speaks it.
`Summarize.SentenceSummaryShape` states its general form.
`Summarize.SentenceSummary` pads from the first unused sentence and is
stated separately, with `Summarize.CorrectedSummaryShape`.

About the second finding: `StateStore.SaveState` is the save as written,
and `Handler.ProcessPostToolUse` and `Handler.Speak` use it.
`Handler.NextReaderRestartsStale` states its consequence end to end.
`Handler.SaveKeepingCursors` is the corrected save, and
`Handler.CorrectedSaveResumes` states the intended consequence.
