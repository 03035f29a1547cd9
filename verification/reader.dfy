/** The transcript reader: it keeps a byte cursor per transcript in the
    state document, reads the assistant texts appended since the cursor,
    and turns the latest one into something short enough to speak. The
    transcript's contents, whether it exists, the decoder and whether the
    state file can be written are parameters. */
module TranscriptReader {
  import opened Prelude
  import opened Text
  import opened Utf8
  import opened TranscriptLog
  import opened SpeechCleaning
  import opened Summarize
  import opened StateStore
  import opened Patterns

  /** The document the reader falls back to when the state file is missing
      or unreadable: no cursors and an empty `{}` task context. */
  const ReaderDefault := StateDoc(Some(map[]), Some(Bare), 0, [], false, None)

  /** The reader's view of the state file: the stored document as is (its
      cursors are not cleaned), or the fallback. */
  function ReaderLoad(file: StateFile): (d: StateDoc)
    ensures file.Stored? ==> d == file.doc
    ensures !file.Stored? ==> d == ReaderDefault
  {
    if file.Stored? then file.doc else ReaderDefault
  }

  /** A reader of one transcript: the path (as the key of its cursor), the
      session it reads for, the document it loaded and the cursors it
      uses. */
  datatype Reader = Reader(path: string, session: Option<string>, state: StateDoc, positions: map<string, int>)

  /** Python `TranscriptReader.__init__`: the cursors are the stored ones,
      unless a session id is given that differs from the stored one, in
      which case every cursor is dropped. */
  function NewReader(path: string, session: Option<string>, file: StateFile): (r: Reader)
    ensures r.path == path && r.session == session && r.state == ReaderLoad(file)
    ensures Truthy(session) && r.state.sessionId != session ==> r.positions == map[]
    ensures !(Truthy(session) && r.state.sessionId != session) ==> r.positions == r.state.positions.GetOr(map[])
  {
    var d := ReaderLoad(file);
    var ps := d.positions.GetOr(map[]);
    Reader(path, session, d, if Truthy(session) && d.sessionId != session then map[] else ps)
  }

  /** Where reading starts: the explicit offset, else the transcript's
      cursor, else the beginning. */
  function StartOf(r: Reader, since: Option<int>): int {
    if since.Some? then since.value
    else if r.path in r.positions then r.positions[r.path]
    else 0
  }

  /** A new session starts every transcript from the beginning; without a
      session id the stored cursor is used. */
  lemma NewSessionReadsFromStart(path: string, session: Option<string>, file: StateFile)
    ensures var r := NewReader(path, session, file);
      Truthy(session) && ReaderLoad(file).sessionId != session ==> StartOf(r, None) == 0
    ensures var r := NewReader(path, session, file);
      !Truthy(session) ==> StartOf(r, None) == (var ps := ReaderLoad(file).positions.GetOr(map[]);
                                                 if path in ps then ps[path] else 0)
  {
  }

  /** The text read from offset `start`: the whole transcript when the
      offset is not positive, the rest after seeking otherwise; `None` when
      the seek lands inside a character and decoding fails. */
  function Unread(log: string, start: int): (r: Option<string>)
    ensures start <= 0 ==> r == Some(log)
    ensures 0 < start ==> r == TailAt(log, start)
  {
    if start > 0 then TailAt(log, start) else Some(log)
  }

  /** The cursor map with this transcript's cursor moved to `pos`, written
      into the reader's document. */
  function SavePosition(r: Reader, pos: int): (r': Reader)
    ensures r'.positions == r.positions[r.path := pos]
    ensures r'.state == r.state.(positions := Some(r'.positions))
    ensures r'.path == r.path && r'.session == r.session
  {
    var ps := r.positions[r.path := pos];
    r.(positions := ps, state := r.state.(positions := Some(ps)))
  }

  /** What one extraction yields: the messages, the reader afterwards and
      the state file afterwards. */
  datatype Extraction = Extraction(messages: seq<Message>, reader: Reader, file: StateFile)

  /** Python `extract_recent_messages`. A missing transcript gives nothing.
      Otherwise the lines after the start offset are scanned; the cursor
      moves to the offset reached, and is saved, only when it advanced. A
      decoding failure reads nothing; a record whose reading raises ends
      the scan with the messages found so far. */
  function ExtractRecent(r: Reader, log: Option<string>, since: Option<int>, parse: string -> Entry,
                         file: StateFile, writable: bool): (x: Extraction)
    ensures log.None? || ScanOf(log.value, StartOf(r, since), parse).None? ==> x == Extraction([], r, file)
    ensures log.Some? && ScanOf(log.value, StartOf(r, since), parse).Some? ==>
      var s := ScanOf(log.value, StartOf(r, since), parse).value;
      && x.messages == s.messages
      && (s.position > StartOf(r, since) ==>
            x.reader == SavePosition(r, s.position) && x.file == Persist(file, x.reader.state, writable))
      && (s.position <= StartOf(r, since) ==> x.reader == r && x.file == file)
  {
    if log.None? then Extraction([], r, file)
    else
      var start := StartOf(r, since);
      match Unread(log.value, start)
      case None => Extraction([], r, file)
      case Some(rest) =>
        var scan := ScanLines(SplitLines(rest), start, parse);
        if scan.position > start then
          var r' := SavePosition(r, scan.position);
          Extraction(scan.messages, r', Persist(file, r'.state, writable))
        else Extraction(scan.messages, r, file)
  }

  /** The scan an extraction performs on the text it reads; `None` when
      decoding fails. */
  function ScanOf(log: string, start: int, parse: string -> Entry): (r: Option<Scan>)
    ensures r.None? <==> Unread(log, start).None?
  {
    match Unread(log, start)
    case None => None
    case Some(rest) => Some(ScanLines(SplitLines(rest), start, parse))
  }

  /** The messages are the assistant texts of the lines read, in file
      order; all of them when no record raised, a prefix of them
      otherwise. */
  lemma ExtractTexts(r: Reader, log: string, since: Option<int>, parse: string -> Entry, file: StateFile, writable: bool)
    requires Unread(log, StartOf(r, since)).Some?
    ensures var x := ExtractRecent(r, Some(log), since, parse, file, writable);
      var lines := SplitLines(Unread(log, StartOf(r, since)).value);
      && Texts(x.messages) <= AllTexts(lines, parse)
      && (!ScanOf(log, StartOf(r, since), parse).value.aborted ==> Texts(x.messages) == AllTexts(lines, parse))
  {
    var start := StartOf(r, since);
    var lines := SplitLines(Unread(log, start).value);
    ScanTexts(lines, start, parse);
  }

  /** Each message carries the offset just past its own line, strictly
      after the start and at most the offset reached, in non-decreasing
      order. */
  lemma ExtractPositions(r: Reader, log: string, since: Option<int>, parse: string -> Entry, file: StateFile, writable: bool)
    requires ScanOf(log, StartOf(r, since), parse).Some?
    ensures var x := ExtractRecent(r, Some(log), since, parse, file, writable);
      var s := ScanOf(log, StartOf(r, since), parse).value;
      && (forall i :: 0 <= i < |x.messages| ==> StartOf(r, since) < x.messages[i].position <= s.position)
      && (forall i, j :: 0 <= i < j < |x.messages| ==> x.messages[i].position <= x.messages[j].position)
  {
    var start := StartOf(r, since);
    var lines := SplitLines(Unread(log, start).value);
    var rs := ReadLines(lines, parse);
    SplitLinesShape(Unread(log, start).value);
    ReadLengthsPositive(lines, parse);
    ScanPositions(rs, start);
    var s := ScanReads(rs, start);
    assert ScanOf(log, start, parse).value == s;
    assert forall i :: 0 <= i < |s.messages| ==> start < s.messages[i].position <= s.position;
    assert forall i, j :: 0 <= i < j < |s.messages| ==> s.messages[i].position <= s.messages[j].position;
  }

  /** Seeking to a character boundary within the transcript leaves a rest
      whose UTF-8 length makes up the difference. */
  lemma UnreadLength(log: string, start: int)
    requires 0 <= start <= ByteLen(log) && Unread(log, start).Some?
    ensures start + ByteLen(Unread(log, start).value) == ByteLen(log)
  {
    var rest := Unread(log, start).value;
    if start > 0 {
      assert ByteLen(log[..|log| - |rest|]) == start;
      assert log == log[..|log| - |rest|] + rest;
      ByteLenAppend(log[..|log| - |rest|], rest);
    } else {
      assert rest == log;
    }
  }

  /** A complete read from a cursor within the transcript leaves the cursor
      at the transcript's UTF-8 length, trailing unterminated line
      included. */
  lemma ExtractReachesEnd(r: Reader, log: string, parse: string -> Entry, file: StateFile, writable: bool)
    requires 0 <= StartOf(r, None) <= ByteLen(log)
    requires ScanOf(log, StartOf(r, None), parse).Some? && !ScanOf(log, StartOf(r, None), parse).value.aborted
    ensures StartOf(ExtractRecent(r, Some(log), None, parse, file, writable).reader, None) == ByteLen(log)
  {
    var start := StartOf(r, None);
    var rest := Unread(log, start).value;
    ScanOfWholeText(rest, start, parse);
    UnreadLength(log, start);
    assert ScanOf(log, start, parse).value.position == ByteLen(log);
  }

  /** Reading again with nothing appended finds nothing and changes
      nothing. */
  lemma ExtractAtEndIsIdle(r: Reader, log: string, parse: string -> Entry, file: StateFile, writable: bool)
    requires StartOf(r, None) == ByteLen(log)
    ensures ExtractRecent(r, Some(log), None, parse, file, writable) == Extraction([], r, file)
  {
    var start := StartOf(r, None);
    if start > 0 {
      assert Unread(log, start) == Some([]);
    } else {
      assert log == [];
    }
    assert SplitLines([]) == [];
    assert ReadLines([], parse) == [];
  }

  /** Hence an extraction that reads every line of the transcript, repeated
      on the same transcript, returns nothing and leaves cursor and file as
      they were. */
  lemma ExtractTwice(r: Reader, log: string, parse: string -> Entry, file: StateFile, writable: bool)
    requires 0 <= StartOf(r, None) <= ByteLen(log)
    requires ScanOf(log, StartOf(r, None), parse).Some? && !ScanOf(log, StartOf(r, None), parse).value.aborted
    ensures var x := ExtractRecent(r, Some(log), None, parse, file, writable);
      ExtractRecent(x.reader, Some(log), None, parse, x.file, writable) == Extraction([], x.reader, x.file)
  {
    var x := ExtractRecent(r, Some(log), None, parse, file, writable);
    ExtractReachesEnd(r, log, parse, file, writable);
    ExtractAtEndIsIdle(x.reader, log, parse, x.file, writable);
  }

  // ---------------------------------------------------------------------
  // Spoken results
  // ---------------------------------------------------------------------

  /** What `get_last_message` makes of the latest text: nothing when
      cleaning leaves nothing, the cleaned text when it is at most `maxLen`
      long, a summary of it otherwise. */
  function LastSpoken(text: string, maxLen: int, minLen: int): (r: Option<string>)
    ensures r.None? <==> !Truthy(Clean(text))
    ensures r.Some? && |Clean(text).value| <= maxLen ==> r.value == Clean(text).value
    ensures r.Some? && |Clean(text).value| > maxLen ==> r.value == MeaningfulSummary(Clean(text).value, maxLen, minLen)
  {
    var cleaned := Clean(text);
    if !Truthy(cleaned) then None
    else if |cleaned.value| <= maxLen then Some(cleaned.value)
    else Some(MeaningfulSummary(cleaned.value, maxLen, minLen))
  }

  /** Without a list in it, the text as spoken is never longer than
      `maxLen` (for `maxLen >= 3`). */
  lemma LastSpokenBound(text: string, maxLen: int, minLen: int)
    requires 3 <= maxLen && Truthy(Clean(text)) && SearchIn(ListStart, Clean(text).value).None?
    ensures |LastSpoken(text, maxLen, minLen).value| <= maxLen
  {
    var c := Clean(text).value;
    if |c| > maxLen {
      MeaningfulSummaryBound(c, maxLen, minLen);
    }
  }

  /** Python `get_last_message`: the new messages are extracted and the
      latest is spoken; nothing when there is none. */
  function GetLastMessage(r: Reader, log: Option<string>, parse: string -> Entry, file: StateFile,
                          writable: bool, maxLen: int, minLen: int): (res: (Option<string>, Extraction))
    ensures res.1 == ExtractRecent(r, log, None, parse, file, writable)
    ensures res.1.messages == [] ==> res.0.None?
    ensures res.1.messages != [] ==> res.0 == LastSpoken(res.1.messages[|res.1.messages| - 1].text, maxLen, minLen)
  {
    var x := ExtractRecent(r, log, None, parse, file, writable);
    (Latest(x.messages, maxLen, minLen), x)
  }

  /** The latest message as spoken; nothing when there is none. */
  function Latest(ms: seq<Message>, maxLen: int, minLen: int): (r: Option<string>)
    ensures ms == [] ==> r.None?
    ensures ms != [] ==> r == LastSpoken(ms[|ms| - 1].text, maxLen, minLen)
  {
    if ms == [] then None else LastSpoken(ms[|ms| - 1].text, maxLen, minLen)
  }

  /** The cleaned texts that are not empty, in order. */
  function CleanedTexts(ms: seq<Message>): (ts: seq<string>)
    ensures |ts| <= |ms|
    ensures forall i :: 0 <= i < |ts| ==> ts[i] != []
  {
    if ms == [] then []
    else
      var c := Clean(ms[0].text);
      (if Truthy(c) then [c.value] else []) + CleanedTexts(ms[1..])
  }

  /** Every message yields one text exactly when each cleans to something. */
  lemma {:induction false} CleanedTextsAll(ms: seq<Message>)
    ensures |CleanedTexts(ms)| == |ms| <==> forall i :: 0 <= i < |ms| ==> Truthy(Clean(ms[i].text))
  {
    if ms != [] {
      CleanedTextsAll(ms[1..]);
      if forall i :: 0 <= i < |ms| ==> Truthy(Clean(ms[i].text)) {
        assert forall i :: 0 <= i < |ms| - 1 ==> Truthy(Clean(ms[1..][i].text)) by {
          forall i | 0 <= i < |ms| - 1 ensures Truthy(Clean(ms[1..][i].text)) {
            assert ms[1..][i] == ms[i + 1];
          }
        }
      }
      if |CleanedTexts(ms)| == |ms| {
        assert Truthy(Clean(ms[0].text));
        forall i | 0 <= i < |ms| ensures Truthy(Clean(ms[i].text)) {
          if i > 0 {
            assert ms[i] == ms[1..][i - 1];
          }
        }
      }
    }
  }

  /** Python `get_messages_since_last_check`: the new messages, cleaned,
      dropping those that clean to nothing. */
  function MessagesSinceLastCheck(r: Reader, log: Option<string>, parse: string -> Entry, file: StateFile,
                                  writable: bool): (res: (seq<string>, Extraction))
    ensures res.1 == ExtractRecent(r, log, None, parse, file, writable)
    ensures res.0 == CleanedTexts(res.1.messages)
  {
    var x := ExtractRecent(r, log, None, parse, file, writable);
    (CleanedTexts(x.messages), x)
  }
}
