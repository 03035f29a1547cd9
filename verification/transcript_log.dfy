/** The transcript log as the reader sees it: a text file of one JSON
    record per line. JSON decoding itself is not modelled; a decoder is a
    parameter that maps a raw line to the `Entry` that decoding the line
    with its surrounding whitespace stripped yields, recording just the
    shape the reader inspects. Reading a line either yields texts,
    skips the line, or raises (a lookup on a value of the wrong type),
    and a raise ends the whole scan. */
module TranscriptLog {
  import opened Prelude
  import opened Text
  import opened Utf8

  /** The `text` field of a content item. */
  datatype TextField = NoText | Str(s: string) | NonString

  /** A content item: an object with optional `type` and `text`, or any
      other JSON value (whose `.get` raises). */
  datatype Item = Part(kind: Option<string>, text: TextField) | NonObjectItem

  /** The `content` field: a list of items, or a value whose iteration
      raises (a number, `null`, a non-empty string or object). */
  datatype Content = Items(items: seq<Item>) | NotIterable

  /** The `message` field: an object with optional `role` and `content`,
      or any other JSON value. */
  datatype Body = Msg(role: Option<string>, content: Option<Content>) | NonObjectBody

  /** One decoded line. `Malformed` is a line `json.loads` rejects;
      `NonObject` is valid JSON that is not an object. `None` in a field
      stands for a missing key (or, for `type` and `role`, any non-string). */
  datatype Entry =
    | Malformed
    | NonObject
    | Record(kind: Option<string>, message: Option<Body>, timestamp: Option<string>, uuid: Option<string>)

  /** An extracted assistant text with the running byte offset just past its line. */
  datatype Message = Message(text: string, timestamp: Option<string>, uuid: Option<string>, position: int)

  /** Texts found in one record, in order, and whether reading it raised. */
  datatype Harvest = Harvest(texts: seq<string>, raised: bool)

  /** Reading the item raises: not an object, or a `text` item whose text is not a string. */
  predicate Raises(item: Item) {
    item.NonObjectItem? || (item.kind == Some("text") && item.text.NonString?)
  }

  /** The stripped text of one `text` item, if non-empty. */
  function ItemText(item: Item): (ts: seq<string>)
    ensures |ts| <= 1
  {
    match item
    case Part(Some("text"), Str(t)) => if Strip(t) != [] then [Strip(t)] else []
    case _ => []
  }

  /** Reference: the stripped, non-empty texts of the `text` items, in order. */
  function StrippedTexts(items: seq<Item>): seq<string> {
    if items == [] then [] else ItemText(items[0]) + StrippedTexts(items[1..])
  }

  /** Every collected text is non-empty and already stripped. */
  lemma {:induction false} StrippedTextsAreStripped(items: seq<Item>)
    ensures forall i :: 0 <= i < |StrippedTexts(items)| ==>
      StrippedTexts(items)[i] != [] && Strip(StrippedTexts(items)[i]) == StrippedTexts(items)[i]
  {
    if items != [] {
      StrippedTextsAreStripped(items[1..]);
      var h := ItemText(items[0]);
      var rest := StrippedTexts(items[1..]);
      assert StrippedTexts(items) == h + rest;
      if h != [] {
        ItemTextStripped(items[0]);
      }
    }
  }

  lemma ItemTextStripped(item: Item)
    requires ItemText(item) != []
    ensures ItemText(item)[0] != [] && Strip(ItemText(item)[0]) == ItemText(item)[0]
  {
    var t := item.text.s;
    StripEnds(t);
    StripUnchanged(Strip(t));
  }

  /** The item loop of `extract_recent_messages`: texts are collected until
      an item raises. */
  function ItemTexts(items: seq<Item>): Harvest {
    if items == [] then Harvest([], false)
    else if Raises(items[0]) then Harvest([], true)
    else
      var rest := ItemTexts(items[1..]);
      Harvest(ItemText(items[0]) + rest.texts, rest.raised)
  }

  /** The item loop raises exactly when some item raises; otherwise it
      collects every stripped text, and in any case a prefix of them. */
  lemma {:induction false} ItemTextsAgree(items: seq<Item>)
    ensures ItemTexts(items).raised <==> exists i :: 0 <= i < |items| && Raises(items[i])
    ensures !ItemTexts(items).raised ==> ItemTexts(items).texts == StrippedTexts(items)
    ensures ItemTexts(items).texts <= StrippedTexts(items)
  {
    if items != [] && !Raises(items[0]) {
      ItemTextsAgree(items[1..]);
      assert forall i :: 1 <= i < |items| ==> items[i] == items[1..][i - 1];
    }
  }

  /** Reference: the assistant texts of a record, as read when nothing raises. */
  function AssistantTexts(e: Entry): seq<string> {
    match e
    case Record(Some("assistant"), Some(Msg(Some("assistant"), Some(Items(items)))), _, _) =>
      StrippedTexts(items)
    case _ => []
  }

  /** Reading one decoded line. Only a record of type "assistant" whose
      message has role "assistant" and a content list yields texts. */
  function EntryTexts(e: Entry): (h: Harvest)
    ensures e.Malformed? ==> h == Harvest([], false)
    ensures e.NonObject? ==> h.raised
    ensures h.texts != [] ==> e.Record? && e.kind == Some("assistant")
  {
    match e
    case Malformed => Harvest([], false)
    case NonObject => Harvest([], true)
    case Record(kind, message, _, _) =>
      if kind == Some("assistant") && message.Some? then
        match message.value
        case NonObjectBody => Harvest([], true)
        case Msg(role, content) =>
          if role == Some("assistant") && content.Some? then
            match content.value
            case NotIterable => Harvest([], true)
            case Items(items) => ItemTexts(items)
          else Harvest([], false)
      else Harvest([], false)
  }

  /** What one line yields agrees with the reference reading: all of its
      assistant texts when nothing raised, a prefix of them otherwise. */
  lemma EntryTextsAgree(e: Entry)
    ensures !EntryTexts(e).raised ==> EntryTexts(e).texts == AssistantTexts(e)
    ensures EntryTexts(e).texts <= AssistantTexts(e)
  {
    match e
    case Record(Some("assistant"), Some(Msg(Some("assistant"), Some(Items(items)))), _, _) =>
      assert EntryTexts(e) == ItemTexts(items);
      ItemTextsAgree(items);
    case _ =>
  }

  /** Length of the first line of a non-empty text, its '\n' included. */
  function LineLength(t: string): (n: nat)
    requires t != []
    ensures 1 <= n <= |t|
    decreases |t|
  {
    if t[0] == '\n' || |t| == 1 then 1 else 1 + LineLength(t[1..])
  }

  /** The first line ends at the first '\n', or at the end of the text. */
  lemma {:induction false} LineLengthShape(t: string)
    requires t != []
    ensures LineLength(t) < |t| ==> t[LineLength(t) - 1] == '\n'
    ensures forall j :: 0 <= j < LineLength(t) - 1 ==> t[j] != '\n'
    decreases |t|
  {
    if t[0] != '\n' && |t| > 1 {
      LineLengthShape(t[1..]);
      forall j | 1 <= j < LineLength(t) - 1 ensures t[j] != '\n' {
        assert t[j] == t[1..][j - 1];
      }
    }
  }

  /** Python `f.readlines()` on text with '\n' line ends: every line keeps
      its terminator, and a final unterminated line is included; the
      shape of the lines is stated by `SplitLinesShape`. */
  function SplitLines(t: string): (lines: seq<string>)
    ensures Concat(lines) == t
    decreases |t|
  {
    if t == [] then []
    else
      var k := LineLength(t);
      var lines := [t[..k]] + SplitLines(t[k..]);
      assert lines[1..] == SplitLines(t[k..]);
      assert t == t[..k] + t[k..];
      lines
  }

  /** Lines are non-empty, every line but the last ends in '\n', and no
      line holds '\n' before its end. */
  lemma {:induction false} SplitLinesShape(t: string)
    ensures forall i :: 0 <= i < |SplitLines(t)| ==> SplitLines(t)[i] != []
    ensures forall i :: 0 <= i < |SplitLines(t)| - 1 ==> SplitLines(t)[i][|SplitLines(t)[i]| - 1] == '\n'
    ensures forall i, j :: 0 <= i < |SplitLines(t)| && 0 <= j < |SplitLines(t)[i]| - 1 ==> SplitLines(t)[i][j] != '\n'
    decreases |t|
  {
    if t != [] {
      var k := LineLength(t);
      var first := t[..k];
      var rest := SplitLines(t[k..]);
      var lines := SplitLines(t);
      assert lines == [first] + rest;
      LineLengthShape(t);
      SplitLinesShape(t[k..]);
      if rest != [] {
        assert t[k..] != [];
        assert first[k - 1] == '\n';
      }
      assert |first| == k;
      forall j | 0 <= j < k - 1 ensures first[j] != '\n' {
        assert first[j] == t[j];
      }
      forall i | 0 <= i < |lines|
        ensures lines[i] != []
        ensures i < |lines| - 1 ==> lines[i][|lines[i]| - 1] == '\n'
      {
        if i > 0 {
          assert lines[i] == rest[i - 1];
        }
      }
    }
  }

  /** Result of scanning lines: messages found, the offset reached, how
      many lines were consumed, and whether a line raised. */
  datatype Scan = Scan(messages: seq<Message>, position: int, consumed: nat, aborted: bool)

  /** What reading one line contributes to the scan: its UTF-8 length, the
      texts found, whether reading raised, and the record's timestamp and
      uuid. */
  datatype LineRead = LineRead(length: nat, texts: seq<string>, raised: bool, timestamp: Option<string>, uuid: Option<string>)

  function Stamp(e: Entry): Option<string> {
    if e.Record? then e.timestamp else None
  }

  function Uuid(e: Entry): Option<string> {
    if e.Record? then e.uuid else None
  }

  function ReadLine(line: string, parse: string -> Entry): LineRead {
    var e := parse(line);
    var h := EntryTexts(e);
    LineRead(ByteLen(line), h.texts, h.raised, Stamp(e), Uuid(e))
  }

  function ReadLines(lines: seq<string>, parse: string -> Entry): (rs: seq<LineRead>)
    ensures |rs| == |lines|
  {
    if lines == [] then [] else [ReadLine(lines[0], parse)] + ReadLines(lines[1..], parse)
  }

  /** The line loop of `extract_recent_messages`: the offset grows by the
      UTF-8 length of each line before it is decoded; a malformed line is
      skipped; a line that raises ends the scan after its texts so far.
      What the scan reads and reaches is stated by `ScanCursor`,
      `ScanStops`, `ScanTexts` and `ScanPositions`. */
  function ScanLines(lines: seq<string>, pos: int, parse: string -> Entry): Scan {
    ScanReads(ReadLines(lines, parse), pos)
  }

  function ScanReads(rs: seq<LineRead>, pos: int): (s: Scan)
    ensures s.consumed <= |rs|
    ensures s.aborted ==> s.consumed > 0
    decreases |rs|
  {
    if rs == [] then Scan([], pos, 0, false)
    else
      var p := pos + rs[0].length;
      var found := LineMessages(rs[0], p);
      if rs[0].raised then Scan(found, p, 1, true)
      else
        var rest := ScanReads(rs[1..], p);
        Scan(found + rest.messages, rest.position, rest.consumed + 1, rest.aborted)
  }

  /** The messages of one line, all stamped with the offset after it. */
  function LineMessages(r: LineRead, p: int): seq<Message> {
    seq(|r.texts|, i requires 0 <= i < |r.texts| => Message(r.texts[i], r.timestamp, r.uuid, p))
  }

  function Texts(ms: seq<Message>): (ts: seq<string>)
    ensures |ts| == |ms|
    ensures forall i :: 0 <= i < |ms| ==> ts[i] == ms[i].text
  {
    seq(|ms|, i requires 0 <= i < |ms| => ms[i].text)
  }

  /** One message per text, in order, each at offset `p`. */
  lemma LineMessagesFacts(r: LineRead, p: int)
    ensures var ms := LineMessages(r, p);
      && Texts(ms) == r.texts
      && forall i :: 0 <= i < |ms| ==> ms[i].position == p
  {
  }

  lemma TextsAppend(a: seq<Message>, b: seq<Message>)
    ensures Texts(a + b) == Texts(a) + Texts(b)
  {
  }

  /** Sum of the lengths of the first `n` rs. */
  function Advance(rs: seq<LineRead>, n: nat): int
    requires n <= |rs|
  {
    if n == 0 then 0 else rs[0].length + Advance(rs[1..], n - 1)
  }

  lemma {:induction false} ScanAdvance(rs: seq<LineRead>, pos: int)
    ensures var s := ScanReads(rs, pos);
      s.position == pos + Advance(rs, s.consumed)
    decreases |rs|
  {
    if rs != [] {
      var p := pos + rs[0].length;
      if !rs[0].raised {
        assert ScanReads(rs, pos).consumed == ScanReads(rs[1..], p).consumed + 1;
        ScanAdvance(rs[1..], p);
      }
    }
  }

  /** Counting line by line gives the UTF-8 length of the lines joined. */
  lemma AdvanceJoined(lines: seq<string>, parse: string -> Entry, n: nat)
    requires n <= |lines|
    ensures Advance(ReadLines(lines, parse), n) == ByteLen(Concat(lines[..n]))
  {
    ReadLengths(lines, parse);
    AdvanceLengths(ReadLines(lines, parse), lines, n);
  }

  lemma {:induction false} AdvanceLengths(rs: seq<LineRead>, lines: seq<string>, n: nat)
    requires |rs| == |lines| && n <= |lines|
    requires forall i :: 0 <= i < |lines| ==> rs[i].length == ByteLen(lines[i])
    ensures Advance(rs, n) == ByteLen(Concat(lines[..n]))
    decreases n
  {
    if n == 0 {
      assert lines[..0] == [];
    } else {
      forall i | 0 <= i < |lines| - 1 ensures rs[1..][i].length == ByteLen(lines[1..][i]) {
        assert rs[1..][i] == rs[i + 1] && lines[1..][i] == lines[i + 1];
      }
      AdvanceLengths(rs[1..], lines[1..], n - 1);
      assert lines[..n] == [lines[0]] + lines[1..][..n - 1];
      assert Concat(lines[..n]) == lines[0] + Concat(lines[1..][..n - 1]);
      ByteLenAppend(lines[0], Concat(lines[1..][..n - 1]));
    }
  }

  /** Each line is read with its UTF-8 length. */
  lemma ReadLengths(lines: seq<string>, parse: string -> Entry)
    ensures forall i :: 0 <= i < |lines| ==> ReadLines(lines, parse)[i].length == ByteLen(lines[i])
  {
    forall i | 0 <= i < |lines| ensures ReadLines(lines, parse)[i].length == ByteLen(lines[i]) {
      ReadLinesAt(lines, parse, i);
    }
  }

  /** The offset reached is the start plus the UTF-8 length of the lines
      consumed. */
  lemma ScanCursor(lines: seq<string>, pos: int, parse: string -> Entry)
    ensures var s := ScanLines(lines, pos, parse);
      s.position == pos + ByteLen(Concat(lines[..s.consumed]))
  {
    var s := ScanLines(lines, pos, parse);
    ScanAdvance(ReadLines(lines, parse), pos);
    AdvanceJoined(lines, parse, s.consumed);
  }

  /** A scan stops early only at a line whose reading raised, and no line
      before it raised. */
  lemma {:induction false} ScanStops(rs: seq<LineRead>, pos: int)
    ensures var s := ScanReads(rs, pos);
      && (!s.aborted ==> s.consumed == |rs|)
      && (s.aborted ==> rs[s.consumed - 1].raised)
      && (forall i :: 0 <= i < s.consumed - 1 ==> !rs[i].raised)
      && (!s.aborted ==> forall i :: 0 <= i < s.consumed ==> !rs[i].raised)
    decreases |rs|
  {
    if rs != [] && !rs[0].raised {
      var p := pos + rs[0].length;
      var s := ScanReads(rs, pos);
      var rest := ScanReads(rs[1..], p);
      assert s.consumed == rest.consumed + 1 && s.aborted == rest.aborted;
      ScanStops(rs[1..], p);
      forall i | 1 <= i < s.consumed ensures rs[i] == rs[1..][i - 1] {
      }
    }
  }

  /** Reference: the assistant texts of all lines, in file order. */
  function AllTexts(lines: seq<string>, parse: string -> Entry): seq<string> {
    if lines == [] then [] else AssistantTexts(parse(lines[0])) + AllTexts(lines[1..], parse)
  }

  /** The texts of the first `n` reads, in order. */
  function ReadTexts(rs: seq<LineRead>, n: nat): seq<string>
    requires n <= |rs|
  {
    if n == 0 then [] else rs[0].texts + ReadTexts(rs[1..], n - 1)
  }

  /** The scan reports the texts of the lines it consumed, in order. */
  lemma {:induction false} ScanReadTexts(rs: seq<LineRead>, pos: int)
    ensures var s := ScanReads(rs, pos);
      Texts(s.messages) == ReadTexts(rs, s.consumed)
    decreases |rs|
  {
    if rs != [] {
      var p := pos + rs[0].length;
      var found := LineMessages(rs[0], p);
      LineMessagesFacts(rs[0], p);
      if !rs[0].raised {
        var rest := ScanReads(rs[1..], p);
        assert ScanReads(rs, pos) == Scan(found + rest.messages, rest.position, rest.consumed + 1, rest.aborted);
        ScanReadTexts(rs[1..], p);
        TextsAppend(found, rest.messages);
      } else {
        assert ReadTexts(rs, 1) == rs[0].texts + [];
      }
    }
  }

  /** The texts of the first `n` lines, none but the last of which raised,
      are a prefix of the assistant texts of the file, and all of them
      when every line was read and none raised. */
  lemma {:induction false} ReadTextsAgree(lines: seq<string>, parse: string -> Entry, n: nat)
    requires n <= |lines|
    requires forall i :: 0 <= i < n - 1 ==> !ReadLines(lines, parse)[i].raised
    ensures ReadTexts(ReadLines(lines, parse), n) <= AllTexts(lines, parse)
    ensures n == |lines| && (n == 0 || !ReadLines(lines, parse)[n - 1].raised) ==>
      ReadTexts(ReadLines(lines, parse), n) == AllTexts(lines, parse)
    decreases n
  {
    if n > 0 {
      var e := parse(lines[0]);
      var rs := ReadLines(lines, parse);
      var r := ReadLine(lines[0], parse);
      assert rs == [r] + ReadLines(lines[1..], parse);
      assert rs[1..] == ReadLines(lines[1..], parse);
      assert AllTexts(lines, parse) == AssistantTexts(e) + AllTexts(lines[1..], parse);
      ReadLineAgrees(lines[0], parse);
      if n == 1 {
        assert ReadTexts(rs, 1) == r.texts + [];
        if |lines| == 1 {
          assert AllTexts(lines[1..], parse) == [];
        }
        PrefixAppend(r.texts, [], AssistantTexts(e), AllTexts(lines[1..], parse));
      } else {
        assert rs[0] == r;
        forall i | 0 <= i < n - 2 ensures !rs[1..][i].raised {
          assert rs[1..][i] == rs[i + 1];
        }
        if n == |lines| && !rs[n - 1].raised {
          assert rs[1..][n - 2] == rs[n - 1];
        }
        ReadTextsAgree(lines[1..], parse, n - 1);
        PrefixAppend(r.texts, ReadTexts(rs[1..], n - 1), AssistantTexts(e), AllTexts(lines[1..], parse));
      }
    }
  }

  /** One line read agrees with the reference reading of its record. */
  lemma ReadLineAgrees(line: string, parse: string -> Entry)
    ensures var r := ReadLine(line, parse);
      && (!r.raised ==> r.texts == AssistantTexts(parse(line)))
      && r.texts <= AssistantTexts(parse(line))
  {
    EntryTextsAgree(parse(line));
  }

  /** The texts read are the assistant texts of the file in order: all of
      them when no line raised, and a prefix of them otherwise. */
  lemma ScanTexts(lines: seq<string>, pos: int, parse: string -> Entry)
    ensures var s := ScanLines(lines, pos, parse);
      && (!s.aborted ==> Texts(s.messages) == AllTexts(lines, parse))
      && Texts(s.messages) <= AllTexts(lines, parse)
  {
    var rs := ReadLines(lines, parse);
    var s := ScanReads(rs, pos);
    ScanReadTexts(rs, pos);
    ScanStops(rs, pos);
    ReadTextsAgree(lines, parse, s.consumed);
  }

  lemma PrefixAppend<T>(a: seq<T>, b: seq<T>, c: seq<T>, d: seq<T>)
    requires a <= c && b <= d && (b != [] ==> a == c)
    ensures a + b <= c + d
  {
    if b == [] {
      assert a + b == a;
    }
  }

  /** Running offsets after each line, starting from `pos`. */
  function Offsets(rs: seq<LineRead>, pos: int): (ends: seq<int>)
    ensures |ends| == |rs|
  {
    if rs == [] then [] else [pos + rs[0].length] + Offsets(rs[1..], pos + rs[0].length)
  }

  /** Every message carries the running offset after some line, within
      the range scanned, and offsets never decrease in message order. */
  lemma {:induction false} ScanPositions(rs: seq<LineRead>, pos: int)
    requires forall i :: 0 <= i < |rs| ==> rs[i].length > 0
    ensures forall i :: 0 <= i < |ScanReads(rs, pos).messages| ==> ScanReads(rs, pos).messages[i].position in Offsets(rs, pos)
    ensures forall i :: 0 <= i < |ScanReads(rs, pos).messages| ==>
      pos < ScanReads(rs, pos).messages[i].position <= ScanReads(rs, pos).position
    ensures forall i, j :: 0 <= i < j < |ScanReads(rs, pos).messages| ==>
      ScanReads(rs, pos).messages[i].position <= ScanReads(rs, pos).messages[j].position
    decreases |rs|
  {
    if rs != [] {
      var p := pos + rs[0].length;
      var found := LineMessages(rs[0], p);
      LineMessagesFacts(rs[0], p);
      if !rs[0].raised {
        var rest := ScanReads(rs[1..], p);
        assert ScanReads(rs, pos) == Scan(found + rest.messages, rest.position, rest.consumed + 1, rest.aborted);
        ScanPositions(rs[1..], p);
        RestPositionAtLeast(rs[1..], p);
        JoinPositions(found, rest.messages, pos, p, rest.position, Offsets(rs[1..], p));
      }
    }
  }

  /** Messages of one line at offset `p`, followed by later messages at
      offsets in `ends` between `p` and `hi`, keep their offsets ordered
      and within the offsets `[p] + ends`. */
  lemma JoinPositions(found: seq<Message>, rest: seq<Message>, pos: int, p: int, hi: int, ends: seq<int>)
    requires pos < p <= hi
    requires forall i :: 0 <= i < |found| ==> found[i].position == p
    requires forall i :: 0 <= i < |rest| ==> rest[i].position in ends
    requires forall i :: 0 <= i < |rest| ==> p < rest[i].position <= hi
    requires forall i, j :: 0 <= i < j < |rest| ==> rest[i].position <= rest[j].position
    ensures forall i :: 0 <= i < |found + rest| ==> (found + rest)[i].position in [p] + ends
    ensures forall i :: 0 <= i < |found + rest| ==> pos < (found + rest)[i].position <= hi
    ensures forall i, j :: 0 <= i < j < |found + rest| ==> (found + rest)[i].position <= (found + rest)[j].position
  {
    var ms := found + rest;
    forall i | 0 <= i < |ms|
      ensures ms[i].position in [p] + ends
      ensures pos < ms[i].position <= hi
    {
      if i >= |found| {
        assert ms[i] == rest[i - |found|];
      }
    }
    forall i, j | 0 <= i < j < |ms|
      ensures ms[i].position <= ms[j].position
    {
      if j >= |found| {
        assert ms[j] == rest[j - |found|];
        if i >= |found| {
          assert ms[i] == rest[i - |found|];
        }
      }
    }
  }

  lemma {:induction false} RestPositionAtLeast(rs: seq<LineRead>, pos: int)
    ensures pos <= ScanReads(rs, pos).position
    decreases |rs|
  {
    if rs != [] && !rs[0].raised {
      var p := pos + rs[0].length;
      assert ScanReads(rs, pos).position == ScanReads(rs[1..], p).position;
      RestPositionAtLeast(rs[1..], p);
    }
  }

  /** The offset after line `j` is the start plus the UTF-8 length of the
      first `j + 1` lines. */
  lemma LineOffsets(lines: seq<string>, parse: string -> Entry, pos: int, j: nat)
    requires j < |lines|
    ensures Offsets(ReadLines(lines, parse), pos)[j] == pos + ByteLen(Concat(lines[..j + 1]))
  {
    OffsetsAdvance(ReadLines(lines, parse), pos, j);
    AdvanceJoined(lines, parse, j + 1);
  }

  lemma {:induction false} OffsetsAdvance(rs: seq<LineRead>, pos: int, j: nat)
    requires j < |rs|
    ensures Offsets(rs, pos)[j] == pos + Advance(rs, j + 1)
    decreases j
  {
    if j > 0 {
      OffsetsAdvance(rs[1..], pos + rs[0].length, j - 1);
    }
  }

  /** Lines of a non-empty text are read with a positive length. */
  lemma ReadLengthsPositive(lines: seq<string>, parse: string -> Entry)
    requires forall i :: 0 <= i < |lines| ==> lines[i] != []
    ensures forall i :: 0 <= i < |lines| ==> ReadLines(lines, parse)[i].length > 0
  {
    ReadLengths(lines, parse);
  }

  lemma {:induction false} ReadLinesAt(lines: seq<string>, parse: string -> Entry, i: nat)
    requires i < |lines|
    ensures ReadLines(lines, parse)[i] == ReadLine(lines[i], parse)
    decreases i
  {
    if i > 0 {
      ReadLinesAt(lines[1..], parse, i - 1);
    }
  }

  /** When every line is read, the offset reached is the start plus the
      UTF-8 length of the whole text read, trailing unterminated line included. */
  lemma ScanOfWholeText(t: string, pos: int, parse: string -> Entry)
    ensures var s := ScanLines(SplitLines(t), pos, parse);
      !s.aborted ==> s.position == pos + ByteLen(t)
  {
    var lines := SplitLines(t);
    ScanCursor(lines, pos, parse);
    ScanStops(ReadLines(lines, parse), pos);
    assert lines[..|lines|] == lines;
  }
}
