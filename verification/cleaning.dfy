/** Preparing an assistant message for speech (`clean_message_for_speech`
    in transcript_reader.py): cut at the first code fence, drop JSON and
    path-heavy messages, collapse whitespace and remove markdown markers. */
module SpeechCleaning {
  import opened Prelude
  import opened Text

  /** A markdown code fence. */
  const Fence: string := "```"

  /** A character a listener hears: neither whitespace nor a markdown marker. */
  predicate Visible(c: char) { !IsSpace(c) && c != '*' && c != '`' }

  /** The index of the next `d` at or after `j`, provided no line break
      comes first: how the lazy `(.*?)` of a regular expression, whose `.`
      does not match a line break, finds the closing delimiter. */
  function CloseFrom(s: string, d: string, j: nat): (r: Option<nat>)
    requires d != []
    ensures r.Some? ==> j <= r.value && r.value + |d| <= |s| && s[r.value..r.value + |d|] == d
    decreases |s| - j
  {
    if j + |d| > |s| then None
    else if s[j..j + |d|] == d then Some(j)
    else if s[j] == '\n' then None
    else CloseFrom(s, d, j + 1)
  }

  /** A delimited span at the start of a text: the text between the two
      delimiters, and the text after the closing one. */
  datatype Span = Span(inner: string, tail: string)

  /** The closing delimiter found is the first occurrence of `d` from `j`
      on, with no line break before it; when none is found, every later
      occurrence of `d` has a line break before it. */
  lemma {:induction false} CloseFromFirst(s: string, d: string, j: nat)
    requires d != [] && j <= |s|
    ensures CloseFrom(s, d, j).Some? ==>
      && '\n' !in s[j..CloseFrom(s, d, j).value]
      && forall q :: j <= q < CloseFrom(s, d, j).value ==> !OccursAt(s, d, q)
    ensures CloseFrom(s, d, j).None? ==> forall q :: j <= q && OccursAt(s, d, q) ==> '\n' in s[j..q]
    decreases |s| - j
  {
    if j + |d| <= |s| && s[j..j + |d|] != d {
      if s[j] != '\n' {
        CloseFromFirst(s, d, j + 1);
        CloseFromStep(s, d, j);
      } else {
        BreakBeforeAll(s, d, j);
      }
    }
  }

  /** A scan that moves past a character that is neither a line break nor
      the start of `d` keeps the properties of the scan from the next index. */
  lemma CloseFromStep(s: string, d: string, j: nat)
    requires d != [] && j + |d| <= |s| && s[j..j + |d|] != d && s[j] != '\n'
    requires CloseFrom(s, d, j + 1).Some? ==>
      && '\n' !in s[j + 1..CloseFrom(s, d, j + 1).value]
      && forall q :: j + 1 <= q < CloseFrom(s, d, j + 1).value ==> !OccursAt(s, d, q)
    requires CloseFrom(s, d, j + 1).None? ==> forall q :: j + 1 <= q && OccursAt(s, d, q) ==> '\n' in s[j + 1..q]
    ensures CloseFrom(s, d, j).Some? ==>
      && '\n' !in s[j..CloseFrom(s, d, j).value]
      && forall q :: j <= q < CloseFrom(s, d, j).value ==> !OccursAt(s, d, q)
    ensures CloseFrom(s, d, j).None? ==> forall q :: j <= q && OccursAt(s, d, q) ==> '\n' in s[j..q]
  {
    assert CloseFrom(s, d, j) == CloseFrom(s, d, j + 1);
    match CloseFrom(s, d, j + 1)
    case Some(c) =>
      StepFound(s, d, j, c);
    case None =>
      StepNotFound(s, d, j);
  }

  lemma StepFound(s: string, d: string, j: nat, c: nat)
    requires d != [] && j < c <= |s| && !OccursAt(s, d, j) && s[j] != '\n'
    requires '\n' !in s[j + 1..c] && forall q :: j + 1 <= q < c ==> !OccursAt(s, d, q)
    ensures '\n' !in s[j..c] && forall q :: j <= q < c ==> !OccursAt(s, d, q)
  {
    assert s[j..c] == [s[j]] + s[j + 1..c];
  }

  lemma StepNotFound(s: string, d: string, j: nat)
    requires d != [] && j < |s| && !OccursAt(s, d, j)
    requires forall q :: j + 1 <= q && OccursAt(s, d, q) ==> '\n' in s[j + 1..q]
    ensures forall q :: j <= q && OccursAt(s, d, q) ==> '\n' in s[j..q]
  {
    forall q | j <= q && OccursAt(s, d, q)
      ensures '\n' in s[j..q]
    {
      assert s[j + 1..q] == s[j..q][1..];
    }
  }

  /** A line break at `j` that does not start `d` comes before every later
      occurrence of `d`. */
  lemma BreakBeforeAll(s: string, d: string, j: nat)
    requires d != [] && j + |d| <= |s| && s[j..j + |d|] != d && s[j] == '\n'
    ensures forall q :: j <= q && OccursAt(s, d, q) ==> '\n' in s[j..q]
  {
    forall q | j <= q && OccursAt(s, d, q)
      ensures '\n' in s[j..q]
    {
      assert q != j;
      assert s[j..q][0] == '\n';
    }
  }

  /** The match of `d(.*?)d` at the start of `s`, if any: `d`, then the
      text up to the delimiter closing it on the same line. */
  function PairAt(s: string, d: string): (r: Option<Span>)
    requires d != []
    ensures r.Some? ==> s == d + r.value.inner + d + r.value.tail
  {
    if |d| <= |s| && s[..|d|] == d then
      match CloseFrom(s, d, |d|)
      case Some(j) =>
        CutFour(s, |d|, j, j + |d|);
        Some(Span(s[|d|..j], s[j + |d|..]))
      case None => None
    else None
  }

  /** `PairAt` is the lazy match: the inner text runs up to the first `d`
      after the opening one, and holds no line break (the `.` of `.*?`
      does not match one). There is no match exactly when `s` does not
      start with `d`, or every later `d` has a line break before it. */
  lemma PairAtLazy(s: string, d: string)
    requires d != []
    ensures PairAt(s, d).Some? ==>
      && '\n' !in PairAt(s, d).value.inner
      && forall q :: |d| <= q < |d| + |PairAt(s, d).value.inner| ==> !OccursAt(s, d, q)
    ensures PairAt(s, d).None? <==>
      !OccursAt(s, d, 0) || forall q :: |d| <= q && OccursAt(s, d, q) ==> '\n' in s[|d|..q]
  {
    if |d| <= |s| && s[..|d|] == d {
      CloseFromFirst(s, d, |d|);
      if CloseFrom(s, d, |d|).Some? {
        assert OccursAt(s, d, CloseFrom(s, d, |d|).value);
      }
    }
  }

  lemma CutFour(s: string, a: nat, b: nat, c: nat)
    requires a <= b <= c <= |s|
    ensures s == s[..a] + s[a..b] + s[b..c] + s[c..]
  {
    assert s[..b] == s[..a] + s[a..b];
    assert s[..c] == s[..b] + s[b..c];
    assert s == s[..c] + s[c..];
  }

  /** Python `re.sub(d + '(.*?)' + d, r'\1', s)` for a literal delimiter
      `d`: scanning left to right, a delimiter that is closed by the next
      occurrence of `d` on the same line loses both delimiters; otherwise
      the character is kept and the scan moves on by one. */
  function StripPairs(s: string, d: string): (r: string)
    requires d != []
    ensures |r| <= |s|
    decreases |s|
  {
    if s == [] then []
    else
      match PairAt(s, d)
      case Some(span) =>
        assert |s| == |d| + |span.inner| + |d| + |span.tail|;
        span.inner + StripPairs(span.tail, d)
      case None => [s[0]] + StripPairs(s[1..], d)
  }

  /** Removing pairs only deletes characters. */
  lemma {:induction false} StripPairsShrinks(s: string, d: string)
    requires d != []
    ensures multiset(StripPairs(s, d)) <= multiset(s)
    decreases |s|
  {
    if s != [] {
      match PairAt(s, d)
      case Some(span) =>
        StripPairsShrinks(span.tail, d);
        assert StripPairs(s, d) == span.inner + StripPairs(span.tail, d);
        assert multiset(s) == multiset(d) + multiset(span.inner) + multiset(d) + multiset(span.tail);
      case None =>
        StripPairsShrinks(s[1..], d);
        assert StripPairs(s, d) == [s[0]] + StripPairs(s[1..], d);
        assert s == [s[0]] + s[1..];
    }
  }

  /** Only delimiter characters are deleted: every character `keep`
      selects, none of which occurs in `d`, survives in order. */
  lemma {:induction false} StripPairsKeeps(s: string, d: string, keep: char -> bool)
    requires d != []
    requires forall i :: 0 <= i < |d| ==> !keep(d[i])
    ensures Filter(StripPairs(s, d), keep) == Filter(s, keep)
    decreases |s|
  {
    if s != [] {
      match PairAt(s, d)
      case Some(span) =>
        StripPairsKeeps(span.tail, d, keep);
        assert StripPairs(s, d) == span.inner + StripPairs(span.tail, d);
        FilterAroundPair(d, span.inner, span.tail, StripPairs(span.tail, d), keep);
      case None =>
        StripPairsKeeps(s[1..], d, keep);
        assert StripPairs(s, d) == [s[0]] + StripPairs(s[1..], d);
        FilterAppend([s[0]], StripPairs(s[1..], d), keep);
        assert s == [s[0]] + s[1..];
        FilterAppend([s[0]], s[1..], keep);
    }
  }

  /** Filtering out the delimiters of a pair leaves the text between them
      and the text after them. */
  lemma FilterAroundPair(d: string, inner: string, tail: string, rest: string, keep: char -> bool)
    requires forall i :: 0 <= i < |d| ==> !keep(d[i])
    requires Filter(rest, keep) == Filter(tail, keep)
    ensures Filter(inner + rest, keep) == Filter(d + inner + d + tail, keep)
  {
    FilterNone(d, keep);
    FilterAppend(inner, rest, keep);
    FilterAppend(d + inner + d, tail, keep);
    FilterAppend(d + inner, d, keep);
    FilterAppend(d, inner, keep);
    assert [] + Filter(inner, keep) + [] == Filter(inner, keep);
  }

  /** On a single line, removing pairs of a one-character marker leaves at
      most one such marker: any marker left had no partner after it. */
  lemma {:induction false} StripPairsLeavesOne(s: string, c: char)
    requires '\n' !in s
    ensures multiset(StripPairs(s, [c]))[c] <= 1
    decreases |s|
  {
    if s != [] {
      match PairAt(s, [c])
      case Some(span) =>
        assert '\n' !in span.tail by {
          assert multiset(span.tail) <= multiset(s);
        }
        StripPairsLeavesOne(span.tail, c);
        LeavesOnePairStep(s, c, span);
      case None =>
        if s[0] == c {
          LeavesOneLastMarker(s, c);
        } else {
          assert '\n' !in s[1..] by {
            assert multiset(s[1..]) <= multiset(s) by { assert s == [s[0]] + s[1..]; }
          }
          StripPairsLeavesOne(s[1..], c);
          assert StripPairs(s, [c]) == [s[0]] + StripPairs(s[1..], [c]);
        }
    }
  }

  lemma LeavesOnePairStep(s: string, c: char, span: Span)
    requires PairAt(s, [c]) == Some(span)
    requires multiset(StripPairs(span.tail, [c]))[c] <= 1
    ensures multiset(StripPairs(s, [c]))[c] <= 1
  {
    FirstPartner(s, c);
    assert multiset(span.inner)[c] == 0;
    assert StripPairs(s, [c]) == span.inner + StripPairs(span.tail, [c]);
  }

  lemma LeavesOneLastMarker(s: string, c: char)
    requires s != [] && s[0] == c && '\n' !in s
    requires PairAt(s, [c]).None?
    ensures multiset(StripPairs(s, [c]))[c] <= 1
  {
    assert StripPairs(s, [c]) == [s[0]] + StripPairs(s[1..], [c]);
    NoPartner(s, c);
    StripPairsShrinks(s[1..], [c]);
  }

  /** No single-character marker `c` lies between `j` and the closing
      one found; when none is found on a line, none follows at all. */
  lemma {:induction false} CloseFromSingle(s: string, c: char, j: nat)
    requires j <= |s|
    ensures CloseFrom(s, [c], j).Some? ==> c !in s[j..CloseFrom(s, [c], j).value]
    ensures CloseFrom(s, [c], j).None? && '\n' !in s[j..] ==> c !in s[j..]
    decreases |s| - j
  {
    if j < |s| {
      assert s[j..j + 1] == [s[j]];
      if s[j] != c && s[j] != '\n' {
        CloseFromSingle(s, c, j + 1);
        assert s[j..] == [s[j]] + s[j + 1..];
        if CloseFrom(s, [c], j).Some? {
          var r := CloseFrom(s, [c], j).value;
          assert s[j..r] == [s[j]] + s[j + 1..r];
        }
      }
    }
  }

  /** The partner of a one-character marker is its next occurrence. */
  lemma FirstPartner(s: string, c: char)
    requires PairAt(s, [c]).Some?
    ensures c !in PairAt(s, [c]).value.inner
  {
    CloseFromSingle(s, c, 1);
  }

  /** On a single line, a marker without a partner is the last one. */
  lemma NoPartner(s: string, c: char)
    requires s != [] && s[0] == c && '\n' !in s
    requires PairAt(s, [c]).None?
    ensures multiset(s[1..])[c] == 0
  {
    assert s[..1] == [c];
    CloseFromSingle(s, c, 1);
    assert '\n' !in s[1..] by {
      forall x | x in s[1..] ensures x != '\n' {
        assert x in s;
      }
    }
  }

  /** Python `text.strip().startswith('{') and text.strip().endswith('}')`. */
  predicate LooksLikeJson(text: string) {
    var t := Strip(text);
    t != [] && t[0] == '{' && t[|t| - 1] == '}'
  }

  /** More than five slashes or more than five backslashes. */
  predicate PathHeavy(text: string) {
    multiset(text)['/'] > 5 || multiset(text)['\\'] > 5
  }

  /** The message as spoken, or `None` when it should not be spoken. A
      message with a code fence is cut at the first fence and only
      stripped; otherwise JSON-looking and path-heavy messages are dropped,
      and the rest is spoken as `Spoken` prepares it. */
  function Clean(text: string): (r: Option<string>)
    ensures r.None? <==> !Contains(text, Fence) && (LooksLikeJson(text) || PathHeavy(text))
  {
    match Find(text, Fence)
    case Some(k) => Some(Strip(text[..k]))
    case None =>
      if LooksLikeJson(text) || PathHeavy(text) then None
      else Some(Spoken(text))
  }

  /** Whitespace collapsed, then bold, italic and inline-code markers
      removed in that order, then stripped. */
  function Spoken(text: string): string {
    Strip(StripMarkers(Collapse(text)))
  }

  /** A fenced message is cut before its first fence: what is spoken
      holds no fence, is stripped, and keeps the non-space characters of
      the text before the fence in order. */
  lemma CleanFenced(text: string)
    requires Contains(text, Fence)
    ensures Clean(text).Some?
    ensures !Contains(Clean(text).value, Fence)
    ensures var k := Find(text, Fence).value;
      Filter(Clean(text).value, NotSpace) == Filter(text[..k], NotSpace)
  {
    var k := Find(text, Fence).value;
    var head := text[..k];
    assert Clean(text) == Some(Strip(head));
    BeforeFirst(text, Fence, k);
    StripNoFence(head);
    StripKeeps(head);
  }

  /** The text before the first occurrence of `p` does not contain `p`. */
  lemma BeforeFirst(s: string, p: string, k: nat)
    requires p != [] && k <= |s|
    requires forall j :: 0 <= j < k ==> !OccursAt(s, p, j)
    ensures !Contains(s[..k], p)
  {
    forall j | 0 <= j <= k ensures !OccursAt(s[..k], p, j) {
      if j + |p| <= k {
        assert s[..k][j..j + |p|] == s[j..j + |p|];
        assert !OccursAt(s, p, j);
      }
    }
  }

  /** Stripping cannot create a fence. */
  lemma StripNoFence(head: string)
    requires !Contains(head, Fence)
    ensures !Contains(Strip(head), Fence)
  {
    StripShape(head);
    var a := LeadingSpaces(head);
    SliceNotContains(head, Fence, a, a + |Strip(head)|);
  }

  /** An unfenced message that is spoken keeps every visible character in
      order, contains no whitespace but single ' ' characters and no line
      break, does not end in whitespace, and keeps at most one '*' and at
      most one '`' (a marker left without a partner). */
  lemma CleanSpoken(text: string)
    requires !Contains(text, Fence) && Clean(text).Some?
    ensures Filter(Clean(text).value, Visible) == Filter(text, Visible)
    ensures forall i :: 0 <= i < |Clean(text).value| && IsSpace(Clean(text).value[i]) ==> Clean(text).value[i] == ' '
    ensures multiset(Clean(text).value)['*'] <= 1
    ensures multiset(Clean(text).value)['`'] <= 1
  {
    var r := Spoken(text);
    assert Clean(text) == Some(r);
    SpokenVisible(text);
    SpokenSpaces(text);
    forall j | 0 <= j < |r| && IsSpace(r[j]) ensures r[j] == ' ' {
      assert r[j] in multiset(r);
    }
    SpokenMarkers(text);
  }

  /** Every visible character survives, in order. */
  lemma SpokenVisible(text: string)
    ensures Filter(Spoken(text), Visible) == Filter(text, Visible)
  {
    var c := Collapse(text);
    var m := StripMarkers(c);
    CollapseFacts(text);
    VisibleThroughSpaces(c, text);
    MarkersKeepVisible(c);
    StripKeeps(m);
    VisibleThroughSpaces(Spoken(text), m);
  }

  /** Bold, italic and inline-code markers removed, in that order. */
  function StripMarkers(s: string): string {
    StripPairs(StripPairs(StripPairs(s, "**"), "*"), "`")
  }

  /** Removing markers keeps every visible character in order. */
  lemma MarkersKeepVisible(s: string)
    ensures Filter(StripMarkers(s), Visible) == Filter(s, Visible)
  {
    var b := StripPairs(s, "**");
    var i := StripPairs(b, "*");
    StripPairsKeeps(s, "**", Visible);
    StripPairsKeeps(b, "*", Visible);
    StripPairsKeeps(i, "`", Visible);
  }

  /** The only whitespace left is ' '. */
  lemma SpokenSpaces(text: string)
    ensures forall x :: x in multiset(Spoken(text)) && IsSpace(x) ==> x == ' '
  {
    var c := Collapse(text);
    var b := StripPairs(c, "**");
    var i := StripPairs(b, "*");
    var m := StripPairs(i, "`");
    CollapseFacts(text);
    NoOtherSpace(c);
    StripPairsShrinks(c, "**");
    StripPairsShrinks(b, "*");
    StripPairsShrinks(i, "`");
    StripShrinks(m);
    assert multiset(Spoken(text)) <= multiset(c);
  }

  /** At most one italic marker and one inline-code marker are left. */
  lemma SpokenMarkers(text: string)
    ensures multiset(Spoken(text))['*'] <= 1
    ensures multiset(Spoken(text))['`'] <= 1
  {
    var c := Collapse(text);
    var b := StripPairs(c, "**");
    var i := StripPairs(b, "*");
    var m := StripPairs(i, "`");
    CollapseFacts(text);
    NoOtherSpace(c);
    StripPairsShrinks(c, "**");
    NoBreakIn(b, c);
    StripPairsLeavesOne(b, '*');
    StripPairsShrinks(b, "*");
    NoBreakIn(i, c);
    StripPairsLeavesOne(i, '`');
    StripPairsShrinks(i, "`");
    StripShrinks(m);
  }

  /** A text whose characters all come from a text whose only whitespace
      is ' ' holds no line break. */
  lemma NoBreakIn(a: string, c: string)
    requires multiset(a) <= multiset(c)
    requires forall x :: x in multiset(c) && IsSpace(x) ==> x == ' '
    ensures '\n' !in a
  {
    assert IsSpace('\n');
    assert '\n' !in multiset(a);
  }

  /** A single-spaced text has no whitespace other than ' '. */
  lemma NoOtherSpace(c: string)
    requires SingleSpaced(c)
    ensures forall x :: x in multiset(c) && IsSpace(x) ==> x == ' '
  {
    forall x | x in multiset(c) && IsSpace(x) ensures x == ' ' {
      assert x in c;
      var j :| 0 <= j < |c| && c[j] == x;
    }
  }

  /** Visible characters are unaffected by anything that preserves the
      non-space characters. */
  lemma VisibleThroughSpaces(a: string, b: string)
    requires Filter(a, NotSpace) == Filter(b, NotSpace)
    ensures Filter(a, Visible) == Filter(b, Visible)
  {
    FilterTwice(a, NotSpace, Visible);
    FilterTwice(b, NotSpace, Visible);
  }

  lemma {:induction false} FilterTwice(s: string, p: char -> bool, q: char -> bool)
    requires forall c :: q(c) ==> p(c)
    ensures Filter(Filter(s, p), q) == Filter(s, q)
    decreases |s|
  {
    if s != [] {
      FilterTwice(s[1..], p, q);
      FilterAppend(if p(s[0]) then [s[0]] else [], Filter(s[1..], p), q);
    }
  }
}
