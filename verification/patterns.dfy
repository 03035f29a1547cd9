/** The three regular expressions the summariser uses, each matched by hand
    at one position, and Python's `re.search` and `re.split` over them.
    None of the patterns can match the empty string, and none of them
    benefits from backtracking beyond what is written out here, so the
    leftmost match found by scanning start positions is the one Python's
    engine reports. `\s` is `Text.IsSpace` (Python's `str.isspace`); `\d`
    is restricted to ASCII digits. */
module Patterns {
  import opened Prelude
  import opened Text

  /** End of the maximal run of whitespace starting at `i`. */
  function SpaceRun(s: string, i: nat): (e: nat)
    requires i <= |s|
    ensures i <= e <= |s|
    ensures forall k :: i <= k < e ==> IsSpace(s[k])
    ensures e < |s| ==> !IsSpace(s[e])
    decreases |s| - i
  {
    if i < |s| && IsSpace(s[i]) then SpaceRun(s, i + 1) else i
  }

  /** End of the maximal run of digits starting at `i`. */
  function DigitRun(s: string, i: nat): (e: nat)
    requires i <= |s|
    ensures i <= e <= |s|
    ensures forall k :: i <= k < e ==> IsDigit(s[k])
    ensures e < |s| ==> !IsDigit(s[e])
    decreases |s| - i
  {
    if i < |s| && IsDigit(s[i]) then DigitRun(s, i + 1) else i
  }

  /** Last index in `[lo, hi)` holding a newline. */
  function LastNewline(s: string, lo: nat, hi: nat): (r: Option<nat>)
    requires lo <= hi <= |s|
    ensures r.Some? ==> lo <= r.value < hi && s[r.value] == '\n'
    ensures r.Some? ==> forall k :: r.value < k < hi ==> s[k] != '\n'
    ensures r.None? ==> forall k :: lo <= k < hi ==> s[k] != '\n'
    decreases hi - lo
  {
    if hi == lo then None
    else if s[hi - 1] == '\n' then Some(hi - 1)
    else LastNewline(s, lo, hi - 1)
  }

  /** The list marker `(\d+\.|\*|\-)` at `i`: the index just after it. */
  function MarkerEnd(s: string, i: nat): (r: Option<nat>)
    requires i <= |s|
    ensures r.Some? ==> i < r.value <= |s|
    ensures r.Some? && r.value == i + 1 ==> s[i] == '*' || s[i] == '-'
    ensures r.Some? && r.value > i + 1 ==> s[r.value - 1] == '.' && forall k :: i <= k < r.value - 1 ==> IsDigit(s[k])
    ensures i < |s| && (s[i] == '*' || s[i] == '-') ==> r == Some(i + 1)
  {
    if i == |s| then None
    else if s[i] == '*' || s[i] == '-' then Some(i + 1)
    else
      var d := DigitRun(s, i);
      if i < d < |s| && s[d] == '.' then Some(d + 1) else None
  }

  datatype Pattern =
    | ListStart      // \n\s*(\d+\.|\*|\-)\s+
    | InlineNumber   // \s*\d+\.\s+
    | SentenceBreak  // (?<=[.!?])\s+(?=[A-Z])|(?<=[.!?])\s*\n

  predicate EndsSentence(c: char) { c == '.' || c == '!' || c == '?' }

  /** `\n\s*(\d+\.|\*|\-)\s+` at `i`: a newline, any whitespace, a marker,
      and at least one whitespace character, all of which it consumes. */
  function ListStartAt(s: string, i: nat): (r: Option<nat>)
    requires i <= |s|
    ensures r.Some? ==> i < r.value <= |s|
  {
    if i < |s| && s[i] == '\n' then
      match MarkerEnd(s, SpaceRun(s, i + 1))
      case Some(m) =>
        var e := SpaceRun(s, m);
        if m < e then Some(e) else None
      case None => None
    else None
  }

  /** `\s*\d+\.\s+` at `i`. */
  function InlineNumberAt(s: string, i: nat): (r: Option<nat>)
    requires i <= |s|
    ensures r.Some? ==> i < r.value <= |s|
  {
    var j := SpaceRun(s, i);
    var d := DigitRun(s, j);
    if j < d < |s| && s[d] == '.' then
      var e := SpaceRun(s, d + 1);
      if d + 1 < e then Some(e) else None
    else None
  }

  /** `(?<=[.!?])\s+(?=[A-Z])|(?<=[.!?])\s*\n` at `i`. The look-behind
      inspects `s[i - 1]` even when a search started at `i`, as Python's
      engine does. The first alternative takes the whole whitespace run
      when a capital letter follows it; otherwise the second backtracks to
      the last newline in the run. */
  function SentenceBreakAt(s: string, i: nat): (r: Option<nat>)
    requires i <= |s|
    ensures r.Some? ==> i < r.value <= |s|
  {
    if 0 < i && EndsSentence(s[i - 1]) then
      var e := SpaceRun(s, i);
      if i < e < |s| && IsUpper(s[e]) then Some(e)
      else
        match LastNewline(s, i, e)
        case Some(k) => Some(k + 1)
        case None => None
    else None
  }

  /** The end of the match of `p` starting exactly at `i`, if there is one. */
  function MatchAt(p: Pattern, s: string, i: nat): (r: Option<nat>)
    requires i <= |s|
    ensures r.Some? ==> i < r.value <= |s|
  {
    match p
    case ListStart => ListStartAt(s, i)
    case InlineNumber => InlineNumberAt(s, i)
    case SentenceBreak => SentenceBreakAt(s, i)
  }

  /** `MatchAt` for one pattern and one text, as a function value, so that
      the search and split below can be reasoned about without unfolding
      the pattern's definition. */
  function Matcher(p: Pattern, s: string): nat -> Option<nat> {
    (i: nat) => if i <= |s| then MatchAt(p, s, i) else None
  }

  /** A matcher for a text of length `n` only reports matches that end
      after they start and within the text. */
  ghost predicate Sound(m: nat -> Option<nat>, n: nat) {
    forall i: nat :: m(i).Some? ==> i < m(i).value <= n
  }

  lemma MatcherSound(p: Pattern, s: string)
    ensures Sound(Matcher(p, s), |s|)
  {
  }

  lemma MatcherAgrees(p: Pattern, s: string)
    ensures forall j: nat :: j <= |s| ==> Matcher(p, s)(j) == MatchAt(p, s, j)
  {
  }

  /** A match: where it starts and where it ends. */
  datatype Hit = Hit(start: nat, end: nat)

  /** Python `re.search(p, s[k:])` shifted back to indices of `s`, for a
      text of length `n`: the leftmost match starting at or after `k`. */
  function Search(m: nat -> Option<nat>, n: nat, k: nat): (r: Option<Hit>)
    requires k <= n && Sound(m, n)
    ensures r.Some? ==> k <= r.value.start < r.value.end <= n
    ensures r.Some? ==> m(r.value.start) == Some(r.value.end)
    ensures r.Some? ==> forall j :: k <= j < r.value.start ==> m(j).None?
    ensures r.None? ==> forall j :: k <= j <= n ==> m(j).None?
    decreases n - k
  {
    match m(k)
    case Some(e) => Some(Hit(k, e))
    case None => if k == n then None else Search(m, n, k + 1)
  }

  /** Python `re.search(p, s)`. */
  function SearchIn(p: Pattern, s: string): (r: Option<Hit>)
    ensures r.Some? ==> r.value.start < r.value.end <= |s| && MatchAt(p, s, r.value.start) == Some(r.value.end)
    ensures r.Some? ==> forall j :: 0 <= j < r.value.start ==> MatchAt(p, s, j).None?
    ensures r.None? ==> forall j :: 0 <= j <= |s| ==> MatchAt(p, s, j).None?
  {
    MatcherSound(p, s);
    MatcherAgrees(p, s);
    Search(Matcher(p, s), |s|, 0)
  }

  /** The pieces Python `re.split` returns, the index of the text at which
      each piece starts, and the matched separators between them. */
  datatype Parts = Parts(pieces: seq<string>, starts: seq<nat>, seps: seq<string>)

  function SplitParts(m: nat -> Option<nat>, s: string, k: nat): (r: Parts)
    requires k <= |s| && Sound(m, |s|)
    ensures |r.pieces| == |r.seps| + 1 == |r.starts|
    ensures forall j :: 0 <= j < |r.seps| ==> r.seps[j] != []
    decreases |s| - k
  {
    match Search(m, |s|, k)
    case None => Parts([s[k..]], [k], [])
    case Some(h) =>
      var rest := SplitParts(m, s, h.end);
      Parts([s[k..h.start]] + rest.pieces, [k] + rest.starts, [s[h.start..h.end]] + rest.seps)
  }

  /** The pieces, starts and separators of Python `re.split(p, s)`. */
  function SplitAll(p: Pattern, s: string): (r: Parts)
    ensures |r.pieces| == |r.seps| + 1 == |r.starts|
  {
    MatcherSound(p, s);
    SplitParts(Matcher(p, s), s, 0)
  }

  /** Python `re.split(p, s)` for a pattern without capturing groups. */
  function Split(p: Pattern, s: string): (r: seq<string>)
    ensures |r| >= 1
  {
    SplitAll(p, s).pieces
  }

  /** Pieces and separators put back together in alternation. */
  function Interleave(pieces: seq<string>, seps: seq<string>): string
    requires |pieces| == |seps| + 1
  {
    if seps == [] then pieces[0]
    else pieces[0] + seps[0] + Interleave(pieces[1..], seps[1..])
  }

  /** One step of the split, when a match is found at or after `k`. */
  lemma SplitPartsStep(m: nat -> Option<nat>, s: string, k: nat, h: Hit)
    requires k <= |s| && Sound(m, |s|) && Search(m, |s|, k) == Some(h)
    ensures h.end <= |s|
    ensures SplitParts(m, s, k).pieces == [s[k..h.start]] + SplitParts(m, s, h.end).pieces
    ensures SplitParts(m, s, k).starts == [k] + SplitParts(m, s, h.end).starts
    ensures SplitParts(m, s, k).seps == [s[h.start..h.end]] + SplitParts(m, s, h.end).seps
  {
  }

  lemma InterleaveCons(a: string, b: string, pieces: seq<string>, seps: seq<string>)
    requires |pieces| == |seps| + 1
    ensures Interleave([a] + pieces, [b] + seps) == a + b + Interleave(pieces, seps)
  {
    assert ([a] + pieces)[1..] == pieces && ([b] + seps)[1..] == seps;
  }

  lemma SliceThree(s: string, a: nat, b: nat, c: nat)
    requires a <= b <= c <= |s|
    ensures s[a..] == s[a..b] + s[b..c] + s[c..]
  {
  }

  /** Splitting loses nothing: the pieces interleaved with the matched
      separators give back the text. */
  lemma {:induction false} SplitRejoins(m: nat -> Option<nat>, s: string, k: nat)
    requires k <= |s| && Sound(m, |s|)
    ensures Interleave(SplitParts(m, s, k).pieces, SplitParts(m, s, k).seps) == s[k..]
    decreases |s| - k
  {
    match Search(m, |s|, k)
    case None =>
    case Some(h) =>
      var rest := SplitParts(m, s, h.end);
      SplitPartsStep(m, s, k, h);
      SplitRejoins(m, s, h.end);
      InterleaveCons(s[k..h.start], s[h.start..h.end], rest.pieces, rest.seps);
      SliceThree(s, k, h.start, h.end);
  }

  /** `piece` sits in `s` at index `lo`. */
  predicate PieceAt(s: string, piece: string, lo: nat) {
    lo + |piece| <= |s| && s[lo..lo + |piece|] == piece
  }

  /** `m` reports no match starting in `[lo, hi)`. */
  ghost predicate Unmatched(m: nat -> Option<nat>, lo: nat, hi: nat) {
    forall j: nat :: lo <= j < hi ==> m(j).None?
  }

  lemma PieceAtSlice(s: string, lo: nat, hi: nat)
    requires lo <= hi <= |s|
    ensures PieceAt(s, s[lo..hi], lo)
  {
    assert s[lo..lo + |s[lo..hi]|] == s[lo..hi];
  }

  /** No separator was missed: every piece sits in the text at its start
      index, and no match starts inside it. */
  lemma {:induction false} SplitPiecesUnmatched(m: nat -> Option<nat>, s: string, k: nat, i: nat)
    requires k <= |s| && Sound(m, |s|) && i < |SplitParts(m, s, k).pieces|
    ensures PieceAt(s, SplitParts(m, s, k).pieces[i], SplitParts(m, s, k).starts[i])
    ensures Unmatched(m, SplitParts(m, s, k).starts[i], SplitParts(m, s, k).starts[i] + |SplitParts(m, s, k).pieces[i]|)
    decreases |s| - k
  {
    var r := SplitParts(m, s, k);
    match Search(m, |s|, k)
    case None =>
      assert r.pieces[i] == s[k..|s|] && r.starts[i] == k;
      PieceAtSlice(s, k, |s|);
      assert Unmatched(m, k, |s|);
    case Some(h) =>
      var rest := SplitParts(m, s, h.end);
      SplitPartsStep(m, s, k, h);
      if i == 0 {
        assert r.pieces[0] == s[k..h.start] && r.starts[0] == k;
        PieceAtSlice(s, k, h.start);
        assert Unmatched(m, k, h.start);
      } else {
        assert r.pieces[i] == rest.pieces[i - 1] && r.starts[i] == rest.starts[i - 1];
        SplitPiecesUnmatched(m, s, h.end, i - 1);
      }
  }

  /** Separator `i` of `r` is the match `m` reports where piece `i` ends,
      and piece `i + 1` starts right after it. */
  ghost predicate SepAfter(m: nat -> Option<nat>, s: string, r: Parts, i: nat)
    requires |r.pieces| == |r.seps| + 1 == |r.starts| && i < |r.seps|
  {
    var b := r.starts[i] + |r.pieces[i]|;
    && b + |r.seps[i]| <= |s| && m(b) == Some(b + |r.seps[i]|) && s[b..b + |r.seps[i]|] == r.seps[i]
    && r.starts[i + 1] == b + |r.seps[i]|
  }

  /** Every separator is the match `m` reports where its piece ends, and
      the next piece starts right after it. */
  lemma {:induction false} SplitSepsMatched(m: nat -> Option<nat>, s: string, k: nat, i: nat)
    requires k <= |s| && Sound(m, |s|) && i < |SplitParts(m, s, k).seps|
    ensures SepAfter(m, s, SplitParts(m, s, k), i)
    decreases |s| - k
  {
    var h := Search(m, |s|, k).value;
    if i == 0 {
      SplitSepHead(m, s, k, h);
    } else {
      SplitSepsMatched(m, s, h.end, i - 1);
      SplitSepTail(m, s, k, h, i);
    }
  }

  lemma SplitSepHead(m: nat -> Option<nat>, s: string, k: nat, h: Hit)
    requires k <= |s| && Sound(m, |s|) && Search(m, |s|, k) == Some(h)
    ensures |SplitParts(m, s, k).seps| > 0 && SepAfter(m, s, SplitParts(m, s, k), 0)
  {
    var r := SplitParts(m, s, k);
    SplitPartsStep(m, s, k, h);
    SplitStartsAt(m, s, h.end);
    assert r.pieces[0] == s[k..h.start] && r.starts[0] == k && r.seps[0] == s[h.start..h.end];
    assert r.starts[1] == h.end;
  }

  lemma SplitSepTail(m: nat -> Option<nat>, s: string, k: nat, h: Hit, i: nat)
    requires k <= |s| && Sound(m, |s|) && Search(m, |s|, k) == Some(h) && 0 < i < |SplitParts(m, s, k).seps|
    requires h.end <= |s| && SepAfter(m, s, SplitParts(m, s, h.end), i - 1)
    ensures SepAfter(m, s, SplitParts(m, s, k), i)
  {
    var r := SplitParts(m, s, k);
    var rest := SplitParts(m, s, h.end);
    SplitPartsStep(m, s, k, h);
    assert r.pieces[i] == rest.pieces[i - 1] && r.starts[i] == rest.starts[i - 1];
    assert r.seps[i] == rest.seps[i - 1] && r.starts[i + 1] == rest.starts[i];
  }

  lemma SplitStartsAt(m: nat -> Option<nat>, s: string, k: nat)
    requires k <= |s| && Sound(m, |s|)
    ensures SplitParts(m, s, k).starts[0] == k
  {
  }

  lemma MatcherAt(p: Pattern, s: string, j: nat)
    requires j <= |s|
    ensures Matcher(p, s)(j) == MatchAt(p, s, j)
  {
  }

  /** Python `re.split(p, s)` loses nothing: its pieces put back together
      with the matched separators give `s`. */
  lemma SplitText(p: Pattern, s: string)
    ensures Interleave(SplitAll(p, s).pieces, SplitAll(p, s).seps) == s
  {
    MatcherSound(p, s);
    SplitRejoins(Matcher(p, s), s, 0);
  }

  /** No match of `p` in `s` starts in `[lo, hi)`. */
  predicate UnmatchedAt(p: Pattern, s: string, lo: nat, hi: nat)
    requires hi <= |s|
  {
    forall j :: lo <= j < hi ==> MatchAt(p, s, j).None?
  }

  /** `sep` is the match of `p` in `s` that starts at `b`. */
  predicate SepMatchAt(p: Pattern, s: string, sep: string, b: nat) {
    b + |sep| <= |s| && MatchAt(p, s, b) == Some(b + |sep|) && s[b..b + |sep|] == sep
  }

  /** Python `re.split(p, s)` cuts only at matches of `p`: each piece sits
      in `s` at its start index and no match of `p` starts inside it; the
      separator after it is the match of `p` where the piece ends, and the
      next piece starts where that match ends. */
  lemma SplitPiece(p: Pattern, s: string, i: nat)
    requires i < |Split(p, s)|
    ensures PieceAt(s, SplitAll(p, s).pieces[i], SplitAll(p, s).starts[i])
    ensures UnmatchedAt(p, s, SplitAll(p, s).starts[i], SplitAll(p, s).starts[i] + |SplitAll(p, s).pieces[i]|)
    ensures i < |SplitAll(p, s).seps| ==>
      && SepMatchAt(p, s, SplitAll(p, s).seps[i], SplitAll(p, s).starts[i] + |SplitAll(p, s).pieces[i]|)
      && SplitAll(p, s).starts[i + 1] == SplitAll(p, s).starts[i] + |SplitAll(p, s).pieces[i]| + |SplitAll(p, s).seps[i]|
  {
    MatcherSound(p, s);
    SplitPiecesUnmatched(Matcher(p, s), s, 0, i);
    var r := SplitAll(p, s);
    UnmatchedBridge(p, s, r.starts[i], r.starts[i] + |r.pieces[i]|);
    if i < |r.seps| {
      SplitSep(p, s, i);
    }
  }

  lemma SplitSep(p: Pattern, s: string, i: nat)
    requires i < |SplitAll(p, s).seps|
    ensures var r := SplitAll(p, s);
      && SepMatchAt(p, s, r.seps[i], r.starts[i] + |r.pieces[i]|)
      && r.starts[i + 1] == r.starts[i] + |r.pieces[i]| + |r.seps[i]|
  {
    MatcherSound(p, s);
    var m := Matcher(p, s);
    var r := SplitAll(p, s);
    assert r == SplitParts(m, s, 0);
    SplitSepsMatched(m, s, 0, i);
    SepFromMatcher(p, s, r, i);
  }

  lemma SepFromMatcher(p: Pattern, s: string, r: Parts, i: nat)
    requires |r.pieces| == |r.seps| + 1 == |r.starts| && i < |r.seps|
    requires SepAfter(Matcher(p, s), s, r, i)
    ensures SepMatchAt(p, s, r.seps[i], r.starts[i] + |r.pieces[i]|)
    ensures r.starts[i + 1] == r.starts[i] + |r.pieces[i]| + |r.seps[i]|
  {
    MatcherAt(p, s, r.starts[i] + |r.pieces[i]|);
  }

  lemma UnmatchedBridge(p: Pattern, s: string, lo: nat, hi: nat)
    requires hi <= |s| && Unmatched(Matcher(p, s), lo, hi)
    ensures UnmatchedAt(p, s, lo, hi)
  {
    forall j | lo <= j < hi
      ensures MatchAt(p, s, j).None?
    {
      MatcherAt(p, s, j);
      assert Matcher(p, s)(j).None?;
    }
  }
}
