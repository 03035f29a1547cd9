/** String helpers with the meaning Python's `str` methods give them.
    Whitespace is exactly the set for which Python's `str.isspace()` holds,
    which is also what `str.split()`, `str.strip()` and the regular
    expression class `\s` use. Case mapping and digits are ASCII only. */
module Text {
  import opened Prelude

  /** Python `str.isspace()` on one character. */
  predicate IsSpace(c: char) {
    || ('\U{0009}' <= c <= '\U{000D}')
    || ('\U{001C}' <= c <= '\U{0020}')
    || c == '\U{0085}' || c == '\U{00A0}' || c == '\U{1680}'
    || ('\U{2000}' <= c <= '\U{200A}')
    || c == '\U{2028}' || c == '\U{2029}' || c == '\U{202F}'
    || c == '\U{205F}' || c == '\U{3000}'
  }

  predicate NotSpace(c: char) { !IsSpace(c) }

  predicate AllSpace(s: string) {
    forall i :: 0 <= i < |s| ==> IsSpace(s[i])
  }

  predicate NoSpace(s: string) {
    forall i :: 0 <= i < |s| ==> !IsSpace(s[i])
  }

  /** ASCII digit, the class `\d` is restricted to in this model. */
  predicate IsDigit(c: char) { '0' <= c <= '9' }

  /** The regular expression class `[A-Z]`. */
  predicate IsUpper(c: char) { 'A' <= c <= 'Z' }

  /** `str.lower()` restricted to ASCII letters. */
  function LowerChar(c: char): (r: char)
    ensures IsUpper(c) ==> r as int == c as int + 32
    ensures !IsUpper(c) ==> r == c
  {
    if IsUpper(c) then (c as int + 32) as char else c
  }

  function Lower(s: string): (r: string)
    ensures |r| == |s|
    ensures forall i :: 0 <= i < |s| ==> r[i] == LowerChar(s[i])
  {
    seq(|s|, i requires 0 <= i < |s| => LowerChar(s[i]))
  }

  /** Keeps the characters satisfying `keep`, in order. */
  function Filter(s: string, keep: char -> bool): (r: string)
    ensures |r| <= |s|
  {
    if s == [] then [] else (if keep(s[0]) then [s[0]] else []) + Filter(s[1..], keep)
  }

  lemma {:induction false} FilterAppend(a: string, b: string, keep: char -> bool)
    ensures Filter(a + b, keep) == Filter(a, keep) + Filter(b, keep)
    decreases |a|
  {
    if a == [] {
      assert a + b == b;
    } else {
      var head := if keep(a[0]) then [a[0]] else [];
      assert (a + b)[0] == a[0];
      assert (a + b)[1..] == a[1..] + b;
      FilterAppend(a[1..], b, keep);
      assert Filter(a + b, keep) == head + Filter(a[1..] + b, keep);
      assert Filter(a, keep) == head + Filter(a[1..], keep);
    }
  }

  lemma FilterSplitAt(s: string, i: nat, keep: char -> bool)
    requires i <= |s|
    ensures Filter(s, keep) == Filter(s[..i], keep) + Filter(s[i..], keep)
  {
    assert s == s[..i] + s[i..];
    FilterAppend(s[..i], s[i..], keep);
  }

  lemma {:induction false} FilterNone(s: string, keep: char -> bool)
    requires forall i :: 0 <= i < |s| ==> !keep(s[i])
    ensures Filter(s, keep) == []
    decreases |s|
  {
    if s != [] {
      FilterNone(s[1..], keep);
    }
  }

  lemma {:induction false} FilterAll(s: string, keep: char -> bool)
    requires forall i :: 0 <= i < |s| ==> keep(s[i])
    ensures Filter(s, keep) == s
    decreases |s|
  {
    if s != [] {
      FilterAll(s[1..], keep);
    }
  }

  /** `p` occurs in `s` starting at index `i`. */
  predicate OccursAt(s: string, p: string, i: int) {
    0 <= i && i + |p| <= |s| && s[i..i + |p|] == p
  }

  /** Python `p in s`. */
  predicate Contains(s: string, p: string) {
    exists i :: 0 <= i <= |s| && OccursAt(s, p, i)
  }

  predicate EndsWith(s: string, p: string) {
    |p| <= |s| && s[|s| - |p|..] == p
  }

  /** A character of `p` that does not occur in `s` rules out `p in s`. */
  lemma MissingCharNotContained(s: string, p: string, c: char)
    requires c in p && c !in s
    ensures !Contains(s, p)
  {
    var k :| 0 <= k < |p| && p[k] == c;
    forall i | 0 <= i <= |s|
      ensures !OccursAt(s, p, i)
    {
      if i + |p| <= |s| {
        assert s[i..i + |p|][k] == s[i + k];
        assert s[i + k] in s;
      }
    }
  }

  lemma PrefixContained(s: string, p: string)
    requires p <= s
    ensures Contains(s, p)
  {
    assert OccursAt(s, p, 0);
  }

  /** A slice of a text that lacks `p` lacks `p`. */
  lemma SliceNotContains(s: string, p: string, lo: nat, hi: nat)
    requires lo <= hi <= |s| && !Contains(s, p)
    ensures !Contains(s[lo..hi], p)
  {
    forall j | 0 <= j <= hi - lo ensures !OccursAt(s[lo..hi], p, j) {
      if j + |p| <= hi - lo {
        var u, v := s[lo..hi][j..j + |p|], s[lo + j..lo + j + |p|];
        forall t | 0 <= t < |p| ensures u[t] == v[t] {
          assert u[t] == s[lo + j + t];
        }
        assert u == v;
        NotOccursAt(s, p, lo + j);
      }
    }
  }

  lemma NotOccursAt(s: string, p: string, i: nat)
    requires i <= |s| && !Contains(s, p)
    ensures !OccursAt(s, p, i)
  {
  }

  lemma ContainsInPrefix(s: string, p: string, n: nat)
    requires n <= |s| && Contains(s[..n], p)
    ensures Contains(s, p)
  {
    var i :| 0 <= i <= n && OccursAt(s[..n], p, i);
    assert s[i..i + |p|] == s[..n][i..i + |p|];
    assert OccursAt(s, p, i);
  }

  /** First occurrence of `p` at or after index `k`. */
  function FindFrom(s: string, p: string, k: nat): (r: Option<nat>)
    ensures r.Some? ==> k <= r.value && OccursAt(s, p, r.value)
    ensures r.Some? ==> forall j :: k <= j < r.value ==> !OccursAt(s, p, j)
    ensures r.None? ==> forall j :: k <= j ==> !OccursAt(s, p, j)
    decreases |s| - k
  {
    if k + |p| > |s| then None
    else if s[k..k + |p|] == p then Some(k)
    else FindFrom(s, p, k + 1)
  }

  /** Python `s.find(p)`, as an option: the first occurrence. */
  function Find(s: string, p: string): (r: Option<nat>)
    ensures r.Some? <==> Contains(s, p)
    ensures r.Some? ==> OccursAt(s, p, r.value)
    ensures r.Some? ==> forall j :: 0 <= j < r.value ==> !OccursAt(s, p, j)
  {
    var r := FindFrom(s, p, 0);
    assert r.Some? ==> OccursAt(s, p, r.value) && r.value <= |s|;
    r
  }

  /** Last occurrence of `p` starting at an index no greater than `k`. */
  function RFindUpTo(s: string, p: string, k: int): (r: Option<nat>)
    ensures r.Some? ==> r.value <= k && OccursAt(s, p, r.value)
    ensures r.Some? ==> forall j :: r.value < j <= k ==> !OccursAt(s, p, j)
    ensures r.None? ==> forall j :: j <= k ==> !OccursAt(s, p, j)
    decreases k + 1
  {
    if k < 0 then None
    else if k + |p| <= |s| && s[k..k + |p|] == p then Some(k)
    else RFindUpTo(s, p, k - 1)
  }

  /** Python `s.rfind(p)`, as an option: the last occurrence. */
  function RFind(s: string, p: string): (r: Option<nat>)
    ensures r.Some? <==> Contains(s, p)
    ensures r.Some? ==> OccursAt(s, p, r.value)
    ensures r.Some? ==> forall j :: r.value < j ==> !OccursAt(s, p, j)
  {
    RFindUpTo(s, p, |s| - |p|)
  }

  /** Python `s.replace(pat, rep)`: every non-overlapping occurrence, left to right. */
  function Replace(s: string, pat: string, rep: string): (r: string)
    requires pat != []
    ensures !Contains(s, pat) ==> r == s
    ensures forall c :: c in r ==> c in s || c in rep
    ensures |pat| == 1 && pat[0] !in rep ==> pat[0] !in r
    decreases |s|
  {
    if |s| < |pat| then
      assert !Contains(s, pat);
      s
    else if s[..|pat|] == pat then
      PrefixContained(s, pat);
      rep + Replace(s[|pat|..], pat, rep)
    else
      ContainsShift(s, pat);
      [s[0]] + Replace(s[1..], pat, rep)
  }

  lemma ContainsShift(s: string, p: string)
    requires s != []
    ensures Contains(s[1..], p) ==> Contains(s, p)
  {
    if Contains(s[1..], p) {
      var i :| 0 <= i <= |s[1..]| && OccursAt(s[1..], p, i);
      assert s[i + 1..i + 1 + |p|] == s[1..][i..i + |p|];
      assert OccursAt(s, p, i + 1);
    }
  }

  /** Number of leading whitespace characters. */
  function LeadingSpaces(s: string): (n: nat)
    ensures n <= |s|
    ensures forall i :: 0 <= i < n ==> IsSpace(s[i])
    ensures n < |s| ==> !IsSpace(s[n])
    decreases |s|
  {
    if s == [] || !IsSpace(s[0]) then 0 else 1 + LeadingSpaces(s[1..])
  }

  /** Number of trailing whitespace characters. */
  function TrailingSpaces(s: string): (n: nat)
    ensures n <= |s|
    ensures forall i :: |s| - n <= i < |s| ==> IsSpace(s[i])
    ensures n < |s| ==> !IsSpace(s[|s| - n - 1])
    decreases |s|
  {
    if s == [] || !IsSpace(s[|s| - 1]) then 0 else 1 + TrailingSpaces(s[..|s| - 1])
  }

  /** Filtering distributes over a split of `s` at `a <= b`. */
  lemma {:induction false} FilterSplit3(s: string, a: nat, b: nat, keep: char -> bool)
    requires a <= b <= |s|
    ensures Filter(s, keep) == Filter(s[..a], keep) + Filter(s[a..b], keep) + Filter(s[b..], keep)
  {
    assert s == s[..a] + s[a..b] + s[b..];
    FilterAppend(s[..a] + s[a..b], s[b..], keep);
    FilterAppend(s[..a], s[a..b], keep);
  }

  /** Python `s.strip()`; its properties are stated by `StripShape`,
      `StripEnds`, `StripKeeps` and `StripShrinks`. */
  function Strip(s: string): (r: string)
    ensures |r| <= |s|
  {
    var a := LeadingSpaces(s);
    if a == |s| then [] else s[a..|s| - TrailingSpaces(s)]
  }

  /** `s.strip()` is the slice of `s` that starts after its leading
      whitespace. */
  lemma StripShape(s: string)
    ensures LeadingSpaces(s) + |Strip(s)| <= |s|
    ensures Strip(s) == s[LeadingSpaces(s)..LeadingSpaces(s) + |Strip(s)|]
  {
    var a := LeadingSpaces(s);
    if a == |s| {
      assert Strip(s) == [] == s[a..a];
    } else {
      assert a < |s| - TrailingSpaces(s);
    }
  }

  /** `s.strip()` is empty exactly for all-whitespace text and otherwise
      starts and ends with non-whitespace. */
  lemma StripEnds(s: string)
    ensures Strip(s) == [] <==> AllSpace(s)
    ensures Strip(s) != [] ==> !IsSpace(Strip(s)[0]) && !IsSpace(Strip(s)[|Strip(s)| - 1])
  {
    var a := LeadingSpaces(s);
    if a < |s| {
      var b := |s| - TrailingSpaces(s);
      assert !IsSpace(s[a]);
      assert a < b;
      assert Strip(s)[0] == s[a] && Strip(s)[|Strip(s)| - 1] == s[b - 1];
    }
  }

  /** `s.strip()` keeps every non-whitespace character of `s` in order. */
  lemma StripKeeps(s: string)
    ensures Filter(Strip(s), NotSpace) == Filter(s, NotSpace)
  {
    var a := LeadingSpaces(s);
    if a == |s| {
      FilterNone(s, NotSpace);
    } else {
      var b := |s| - TrailingSpaces(s);
      assert !IsSpace(s[a]);
      assert a < b;
      assert Strip(s) == s[a..b];
      StripFilter(s, a, b);
    }
  }

  /** `s.strip()` adds no character. */
  lemma StripShrinks(s: string)
    ensures multiset(Strip(s)) <= multiset(s)
  {
    StripShape(s);
    var a := LeadingSpaces(s);
    SliceShrinks(s, a, a + |Strip(s)|);
  }

  lemma SliceShrinks<T>(s: seq<T>, i: nat, j: nat)
    requires i <= j <= |s|
    ensures multiset(s[i..j]) <= multiset(s)
  {
    assert s == s[..i] + s[i..j] + s[j..];
  }

  /** Text that starts and ends with non-whitespace is its own strip. */
  lemma StripUnchanged(s: string)
    requires s != [] && !IsSpace(s[0]) && !IsSpace(s[|s| - 1])
    ensures Strip(s) == s
  {
    assert LeadingSpaces(s) == 0;
    assert TrailingSpaces(s) == 0;
    assert s[0..|s|] == s;
  }

  lemma {:induction false} StripFilter(s: string, a: nat, b: nat)
    requires a <= b <= |s|
    requires forall i :: 0 <= i < a ==> IsSpace(s[i])
    requires forall i :: b <= i < |s| ==> IsSpace(s[i])
    ensures Filter(s[a..b], NotSpace) == Filter(s, NotSpace)
  {
    FilterSplit3(s, a, b, NotSpace);
    FilterNone(s[..a], NotSpace);
    FilterNone(s[b..], NotSpace);
  }

  /** Python `s.rstrip(c)` for a single character `c`. */
  function RStripChar(s: string, c: char): (r: string)
    ensures r <= s
    ensures r == [] || r[|r| - 1] != c
    ensures forall i :: |r| <= i < |s| ==> s[i] == c
    decreases |s|
  {
    if s != [] && s[|s| - 1] == c then RStripChar(s[..|s| - 1], c) else s
  }

  /** Flattens a sequence of strings. */
  function Concat(ws: seq<string>): string {
    if ws == [] then [] else ws[0] + Concat(ws[1..])
  }

  /** Python `sep.join(ws)`. */
  function Join(ws: seq<string>, sep: string): string {
    if ws == [] then []
    else if |ws| == 1 then ws[0]
    else ws[0] + sep + Join(ws[1..], sep)
  }

  /** Number of leading non-whitespace characters. */
  function WordLength(s: string): (n: nat)
    ensures n <= |s|
    ensures forall i :: 0 <= i < n ==> !IsSpace(s[i])
    ensures n < |s| ==> IsSpace(s[n])
    decreases |s|
  {
    if s == [] || IsSpace(s[0]) then 0 else 1 + WordLength(s[1..])
  }

  /** Python `s.split()`: the maximal runs of non-whitespace characters. */
  function Words(s: string): seq<string>
    decreases |s|
  {
    var a := LeadingSpaces(s);
    if a == |s| then []
    else
      var n := a + WordLength(s[a..]);
      [s[a..n]] + Words(s[n..])
  }

  /** The words are non-empty and hold no whitespace. */
  lemma {:induction false} WordsAreWords(s: string)
    ensures forall i :: 0 <= i < |Words(s)| ==> Words(s)[i] != [] && NoSpace(Words(s)[i])
    decreases |s|
  {
    var a := LeadingSpaces(s);
    if a < |s| {
      var n := a + WordLength(s[a..]);
      WordsAreWords(s[n..]);
      var rest := Words(s[n..]);
      assert Words(s) == [s[a..n]] + rest;
      assert NoSpace(s[a..n]) by {
        forall i | 0 <= i < n - a ensures !IsSpace(s[a..n][i]) {
          assert s[a..n][i] == s[a..][i];
        }
      }
    }
  }

  /** Together the words are the non-whitespace characters of `s` in order. */
  lemma {:induction false} WordsJoined(s: string)
    ensures Concat(Words(s)) == Filter(s, NotSpace)
    decreases |s|
  {
    var a := LeadingSpaces(s);
    if a == |s| {
      FilterNone(s, NotSpace);
    } else {
      var n := a + WordLength(s[a..]);
      WordsStep(s, a, n);
      WordsJoined(s[n..]);
      var rest := Words(s[n..]);
      var ws := [s[a..n]] + rest;
      assert Words(s) == ws;
      assert ws[1..] == rest;
      assert Concat(ws) == s[a..n] + Concat(rest);
    }
  }

  lemma {:induction false} WordsStep(s: string, a: nat, n: nat)
    requires a < n <= |s|
    requires forall i :: 0 <= i < a ==> IsSpace(s[i])
    requires forall i :: a <= i < n ==> !IsSpace(s[i])
    ensures Filter(s, NotSpace) == s[a..n] + Filter(s[n..], NotSpace)
  {
    FilterSplit3(s, a, n, NotSpace);
    FilterNone(s[..a], NotSpace);
    FilterAll(s[a..n], NotSpace);
  }

  /** Only plain spaces, never at either end, never two in a row. */
  predicate SingleSpaced(r: string) {
    && (forall i :: 0 <= i < |r| && IsSpace(r[i]) ==> r[i] == ' ')
    && (r == [] || (r[0] != ' ' && r[|r| - 1] != ' '))
    && (forall i :: 0 <= i < |r| - 1 ==> !(r[i] == ' ' && r[i + 1] == ' '))
  }

  /** Python `' '.join(s.split())`: whitespace runs become one space and
      the ends are trimmed. */
  function Collapse(s: string): string {
    Join(Words(s), " ")
  }

  /** Collapsing keeps the non-whitespace characters in order and leaves
      single spaces only. */
  lemma CollapseFacts(s: string)
    ensures Filter(Collapse(s), NotSpace) == Filter(s, NotSpace)
    ensures SingleSpaced(Collapse(s))
  {
    WordsAreWords(s);
    WordsJoined(s);
    JoinWordsFilter(Words(s));
    JoinWordsSpaced(Words(s));
  }

  lemma {:induction false} JoinWordsFilter(ws: seq<string>)
    requires forall i :: 0 <= i < |ws| ==> NoSpace(ws[i])
    ensures Filter(Join(ws, " "), NotSpace) == Concat(ws)
    decreases |ws|
  {
    if ws == [] {
    } else if |ws| == 1 {
      FilterAll(ws[0], NotSpace);
      assert ws[1..] == [];
    } else {
      JoinWordsFilter(ws[1..]);
      var rest := Join(ws[1..], " ");
      assert Join(ws, " ") == ws[0] + " " + rest;
      assert Concat(ws) == ws[0] + Concat(ws[1..]);
      SpacedWordFilter(ws[0], rest, Concat(ws[1..]));
    }
  }

  /** Filtering a word, a space and the rest drops only the space. */
  lemma SpacedWordFilter(w: string, rest: string, kept: string)
    requires NoSpace(w) && Filter(rest, NotSpace) == kept
    ensures Filter(w + " " + rest, NotSpace) == w + kept
  {
    FilterAppend(w + " ", rest, NotSpace);
    FilterAppend(w, " ", NotSpace);
    FilterAll(w, NotSpace);
    FilterNone(" ", NotSpace);
    assert Filter(w + " ", NotSpace) == w + [];
  }

  lemma {:induction false} JoinWordsSpaced(ws: seq<string>)
    requires forall i :: 0 <= i < |ws| ==> ws[i] != [] && NoSpace(ws[i])
    ensures SingleSpaced(Join(ws, " "))
    ensures ws != [] ==> Join(ws, " ") != []
    decreases |ws|
  {
    if |ws| >= 2 {
      JoinWordsSpaced(ws[1..]);
      SpacedCons(ws[0], Join(ws[1..], " "));
    }
  }

  lemma SpacedCons(w: string, rest: string)
    requires w != [] && NoSpace(w)
    requires rest != [] && SingleSpaced(rest)
    ensures SingleSpaced(w + " " + rest)
  {
    var r := w + " " + rest;
    forall i | 0 <= i < |r| - 1
      ensures !(r[i] == ' ' && r[i + 1] == ' ')
    {
      if i < |w| {
        assert r[i] == w[i];
      } else if i == |w| {
        assert r[i + 1] == rest[0];
      } else {
        assert r[i] == rest[i - |w| - 1] && r[i + 1] == rest[i - |w|];
      }
    }
    forall i | 0 <= i < |r|
      ensures IsSpace(r[i]) ==> r[i] == ' '
    {
      if i < |w| {
        assert r[i] == w[i];
      } else if i > |w| {
        assert r[i] == rest[i - |w| - 1];
      }
    }
    assert r[|r| - 1] == rest[|rest| - 1];
    assert r[0] == w[0];
  }

  /** The digit character for `d < 10`. */
  function DigitChar(d: nat): (c: char)
    requires d < 10
    ensures IsDigit(c)
  {
    ('0' as int + d) as char
  }

  /** Python `str(n)` for a non-negative integer: its decimal digits, most
      significant first, without leading zeros. */
  function NatToString(n: nat): (r: string)
    ensures r != []
    ensures forall i :: 0 <= i < |r| ==> IsDigit(r[i])
    ensures |r| > 1 ==> r[0] != '0'
  {
    if n < 10 then [DigitChar(n)] else NatToString(n / 10) + [DigitChar(n % 10)]
  }

  /** Python `int(s)` for a string of ASCII digits. */
  function ParseDigits(s: string): nat
    requires forall i :: 0 <= i < |s| ==> IsDigit(s[i])
  {
    if s == [] then 0
    else
      assert IsDigit(s[|s| - 1]);
      10 * ParseDigits(s[..|s| - 1]) + (s[|s| - 1] as int - '0' as int)
  }

  /** Reading the digits back gives the number. */
  lemma {:induction false} NatToStringRoundTrip(n: nat)
    ensures ParseDigits(NatToString(n)) == n
  {
    if n >= 10 {
      var r := NatToString(n);
      NatToStringRoundTrip(n / 10);
      assert r[..|r| - 1] == NatToString(n / 10);
    }
  }
}
