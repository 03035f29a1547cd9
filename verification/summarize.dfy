/** Shortening a long assistant message for speech: a list summary when the
    text holds a list, otherwise a summary built from whole sentences. */
module Summarize {
  import opened Prelude
  import opened Text
  import opened Patterns

  predicate AllNonEmpty(ss: seq<string>) {
    forall k :: 0 <= k < |ss| ==> ss[k] != []
  }

  /** Python `[x.strip() for x in xs if x.strip()]`. */
  function StrippedNonEmpty(xs: seq<string>): (r: seq<string>)
    ensures |r| <= |xs|
    ensures AllNonEmpty(r)
  {
    if xs == [] then []
    else (if Strip(xs[0]) != [] then [Strip(xs[0])] else []) + StrippedNonEmpty(xs[1..])
  }

  /** Every kept element is a stripped element of the input, in input
      order, and every input element that strips to something is kept. */
  lemma {:induction false} StrippedNonEmptyKeeps(xs: seq<string>)
    ensures StrippedNonEmpty(xs) == Filtered(xs)
  {
    if xs != [] {
      StrippedNonEmptyKeeps(xs[1..]);
      FilteredCons(xs);
    }
  }

  /** The reference: the stripped inputs, with the empty ones left out,
      written as a filter over indices. */
  function Filtered(xs: seq<string>): seq<string>
    decreases |xs|
  {
    if xs == [] then []
    else if Strip(xs[|xs| - 1]) == [] then Filtered(xs[..|xs| - 1])
    else Filtered(xs[..|xs| - 1]) + [Strip(xs[|xs| - 1])]
  }

  lemma {:induction false} FilteredCons(xs: seq<string>)
    requires xs != []
    ensures Filtered(xs) == (if Strip(xs[0]) != [] then [Strip(xs[0])] else []) + Filtered(xs[1..])
    decreases |xs|
  {
    if |xs| > 1 {
      var init := xs[..|xs| - 1];
      FilteredCons(init);
      assert init[0] == xs[0];
      assert init[1..] == xs[1..][..|xs[1..]| - 1];
      assert xs[1..][|xs[1..]| - 1] == xs[|xs| - 1];
    } else {
      assert xs[..0] == [] && xs[1..] == [];
    }
  }

  /** Python: `sentence += '.'` unless it already ends in `.`, `!` or `?`. */
  function Punct(s: string): (r: string)
    ensures r == s || r == s + "."
    ensures s != [] ==> EndsSentence(r[|r| - 1])
    ensures s != [] && EndsSentence(s[|s| - 1]) ==> r == s
    ensures s == [] ==> r == []
  {
    if s != [] && !EndsSentence(s[|s| - 1]) then s + "." else s
  }

  /** The sentences of `text`: split after `.`, `!` or `?` followed by
      whitespace and a capital letter, or by whitespace ending in a
      newline; stripped; empty ones dropped. */
  function Sentences(text: string): (r: seq<string>)
    ensures AllNonEmpty(r)
  {
    StrippedNonEmpty(Split(SentenceBreak, text))
  }

  // ---------------------------------------------------------------------
  // Cutting an over-long first sentence
  // ---------------------------------------------------------------------

  /** The break points tried, in this order. */
  const Separators: seq<string> := [". ", ", ", " - ", ": "]

  lemma SeparatorsLong()
    ensures |Separators| == 4
    ensures forall k :: 0 <= k < |Separators| ==> |Separators[k]| >= 2
  {
  }

  /** Index of the first separator at or after `k`, in list order, that
      occurs in `head`. */
  function FirstSeparator(head: string, k: nat): (r: Option<nat>)
    requires k <= |Separators|
    ensures r.Some? ==> k <= r.value < |Separators| && Contains(head, Separators[r.value])
    ensures r.Some? ==> forall j :: k <= j < r.value ==> !Contains(head, Separators[j])
    ensures r.None? ==> forall j :: k <= j < |Separators| ==> !Contains(head, Separators[j])
    decreases |Separators| - k
  {
    if k == |Separators| then None
    else if Contains(head, Separators[k]) then Some(k)
    else FirstSeparator(head, k + 1)
  }

  /** The first `target` characters of a sentence, where break points are
      looked for. */
  function Head(sentence: string, target: int): (r: string)
    ensures r <= sentence
    ensures 0 <= target ==> |r| <= target
  {
    PyPrefix(sentence, target)
  }

  /** An over-long first sentence is cut just after the first character of
      the last occurrence, within its first `target` characters, of the
      first break point found in the order of `Separators`; with no break
      point it is cut to `maxLen - 3` characters followed by `...`. */
  function CutFirst(sentence: string, target: int, maxLen: int): (r: string)
    ensures FirstSeparator(Head(sentence, target), 0).Some? ==>
      0 < |r| < |Head(sentence, target)| && r == sentence[..|r|]
      && OccursAt(Head(sentence, target), Separators[FirstSeparator(Head(sentence, target), 0).value], |r| - 1)
      && forall j :: |r| - 1 < j ==> !OccursAt(Head(sentence, target), Separators[FirstSeparator(Head(sentence, target), 0).value], j)
    ensures FirstSeparator(Head(sentence, target), 0).None? ==> r == PyPrefix(sentence, maxLen - 3) + "..."
  {
    var head := Head(sentence, target);
    match FirstSeparator(head, 0)
    case Some(k) =>
      SeparatorsLong();
      var pos := RFind(head, Separators[k]).value;
      assert |Separators[k]| >= 2;
      sentence[..pos + 1]
    case None => PyPrefix(sentence, maxLen - 3) + "..."
  }

  // ---------------------------------------------------------------------
  // Gathering whole sentences
  // ---------------------------------------------------------------------

  /** The summary built so far and how many sentences it draws on. */
  datatype Gathered = Gathered(text: string, used: nat)

  /** The loop over sentences: append each (with its punctuation) while the
      summary stays within `target`; once the summary is at least `minLen`
      and at least 60% of `target`, take one more sentence if it fits in
      `maxLen` and stop; a first sentence that does not fit is cut. */
  function Gather(ss: seq<string>, i: nat, summary: string, target: int, maxLen: int, minLen: int): (g: Gathered)
    requires i <= |ss| && AllNonEmpty(ss)
    ensures g.used <= |ss|
    decreases |ss| - i
  {
    if i == |ss| then Gathered(summary, i)
    else
      var sentence := Punct(ss[i]);
      var potential := summary + (if summary == [] then "" else " ") + sentence;
      if |potential| <= target then
        if |potential| >= minLen && |potential| >= ScaleTenths(target, 6) then
          if i + 1 < |ss| && |potential + " " + Punct(ss[i + 1])| <= maxLen then
            Gathered(potential + " " + Punct(ss[i + 1]), i + 2)
          else Gathered(potential, i + 1)
        else Gather(ss, i + 1, potential, target, maxLen, minLen)
      else if summary == [] then Gathered(CutFirst(sentence, target, maxLen), i + 1)
      else Gathered(summary, i)
  }

  /** The punctuated sentences. */
  function Puncts(ss: seq<string>): (r: seq<string>)
    ensures |r| == |ss|
    ensures forall k :: 0 <= k < |ss| ==> r[k] == Punct(ss[k])
  {
    seq(|ss|, k requires 0 <= k < |ss| => Punct(ss[k]))
  }

  lemma JoinSnoc(xs: seq<string>, x: string)
    requires xs != []
    ensures Join(xs + [x], " ") == Join(xs, " ") + " " + x
    decreases |xs|
  {
    if |xs| > 1 {
      assert (xs + [x])[1..] == xs[1..] + [x];
      JoinSnoc(xs[1..], x);
    } else {
      assert xs + [x] == [xs[0], x];
    }
  }

  lemma PunctsSnoc(ss: seq<string>, i: nat)
    requires i < |ss|
    ensures Puncts(ss[..i + 1]) == Puncts(ss[..i]) + [Punct(ss[i])]
  {
  }

  /** Unless its first sentence is cut, the gathered summary is exactly the
      first `used` sentences, punctuated and joined by single spaces. */
  lemma {:induction false} GatherJoins(ss: seq<string>, i: nat, summary: string, target: int, maxLen: int, minLen: int)
    requires i <= |ss| && AllNonEmpty(ss) && ss != []
    requires summary == Join(Puncts(ss[..i]), " ")
    requires i == 0 ==> |Punct(ss[0])| <= target
    ensures 1 <= Gather(ss, i, summary, target, maxLen, minLen).used
    ensures Gather(ss, i, summary, target, maxLen, minLen).text
      == Join(Puncts(ss[..Gather(ss, i, summary, target, maxLen, minLen).used]), " ")
    decreases |ss| - i
  {
    if i == |ss| {
      assert Gather(ss, i, summary, target, maxLen, minLen) == Gathered(summary, i);
    } else if GatherContinues(ss, i, summary, target, minLen) {
      var potential := summary + (if summary == [] then "" else " ") + Punct(ss[i]);
      GatherNext(ss, i, summary, target, maxLen, minLen);
      JoinStep(ss, i, summary);
      GatherJoins(ss, i + 1, potential, target, maxLen, minLen);
    } else {
      GatherStops(ss, i, summary, target, maxLen, minLen);
    }
  }

  /** Whether the loop goes on past sentence `i` without stopping. */
  predicate GatherContinues(ss: seq<string>, i: nat, summary: string, target: int, minLen: int)
    requires i < |ss|
  {
    var potential := summary + (if summary == [] then "" else " ") + Punct(ss[i]);
    |potential| <= target && !(|potential| >= minLen && |potential| >= ScaleTenths(target, 6))
  }

  lemma GatherNext(ss: seq<string>, i: nat, summary: string, target: int, maxLen: int, minLen: int)
    requires i < |ss| && AllNonEmpty(ss) && GatherContinues(ss, i, summary, target, minLen)
    ensures Gather(ss, i, summary, target, maxLen, minLen)
      == Gather(ss, i + 1, summary + (if summary == [] then "" else " ") + Punct(ss[i]), target, maxLen, minLen)
  {
  }

  /** The steps at which the loop stops keep the joined shape. */
  lemma GatherStops(ss: seq<string>, i: nat, summary: string, target: int, maxLen: int, minLen: int)
    requires i < |ss| && AllNonEmpty(ss)
    requires summary == Join(Puncts(ss[..i]), " ")
    requires i == 0 ==> |Punct(ss[0])| <= target
    requires !GatherContinues(ss, i, summary, target, minLen)
    ensures 1 <= Gather(ss, i, summary, target, maxLen, minLen).used
    ensures Gather(ss, i, summary, target, maxLen, minLen).text
      == Join(Puncts(ss[..Gather(ss, i, summary, target, maxLen, minLen).used]), " ")
  {
    var g := Gather(ss, i, summary, target, maxLen, minLen);
    var potential := summary + (if summary == [] then "" else " ") + Punct(ss[i]);
    JoinStep(ss, i, summary);
    if |potential| <= target {
      if i + 1 < |ss| && |potential + " " + Punct(ss[i + 1])| <= maxLen {
        assert g == Gathered(potential + " " + Punct(ss[i + 1]), i + 2);
        JoinStep(ss, i + 1, potential);
      } else {
        assert g == Gathered(potential, i + 1);
      }
    } else {
      assert g == Gathered(summary, i);
    }
  }

  lemma JoinStep(ss: seq<string>, i: nat, summary: string)
    requires i < |ss| && AllNonEmpty(ss) && summary == Join(Puncts(ss[..i]), " ")
    ensures summary + (if summary == [] then "" else " ") + Punct(ss[i]) == Join(Puncts(ss[..i + 1]), " ")
    ensures summary == [] <==> i == 0
  {
    PunctsSnoc(ss, i);
    if i == 0 {
      assert ss[..1] == [ss[0]];
      assert ss[..0] == [];
    } else {
      JoinNonEmpty(Puncts(ss[..i]));
      JoinSnoc(Puncts(ss[..i]), Punct(ss[i]));
    }
  }

  lemma JoinNonEmpty(xs: seq<string>)
    requires xs != [] && xs[0] != []
    ensures Join(xs, " ") != []
  {
    if |xs| > 1 {
      assert Join(xs, " ") == xs[0] + " " + Join(xs[1..], " ");
    }
  }

  // ---------------------------------------------------------------------
  // Padding a short summary, and the whole sentence summary
  // ---------------------------------------------------------------------

  /** A summary shorter than `minLen` gets ` <part>...` appended, where the
      part is the start of the sentence `ss[next]`, when there is room for
      more than 20 characters and the part is longer than 10. */
  function PadFrom(summary: string, ss: seq<string>, next: nat, maxLen: int, minLen: int): (r: string)
    ensures r == summary || (summary != [] && |summary| < minLen && next < |ss|
      && r == summary + " " + PyPrefix(ss[next], maxLen - |summary| - 4) + "..."
      && |r| <= maxLen && |PyPrefix(ss[next], maxLen - |summary| - 4)| > 10)
  {
    if summary != [] && |summary| < minLen && next < |ss| then
      var room := maxLen - |summary| - 1;
      if room > 20 then
        var part := PyPrefix(ss[next], room - 3);
        if |part| > 10 then summary + " " + part + "..." else summary
      else summary
    else summary
  }

  /** The corrected sentence summary: the gathered sentences, padded from
      the first sentence not already used; with no sentences at all, or an empty
      result, the text cut to `maxLen - 3` characters plus `...`. */
  function SentenceSummary(ss: seq<string>, text: string, maxLen: int, minLen: int): (r: string)
    requires AllNonEmpty(ss)
  {
    if ss == [] then (if |text| > maxLen then PyPrefix(text, maxLen - 3) + "..." else text)
    else
      var g := Gather(ss, 0, "", ScaleTenths(maxLen, 9), maxLen, minLen);
      var summary := PadFrom(g.text, ss, g.used, maxLen, minLen);
      if summary != [] then summary else PyPrefix(text, maxLen - 3) + "..."
  }

  /** The sentence summary as the source computes it: the padding is always
      drawn from `ss[1]`, even when the loop has already used it. This is
      the summary the rest of the model speaks. */
  function SentenceSummaryAsWritten(ss: seq<string>, text: string, maxLen: int, minLen: int): (r: string)
    requires AllNonEmpty(ss)
  {
    if ss == [] then (if |text| > maxLen then PyPrefix(text, maxLen - 3) + "..." else text)
    else
      var g := Gather(ss, 0, "", ScaleTenths(maxLen, 9), maxLen, minLen);
      var summary := PadFrom(g.text, ss, 1, maxLen, minLen);
      if summary != [] then summary else PyPrefix(text, maxLen - 3) + "..."
  }

  /** The gathered summary never exceeds `maxLen`. */
  lemma {:induction false} GatherBound(ss: seq<string>, i: nat, summary: string, target: int, maxLen: int, minLen: int)
    requires i <= |ss| && AllNonEmpty(ss)
    requires 3 <= maxLen && 0 <= target <= maxLen && |summary| <= target
    ensures |Gather(ss, i, summary, target, maxLen, minLen).text| <= maxLen
    decreases |ss| - i
  {
    if i < |ss| {
      var sentence := Punct(ss[i]);
      var potential := summary + (if summary == [] then "" else " ") + sentence;
      if |potential| <= target {
        if !(|potential| >= minLen && |potential| >= ScaleTenths(target, 6)) {
          GatherBound(ss, i + 1, potential, target, maxLen, minLen);
        }
      } else if summary == [] {
        CutFirstBound(sentence, target, maxLen);
      }
    }
  }

  lemma CutFirstBound(sentence: string, target: int, maxLen: int)
    requires 3 <= maxLen && 0 <= target <= maxLen
    ensures |CutFirst(sentence, target, maxLen)| <= maxLen
  {
  }

  /** A sentence summary is never longer than `maxLen` (for `maxLen >= 3`),
      whichever sentence the padding is drawn from. */
  lemma SentenceSummaryBound(ss: seq<string>, text: string, maxLen: int, minLen: int)
    requires AllNonEmpty(ss) && 3 <= maxLen
    ensures |SentenceSummaryAsWritten(ss, text, maxLen, minLen)| <= maxLen
    ensures |SentenceSummary(ss, text, maxLen, minLen)| <= maxLen
  {
    if ss != [] {
      GatherBound(ss, 0, "", ScaleTenths(maxLen, 9), maxLen, minLen);
    }
  }

  /** The sentence-gathering loop as the summary runs it. */
  function Gathering(ss: seq<string>, maxLen: int, minLen: int): (g: Gathered)
    requires AllNonEmpty(ss)
    ensures g.used <= |ss|
  {
    Gather(ss, 0, "", ScaleTenths(maxLen, 9), maxLen, minLen)
  }

  /** As the source pads: when the first sentence fits, the summary is the
      first `used` sentences joined, possibly followed by ` `, a prefix of
      the second sentence `ss[1]` and `...`, whether or not the second
      sentence is already among those used. */
  lemma SentenceSummaryShape(ss: seq<string>, text: string, maxLen: int, minLen: int)
    requires AllNonEmpty(ss) && ss != [] && |Punct(ss[0])| <= ScaleTenths(maxLen, 9)
    ensures 1 <= Gathering(ss, maxLen, minLen).used
    ensures SentenceSummaryAsWritten(ss, text, maxLen, minLen) == Join(Puncts(ss[..Gathering(ss, maxLen, minLen).used]), " ")
      || (1 < |ss|
          && SentenceSummaryAsWritten(ss, text, maxLen, minLen)
             == Join(Puncts(ss[..Gathering(ss, maxLen, minLen).used]), " ") + " "
                + PyPrefix(ss[1], maxLen - |Join(Puncts(ss[..Gathering(ss, maxLen, minLen).used]), " ")| - 4)
                + "...")
  {
    var g := Gathering(ss, maxLen, minLen);
    assert ss[..0] == [];
    GatherJoins(ss, 0, "", ScaleTenths(maxLen, 9), maxLen, minLen);
    JoinNonEmpty(Puncts(ss[..g.used]));
  }

  /** Corrected padding adds the start of the first sentence the summary
      does not already hold: the first `used` sentences joined, possibly
      followed by ` `, a prefix of sentence `used` and `...`. */
  lemma CorrectedSummaryShape(ss: seq<string>, text: string, maxLen: int, minLen: int)
    requires AllNonEmpty(ss) && ss != [] && |Punct(ss[0])| <= ScaleTenths(maxLen, 9)
    ensures 1 <= Gathering(ss, maxLen, minLen).used
    ensures SentenceSummary(ss, text, maxLen, minLen) == Join(Puncts(ss[..Gathering(ss, maxLen, minLen).used]), " ")
      || (Gathering(ss, maxLen, minLen).used < |ss|
          && SentenceSummary(ss, text, maxLen, minLen)
             == Join(Puncts(ss[..Gathering(ss, maxLen, minLen).used]), " ") + " "
                + PyPrefix(ss[Gathering(ss, maxLen, minLen).used], maxLen - |Join(Puncts(ss[..Gathering(ss, maxLen, minLen).used]), " ")| - 4)
                + "...")
  {
    var g := Gathering(ss, maxLen, minLen);
    assert ss[..0] == [];
    GatherJoins(ss, 0, "", ScaleTenths(maxLen, 9), maxLen, minLen);
    JoinNonEmpty(Puncts(ss[..g.used]));
  }

  /** The two summaries differ only when the loop has used more than one
      sentence: with exactly one used, `ss[1]` is the next unused sentence. */
  lemma AsWrittenAgreesWhenOneUsed(ss: seq<string>, text: string, maxLen: int, minLen: int)
    requires AllNonEmpty(ss) && ss != [] && Gathering(ss, maxLen, minLen).used == 1
    ensures SentenceSummaryAsWritten(ss, text, maxLen, minLen) == SentenceSummary(ss, text, maxLen, minLen)
  {
  }

  /** The source pads from `ss[1]` even when that sentence is already in
      the summary, so a sentence is spoken twice: with sentences `Ok.`,
      `Twelve chars.` and a 400-character third one, a 350-character limit
      and a 50-character minimum, the summary repeats the second sentence. */
  lemma PadRepeatsSentence(third: string)
    requires |third| == 400 && third[399] == '.'
    ensures SentenceSummaryAsWritten(["Ok.", "Twelve chars.", third], "", 350, 50)
      == "Ok. Twelve chars." + " " + "Twelve chars." + "..."
  {
    var ss := ["Ok.", "Twelve chars.", third];
    ExampleGathering(third);
    assert PyPrefix(ss[1], 329) == "Twelve chars.";
    assert PadFrom("Ok. Twelve chars.", ss, 1, 350, 50) == "Ok. Twelve chars." + " " + "Twelve chars." + "...";
  }

  /** On the same input the corrected summary pads from the third sentence. */
  lemma PadTakesNextSentence(third: string)
    requires |third| == 400 && third[399] == '.'
    ensures SentenceSummary(["Ok.", "Twelve chars.", third], "", 350, 50)
      == "Ok. Twelve chars. " + third[..329] + "..."
  {
    ExampleGathering(third);
    assert PyPrefix(third, 329) == third[..329];
  }

  /** The loop in the example above stops after the second sentence. */
  lemma ExampleGathering(third: string)
    requires |third| == 400 && third[399] == '.'
    ensures AllNonEmpty(["Ok.", "Twelve chars.", third])
    ensures Gathering(["Ok.", "Twelve chars.", third], 350, 50) == Gathered("Ok. Twelve chars.", 2)
  {
    assert ScaleTenths(350, 9) == 315;
    assert "Ok."[2] == '.' && "Twelve chars."[12] == '.';
    TwoShortThenLong("Ok.", "Twelve chars.", third, 350, 50);
    assert "Ok." + " " + "Twelve chars." == "Ok. Twelve chars.";
  }

  /** Two finished sentences that together stay under `minLen`, followed
      by one that would pass the target: the loop takes the first two and
      stops. */
  lemma TwoShortThenLong(a: string, b: string, c: string, maxLen: int, minLen: int)
    requires a != [] && b != [] && c != []
    requires EndsSentence(a[|a| - 1]) && EndsSentence(b[|b| - 1]) && EndsSentence(c[|c| - 1])
    requires |a| + 1 + |b| < minLen && |a| + 1 + |b| <= ScaleTenths(maxLen, 9)
    requires |a| + 1 + |b| + 1 + |c| > ScaleTenths(maxLen, 9)
    ensures AllNonEmpty([a, b, c])
    ensures Gathering([a, b, c], maxLen, minLen) == Gathered(a + " " + b, 2)
  {
    var ss := [a, b, c];
    var t := ScaleTenths(maxLen, 9);
    assert Punct(ss[0]) == a && Punct(ss[1]) == b && Punct(ss[2]) == c;
    assert "" + "" + a == a;
    assert GatherContinues(ss, 0, "", t, minLen);
    GatherNext(ss, 0, "", t, maxLen, minLen);
    assert GatherContinues(ss, 1, a, t, minLen);
    GatherNext(ss, 1, a, t, maxLen, minLen);
    assert Gather(ss, 2, a + " " + b, t, maxLen, minLen) == Gathered(a + " " + b, 2);
  }

  // ---------------------------------------------------------------------
  // List summaries
  // ---------------------------------------------------------------------

  /** Python `re.sub(r'^(\d+\.|\*|\-)\s+', '', item)`: one leading marker
      and the whitespace after it are removed. */
  function DropMarker(item: string): (r: string)
    ensures r == item || (|r| < |item| && r == item[|item| - |r|..])
  {
    match MarkerEnd(item, 0)
    case Some(m) =>
      var e := SpaceRun(item, m);
      if m < e then item[e..] else item
    case None => item
  }

  /** A list item as spoken: marker removed, trailing periods removed. */
  function CleanItem(item: string): string {
    RStripChar(DropMarker(item), '.')
  }

  /** The loop over list items: cleaned, empty ones skipped, stopping once
      two are kept. */
  function PickItems(items: seq<string>, acc: seq<string>): (r: seq<string>)
    requires |acc| < 2 && AllNonEmpty(acc)
    ensures |r| <= 2 && acc <= r && AllNonEmpty(r)
    decreases |items|
  {
    if items == [] then acc
    else
      var item := CleanItem(items[0]);
      if item == [] then PickItems(items[1..], acc)
      else if |acc| + 1 >= 2 then acc + [item]
      else PickItems(items[1..], acc + [item])
  }

  /** The reference: all cleaned items that are not empty, in order. */
  function CleanedItems(items: seq<string>): seq<string> {
    if items == [] then []
    else (if CleanItem(items[0]) != [] then [CleanItem(items[0])] else []) + CleanedItems(items[1..])
  }

  /** The loop keeps exactly the first two non-empty cleaned items (or all
      of them, when there are fewer). */
  lemma {:induction false} PickItemsFirstTwo(items: seq<string>, acc: seq<string>)
    requires |acc| < 2 && AllNonEmpty(acc)
    ensures PickItems(items, acc) == PyPrefix(acc + CleanedItems(items), 2)
    decreases |items|
  {
    var r := PickItems(items, acc);
    if items != [] {
      var item := CleanItem(items[0]);
      var rest := CleanedItems(items[1..]);
      if item == [] {
        assert r == PickItems(items[1..], acc);
        assert CleanedItems(items) == rest;
        PickItemsFirstTwo(items[1..], acc);
      } else if |acc| + 1 >= 2 {
        assert r == acc + [item];
        assert CleanedItems(items) == [item] + rest;
        PrefixTwo(acc, item, rest);
      } else {
        assert r == PickItems(items[1..], acc + [item]);
        assert CleanedItems(items) == [item] + rest;
        PickItemsFirstTwo(items[1..], acc + [item]);
        assert acc + ([item] + rest) == (acc + [item]) + rest;
      }
    } else {
      assert CleanedItems(items) == [];
      assert acc + [] == acc;
    }
  }

  lemma PrefixTwo(acc: seq<string>, item: string, rest: seq<string>)
    requires |acc| == 1
    ensures PyPrefix(acc + ([item] + rest), 2) == acc + [item]
  {
    assert (acc + ([item] + rest))[..2] == acc + [item];
  }

  /** The intro forced to end with `:` (nothing when there is no intro). */
  function IntroHead(intro: string): (r: string)
    ensures intro == [] <==> r == []
    ensures r != [] ==> r[|r| - 1] == ':'
    ensures r == intro || r == intro + ":"
  {
    if intro == [] then []
    else if intro[|intro| - 1] == ':' then intro
    else intro + ":"
  }

  /** The head followed by the first item and the second lower-cased. */
  function ItemsLine(head: string, texts: seq<string>): (r: string)
    requires |texts| <= 2
    ensures texts == [] ==> r == head
    ensures |texts| == 1 ==> r == head + " " + texts[0]
    ensures |texts| == 2 ==> r == head + " " + texts[0] + ", " + Lower(texts[1])
  {
    if texts == [] then head
    else if |texts| == 1 then head + " " + texts[0]
    else head + " " + texts[0] + ", " + Lower(texts[1])
  }

  /** The tail ` and N more`. */
  function More(n: nat): string {
    " and " + NatToString(n) + " more"
  }

  /** ` and N more` is appended exactly when something remains and the
      result still fits in `maxLen`. */
  function WithMore(line: string, remaining: int, maxLen: int): (r: string)
    ensures remaining > 0 && |line + More(remaining)| <= maxLen ==> r == line + More(remaining)
    ensures !(remaining > 0 && |line + More(remaining)| <= maxLen) ==> r == line
  {
    if remaining > 0 && |line + More(remaining)| <= maxLen then line + More(remaining) else line
  }

  /** The intro: the stripped text before the first list marker line. */
  function ListIntro(text: string): string {
    match SearchIn(ListStart, text)
    case Some(h) => Strip(text[..h.start])
    case None => ""
  }

  /** The list items: the text from the first list marker line on, split at
      list markers at line starts (or, with no newline, at inline numbers),
      stripped, empty ones dropped. */
  function ListItems(text: string): (r: seq<string>)
    ensures AllNonEmpty(r)
  {
    var listText := match SearchIn(ListStart, text) case Some(h) => text[h.start..] case None => text;
    var raw := if '\n' in listText then Split(ListStart, listText) else Split(InlineNumber, listText);
    StrippedNonEmpty(raw)
  }

  /** The list summary before the final punctuation: the intro head, at
      most two items and possibly ` and N more`, where N counts every item
      not included (the empty ones skipped along the way too). */
  function ListBody(intro: string, items: seq<string>, maxLen: int): (r: string)
    ensures IntroHead(intro) <= r
  {
    var texts := PickItems(items, []);
    var line := ItemsLine(IntroHead(intro), texts);
    if texts == [] then line else WithMore(line, |items| - |texts|, maxLen)
  }

  /** Python `extract_list_summary`: the intro (ending in `:`), at most two
      items, possibly ` and N more`, then a closing period unless the text
      already ends in `.`, `!` or `?`; `Completed tasks` when nothing is
      left. */
  function ListSummary(text: string, maxLen: int): (r: string)
    ensures r == "Completed tasks" || (r != [] && EndsSentence(r[|r| - 1]))
    ensures ListBody(ListIntro(text), ListItems(text), maxLen) != [] ==> r == Punct(ListBody(ListIntro(text), ListItems(text), maxLen))
  {
    var ended := Punct(ListBody(ListIntro(text), ListItems(text), maxLen));
    if ended != [] then ended else "Completed tasks"
  }

  /** The list summary has no overall length cap: the whole intro before
      the first list marker is always kept, whatever `maxLen` is. */
  lemma ListSummaryKeepsIntro(text: string, maxLen: int)
    ensures IntroHead(ListIntro(text)) <= ListSummary(text, maxLen)
  {
  }

  /** Python `extract_meaningful_summary`: a list summary when a newline
      followed by a list marker occurs, otherwise a sentence summary. */
  function MeaningfulSummary(text: string, maxLen: int, minLen: int): (r: string)
  {
    if SearchIn(ListStart, text).Some? then ListSummary(text, maxLen)
    else SentenceSummaryAsWritten(Sentences(text), text, maxLen, minLen)
  }

  /** Without a list, the summary never exceeds `maxLen` (for `maxLen >= 3`). */
  lemma MeaningfulSummaryBound(text: string, maxLen: int, minLen: int)
    requires 3 <= maxLen && SearchIn(ListStart, text).None?
    ensures |MeaningfulSummary(text, maxLen, minLen)| <= maxLen
  {
    SentenceSummaryBound(Sentences(text), text, maxLen, minLen);
  }
}
