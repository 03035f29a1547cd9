/** The text handed to a speech engine: separators and file extensions
    rewritten for speaking, and the two short-message guards in front of
    the network engine. The engines themselves are outside this model. */
module SpeechText {
  import opened Prelude
  import opened Text

  /** No separator left: neither '_' nor '-'. */
  predicate NoSeparator(s: string) {
    '_' !in s && '-' !in s
  }

  /** A replacement brings in no character that neither the text nor the
      replacement has. */
  lemma KeepsOut(s: string, pat: string, rep: string, c: char)
    requires pat != [] && c !in s && c !in rep
    ensures c !in Replace(s, pat, rep)
  {
  }

  /** A replacement without separators keeps a text separator-free. */
  lemma KeepsSeparatorsOut(s: string, pat: string, rep: string)
    requires pat != [] && NoSeparator(rep)
    ensures NoSeparator(s) ==> NoSeparator(Replace(s, pat, rep))
  {
    if NoSeparator(s) {
      KeepsOut(s, pat, rep, '_');
      KeepsOut(s, pat, rep, '-');
    }
  }

  /** The first two steps: '_' and then '-' read as spaces. */
  function Spaced(s: string): (r: string)
    ensures NoSeparator(r)
    ensures '_' !in s && '-' !in s ==> r == s
  {
    var a := Replace(s, "_", " ");
    KeepsOut(a, "-", " ", '_');
    CharNotContained(s, '_');
    CharNotContained(s, '-');
    Replace(a, "-", " ")
  }

  /** A file extension read out as its spoken form, as in ".py" read as
      " python file". */
  function ReadAs(s: string, ext: string, spoken: string): (r: string)
    requires ext != [] && NoSeparator(spoken)
    ensures NoSeparator(s) ==> NoSeparator(r)
    ensures !Contains(s, ext) ==> r == s
  {
    KeepsSeparatorsOut(s, ext, spoken);
    Replace(s, ext, spoken)
  }

  /** The spoken forms of the extensions hold no separator. */
  lemma SpokenFormsPlain()
    ensures NoSeparator(" python file") && NoSeparator(" JSON file")
    ensures NoSeparator(" javascript file") && NoSeparator(" markdown file")
  {
  }

  /** Python `format_message_for_speech`: '_' and '-' become spaces, then
      ".py", ".json", ".js" and ".md" are read out as file types, in that
      order (".json" before ".js", so a JSON file is not read as a
      JavaScript one). No separator survives, and none is brought back. */
  function FormatForSpeech(message: string): (r: string)
    ensures NoSeparator(r)
  {
    SpokenFormsPlain();
    var a := ReadAs(Spaced(message), ".py", " python file");
    var b := ReadAs(a, ".json", " JSON file");
    var c := ReadAs(b, ".js", " javascript file");
    ReadAs(c, ".md", " markdown file")
  }

  /** Whether the text has anything the normaliser rewrites. */
  predicate HasSpeechMarkup(message: string) {
    '_' in message || '-' in message
    || Contains(message, ".py") || Contains(message, ".json") || Contains(message, ".js") || Contains(message, ".md")
  }

  /** Text with nothing to rewrite is spoken as it is. */
  lemma PlainTextUnchanged(message: string)
    requires !HasSpeechMarkup(message)
    ensures FormatForSpeech(message) == message
  {
  }

  lemma CharNotContained(s: string, c: char)
    ensures c !in s ==> !Contains(s, [c])
  {
    if c !in s {
      MissingCharNotContained(s, [c], c);
    }
  }

  /** A JSON file name is read as a JSON file, not as a JavaScript one:
      for a stem without dots or separators, "stem.json" is spoken as
      "stem JSON file". */
  lemma JsonBeforeJs(stem: string)
    requires '.' !in stem && NoSeparator(stem)
    ensures FormatForSpeech(stem + ".json") == stem + " JSON file"
  {
    var s := stem + ".json";
    assert NoSeparator(".json") && '.' !in ".json"[1..];
    assert s[|stem|..] == ".json";
    assert Spaced(s) == s;
    assert ".json"[1] != ".py"[1];
    DotOnlyAt(stem, ".json", ".py");
    assert ReadAs(s, ".py", " python file") == s;
    ReplaceOnce(stem, ".json", " JSON file");
    var r := stem + " JSON file";
    assert '.' !in " JSON file";
    MissingCharNotContained(r, ".js", '.');
    MissingCharNotContained(r, ".md", '.');
  }

  /** A dotted tail after a dot-free stem holds a dotted pattern only where
      the tail itself does. */
  lemma DotOnlyAt(stem: string, tail: string, pat: string)
    requires '.' !in stem && |tail| >= 2 && tail[0] == '.' && '.' !in tail[1..]
    requires |pat| >= 2 && pat[0] == '.' && tail[1] != pat[1]
    ensures !Contains(stem + tail, pat)
  {
    var s := stem + tail;
    forall i | 0 <= i <= |s|
      ensures !OccursAt(s, pat, i)
    {
      if i + |pat| <= |s| {
        if i < |stem| {
          assert s[i] == stem[i] && stem[i] in stem;
          assert s[i..i + |pat|][0] != pat[0];
        } else if i > |stem| {
          assert s[i] == tail[i - |stem|] && tail[i - |stem|] in tail[1..];
          assert s[i..i + |pat|][0] != pat[0];
        } else {
          assert s[i + 1] == tail[1];
          assert s[i..i + |pat|][1] != pat[1];
        }
      }
    }
  }

  /** Replacing in `prefix + pat`, where the first character of `pat` is
      not in `prefix`, rewrites just the final `pat`. */
  lemma {:induction false} ReplaceOnce(prefix: string, pat: string, rep: string)
    requires pat != [] && pat[0] !in prefix
    ensures Replace(prefix + pat, pat, rep) == prefix + rep
    decreases |prefix|
  {
    if prefix == [] {
      ReplaceHit(pat, rep);
    } else {
      var s := prefix + pat;
      ReplaceSkip(s, pat, rep);
      assert s[1..] == prefix[1..] + pat;
      ReplaceOnce(prefix[1..], pat, rep);
      ConsAppend(prefix, rep);
    }
  }

  lemma ConsAppend(a: string, b: string)
    requires a != []
    ensures [a[0]] + (a[1..] + b) == a + b
  {
  }

  /** The pattern alone is replaced by the replacement. */
  lemma ReplaceHit(pat: string, rep: string)
    requires pat != []
    ensures Replace(pat, pat, rep) == rep
  {
    assert pat[..|pat|] == pat;
    assert pat[|pat|..] == [];
  }

  /** A text long enough for the pattern but not starting with its first
      character keeps its first character. */
  lemma ReplaceSkip(s: string, pat: string, rep: string)
    requires pat != [] && |s| >= |pat| && s[0] != pat[0]
    ensures Replace(s, pat, rep) == [s[0]] + Replace(s[1..], pat, rep)
  {
    assert s[..|pat|][0] == s[0];
  }

  // ---------------------------------------------------------------------
  // Guards
  // ---------------------------------------------------------------------

  /** Python `compress_text_for_speech`, around the network call: without
      a client, or for a text under 50 characters, or when the call fails
      (`compressed` is `None`), the text is returned unchanged. */
  function CompressText(text: string, hasClient: bool, compressed: Option<string>): (r: string)
    ensures !hasClient || |text| < 50 || compressed.None? ==> r == text
    ensures hasClient && |text| >= 50 && compressed.Some? ==> r == compressed.value
  {
    if !hasClient then text
    else if |text| < 50 then text
    else compressed.GetOr(text)
  }

  /** Compression changes a text only when a client exists, the text has
      at least 50 characters and the service answered, and then the result
      is the service's answer; a short text is spoken as it is, whatever
      the service would answer. */
  lemma CompressOnlyLongWithClient(text: string, hasClient: bool, compressed: Option<string>)
    ensures CompressText(text, hasClient, compressed) == text || compressed == Some(CompressText(text, hasClient, compressed))
    ensures CompressText(text, hasClient, compressed) != text ==> hasClient && 50 <= |text| && compressed.Some?
    ensures |text| < 50 ==> forall other :: CompressText(text, hasClient, other) == CompressText(text, hasClient, compressed)
  {
  }

  /** What `speak_with_openai` decides before synthesising: `Some(false)`
      without a client (so the caller falls back to the system engine),
      `Some(true)` for a message under 3 characters once stripped (nothing
      is spoken and no fallback happens), `None` when it goes on to
      synthesise. */
  function OpenAiGuard(message: string, hasClient: bool): (r: Option<bool>)
    ensures r == Some(false) <==> !hasClient
    ensures r == Some(true) <==> hasClient && |Strip(message)| < 3
  {
    if !hasClient then Some(false)
    else if |Strip(message)| < 3 then Some(true)
    else None
  }

  /** A message of blanks is never synthesised. */
  lemma BlankNotSynthesised(message: string)
    requires AllSpace(message)
    ensures OpenAiGuard(message, true) == Some(true)
  {
    StripEnds(message);
  }
}
