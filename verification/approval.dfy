/** Recognising a message that asks the user for approval or
    confirmation: a fixed list of phrases looked for in the lower-cased
    text. */
module Approval {
  import opened Text

  /** How many phrases there are. */
  const PhraseCount := 38

  /** The phrases that mark a message as asking for approval, by their
      index in the list. */
  function Phrase(k: nat): string
    requires k < PhraseCount
  {
    match k
    case 0 => "would you like"
    case 1 => "should i proceed"
    case 2 => "shall i continue"
    case 3 => "do you want"
    case 4 => "is this okay"
    case 5 => "confirm"
    case 6 => "approve"
    case 7 => "permission to"
    case 8 => "may i"
    case 9 => "can i proceed"
    case 10 => "before i continue"
    case 11 => "do you approve"
    case 12 => "is it okay to"
    case 13 => "should i go ahead"
    case 14 => "ready to proceed"
    case 15 => "waiting for your"
    case 16 => "need your approval"
    case 17 => "requires your approval"
    case 18 => "please confirm"
    case 19 => "yes or no"
    case 20 => "y/n"
    case 21 => "(y/n)"
    case 22 => "[y/n]"
    case 23 => "proceed with"
    case 24 => "continue with"
    case 25 => "allow me to"
    case 26 => "i'll need to"
    case 27 => "i need to"
    case 28 => "about to"
    case 29 => "going to make"
    case 30 => "will make the following"
    case 31 => "before making"
    case 32 => "requires permission"
    case 33 => "awaiting confirmation"
    case 34 => "please respond"
    case 35 => "your response"
    case 36 => "let me know if"
    case _ => "if you'd like me to"
  }

  /** Whether one of the phrases from index `k` on occurs in `s`. */
  function AnyPhraseFrom(s: string, k: nat): (b: bool)
    ensures b <==> exists j :: k <= j < PhraseCount && Contains(s, Phrase(j))
    decreases PhraseCount - k
  {
    if k >= PhraseCount then false
    else Contains(s, Phrase(k)) || AnyPhraseFrom(s, k + 1)
  }

  /** Python `detect_approval_request`: false for an empty text, otherwise
      whether the lower-cased text contains one of the phrases. */
  function DetectApprovalRequest(text: string): (b: bool)
    ensures b <==> text != [] && exists j :: 0 <= j < PhraseCount && Contains(Lower(text), Phrase(j))
  {
    text != [] && AnyPhraseFrom(Lower(text), 0)
  }

  lemma ApprovalAsked()
    ensures DetectApprovalRequest("Should I proceed with the deployment?")
  {
    var text := "Should I proceed with the deployment?";
    var lowered := Lower(text);
    forall i | 0 <= i < 16 ensures lowered[i] == Phrase(1)[i] {
      assert lowered[i] == LowerChar(text[i]);
    }
    assert lowered[..16] == Phrase(1);
    assert OccursAt(lowered, Phrase(1), 0);
  }

  lemma ApprovalNotAsked()
    ensures !DetectApprovalRequest("The build succeeded.")
  {
    var text := "The build succeeded.";
    var lowered := Lower(text);
    forall i | 0 <= i < |text| ensures lowered[i] == "the build succeeded."[i] {
      assert lowered[i] == LowerChar(text[i]);
    }
    assert lowered == "the build succeeded.";
    NoPhrase0To3();
    NoPhrase3To6();
    NoPhrase6To9();
    NoPhrase9To12();
    NoPhrase12To15();
    NoPhrase15To18();
    NoPhrase18To21();
    NoPhrase21To24();
    NoPhrase24To27();
    NoPhrase27To30();
    NoPhrase30To33();
    NoPhrase33To36();
    NoPhrase36To38();
  }

  // Each phrase has a character that `the build succeeded.` lacks, so none
  // occurs in it; the phrases are taken three at a time.

  lemma NoPhrase0To3()
    ensures forall j :: 0 <= j < 3 ==> !Contains("the build succeeded.", Phrase(j))
  {
    var t := "the build succeeded.";
    forall j | 0 <= j < 3 ensures !Contains(t, Phrase(j)) {
      if j == 0 {
        MissingCharNotContained(t, Phrase(0), 'w');
      } else if j == 1 {
        MissingCharNotContained(t, Phrase(1), 'o');
      } else {
        MissingCharNotContained(t, Phrase(2), 'a');
      }
    }
  }

  lemma NoPhrase3To6()
    ensures forall j :: 3 <= j < 6 ==> !Contains("the build succeeded.", Phrase(j))
  {
    var t := "the build succeeded.";
    forall j | 3 <= j < 6 ensures !Contains(t, Phrase(j)) {
      if j == 3 {
        MissingCharNotContained(t, Phrase(3), 'o');
      } else if j == 4 {
        MissingCharNotContained(t, Phrase(4), 'o');
      } else {
        MissingCharNotContained(t, Phrase(5), 'o');
      }
    }
  }

  lemma NoPhrase6To9()
    ensures forall j :: 6 <= j < 9 ==> !Contains("the build succeeded.", Phrase(j))
  {
    var t := "the build succeeded.";
    forall j | 6 <= j < 9 ensures !Contains(t, Phrase(j)) {
      if j == 6 {
        MissingCharNotContained(t, Phrase(6), 'a');
      } else if j == 7 {
        MissingCharNotContained(t, Phrase(7), 'p');
      } else {
        MissingCharNotContained(t, Phrase(8), 'm');
      }
    }
  }

  lemma NoPhrase9To12()
    ensures forall j :: 9 <= j < 12 ==> !Contains("the build succeeded.", Phrase(j))
  {
    var t := "the build succeeded.";
    forall j | 9 <= j < 12 ensures !Contains(t, Phrase(j)) {
      if j == 9 {
        MissingCharNotContained(t, Phrase(9), 'a');
      } else if j == 10 {
        MissingCharNotContained(t, Phrase(10), 'f');
      } else {
        MissingCharNotContained(t, Phrase(11), 'o');
      }
    }
  }

  lemma NoPhrase12To15()
    ensures forall j :: 12 <= j < 15 ==> !Contains("the build succeeded.", Phrase(j))
  {
    var t := "the build succeeded.";
    forall j | 12 <= j < 15 ensures !Contains(t, Phrase(j)) {
      if j == 12 {
        MissingCharNotContained(t, Phrase(12), 'o');
      } else if j == 13 {
        MissingCharNotContained(t, Phrase(13), 'o');
      } else {
        MissingCharNotContained(t, Phrase(14), 'r');
      }
    }
  }

  lemma NoPhrase15To18()
    ensures forall j :: 15 <= j < 18 ==> !Contains("the build succeeded.", Phrase(j))
  {
    var t := "the build succeeded.";
    forall j | 15 <= j < 18 ensures !Contains(t, Phrase(j)) {
      if j == 15 {
        MissingCharNotContained(t, Phrase(15), 'w');
      } else if j == 16 {
        MissingCharNotContained(t, Phrase(16), 'n');
      } else {
        MissingCharNotContained(t, Phrase(17), 'r');
      }
    }
  }

  lemma NoPhrase18To21()
    ensures forall j :: 18 <= j < 21 ==> !Contains("the build succeeded.", Phrase(j))
  {
    var t := "the build succeeded.";
    forall j | 18 <= j < 21 ensures !Contains(t, Phrase(j)) {
      if j == 18 {
        MissingCharNotContained(t, Phrase(18), 'p');
      } else if j == 19 {
        MissingCharNotContained(t, Phrase(19), 'y');
      } else {
        MissingCharNotContained(t, Phrase(20), 'y');
      }
    }
  }

  lemma NoPhrase21To24()
    ensures forall j :: 21 <= j < 24 ==> !Contains("the build succeeded.", Phrase(j))
  {
    var t := "the build succeeded.";
    forall j | 21 <= j < 24 ensures !Contains(t, Phrase(j)) {
      if j == 21 {
        MissingCharNotContained(t, Phrase(21), '(');
      } else if j == 22 {
        MissingCharNotContained(t, Phrase(22), '[');
      } else {
        MissingCharNotContained(t, Phrase(23), 'p');
      }
    }
  }

  lemma NoPhrase24To27()
    ensures forall j :: 24 <= j < 27 ==> !Contains("the build succeeded.", Phrase(j))
  {
    var t := "the build succeeded.";
    forall j | 24 <= j < 27 ensures !Contains(t, Phrase(j)) {
      if j == 24 {
        MissingCharNotContained(t, Phrase(24), 'o');
      } else if j == 25 {
        MissingCharNotContained(t, Phrase(25), 'a');
      } else {
        MissingCharNotContained(t, Phrase(26), '\'');
      }
    }
  }

  lemma NoPhrase27To30()
    ensures forall j :: 27 <= j < 30 ==> !Contains("the build succeeded.", Phrase(j))
  {
    var t := "the build succeeded.";
    forall j | 27 <= j < 30 ensures !Contains(t, Phrase(j)) {
      if j == 27 {
        MissingCharNotContained(t, Phrase(27), 'n');
      } else if j == 28 {
        MissingCharNotContained(t, Phrase(28), 'a');
      } else {
        MissingCharNotContained(t, Phrase(29), 'g');
      }
    }
  }

  lemma NoPhrase30To33()
    ensures forall j :: 30 <= j < 33 ==> !Contains("the build succeeded.", Phrase(j))
  {
    var t := "the build succeeded.";
    forall j | 30 <= j < 33 ensures !Contains(t, Phrase(j)) {
      if j == 30 {
        MissingCharNotContained(t, Phrase(30), 'w');
      } else if j == 31 {
        MissingCharNotContained(t, Phrase(31), 'f');
      } else {
        MissingCharNotContained(t, Phrase(32), 'r');
      }
    }
  }

  lemma NoPhrase33To36()
    ensures forall j :: 33 <= j < 36 ==> !Contains("the build succeeded.", Phrase(j))
  {
    var t := "the build succeeded.";
    forall j | 33 <= j < 36 ensures !Contains(t, Phrase(j)) {
      if j == 33 {
        MissingCharNotContained(t, Phrase(33), 'a');
      } else if j == 34 {
        MissingCharNotContained(t, Phrase(34), 'p');
      } else {
        MissingCharNotContained(t, Phrase(35), 'y');
      }
    }
  }

  lemma NoPhrase36To38()
    ensures forall j :: 36 <= j < 38 ==> !Contains("the build succeeded.", Phrase(j))
  {
    var t := "the build succeeded.";
    forall j | 36 <= j < 38 ensures !Contains(t, Phrase(j)) {
      if j == 36 {
        MissingCharNotContained(t, Phrase(36), 'm');
      } else {
        MissingCharNotContained(t, Phrase(37), 'f');
      }
    }
  }
}
