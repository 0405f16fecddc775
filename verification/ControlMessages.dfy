/** The fixed messages of the deterministic controls, and the reason codes read off their wording. */
module ControlMessages {
  import opened AssistantTypes

  datatype Message =
    | InstructionFound | NoSupport | RecordMissing | SupportConflicts | SupportInactive | ContextExceeded | CrossesAuthority
    | ExternalAuthority | NoRecordedDecision | DecisionsConflict | ValidationFailed | SupportUnavailable

  /** In lower case; the text begins with a capital. */
  function Words(m: Message): seq<string> {
    match m
    case InstructionFound => ["untrusted", "support", "contained", "instruction-like", "content."]
    case NoSupport => ["no", "authorized", "support", "was", "available."]
    case RecordMissing => ["a", "required", "current", "support", "record", "is", "missing."]
    case SupportConflicts => ["conflicting", "support", "requires", "accountable", "external", "review."]
    case SupportInactive =>
      ["required", "support", "is", "missing,", "restricted,", "stale,", "revoked,", "or", "superseded."]
    case ContextExceeded => ["authorized", "support", "exceeds", "the", "bounded", "model", "context."]
    case CrossesAuthority => ["the", "request", "crosses", "the", "read-only", "assistant", "authority", "boundary."]
    case ExternalAuthority =>
      ["the", "request", "requires", "a", "decision", "by", "an", "accountable", "external", "authority."]
    case NoRecordedDecision => ["no", "active", "recorded", "decision", "is", "available", "for", "explanation."]
    case DecisionsConflict =>
      ["active", "supports", "contain", "conflicting", "recorded", "decisions", "and", "require", "accountable", "external",
       "review."]
    case ValidationFailed => ["the", "generated", "response", "failed", "support", "validation."]
    case SupportUnavailable => ["authorized", "support", "is", "unavailable", "for", "this", "request."]
  }

  function Sentence(words: seq<string>): string {
    if words == [] then ""
    else if |words| == 1 then words[0]
    else words[0] + (" " + Sentence(words[1..]))
  }

  function Capitalized(text: string): string {
    if text == "" then "" else [Raised(text[0])] + text[1..]
  }

  function Raised(c: char): char {
    if 'a' <= c <= 'z' then (c as int - 32) as char else c
  }

  function MessageText(m: Message): string {
    Capitalized(Sentence(Words(m)))
  }

  // ----- `reasonCodesForOutcome`

  function Folded(c: char): char {
    if 'A' <= c <= 'Z' then (c as int + 32) as char else c
  }

  predicate MatchesAt(text: string, pattern: string, i: nat) {
    i + |pattern| <= |text| && forall j :: 0 <= j < |pattern| ==> Folded(text[i + j]) == pattern[j]
  }

  /** The test of a literal, case-insensitive pattern. */
  predicate Mentions(text: string, pattern: string) {
    exists i: nat :: i <= |text| && MatchesAt(text, pattern, i)
  }

  predicate MentionsInactive(text: string) {
    || Mentions(text, "inactive") || Mentions(text, "restricted") || Mentions(text, "stale")
    || Mentions(text, "revoked") || Mentions(text, "superseded")
  }

  function ReasonCodesForOutcome(outcome: DecisionOutcome, summary: string): seq<ReasonCode> {
    if Mentions(summary, "conflict") then [ConflictingEvidence]
    else if Mentions(summary, "missing") || Mentions(summary, "no authorized support") then [MissingEvidence]
    else if MentionsInactive(summary) then [InactiveEvidence]
    else if Mentions(summary, "injection") then [PromptInjection]
    else if outcome == RequiresExternalDecision then [ExternalDecisionRequired]
    else []
  }

  lemma CapitalIgnored(text: string, pattern: string)
    ensures Mentions(Capitalized(text), pattern) <==> Mentions(text, pattern)
  {
    var raised := Capitalized(text);
    assert forall i :: 0 <= i < |text| ==> Folded(raised[i]) == Folded(text[i]);
    forall i: nat
      ensures MatchesAt(raised, pattern, i) <==> MatchesAt(text, pattern, i)
    {
    }
  }

  // ----- a pattern without a space lies within one word

  lemma SpaceSplits(a: string, b: string, pattern: string, i: nat)
    requires MatchesAt(a + (" " + b), pattern, i) && i <= |a| < i + |pattern|
    ensures ' ' in pattern
  {
    assert (a + (" " + b))[i + (|a| - i)] == ' ';
    assert pattern[|a| - i] in pattern;
  }

  lemma WithinOneSide(a: string, b: string, pattern: string, i: nat)
    requires pattern != "" && ' ' !in pattern && MatchesAt(a + (" " + b), pattern, i)
    ensures Mentions(a, pattern) || Mentions(b, pattern)
  {
    var text, n := a + (" " + b), |pattern|;
    if i <= |a| < i + n {
      SpaceSplits(a, b, pattern, i);
      assert false;
    }
    if i + n <= |a| {
      forall j | 0 <= j < n
        ensures Folded(a[i + j]) == pattern[j]
      {
        assert text[i + j] == a[i + j];
      }
      assert MatchesAt(a, pattern, i);
    } else {
      assert i > |a|;
      var k := i - |a| - 1;
      forall j | 0 <= j < n
        ensures Folded(b[k + j]) == pattern[j]
      {
        assert text[i + j] == b[k + j];
      }
      assert MatchesAt(b, pattern, k);
    }
  }

  lemma MentionsExtends(a: string, b: string, c: string, pattern: string)
    requires Mentions(b, pattern)
    ensures Mentions(a + (b + c), pattern)
  {
    var i: nat :| i <= |b| && MatchesAt(b, pattern, i);
    var text := a + (b + c);
    forall j | 0 <= j < |pattern|
      ensures Folded(text[|a| + i + j]) == pattern[j]
    {
      assert text[|a| + i + j] == b[i + j];
    }
    assert MatchesAt(text, pattern, |a| + i);
  }

  lemma {:induction false} MentionedInWord(words: seq<string>, pattern: string)
    requires pattern != "" && ' ' !in pattern
    ensures Mentions(Sentence(words), pattern) <==> exists k :: 0 <= k < |words| && Mentions(words[k], pattern)
  {
    if |words| <= 1 {
      assert words == [] ==> Sentence(words) == "";
    } else {
      var rest := words[1..];
      var a, b := words[0], Sentence(rest);
      MentionedInWord(rest, pattern);
      assert forall k :: 0 <= k < |rest| ==> rest[k] == words[k + 1];
      if Mentions(Sentence(words), pattern) {
        var i: nat :| i <= |Sentence(words)| && MatchesAt(Sentence(words), pattern, i);
        WithinOneSide(a, b, pattern, i);
      }
      hide Mentions;
      if Mentions(a, pattern) {
        MentionsExtends("", a, " " + b, pattern);
        assert "" + (a + (" " + b)) == Sentence(words);
      }
      if Mentions(b, pattern) {
        MentionsExtends(a + " ", b, "", pattern);
        assert (a + " ") + (b + "") == Sentence(words);
      }
    }
  }

  // ----- which patterns the messages mention

  predicate InLowerCase(word: string) {
    forall c :: c in word ==> !('A' <= c <= 'Z')
  }

  lemma MissingLetter(word: string, pattern: string, k: nat)
    requires InLowerCase(word) && k < |pattern|
    ensures pattern[k] !in word ==> !Mentions(word, pattern)
  {
    if pattern[k] !in word {
      forall i: nat | i <= |word|
        ensures !MatchesAt(word, pattern, i)
      {
        assert i + |pattern| <= |word| ==> word[i + k] in word;
      }
    }
  }

  lemma NoLetterF(word: string)
    requires word in Words(SupportInactive)
    ensures InLowerCase(word) && 'f' !in word
  {
  }

  lemma NoConflict(word: string)
    requires word in Words(SupportInactive)
    ensures !Mentions(word, "conflict")
  {
    NoLetterF(word);
    hide Words, Mentions, InLowerCase;
    assert "conflict"[3] == 'f';
    MissingLetter(word, "conflict", 3);
  }

  lemma MissingWord()
    ensures "missing," in Words(SupportInactive) && Mentions("missing,", "missing")
  {
    assert Words(SupportInactive)[3] == "missing,";
    assert "missing,"[..7] == "missing";
    assert MatchesAt("missing,", "missing", 0);
  }

  /** The wording for inactive support mentions what is missing first, so it is read as missing evidence. */
  lemma InactiveReadsMissing(outcome: DecisionOutcome)
    ensures ReasonCodesForOutcome(outcome, MessageText(SupportInactive)) == [MissingEvidence]
  {
    hide Mentions, Sentence, Words, Capitalized;
    var words := Words(SupportInactive);
    MissingWord();
    forall k | 0 <= k < |words|
      ensures !Mentions(words[k], "conflict")
    {
      NoConflict(words[k]);
    }
    MentionedInWord(words, "missing");
    MentionedInWord(words, "conflict");
    CapitalIgnored(Sentence(words), "missing");
    CapitalIgnored(Sentence(words), "conflict");
  }

  /** Which reason code a text is read as: the first of four groups of patterns it mentions, or else the one for its outcome. */
  lemma ReasonCodesIff(outcome: DecisionOutcome, text: string)
    ensures var codes := ReasonCodesForOutcome(outcome, text);
            var conflict := Mentions(text, "conflict");
            var missing := Mentions(text, "missing") || Mentions(text, "no authorized support");
            var none := !conflict && !missing && !MentionsInactive(text) && !Mentions(text, "injection");
            && |codes| <= 1 && AccessDenied !in codes
            && (ConflictingEvidence in codes <==> conflict)
            && (MissingEvidence in codes <==> !conflict && missing)
            && (InactiveEvidence in codes <==> !conflict && !missing && MentionsInactive(text))
            && (PromptInjection in codes <==>
                  !conflict && !missing && !MentionsInactive(text) && Mentions(text, "injection"))
            && (ExternalDecisionRequired in codes <==> none && outcome.RequiresExternalDecision?)
  {
    hide Mentions, MentionsInactive;
  }
}
