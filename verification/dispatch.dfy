/** The first decision the assistant makes about a chat message: a
    greeting gets a greeting back, a thank-you gets "you're welcome", and
    anything else is classified and answered.  The thank-you test is
    modelled twice: as written (a substring test) and corrected (a
    whole-word test). */
module Dispatch {
  import opened Options
  import opened Text
  import opened Models
  import opened Classify
  import opened SchemeMatch

  /** Which kind of reply the message gets.  A greeting is addressed to the
      profile's name when there is one. */
  datatype Reply = Greeting(name: Option<string>) | Welcome | Answer(kind: QuestionType)

  const Greetings: seq<string> := [
    "hi", "hello", "hey", "hii", "helo", "namaste",
    "good morning", "good afternoon", "good evening"]

  /** The thank-you words as the assistant lists them. */
  const ThanksWords: seq<string> := ["thank", "thanks", "thank you", "thankyou", "thx", "ty"]

  /** The same words as whole words; "thank you" is covered by "thank". */
  const ThanksTokens: set<string> := {"thank", "thanks", "thankyou", "thx", "ty"}

  /** `q` is a greeting, or starts with one followed by a space or a comma. */
  predicate IsGreeting(q: string) {
    q in Greetings ||
    exists i :: 0 <= i < |Greetings| && (StartsWith(q, Greetings[i] + " ") || StartsWith(q, Greetings[i] + ","))
  }

  /** The greeting test, greeting by greeting. */
  function GreetsWith(q: string, gs: seq<string>): (hit: bool)
    ensures hit <==> q in gs || exists i :: 0 <= i < |gs| && (StartsWith(q, gs[i] + " ") || StartsWith(q, gs[i] + ","))
    decreases |gs|
  {
    if |gs| == 0 then false
    else if q == gs[0] || StartsWith(q, gs[0] + " ") || StartsWith(q, gs[0] + ",") then true
    else
      var rest := GreetsWith(q, gs[1..]);
      assert forall i :: 1 <= i < |gs| ==> gs[i] == gs[1..][i - 1];
      assert q in gs <==> q == gs[0] || q in gs[1..];
      rest
  }

  /** The name a greeting is addressed to: the profile's, when non-empty. */
  function Addressee(profile: Option<Profile>): (name: Option<string>)
    ensures name.Some? <==> profile.Some? && profile.value.name != ""
    ensures name.Some? ==> name.value == profile.value.name
  {
    if profile.Some? && profile.value.name != "" then Some(profile.value.name) else None
  }

  /** The reply once the thank-you test has been decided. */
  function Route(question: string, profile: Option<Profile>, thanked: bool): (r: Reply)
    ensures var q := Query(question);
      && (r.Greeting? <==> IsGreeting(q))
      && (r.Greeting? ==> r.name == Addressee(profile))
      && (r.Welcome? <==> !IsGreeting(q) && thanked)
      && (r.Answer? ==> r.kind == ClassifyQuestion(Some(question)))
  {
    if GreetsWith(Query(question), Greetings) then Greeting(Addressee(profile))
    else if thanked then Welcome
    else Answer(ClassifyQuestion(Some(question)))
  }

  /** The dispatch as written: a message is a thank-you when any of the
      thank-you words occurs anywhere in it, even inside another word. */
  function Respond(question: string, profile: Option<Profile>): (r: Reply)
    ensures var q := Query(question);
      && (r.Greeting? <==> IsGreeting(q))
      && (r.Greeting? ==> r.name == Addressee(profile))
      && (r.Welcome? <==> !IsGreeting(q) && Mentions(q, ThanksWords))
      && (r.Answer? ==> r.kind == ClassifyQuestion(Some(question)))
  {
    Route(question, profile, AnyIn(Query(question), ThanksWords))
  }

  /** `w` without the punctuation that may follow it. */
  function TrimPunctuation(w: string): (r: string)
    ensures |r| <= |w| && r == w[..|r|]
    decreases |w|
  {
    if |w| > 0 && w[|w| - 1] in {'!', '?', '.', ','} then TrimPunctuation(w[..|w| - 1]) else w
  }

  /** Some word of `q`, less trailing punctuation, is a thank-you word. */
  predicate SaysThanks(q: string) {
    exists w :: w in Words(q) && TrimPunctuation(w) in ThanksTokens
  }

  /** The corrected dispatch: only a whole thank-you word counts. */
  function RespondCorrected(question: string, profile: Option<Profile>): (r: Reply)
    ensures var q := Query(question);
      && (r.Greeting? <==> IsGreeting(q))
      && (r.Greeting? ==> r.name == Addressee(profile))
      && (r.Welcome? <==> !IsGreeting(q) && SaysThanks(q))
      && (r.Answer? ==> r.kind == ClassifyQuestion(Some(question)))
  {
    Route(question, profile, SaysThanks(Query(question)))
  }

  // ---------------------------------------------------------------- proofs

  /** The corrected test only narrows the original: every message it reads
      as a thank-you, the original does too. */
  lemma CorrectedNarrows(q: string)
    requires SaysThanks(q)
    ensures Mentions(q, ThanksWords)
  {
    var w :| w in Words(q) && TrimPunctuation(w) in ThanksTokens;
    var t := TrimPunctuation(w);
    WordsContained(q);
    ContainsPrefix(w, |t|);
    ContainsTransitive(q, w, t);
    var i := if t == "thank" then 0 else if t == "thanks" then 1 else if t == "thankyou" then 3
      else if t == "thx" then 4 else 5;
    assert ThanksWords[i] == t;
  }

  /** Whenever the two dispatches differ, the original says "you're
      welcome" and the corrected one answers the question. */
  lemma CorrectedDiffersOnlyOnThanks(question: string, profile: Option<Profile>)
    requires Respond(question, profile) != RespondCorrected(question, profile)
    ensures Respond(question, profile) == Welcome
    ensures RespondCorrected(question, profile) == Answer(ClassifyQuestion(Some(question)))
  {
    if SaysThanks(Query(question)) {
      CorrectedNarrows(Query(question));
    }
  }

  /** A message without greeting or thank-you word is classified. */
  lemma PlainQuestionIsAnswered(question: string, profile: Option<Profile>)
    requires !IsGreeting(Query(question)) && !Mentions(Query(question), ThanksWords)
    ensures Respond(question, profile) == Answer(ClassifyQuestion(Some(question)))
    ensures RespondCorrected(question, profile) == Respond(question, profile)
  {
    if SaysThanks(Query(question)) {
      CorrectedNarrows(Query(question));
    }
  }

  // ------------------------------------------------------ a worked example

  /** The patterns of `ps` all miss `q`: `cs[i]` is a character of
      `ps[i]` that `q` lacks. */
  lemma NoneOccur(q: string, ps: seq<string>, cs: string)
    requires |cs| == |ps|
    requires forall i :: 0 <= i < |ps| ==> cs[i] in ps[i] && cs[i] !in q
    ensures !Mentions(q, ps)
  {
    forall i | 0 <= i < |ps| ensures !Contains(q, ps[i]) {
      if Contains(q, ps[i]) {
        ContainsChars(q, ps[i], cs[i]);
      }
    }
  }

  const EligibilityQuestion: string := "eligibility"

  /** A lower-case, already trimmed question without apostrophes, question
      marks or exclamation marks is left as it is by both normalisations. */
  lemma AlreadyNormal(q: string)
    requires forall i :: 0 <= i < |q| ==> !IsUpper(q[i])
    requires |q| > 0 ==> !IsSpace(q[0]) && !IsSpace(q[|q| - 1])
    requires '\'' !in q && '?' !in q && '!' !in q
    ensures Query(q) == q
    ensures Normalize(Some(q)) == q
  {
    LowerOfLowercase(q);
    StripUnspaced(q);
    DeleteAbsent(q, '\'');
    DeleteAbsent(q, '?');
    DeleteAbsent(q, '!');
  }

  lemma EligibilityQuestionIsNormal()
    ensures Query(EligibilityQuestion) == EligibilityQuestion
    ensures Normalize(Some(EligibilityQuestion)) == EligibilityQuestion
  {
    AlreadyNormal(EligibilityQuestion);
  }

  lemma EligibilityQuestionIsNoGreeting()
    ensures !IsGreeting(EligibilityQuestion)
  {
    GreetingInitials(EligibilityQuestion);
  }

  /** As written, every message that mentions "eligibility" and is not a
      greeting is answered with "you're welcome": "ty" ends "eligibility".
      The classifier's "eligibility" pattern is never reached through the
      chat. */
  lemma EligibilityReadAsThanks(question: string, profile: Option<Profile>)
    requires !IsGreeting(Query(question)) && Contains(Query(question), "eligibility")
    ensures Respond(question, profile) == Welcome
  {
    var q := Query(question);
    TyInEligibility();
    ContainsTransitive(q, "eligibility", ThanksWords[5]);
    assert Mentions(q, ThanksWords);
  }

  /** The thanks word "ty" is the end of "eligibility". */
  lemma TyInEligibility()
    ensures Contains("eligibility", ThanksWords[5])
  {
    assert OccursAt("eligibility", "ty", 9);
    ContainsAt("eligibility", "ty", 9);
  }

  /** A question whose normal form contains "eligibility" but none of the
      letters o, c, p, r and u mentions no application or document
      pattern, so it is an eligibility question. */
  lemma ClassifiedAsEligibility(text: Option<string>)
    requires Contains(Normalize(text), "eligibility")
    requires var q := Normalize(text); 'o' !in q && 'c' !in q && 'p' !in q && 'r' !in q && 'u' !in q
    ensures ClassifyQuestion(text) == Eligibility
  {
    var q := Normalize(text);
    NoApplyPattern(q);
    NoDocumentPattern(q);
    EligibilityMentioned(q);
  }

  lemma NoApplyPattern(q: string)
    requires 'o' !in q && 'c' !in q && 'p' !in q && 'r' !in q && 'u' !in q
    ensures !Mentions(q, ApplyPatterns)
  {
    NoneOccur(q, ApplyPatterns, "oocpporru");
  }

  lemma NoDocumentPattern(q: string)
    requires 'o' !in q && 'c' !in q && 'p' !in q && 'r' !in q && 'u' !in q
    ensures !Mentions(q, DocumentPatterns)
  {
    NoneOccur(q, DocumentPatterns, "oopcooprou");
  }

  lemma EligibilityMentioned(q: string)
    requires Contains(q, "eligibility")
    ensures Mentions(q, EligibilityPatterns)
  {
    assert EligibilityPatterns[1] == "eligibility";
  }

  /** Corrected, a one-word message that is no thank-you word is
      classified, where the original may thank the user for it. */
  lemma OneWordAnswered(question: string, profile: Option<Profile>)
    requires var q := Query(question);
      |q| > 0 && (forall i :: 0 <= i < |q| ==> !IsSpace(q[i])) && TrimPunctuation(q) !in ThanksTokens
    requires !IsGreeting(Query(question))
    ensures RespondCorrected(question, profile) == Answer(ClassifyQuestion(Some(question)))
  {
    var q := Query(question);
    WordsOfWord(q);
    assert !SaysThanks(q);
  }

  /** A one-word question that contains "eligibility", with a normal form
      that has none of the letters o, c, p, r and u: the classifier files
      it under eligibility, the dispatch as written says "you're welcome",
      and the corrected dispatch answers it as an eligibility question. */
  lemma EligibilityWordMisrouted(question: string, profile: Option<Profile>)
    requires var q := Query(question);
      && |q| > 0 && (forall i :: 0 <= i < |q| ==> !IsSpace(q[i]))
      && !IsGreeting(q) && TrimPunctuation(q) !in ThanksTokens && Contains(q, "eligibility")
    requires var n := Normalize(Some(question));
      Contains(n, "eligibility") && 'o' !in n && 'c' !in n && 'p' !in n && 'r' !in n && 'u' !in n
    ensures ClassifyQuestion(Some(question)) == Eligibility
    ensures Respond(question, profile) == Welcome
    ensures RespondCorrected(question, profile) == Answer(Eligibility)
  {
    ClassifiedAsEligibility(Some(question));
    EligibilityReadAsThanks(question, profile);
    OneWordAnswered(question, profile);
  }

  /** The question "eligibility" on its own is such a question. */
  lemma EligibilityQuestionQualifies()
    ensures var q := Query(EligibilityQuestion);
      && |q| > 0 && (forall i :: 0 <= i < |q| ==> !IsSpace(q[i]))
      && !IsGreeting(q) && TrimPunctuation(q) !in ThanksTokens && Contains(q, "eligibility")
    ensures var n := Normalize(Some(EligibilityQuestion));
      Contains(n, "eligibility") && 'o' !in n && 'c' !in n && 'p' !in n && 'r' !in n && 'u' !in n
  {
    EligibilityQuestionIsNormal();
    EligibilityQuestionIsNoGreeting();
    EligibilityQuestionShape();
    TokenInitial(EligibilityQuestion);
  }

  lemma EligibilityQuestionShape()
    ensures Contains(EligibilityQuestion, "eligibility")
    ensures forall i :: 0 <= i < |EligibilityQuestion| ==> !IsSpace(EligibilityQuestion[i])
    ensures TrimPunctuation(EligibilityQuestion) == EligibilityQuestion
    ensures 'o' !in EligibilityQuestion && 'c' !in EligibilityQuestion && 'p' !in EligibilityQuestion
    ensures 'r' !in EligibilityQuestion && 'u' !in EligibilityQuestion
  {
    assert OccursAt(EligibilityQuestion, "eligibility", 0);
    ContainsAt(EligibilityQuestion, "eligibility", 0);
  }

  /** Every greeting starts with h, n or g, so nothing else is one. */
  lemma GreetingInitials(q: string)
    requires |q| > 0 && q[0] !in {'h', 'n', 'g'}
    ensures !IsGreeting(q)
  {
    forall i | 0 <= i < |Greetings| ensures !StartsWith(q, Greetings[i] + " ") && !StartsWith(q, Greetings[i] + ",") {
      assert Greetings[i][0] in {'h', 'n', 'g'} && |Greetings[i]| > 0;
    }
  }

  /** Every thank-you word starts with t. */
  lemma TokenInitial(t: string)
    ensures t in ThanksTokens ==> |t| > 0 && t[0] == 't'
  {
    if t in ThanksTokens {
      assert t == "thank" || t == "thanks" || t == "thankyou" || t == "thx" || t == "ty";
    }
  }

  /** Corrected, a message that is just a thank-you word, possibly with
      punctuation after it, is still a thank-you. */
  lemma ThanksStillWelcomed(question: string, profile: Option<Profile>)
    requires var q := Query(question);
      |q| > 0 && (forall i :: 0 <= i < |q| ==> !IsSpace(q[i])) && TrimPunctuation(q) in ThanksTokens
    ensures RespondCorrected(question, profile) == Welcome
    ensures Respond(question, profile) == Welcome
  {
    LoneThanksWord(Query(question));
  }

  lemma LoneThanksWord(q: string)
    requires |q| > 0 && (forall i :: 0 <= i < |q| ==> !IsSpace(q[i])) && TrimPunctuation(q) in ThanksTokens
    ensures !IsGreeting(q) && SaysThanks(q) && Mentions(q, ThanksWords)
  {
    ThanksWordNoGreeting(q);
    LoneWordSaysThanks(q);
    CorrectedNarrows(q);
  }

  /** A thank-you word starts with t, so it greets nobody. */
  lemma ThanksWordNoGreeting(q: string)
    requires |q| > 0 && TrimPunctuation(q) in ThanksTokens
    ensures !IsGreeting(q)
  {
    var t := TrimPunctuation(q);
    TokenInitial(t);
    assert q[0] == t[0];
    GreetingInitials(q);
  }

  /** A single thank-you word is a thank-you. */
  lemma LoneWordSaysThanks(q: string)
    requires |q| > 0 && (forall i :: 0 <= i < |q| ==> !IsSpace(q[i])) && TrimPunctuation(q) in ThanksTokens
    ensures SaysThanks(q)
  {
    WordsOfWord(q);
    assert q in Words(q);
  }
}
