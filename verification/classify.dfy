/** The rule-based question classifier of the assistant: after
    normalisation the question is matched against four pattern lists in a
    fixed order, and the first list with a pattern occurring in the text
    decides the category. */
module Classify {
  import opened Options
  import opened Text

  datatype QuestionType = HowToApply | Documents | Eligibility | Benefits | General

  const ApplyPatterns: seq<string> := [
    "how to apply", "how do i apply", "how can i apply",
    "apply for", "application process", "how to get",
    "registration", "register for", "sign up"]

  const DocumentPatterns: seq<string> := [
    "document", "documents", "proof", "certificate",
    "what do i need", "what documents", "papers needed",
    "requirements", "what to submit", "upload"]

  const EligibilityPatterns: seq<string> := [
    "eligible", "eligibility", "qualify", "am i eligible",
    "can i get", "do i qualify", "who can apply",
    "criteria", "requirements for", "who is eligible"]

  const BenefitPatterns: seq<string> := [
    "benefit", "benefits", "what do i get", "what will i get",
    "how much", "amount", "money", "financial help",
    "what is provided", "advantages", "perks"]

  /** The text matched: a missing question counts as empty; it is
      lower-cased and stripped, then apostrophes, question marks and
      exclamation marks are deleted. */
  function Normalize(text: Option<string>): string {
    Delete(Delete(Delete(Strip(Lower(text.GetOr(""))), '\''), '?'), '!')
  }

  /** Some pattern of the list occurs in `q`. */
  predicate Mentions(q: string, patterns: seq<string>) {
    exists i :: 0 <= i < |patterns| && Contains(q, patterns[i])
  }

  /** Python's `any(p in q for p in patterns)`, pattern by pattern. */
  function AnyIn(q: string, patterns: seq<string>): (hit: bool)
    ensures hit <==> Mentions(q, patterns)
    decreases |patterns|
  {
    if |patterns| == 0 then false
    else if Contains(q, patterns[0]) then true
    else
      var rest := AnyIn(q, patterns[1..]);
      assert rest <==> Mentions(q, patterns[1..]);
      assert forall i :: 1 <= i < |patterns| ==> patterns[i] == patterns[1..][i - 1];
      rest
  }

  /** The category of a question.  Earlier lists take precedence: a
      category is chosen exactly when its list is mentioned and no earlier
      list is. */
  function ClassifyQuestion(text: Option<string>): (t: QuestionType)
    ensures var q := Normalize(text);
      && (t == HowToApply <==> Mentions(q, ApplyPatterns))
      && (t == Documents <==> !Mentions(q, ApplyPatterns) && Mentions(q, DocumentPatterns))
      && (t == Eligibility <==>
            !Mentions(q, ApplyPatterns) && !Mentions(q, DocumentPatterns) && Mentions(q, EligibilityPatterns))
      && (t == Benefits <==>
            !Mentions(q, ApplyPatterns) && !Mentions(q, DocumentPatterns) &&
            !Mentions(q, EligibilityPatterns) && Mentions(q, BenefitPatterns))
  {
    var q := Normalize(text);
    if AnyIn(q, ApplyPatterns) then HowToApply
    else if AnyIn(q, DocumentPatterns) then Documents
    else if AnyIn(q, EligibilityPatterns) then Eligibility
    else if AnyIn(q, BenefitPatterns) then Benefits
    else General
  }

  // ---------------------------------------------------------------- proofs

  /** Every pattern is non-empty, so an empty text mentions none. */
  lemma EmptyMentionsNothing(q: string, patterns: seq<string>)
    requires |q| == 0 && forall i :: 0 <= i < |patterns| ==> |patterns[i]| > 0
    ensures !Mentions(q, patterns)
  {
    forall i | 0 <= i < |patterns| ensures !Contains(q, patterns[i]) {
      ContainsLength(q, patterns[i]);
    }
  }

  /** A missing or empty question is a general one. */
  lemma EmptyQuestionIsGeneral(text: Option<string>)
    requires text.None? || text == Some("")
    ensures ClassifyQuestion(text) == General
  {
    NormalizeEmpty(text);
    var q := Normalize(text);
    PatternsNonEmpty();
    EmptyMentionsNothing(q, ApplyPatterns);
    EmptyMentionsNothing(q, DocumentPatterns);
    EmptyMentionsNothing(q, EligibilityPatterns);
    EmptyMentionsNothing(q, BenefitPatterns);
  }

  /** No pattern of the four lists is empty. */
  lemma PatternsNonEmpty()
    ensures forall i :: 0 <= i < |ApplyPatterns| ==> |ApplyPatterns[i]| > 0
    ensures forall i :: 0 <= i < |DocumentPatterns| ==> |DocumentPatterns[i]| > 0
    ensures forall i :: 0 <= i < |EligibilityPatterns| ==> |EligibilityPatterns[i]| > 0
    ensures forall i :: 0 <= i < |BenefitPatterns| ==> |BenefitPatterns[i]| > 0
  {
  }

  /** A missing or empty question normalises to an empty text. */
  lemma NormalizeEmpty(text: Option<string>)
    requires text.None? || text == Some("")
    ensures |Normalize(text)| == 0
  {
    assert |text.GetOr("")| == 0;
  }

  /** Classification ignores case. */
  lemma CaseInsensitive(text: string)
    ensures ClassifyQuestion(Some(Lower(text))) == ClassifyQuestion(Some(text))
  {
    LowerIdempotent(text);
  }

  /** "requirements for" never yields the eligibility category: the
      document pattern "requirements" inside it is checked first. */
  lemma RequirementsForIsDocuments(text: Option<string>)
    requires Contains(Normalize(text), "requirements for")
    ensures ClassifyQuestion(text) == if Mentions(Normalize(text), ApplyPatterns) then HowToApply else Documents
  {
    RequirementsInRequirementsFor();
    ContainsTransitive(Normalize(text), "requirements for", DocumentPatterns[7]);
  }

  /** The document pattern "requirements" begins "requirements for". */
  lemma RequirementsInRequirementsFor()
    ensures Contains("requirements for", DocumentPatterns[7])
  {
    assert "requirements for"[..12] == "requirements" == DocumentPatterns[7];
    ContainsPrefix("requirements for", 12);
  }

  /** The eligibility pattern "requirements for" can never decide a
      question, whatever the text. */
  lemma RequirementsForNeverDecides(text: Option<string>)
    requires ClassifyQuestion(text) == Eligibility
    ensures !Contains(Normalize(text), "requirements for")
  {
    if Contains(Normalize(text), "requirements for") {
      RequirementsForIsDocuments(text);
    }
  }

  /** Any question that asks how to apply is an application question,
      whatever else it mentions. */
  lemma ApplyWins(text: Option<string>, i: nat)
    requires i < |ApplyPatterns| && Contains(Normalize(text), ApplyPatterns[i])
    ensures ClassifyQuestion(text) == HowToApply
  {
  }
}
