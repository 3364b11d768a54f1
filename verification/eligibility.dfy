/** The eligibility evaluator: every rule a scheme states is checked against
    a profile, none is skipped when an earlier one fails, and each failing
    rule contributes exactly one reason.  String comparisons ignore case;
    "central" is the wildcard state and "any" the wildcard gender, caste and
    disability. */
module Eligibility {
  import opened Options
  import opened Text
  import opened Models

  /** The nine rules, in the order they are evaluated. */
  datatype Rule =
    | StateRule | MinAgeRule | MaxAgeRule | MinIncomeRule | MaxIncomeRule
    | OccupationRule | GenderRule | CasteRule | DisabilityRule

  const Rules: seq<Rule> := [
    StateRule, MinAgeRule, MaxAgeRule, MinIncomeRule, MaxIncomeRule,
    OccupationRule, GenderRule, CasteRule, DisabilityRule]

  /** Position of a rule in the evaluation order. */
  function Rank(r: Rule): nat {
    match r
    case StateRule => 0
    case MinAgeRule => 1
    case MaxAgeRule => 2
    case MinIncomeRule => 3
    case MaxIncomeRule => 4
    case OccupationRule => 5
    case GenderRule => 6
    case CasteRule => 7
    case DisabilityRule => 8
  }

  /** Why a profile fails a scheme, one constructor per sentence the
      service can produce; the payload is the bound or value the sentence
      names.  Both income rules use the same "income is required"
      sentence, told apart here by `forMinimum`. */
  datatype Reason =
    | OnlyForState(state: string)
    | AgeAtLeast(minAge: int)
    | AgeAtMost(maxAge: int)
    | IncomeRequired(forMinimum: bool)
    | IncomeAtLeast(minIncome: int)
    | IncomeAtMost(maxIncome: int)
    | OccupationRequired(occupation: string)
    | OnlyForOccupation(occupation: string)
    | GenderRequired
    | OnlyForGender(gender: string)
    | CasteRequired
    | OnlyForCaste(caste: string)
    | DisabilityRequired
    | OnlyForDisabled
    | NotForDisabled

  /** The rule a reason reports. */
  function RuleOf(r: Reason): Rule {
    match r
    case OnlyForState(_) => StateRule
    case AgeAtLeast(_) => MinAgeRule
    case AgeAtMost(_) => MaxAgeRule
    case IncomeRequired(forMinimum) => if forMinimum then MinIncomeRule else MaxIncomeRule
    case IncomeAtLeast(_) => MinIncomeRule
    case IncomeAtMost(_) => MaxIncomeRule
    case OccupationRequired(_) => OccupationRule
    case OnlyForOccupation(_) => OccupationRule
    case GenderRequired => GenderRule
    case OnlyForGender(_) => GenderRule
    case CasteRequired => CasteRule
    case OnlyForCaste(_) => CasteRule
    case DisabilityRequired => DisabilityRule
    case OnlyForDisabled => DisabilityRule
    case NotForDisabled => DisabilityRule
  }

  /** The evaluator's answer; `score` is the 1.0/0.0 confidence as 1/0. */
  datatype Verdict = Verdict(eligible: bool, reasons: seq<Reason>, score: int)

  // ------------------------------------------------------ declarative view

  /** A scheme column that is unset or the case-insensitive wildcard "any". */
  predicate Unconstrained(column: Option<string>) {
    column.None? || Lower(column.value) == "any"
  }

  /** The caste categories a caste column accepts: its "/"-separated
      parts, trimmed and lower-cased. */
  function AcceptedCastes(caste: string): set<string> {
    set part | part in SplitOn(caste, '/') :: Lower(Strip(part))
  }

  /** What it means for a profile to satisfy one rule of a scheme, stated
      positively and independently of how reasons are produced. */
  predicate Satisfies(p: Profile, s: Scheme, rule: Rule)
    requires s.state.Some?
  {
    match rule
    case StateRule =>
      Lower(s.state.value) == "central" || Lower(s.state.value) == Lower(p.state)
    case MinAgeRule => s.minAge.None? || p.age >= s.minAge.value
    case MaxAgeRule => s.maxAge.None? || p.age <= s.maxAge.value
    case MinIncomeRule =>
      s.minIncome.None? || (p.annualIncome.Some? && p.annualIncome.value >= s.minIncome.value)
    case MaxIncomeRule =>
      s.maxIncome.None? || (p.annualIncome.Some? && p.annualIncome.value <= s.maxIncome.value)
    case OccupationRule =>
      s.occupation.None? || (p.occupation.Some? && Lower(p.occupation.value) == Lower(s.occupation.value))
    case GenderRule =>
      Unconstrained(s.gender) || (p.gender.Some? && Lower(p.gender.value) == Lower(s.gender.value))
    case CasteRule =>
      Unconstrained(s.caste) || (p.caste.Some? && Lower(p.caste.value) in AcceptedCastes(s.caste.value))
    case DisabilityRule =>
      Unconstrained(s.disability) || (p.disability.Some? && Lower(p.disability.value) == Lower(s.disability.value))
  }

  // ------------------------------------------------------------ the checks

  function CheckState(p: Profile, s: Scheme): Option<Reason>
    requires s.state.Some?
  {
    var st := s.state.value;
    if Lower(st) != "central" && Lower(st) != Lower(p.state) then Some(OnlyForState(st)) else None
  }

  function CheckMinAge(p: Profile, s: Scheme): Option<Reason> {
    if s.minAge.Some? && p.age < s.minAge.value then Some(AgeAtLeast(s.minAge.value)) else None
  }

  function CheckMaxAge(p: Profile, s: Scheme): Option<Reason> {
    if s.maxAge.Some? && p.age > s.maxAge.value then Some(AgeAtMost(s.maxAge.value)) else None
  }

  function CheckMinIncome(p: Profile, s: Scheme): Option<Reason> {
    if s.minIncome.None? then None
    else if p.annualIncome.None? then Some(IncomeRequired(true))
    else if p.annualIncome.value < s.minIncome.value then Some(IncomeAtLeast(s.minIncome.value))
    else None
  }

  function CheckMaxIncome(p: Profile, s: Scheme): Option<Reason> {
    if s.maxIncome.None? then None
    else if p.annualIncome.None? then Some(IncomeRequired(false))
    else if p.annualIncome.value > s.maxIncome.value then Some(IncomeAtMost(s.maxIncome.value))
    else None
  }

  function CheckOccupation(p: Profile, s: Scheme): Option<Reason> {
    if s.occupation.None? then None
    else if p.occupation.None? then Some(OccupationRequired(s.occupation.value))
    else if Lower(s.occupation.value) != Lower(p.occupation.value) then Some(OnlyForOccupation(s.occupation.value))
    else None
  }

  function CheckGender(p: Profile, s: Scheme): Option<Reason> {
    if s.gender.None? || Lower(s.gender.value) == "any" then None
    else if p.gender.None? then Some(GenderRequired)
    else if Lower(s.gender.value) != Lower(p.gender.value) then Some(OnlyForGender(s.gender.value))
    else None
  }

  /** The caste column split on "/", each part trimmed and lower-cased. */
  function AllowedCastes(caste: string): (allowed: seq<string>)
    ensures |allowed| == |SplitOn(caste, '/')|
  {
    var parts := SplitOn(caste, '/');
    seq(|parts|, i requires 0 <= i < |parts| => Lower(Strip(parts[i])))
  }

  function CheckCaste(p: Profile, s: Scheme): Option<Reason> {
    if s.caste.None? || Lower(s.caste.value) == "any" then None
    else if p.caste.None? then Some(CasteRequired)
    else if Lower(p.caste.value) !in AllowedCastes(s.caste.value) then Some(OnlyForCaste(s.caste.value))
    else None
  }

  function CheckDisability(p: Profile, s: Scheme): Option<Reason> {
    if s.disability.None? || Lower(s.disability.value) == "any" then None
    else if p.disability.None? then Some(DisabilityRequired)
    else if Lower(s.disability.value) != Lower(p.disability.value) then
      if Lower(s.disability.value) == "yes" then Some(OnlyForDisabled) else Some(NotForDisabled)
    else None
  }

  /** Zero or one reason as a sequence. */
  function Emit(r: Option<Reason>): seq<Reason> {
    if r.Some? then [r.value] else []
  }

  /** One rule's check. */
  function Check(p: Profile, s: Scheme, rule: Rule): Option<Reason>
    requires s.state.Some?
  {
    match rule
    case StateRule => CheckState(p, s)
    case MinAgeRule => CheckMinAge(p, s)
    case MaxAgeRule => CheckMaxAge(p, s)
    case MinIncomeRule => CheckMinIncome(p, s)
    case MaxIncomeRule => CheckMaxIncome(p, s)
    case OccupationRule => CheckOccupation(p, s)
    case GenderRule => CheckGender(p, s)
    case CasteRule => CheckCaste(p, s)
    case DisabilityRule => CheckDisability(p, s)
  }

  /** The outcome of every check, in rule order. */
  function Outcomes(p: Profile, s: Scheme): (outs: seq<Option<Reason>>)
    requires s.state.Some?
    ensures |outs| == |Rules|
  {
    [CheckState(p, s), CheckMinAge(p, s), CheckMaxAge(p, s),
     CheckMinIncome(p, s), CheckMaxIncome(p, s), CheckOccupation(p, s),
     CheckGender(p, s), CheckCaste(p, s), CheckDisability(p, s)]
  }

  /** The reasons among some check outcomes, in order. */
  function Gather(outs: seq<Option<Reason>>): seq<Reason> {
    if |outs| == 0 then [] else Emit(outs[0]) + Gather(outs[1..])
  }

  /** All reasons, in rule order. */
  function Reasons(p: Profile, s: Scheme): seq<Reason>
    requires s.state.Some?
  {
    Gather(Outcomes(p, s))
  }

  /** The service entry point: each rule's check runs in the fixed order,
      every failing one clears the eligibility flag and appends its reason,
      and the score follows the flag. */
  method CheckEligibility(p: Profile, s: Scheme) returns (v: Verdict)
    requires s.state.Some?
    ensures v.reasons == Reasons(p, s)
    ensures v.eligible <==> |v.reasons| == 0
    ensures v.eligible <==> forall rule :: Satisfies(p, s, rule)
    ensures v.score == (if v.eligible then 1 else 0)
  {
    var eligible := true;
    var reasons: seq<Reason> := [];
    ghost var outs := Outcomes(p, s);
    RankOfRules();
    for i := 0 to |Rules|
      invariant reasons == Gather(outs[..i])
      invariant eligible <==> |reasons| == 0
    {
      var failure := Check(p, s, Rules[i]);
      OutcomeAtRank(p, s, Rules[i]);
      if failure.Some? {
        eligible := false;
        reasons := reasons + [failure.value];
      }
      GatherSnoc(outs, i);
    }
    assert outs[..|Rules|] == outs;
    var score := if eligible then 1 else 0;
    v := Verdict(eligible, reasons, score);
    ReasonsExplainFailures(p, s);
    if |reasons| > 0 {
      assert Reported(reasons, RuleOf(reasons[0]));
    }
  }

  // ---------------------------------------------------------------- proofs

  /** The seq-based caste test agrees with the set it describes. */
  lemma AllowedCastesAsSet(caste: string, x: string)
    ensures x in AllowedCastes(caste) <==> x in AcceptedCastes(caste)
  {
    var parts := SplitOn(caste, '/');
    if x in AcceptedCastes(caste) {
      var part :| part in parts && Lower(Strip(part)) == x;
      var i :| 0 <= i < |parts| && parts[i] == part;
      assert AllowedCastes(caste)[i] == x;
    }
  }

  /** A rule's check yields a reason exactly when the rule is not
      satisfied, and that reason reports the rule. */
  lemma CheckIffViolated(p: Profile, s: Scheme, rule: Rule)
    requires s.state.Some?
    ensures Check(p, s, rule).Some? <==> !Satisfies(p, s, rule)
    ensures Check(p, s, rule).Some? ==> RuleOf(Check(p, s, rule).value) == rule
  {
    if rule == CasteRule && s.caste.Some? && p.caste.Some? {
      AllowedCastesAsSet(s.caste.value, Lower(p.caste.value));
    }
  }

  /** The outcome at a rule's rank is that rule's check. */
  lemma OutcomeAtRank(p: Profile, s: Scheme, rule: Rule)
    requires s.state.Some?
    ensures Rank(rule) < |Rules| && Outcomes(p, s)[Rank(rule)] == Check(p, s, rule)
  {
  }

  lemma RankOfRules()
    ensures forall k :: 0 <= k < |Rules| ==> Rank(Rules[k]) == k
  {
  }

  lemma RankInjective(a: Rule, b: Rule)
    ensures Rank(a) == Rank(b) ==> a == b
  {
  }

  /** Some reason in `rs` reports `rule`. */
  predicate Reported(rs: seq<Reason>, rule: Rule) {
    exists i :: 0 <= i < |rs| && RuleOf(rs[i]) == rule
  }

  /** Reasons listed in strictly increasing rule order: at most one per rule. */
  predicate InRuleOrder(rs: seq<Reason>) {
    forall i, j :: 0 <= i < j < |rs| ==> Rank(RuleOf(rs[i])) < Rank(RuleOf(rs[j]))
  }

  /** Outcome `k` of `outs`, when present, reports the rule of rank `base + k`. */
  predicate Aligned(outs: seq<Option<Reason>>, base: nat) {
    forall k :: 0 <= k < |outs| && outs[k].Some? ==> Rank(RuleOf(outs[k].value)) == base + k
  }

  lemma AlignedTail(outs: seq<Option<Reason>>, base: nat)
    requires Aligned(outs, base) && |outs| > 0
    ensures Aligned(outs[1..], base + 1)
  {
    forall k | 0 <= k < |outs[1..]| && outs[1..][k].Some?
      ensures Rank(RuleOf(outs[1..][k].value)) == base + 1 + k
    {
      assert outs[1..][k] == outs[k + 1];
    }
  }

  /** Gathered aligned outcomes have ranks in `base .. base + |outs|`, in
      strictly increasing order. */
  lemma {:induction false} GatherInOrder(outs: seq<Option<Reason>>, base: nat)
    requires Aligned(outs, base)
    ensures InRuleOrder(Gather(outs))
    ensures forall i :: 0 <= i < |Gather(outs)| ==>
      base <= Rank(RuleOf(Gather(outs)[i])) < base + |outs|
    ensures forall i :: 0 <= i < |Gather(outs)| ==>
      outs[Rank(RuleOf(Gather(outs)[i])) - base] == Some(Gather(outs)[i])
  {
    if |outs| > 0 {
      var head := Emit(outs[0]);
      var tail := Gather(outs[1..]);
      AlignedTail(outs, base);
      GatherInOrder(outs[1..], base + 1);
      var g := Gather(outs);
      assert g == head + tail;
      forall i | 0 <= i < |g|
        ensures base <= Rank(RuleOf(g[i])) < base + |outs|
        ensures outs[Rank(RuleOf(g[i])) - base] == Some(g[i])
      {
        if i >= |head| {
          assert g[i] == tail[i - |head|];
          assert outs[1..][Rank(RuleOf(g[i])) - (base + 1)] == Some(g[i]);
        }
      }
    }
  }

  /** Some gathered reason has rank `r`. */
  predicate HasRank(rs: seq<Reason>, r: nat) {
    exists i :: 0 <= i < |rs| && Rank(RuleOf(rs[i])) == r
  }

  /** The reason of rank `base + k` is gathered exactly when outcome `k`
      is present. */
  lemma {:induction false} GatherComplete(outs: seq<Option<Reason>>, base: nat, k: nat)
    requires Aligned(outs, base) && k < |outs|
    ensures outs[k].Some? <==> HasRank(Gather(outs), base + k)
    decreases k
  {
    var head := Emit(outs[0]);
    var tail := Gather(outs[1..]);
    var g := Gather(outs);
    assert g == head + tail;
    AlignedTail(outs, base);
    GatherInOrder(outs[1..], base + 1);
    if k == 0 {
      if outs[0].Some? {
        assert Rank(RuleOf(g[0])) == base;
      }
      if HasRank(g, base) {
        var i :| 0 <= i < |g| && Rank(RuleOf(g[i])) == base;
      }
    } else {
      GatherComplete(outs[1..], base + 1, k - 1);
      assert outs[k] == outs[1..][k - 1];
      if HasRank(tail, base + k) {
        var i :| 0 <= i < |tail| && Rank(RuleOf(tail[i])) == base + k;
        assert g[|head| + i] == tail[i];
      }
      if HasRank(g, base + k) {
        var i :| 0 <= i < |g| && Rank(RuleOf(g[i])) == base + k;
        assert i >= |head|;
        assert g[i] == tail[i - |head|];
      }
    }
  }

  /** The reasons name exactly the violated rules, each once, in the fixed
      order state, minimum age, maximum age, minimum income, maximum
      income, occupation, gender, caste, disability. */
  lemma ReasonsExplainFailures(p: Profile, s: Scheme)
    requires s.state.Some?
    ensures forall rule :: Reported(Reasons(p, s), rule) <==> !Satisfies(p, s, rule)
    ensures InRuleOrder(Reasons(p, s))
    ensures forall i :: 0 <= i < |Reasons(p, s)| ==>
      Check(p, s, RuleOf(Reasons(p, s)[i])) == Some(Reasons(p, s)[i])
  {
    var outs := Outcomes(p, s);
    assert Aligned(outs, 0) by {
      forall k | 0 <= k < |outs| && outs[k].Some?
        ensures Rank(RuleOf(outs[k].value)) == k
      {
        RankOfRules();
        CheckIffViolated(p, s, Rules[k]);
        OutcomeAtRank(p, s, Rules[k]);
      }
    }
    GatherInOrder(outs, 0);
    var rs := Reasons(p, s);
    forall i | 0 <= i < |rs|
      ensures Check(p, s, RuleOf(rs[i])) == Some(rs[i])
    {
      OutcomeAtRank(p, s, RuleOf(rs[i]));
    }
    forall rule
      ensures Reported(rs, rule) <==> !Satisfies(p, s, rule)
    {
      CheckIffViolated(p, s, rule);
      OutcomeAtRank(p, s, rule);
      GatherComplete(outs, 0, Rank(rule));
      if Reported(rs, rule) {
        var i :| 0 <= i < |rs| && RuleOf(rs[i]) == rule;
        assert HasRank(rs, Rank(rule));
      }
      if HasRank(rs, Rank(rule)) {
        var i :| 0 <= i < |rs| && Rank(RuleOf(rs[i])) == Rank(rule);
        RankInjective(RuleOf(rs[i]), rule);
      }
    }
  }

  lemma GatherAppend(a: seq<Option<Reason>>, b: seq<Option<Reason>>)
    ensures Gather(a + b) == Gather(a) + Gather(b)
  {
    if |a| > 0 {
      assert (a + b)[1..] == a[1..] + b;
      GatherAppend(a[1..], b);
    } else {
      assert a + b == b;
    }
  }

  lemma GatherSnoc(outs: seq<Option<Reason>>, k: nat)
    requires k < |outs|
    ensures Gather(outs[..k + 1]) == Gather(outs[..k]) + Emit(outs[k])
  {
    assert outs[..k + 1] == outs[..k] + [outs[k]];
    GatherAppend(outs[..k], [outs[k]]);
    assert Gather([outs[k]]) == Emit(outs[k]) + Gather([]);
  }

  // ------------------------------------------------------------ properties

  /** A reason is listed exactly when the check of its own rule produces it. */
  lemma ReasonsAreCheckOutputs(p: Profile, s: Scheme, r: Reason)
    requires s.state.Some?
    ensures r in Reasons(p, s) <==> Check(p, s, RuleOf(r)) == Some(r)
  {
    var rs := Reasons(p, s);
    ReasonsExplainFailures(p, s);
    CheckIffViolated(p, s, RuleOf(r));
    if Check(p, s, RuleOf(r)) == Some(r) {
      assert Reported(rs, RuleOf(r));
      var i :| 0 <= i < |rs| && RuleOf(rs[i]) == RuleOf(r);
      assert rs[i] == r;
    }
  }

  /** `r` occurs exactly once in `rs`. */
  predicate Once(rs: seq<Reason>, r: Reason) {
    exists i :: 0 <= i < |rs| && rs[i] == r && forall j :: 0 <= j < |rs| && rs[j] == r ==> j == i
  }

  /** In rule order no reason repeats. */
  lemma InRuleOrderDistinct(rs: seq<Reason>, r: Reason)
    requires InRuleOrder(rs) && r in rs
    ensures Once(rs, r)
  {
    var i :| 0 <= i < |rs| && rs[i] == r;
    assert forall j :: 0 <= j < |rs| && rs[j] == r ==> j == i;
  }

  /** A listed reason is listed once, and no rule reports twice. */
  lemma ListedOnce(p: Profile, s: Scheme, r: Reason)
    requires s.state.Some? && r in Reasons(p, s)
    ensures Once(Reasons(p, s), r)
    ensures forall i, j :: 0 <= i < j < |Reasons(p, s)| ==> RuleOf(Reasons(p, s)[i]) != RuleOf(Reasons(p, s)[j])
  {
    ReasonsExplainFailures(p, s);
    InRuleOrderDistinct(Reasons(p, s), r);
  }

  /** The reasons are empty exactly when every rule is satisfied. */
  lemma NoReasonsIffAllSatisfied(p: Profile, s: Scheme)
    requires s.state.Some?
    ensures |Reasons(p, s)| == 0 <==> forall rule :: Satisfies(p, s, rule)
  {
    ReasonsExplainFailures(p, s);
    var rs := Reasons(p, s);
    if |rs| > 0 {
      assert Reported(rs, RuleOf(rs[0]));
    }
  }

  /** A scheme whose state is "central" in any case admits every state. */
  lemma CentralAdmitsEveryState(p: Profile, s: Scheme)
    requires s.state.Some? && Lower(s.state.value) == "central"
    ensures forall r :: r in Reasons(p, s) ==> !r.OnlyForState?
  {
    forall r | r in Reasons(p, s) ensures !r.OnlyForState? {
      ReasonsAreCheckOutputs(p, s, r);
    }
  }

  /** A state mismatch, ignoring case, is reported first and names the
      scheme's state as written. */
  lemma StateMismatchReportedFirst(p: Profile, s: Scheme)
    requires s.state.Some?
    requires Lower(s.state.value) != "central" && Lower(s.state.value) != Lower(p.state)
    ensures |Reasons(p, s)| > 0 && Reasons(p, s)[0] == OnlyForState(s.state.value)
  {
    ReasonsAreCheckOutputs(p, s, OnlyForState(s.state.value));
    ReasonsExplainFailures(p, s);
    var rs := Reasons(p, s);
    var i :| 0 <= i < |rs| && rs[i] == OnlyForState(s.state.value);
  }

  /** Age bounds are inclusive and independent: each violated bound is
      reported with its own reason, and an age equal to a bound passes. */
  lemma AgeBoundsInclusive(p: Profile, s: Scheme, bound: int)
    requires s.state.Some?
    ensures AgeAtLeast(bound) in Reasons(p, s) <==> s.minAge == Some(bound) && p.age < bound
    ensures AgeAtMost(bound) in Reasons(p, s) <==> s.maxAge == Some(bound) && p.age > bound
  {
    ReasonsAreCheckOutputs(p, s, AgeAtLeast(bound));
    ReasonsAreCheckOutputs(p, s, AgeAtMost(bound));
  }

  /** A stated income is compared inclusively against each bound. */
  lemma IncomeBoundsInclusive(p: Profile, s: Scheme, bound: int)
    requires s.state.Some? && p.annualIncome.Some?
    ensures IncomeAtLeast(bound) in Reasons(p, s) <==>
      s.minIncome == Some(bound) && p.annualIncome.value < bound
    ensures IncomeAtMost(bound) in Reasons(p, s) <==>
      s.maxIncome == Some(bound) && p.annualIncome.value > bound
    ensures IncomeRequired(true) !in Reasons(p, s) && IncomeRequired(false) !in Reasons(p, s)
  {
    ReasonsAreCheckOutputs(p, s, IncomeAtLeast(bound));
    ReasonsAreCheckOutputs(p, s, IncomeAtMost(bound));
    ReasonsAreCheckOutputs(p, s, IncomeRequired(true));
    ReasonsAreCheckOutputs(p, s, IncomeRequired(false));
  }

  /** A missing income is reported once for each income bound the scheme
      sets: twice when it sets both. */
  lemma MissingIncomeReportedPerBound(p: Profile, s: Scheme)
    requires s.state.Some? && p.annualIncome.None?
    ensures IncomeRequired(true) in Reasons(p, s) <==> s.minIncome.Some?
    ensures IncomeRequired(false) in Reasons(p, s) <==> s.maxIncome.Some?
    ensures s.minIncome.Some? && s.maxIncome.Some? ==>
      Once(Reasons(p, s), IncomeRequired(true)) && Once(Reasons(p, s), IncomeRequired(false))
  {
    ReasonsAreCheckOutputs(p, s, IncomeRequired(true));
    ReasonsAreCheckOutputs(p, s, IncomeRequired(false));
    if s.minIncome.Some? && s.maxIncome.Some? {
      ListedOnce(p, s, IncomeRequired(true));
      ListedOnce(p, s, IncomeRequired(false));
    }
  }

  /** Occupation has no wildcard: a scheme occupation, even "any", fails a
      profile without one or with a different one. */
  lemma OccupationHasNoWildcard(p: Profile, s: Scheme)
    requires s.state.Some? && s.occupation.Some?
    ensures p.occupation.None? ==> OccupationRequired(s.occupation.value) in Reasons(p, s)
    ensures p.occupation.Some? ==>
      (OnlyForOccupation(s.occupation.value) in Reasons(p, s) <==>
       Lower(p.occupation.value) != Lower(s.occupation.value))
  {
    ReasonsAreCheckOutputs(p, s, OccupationRequired(s.occupation.value));
    ReasonsAreCheckOutputs(p, s, OnlyForOccupation(s.occupation.value));
  }

  /** An unset or "any" gender, caste or disability on the scheme never
      fails, whatever the profile holds, including nothing. */
  lemma WildcardsAlwaysPass(p: Profile, s: Scheme)
    requires s.state.Some?
    ensures Unconstrained(s.gender) ==> !Reported(Reasons(p, s), GenderRule)
    ensures Unconstrained(s.caste) ==> !Reported(Reasons(p, s), CasteRule)
    ensures Unconstrained(s.disability) ==> !Reported(Reasons(p, s), DisabilityRule)
  {
    ReasonsExplainFailures(p, s);
  }

  /** The disability reason tells a scheme that requires a disability from
      one that excludes it, by whether the scheme value is "yes". */
  lemma DisabilityReasonKind(p: Profile, s: Scheme)
    requires s.state.Some? && !Unconstrained(s.disability)
    ensures p.disability.None? ==> DisabilityRequired in Reasons(p, s)
    ensures p.disability.Some? && Lower(p.disability.value) != Lower(s.disability.value) ==>
      (if Lower(s.disability.value) == "yes" then OnlyForDisabled else NotForDisabled) in Reasons(p, s)
    ensures p.disability.Some? && Lower(p.disability.value) == Lower(s.disability.value) ==>
      !Reported(Reasons(p, s), DisabilityRule)
  {
    ReasonsAreCheckOutputs(p, s, DisabilityRequired);
    ReasonsAreCheckOutputs(p, s, OnlyForDisabled);
    ReasonsAreCheckOutputs(p, s, NotForDisabled);
    ReasonsExplainFailures(p, s);
  }

  /** The caste list: a profile caste fails exactly when, lower-cased but
      not trimmed, it is none of the scheme's accepted categories. */
  lemma CasteListMembership(p: Profile, s: Scheme)
    requires s.state.Some? && !Unconstrained(s.caste)
    ensures p.caste.None? ==> CasteRequired in Reasons(p, s)
    ensures p.caste.Some? ==>
      (OnlyForCaste(s.caste.value) in Reasons(p, s) <==>
       Lower(p.caste.value) !in AcceptedCastes(s.caste.value))
  {
    ReasonsAreCheckOutputs(p, s, CasteRequired);
    ReasonsAreCheckOutputs(p, s, OnlyForCaste(s.caste.value));
    CheckIffViolated(p, s, CasteRule);
  }

  lemma SplitCasteExample()
    ensures SplitOn("SC/ST/OBC", '/') == ["SC", "ST", "OBC"]
  {
    assert "SC/ST/OBC" == "SC" + ['/'] + ("ST" + ['/'] + "OBC");
    SplitOnNone("OBC", '/');
    SplitOnCons("ST", '/', "OBC");
    SplitOnCons("SC", '/', "ST" + ['/'] + "OBC");
  }

  lemma NormalizeSC() ensures Lower(Strip("SC")) == "sc" { StripUnspaced("SC"); }
  lemma NormalizeST() ensures Lower(Strip("ST")) == "st" { StripUnspaced("ST"); }
  lemma NormalizeOBC() ensures Lower(Strip("OBC")) == "obc" { StripUnspaced("OBC"); }

  lemma AllowedOfThree(caste: string, a: string, b: string, c: string)
    requires SplitOn(caste, '/') == [a, b, c]
    ensures AllowedCastes(caste) == [Lower(Strip(a)), Lower(Strip(b)), Lower(Strip(c))]
  {
  }

  lemma AllowedCastesExample()
    ensures AllowedCastes("SC/ST/OBC") == ["sc", "st", "obc"]
  {
    SplitCasteExample();
    AllowedOfThree("SC/ST/OBC", "SC", "ST", "OBC");
    NormalizeSC();
    NormalizeST();
    NormalizeOBC();
  }

  /** "SC/ST/OBC" accepts exactly the three categories, lower-cased. */
  lemma CasteListExample(x: string)
    ensures x in AcceptedCastes("SC/ST/OBC") <==> x == "sc" || x == "st" || x == "obc"
  {
    AllowedCastesExample();
    AllowedCastesAsSet("SC/ST/OBC", x);
  }

  /** A student scheme open to every state, for ages 18 to 25, incomes up to
      250000 and the SC/ST/OBC categories. */
  function StudentScheme(state: string): Scheme {
    Scheme(None, Some("Post-Matric Scholarship"), None, None, Some("Education"), Some(state),
           Some(18), Some(25), None, Some(250000), Some("student"), None, Some("SC/ST/OBC"),
           None, None, None, None, None, None)
  }

  /** When one rule alone fails, its reason is the only one. */
  lemma SingleFailure(p: Profile, s: Scheme, rule: Rule)
    requires s.state.Some? && !Satisfies(p, s, rule)
    requires forall other :: other != rule ==> Satisfies(p, s, other)
    ensures Reasons(p, s) == [Check(p, s, rule).value]
  {
    ReasonsExplainFailures(p, s);
    CheckIffViolated(p, s, rule);
    var rs := Reasons(p, s);
    assert Reported(rs, rule);
    forall i | 0 <= i < |rs| ensures RuleOf(rs[i]) == rule {
      assert Reported(rs, RuleOf(rs[i]));
    }
    OrderedPair(rs, 0, 1);
  }

  /** Two positions of a list in rule order hold rules of increasing rank. */
  lemma OrderedPair(rs: seq<Reason>, i: int, j: int)
    ensures InRuleOrder(rs) && 0 <= i < j < |rs| ==> Rank(RuleOf(rs[i])) < Rank(RuleOf(rs[j]))
  {
  }

  /** A Karnataka student aged 20 with an income of 100000. */
  function Student(caste: string): Profile {
    Profile("Asha", "Karnataka", 20, None, Some("Student"), Some(100000), Some(caste), None)
  }

  lemma LowerCentral() ensures Lower("Central") == "central" { LowerCapitalized('C', "entral"); }
  lemma LowerKarnataka() ensures Lower("Karnataka") == "karnataka" { LowerCapitalized('K', "arnataka"); }
  lemma LowerStudent() ensures Lower("Student") == "student" { LowerCapitalized('S', "tudent"); }
  lemma LowerStudentLower() ensures Lower("student") == "student" { LowerOfLowercase("student"); }
  lemma LowerCasteST() ensures Lower("ST") == "st" { }
  lemma LowerCasteSpacedST() ensures Lower(" ST") == " st" { }

  /** Whatever the scheme's state, the student meets its age, income,
      occupation, gender and disability rules. */
  lemma StudentMeetsNonStateRules(caste: string, state: string)
    ensures forall rule :: rule != StateRule && rule != CasteRule ==>
      Satisfies(Student(caste), StudentScheme(state), rule)
  {
    LowerStudent();
    LowerStudentLower();
  }

  /** The student qualifies for the central scheme. */
  lemma CentralSchemeAdmitsStudent()
    ensures Reasons(Student("ST"), StudentScheme("Central")) == []
  {
    var p, s := Student("ST"), StudentScheme("Central");
    StudentMeetsNonStateRules("ST", "Central");
    LowerCentral();
    assert Satisfies(p, s, StateRule);
    LowerCasteST();
    CasteListExample("st");
    assert Satisfies(p, s, CasteRule);
    NoReasonsIffAllSatisfied(p, s);
  }

  /** A scheme of any other state fails the same student on the state
      rule only. */
  lemma OtherStateRejectsStudent(state: string)
    requires Lower(state) != "central" && Lower(state) != "karnataka"
    ensures Reasons(Student("ST"), StudentScheme(state)) == [OnlyForState(state)]
  {
    var p, s := Student("ST"), StudentScheme(state);
    StudentMeetsNonStateRules("ST", state);
    LowerKarnataka();
    assert !Satisfies(p, s, StateRule);
    LowerCasteST();
    CasteListExample("st");
    assert Satisfies(p, s, CasteRule);
    SingleFailure(p, s, StateRule);
  }

  /** The profile's caste is lower-cased but not trimmed, so " ST" fails
      the caste rule that "ST" passes. */
  lemma UntrimmedCasteRejected()
    ensures Reasons(Student(" ST"), StudentScheme("Central")) == [OnlyForCaste("SC/ST/OBC")]
  {
    LowerCasteSpacedST();
    CasteListExample(" st");
    CentralRejectsCaste(" ST");
  }

  /** The central scheme fails a student of an unlisted caste on the caste
      rule only. */
  lemma CentralRejectsCaste(caste: string)
    requires Lower(caste) !in AcceptedCastes("SC/ST/OBC")
    ensures Reasons(Student(caste), StudentScheme("Central")) == [OnlyForCaste("SC/ST/OBC")]
  {
    var p, s := Student(caste), StudentScheme("Central");
    StudentMeetsNonStateRules(caste, "Central");
    LowerCentral();
    assert Satisfies(p, s, StateRule);
    assert |Lower("SC/ST/OBC")| != |"any"|;
    assert !Satisfies(p, s, CasteRule);
    SingleFailure(p, s, CasteRule);
    CasteListMembership(p, s);
  }
}
