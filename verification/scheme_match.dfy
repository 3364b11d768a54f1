/** The assistant's fuzzy lookup of the scheme a question is about.  A
    scheme whose whole name occurs in the question wins outright; otherwise
    every scheme is scored by the question's significant words and the
    best-scoring one is returned if it scores at least 3. */
module SchemeMatch {
  import opened Options
  import opened Text
  import opened Models

  /** Words that never count towards a match. */
  const StopWords: set<string> := {"the", "a", "an", "for", "of", "in", "to", "and", "or", "is", "are"}

  /** The lowest score that is reported as a match. */
  const Threshold: nat := 3

  /** A word that counts: not a stop word and longer than two characters. */
  predicate Significant(w: string) {
    w !in StopWords && |w| > 2
  }

  /** The significant words of `ws`, in order, each occurrence kept. */
  function Significants(ws: seq<string>): (ks: seq<string>)
    ensures forall k :: k in ks <==> k in ws && Significant(k)
    ensures forall k :: multiset(ks)[k] == if Significant(k) then multiset(ws)[k] else 0
    ensures |ks| <= |ws|
  {
    assert |ws| > 0 ==> ws == [ws[0]] + ws[1..];
    if |ws| == 0 then []
    else if Significant(ws[0]) then [ws[0]] + Significants(ws[1..])
    else Significants(ws[1..])
  }

  /** Filtering distributes over concatenation, so the kept words stay in
      their input order. */
  lemma {:induction false} SignificantsAppend(a: seq<string>, b: seq<string>)
    ensures Significants(a + b) == Significants(a) + Significants(b)
    decreases |a|
  {
    if |a| == 0 {
      assert a + b == b;
    } else {
      assert (a + b)[0] == a[0] && (a + b)[1..] == a[1..] + b;
      SignificantsAppend(a[1..], b);
    }
  }

  /** The question as matched: lower-cased and stripped. */
  function Query(question: string): string {
    Strip(Lower(question))
  }

  /** A text column of the scheme, lower-cased, with a missing value read
      as the empty string. */
  function Folded(t: Option<string>): string {
    Lower(t.GetOr(""))
  }

  /** The scheme's whole (non-empty) name occurs in the question. */
  predicate Direct(q: string, s: Scheme) {
    var name := Folded(s.name);
    |name| > 0 && Contains(q, name)
  }

  /** The points one question word earns: 3 if it occurs in the name, else
      2 if in the category, else 1 if in the short description. */
  function WordScore(w: string, s: Scheme): (n: nat)
    ensures n <= 3
    ensures n == 3 <==> Contains(Folded(s.name), w)
    ensures n == 2 <==> !Contains(Folded(s.name), w) && Contains(Folded(s.category), w)
    ensures n == 1 <==>
      !Contains(Folded(s.name), w) && !Contains(Folded(s.category), w) && Contains(Folded(s.shortDescription), w)
    ensures n == 0 <==>
      !Contains(Folded(s.name), w) && !Contains(Folded(s.category), w) && !Contains(Folded(s.shortDescription), w)
  {
    if Contains(Folded(s.name), w) then 3
    else if Contains(Folded(s.category), w) then 2
    else if Contains(Folded(s.shortDescription), w) then 1
    else 0
  }

  /** The points all the question words earn together. */
  function WordsScore(ws: seq<string>, s: Scheme): (n: nat)
    ensures n <= 3 * |ws|
  {
    if |ws| == 0 then 0 else WordScore(ws[0], s) + WordsScore(ws[1..], s)
  }

  /** How many of `ws` occur in `q` (each occurrence in `ws` counts). */
  function Occurring(ws: seq<string>, q: string): (n: nat)
    ensures n <= |ws|
  {
    if |ws| == 0 then 0 else (if Contains(q, ws[0]) then 1 else 0) + Occurring(ws[1..], q)
  }

  /** Five extra points when at least two significant words of the name
      occur in the question. */
  function Bonus(q: string, s: Scheme): (n: nat)
    ensures n == 0 || n == 5
  {
    if Occurring(Significants(Words(Folded(s.name))), q) >= 2 then 5 else 0
  }

  /** A scheme's score for the (lower-cased, stripped) question `q`. */
  function Score(q: string, s: Scheme): nat {
    WordsScore(Significants(Words(q)), s) + Bonus(q, s)
  }

  /** `i` is the first scheme matched by name. */
  predicate FirstDirect(q: string, schemes: seq<Scheme>, i: int) {
    0 <= i < |schemes| && Direct(q, schemes[i]) &&
    forall j :: 0 <= j < i ==> !Direct(q, schemes[j])
  }

  /** `k` scores highest, and no earlier scheme scores as much. */
  predicate EarliestBest(q: string, schemes: seq<Scheme>, k: int) {
    0 <= k < |schemes| &&
    (forall j :: 0 <= j < |schemes| ==> Score(q, schemes[j]) <= Score(q, schemes[k])) &&
    (forall j :: 0 <= j < k ==> Score(q, schemes[j]) < Score(q, schemes[k]))
  }

  /** The lookup: the first scheme named in the question; failing that the
      earliest best-scoring scheme, when it scores at least 3; else none. */
  method FindSchemeByName(question: string, schemes: seq<Scheme>) returns (r: Option<Scheme>)
    ensures r.Some? ==> r.value in schemes
    ensures forall i :: FirstDirect(Query(question), schemes, i) ==> r == Some(schemes[i])
    ensures (forall i :: 0 <= i < |schemes| ==> !Direct(Query(question), schemes[i])) ==>
      && (r.Some? <==> exists i :: 0 <= i < |schemes| && Score(Query(question), schemes[i]) >= Threshold)
      && (r.Some? ==> exists k :: EarliestBest(Query(question), schemes, k) && r.value == schemes[k])
  {
    var q := Query(question);
    var bestScore: nat := 0;
    var best: Option<Scheme> := None;
    ghost var bestAt := 0;
    for i := 0 to |schemes|
      invariant NoneDirect(q, schemes, i)
      invariant ScoresAtMost(q, schemes, i, bestScore)
      invariant best.None? ==> bestScore == 0
      invariant best.Some? ==> bestAt < i && best.value == schemes[bestAt] && Leads(q, schemes, bestAt, bestScore)
    {
      var s := schemes[i];
      if Direct(q, s) {
        FirstDirectFound(q, schemes, i);
        return Some(s);
      }
      var score := Score(q, s);
      if score > bestScore {
        ScoresExtend(q, schemes, i, bestScore, score);
        bestScore := score;
        best := Some(s);
        bestAt := i;
      } else {
        ScoresExtend(q, schemes, i, bestScore, bestScore);
      }
    }
    r := if bestScore >= Threshold then best else None;
    if r.Some? {
      assert EarliestBest(q, schemes, bestAt);
    }
  }

  /** No scheme before `n` is matched by name. */
  predicate NoneDirect(q: string, schemes: seq<Scheme>, n: int) {
    forall j :: 0 <= j < n && j < |schemes| ==> !Direct(q, schemes[j])
  }

  /** No scheme before `n` scores more than `b`. */
  predicate ScoresAtMost(q: string, schemes: seq<Scheme>, n: int, b: nat) {
    forall j :: 0 <= j < n && j < |schemes| ==> Score(q, schemes[j]) <= b
  }

  /** Scheme `k` scores `b`, and every earlier one scores less. */
  predicate Leads(q: string, schemes: seq<Scheme>, k: int, b: nat) {
    0 <= k < |schemes| && Score(q, schemes[k]) == b &&
    forall j :: 0 <= j < k ==> Score(q, schemes[j]) < b
  }

  lemma ScoresExtend(q: string, schemes: seq<Scheme>, i: int, b: nat, b': nat)
    requires 0 <= i < |schemes| && ScoresAtMost(q, schemes, i, b)
    requires b <= b' && Score(q, schemes[i]) <= b'
    ensures ScoresAtMost(q, schemes, i + 1, b')
  {
  }

  lemma FirstDirectFound(q: string, schemes: seq<Scheme>, i: int)
    requires 0 <= i < |schemes| && NoneDirect(q, schemes, i) && Direct(q, schemes[i])
    ensures forall k :: FirstDirect(q, schemes, k) ==> k == i
  {
  }

  // ---------------------------------------------------------------- proofs

  /** Each word contributes at least its own points to the total. */
  lemma {:induction false} WordsScoreAtLeast(ws: seq<string>, s: Scheme, i: nat)
    requires i < |ws|
    ensures WordsScore(ws, s) >= WordScore(ws[i], s)
    decreases |ws|
  {
    if i > 0 {
      WordsScoreAtLeast(ws[1..], s, i - 1);
    }
  }

  /** A significant question word that occurs in a scheme's name is enough
      to reach the threshold on its own. */
  lemma SharedNameWordReachesThreshold(q: string, s: Scheme, w: string)
    requires w in Words(q) && Significant(w) && Contains(Folded(s.name), w)
    ensures Score(q, s) >= Threshold
  {
    var ks := Significants(Words(q));
    assert w in ks;
    var i :| 0 <= i < |ks| && ks[i] == w;
    WordsScoreAtLeast(ks, s, i);
  }

  lemma {:induction false} OccurringAtLeastTwo(ws: seq<string>, q: string, i: nat, j: nat)
    requires i < j < |ws| && Contains(q, ws[i]) && Contains(q, ws[j])
    ensures Occurring(ws, q) >= 2
    decreases |ws|
  {
    if i > 0 {
      OccurringAtLeastTwo(ws[1..], q, i - 1, j - 1);
    } else {
      OccurringAtLeastOne(ws[1..], q, j - 1);
    }
  }

  /** Two distinct significant name words found in the question earn the
      bonus, which passes the threshold whatever the other words score. */
  lemma NameWordsEarnBonus(q: string, s: Scheme, i: nat, j: nat)
    requires var ws := Significants(Words(Folded(s.name)));
      i < j < |ws| && Contains(q, ws[i]) && Contains(q, ws[j])
    ensures Bonus(q, s) == 5 && Score(q, s) >= Threshold
  {
    OccurringAtLeastTwo(Significants(Words(Folded(s.name))), q, i, j);
  }

  lemma {:induction false} OccurringAtLeastOne(ws: seq<string>, q: string, i: nat)
    requires i < |ws| && Contains(q, ws[i])
    ensures Occurring(ws, q) >= 1
    decreases |ws|
  {
    if i > 0 {
      OccurringAtLeastOne(ws[1..], q, i - 1);
    }
  }

  /** A question with no significant word scores only the bonus. */
  lemma NoKeywordsOnlyBonus(q: string, s: Scheme)
    requires forall w :: w in Words(q) ==> !Significant(w)
    ensures Score(q, s) == Bonus(q, s)
  {
    MemberlessIsEmpty(Significants(Words(q)));
  }

  lemma MemberlessIsEmpty(ks: seq<string>)
    ensures (forall k :: k !in ks) ==> ks == []
  {
    if ks != [] {
      assert ks[0] in ks;
    }
  }
}
