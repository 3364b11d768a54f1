/** The maintenance pass that removes duplicate schemes: rows are read in
    id order, grouped by exact name, and every row of a group except the
    first is deleted. */
module Cleanup {
  import opened Options
  import opened Models

  /** Every row has an id, and ids strictly increase along the sequence
      (the rows as read, ordered by their primary key). */
  predicate IdsAscending(rows: seq<Scheme>) {
    (forall i :: 0 <= i < |rows| ==> rows[i].id.Some?) &&
    forall i, j :: 0 <= i < j < |rows| ==> rows[i].id.GetOr(0) < rows[j].id.GetOr(0)
  }

  /** No earlier row has the same name as row `i`. */
  predicate FirstOfName(rows: seq<Scheme>, i: int)
    requires 0 <= i < |rows|
  {
    forall j :: 0 <= j < i ==> rows[j].name != rows[i].name
  }

  /** The names that occur, compared exactly (case matters). */
  function Names(rows: seq<Scheme>): set<Option<string>> {
    set i | 0 <= i < |rows| :: rows[i].name
  }

  /** The rows that survive: the first of each name, in order. */
  function Survivors(rows: seq<Scheme>): (kept: seq<Scheme>)
    ensures |kept| <= |rows|
  {
    if |rows| == 0 then []
    else
      var init := rows[..|rows| - 1];
      Survivors(init) + (if FirstOfName(rows, |rows| - 1) then [rows[|rows| - 1]] else [])
  }

  /** The rows deleted: every later row of a name, in order. */
  function Duplicates(rows: seq<Scheme>): (gone: seq<Scheme>)
    ensures |gone| <= |rows|
  {
    if |rows| == 0 then []
    else
      var init := rows[..|rows| - 1];
      Duplicates(init) + (if FirstOfName(rows, |rows| - 1) then [] else [rows[|rows| - 1]])
  }

  /** The pass itself: one sweep over the rows, remembering the names seen
      so far.  Returns the surviving rows, the deleted rows and how many
      were deleted. */
  method CleanupDuplicates(rows: seq<Scheme>) returns (kept: seq<Scheme>, deleted: seq<Scheme>, removed: nat)
    ensures kept == Survivors(rows) && deleted == Duplicates(rows)
    ensures removed == |deleted| == |rows| - |Names(rows)|
  {
    var seen: set<Option<string>> := {};
    kept, deleted, removed := [], [], 0;
    for i := 0 to |rows|
      invariant seen == Names(rows[..i])
      invariant kept == Survivors(rows[..i]) && deleted == Duplicates(rows[..i])
      invariant removed == |deleted|
    {
      assert rows[..i + 1][..i] == rows[..i];
      FirstOfNameIff(rows[..i + 1], i);
      NamesSnoc(rows[..i + 1]);
      if rows[i].name in seen {
        deleted := deleted + [rows[i]];
        removed := removed + 1;
      } else {
        kept := kept + [rows[i]];
      }
      seen := seen + {rows[i].name};
    }
    assert rows[..|rows|] == rows;
    SurvivorCount(rows);
  }

  // ---------------------------------------------------------------- proofs

  /** A row is the first of its name exactly when its name has not occurred
      before it. */
  lemma FirstOfNameIff(rows: seq<Scheme>, i: int)
    requires 0 <= i < |rows|
    ensures FirstOfName(rows, i) <==> rows[i].name !in Names(rows[..i])
  {
    if !FirstOfName(rows, i) {
      var j :| 0 <= j < i && rows[j].name == rows[i].name;
      assert rows[..i][j] == rows[j];
    }
  }

  lemma NamesSnoc(rows: seq<Scheme>)
    requires |rows| > 0
    ensures Names(rows) == Names(rows[..|rows| - 1]) + {rows[|rows| - 1].name}
  {
    var init := rows[..|rows| - 1];
    forall n | n in Names(rows) ensures n in Names(init) + {rows[|rows| - 1].name} {
      var i :| 0 <= i < |rows| && rows[i].name == n;
      if i < |rows| - 1 {
        assert init[i] == rows[i];
      }
    }
    forall n | n in Names(init) ensures n in Names(rows) {
      var i :| 0 <= i < |init| && init[i].name == n;
      assert rows[i] == init[i];
    }
  }

  /** Survivors and duplicates together account for every row, and there
      is one survivor per name. */
  lemma {:induction false} SurvivorCount(rows: seq<Scheme>)
    ensures |Survivors(rows)| == |Names(rows)|
    ensures |Survivors(rows)| + |Duplicates(rows)| == |rows|
    decreases |rows|
  {
    if |rows| > 0 {
      var init := rows[..|rows| - 1];
      SurvivorCount(init);
      NamesSnoc(rows);
      FirstOfNameIff(rows, |rows| - 1);
      var last := rows[|rows| - 1];
      if FirstOfName(rows, |rows| - 1) {
        assert |Names(init) + {last.name}| == |Names(init)| + 1;
      } else {
        assert Names(init) + {last.name} == Names(init);
      }
    } else {
      assert Names(rows) == {};
    }
  }

  /** A survivor is a row of the input that is the first of its name. */
  lemma {:induction false} SurvivorsAreFirsts(rows: seq<Scheme>)
    ensures forall k :: k in Survivors(rows) <==> exists i :: 0 <= i < |rows| && FirstOfName(rows, i) && rows[i] == k
    decreases |rows|
  {
    if |rows| > 0 {
      var init := rows[..|rows| - 1];
      SurvivorsAreFirsts(init);
      forall i | 0 <= i < |init| ensures FirstOfName(init, i) <==> FirstOfName(rows, i) {
        assert forall j :: 0 <= j < i ==> init[j] == rows[j];
      }
    }
  }

  /** A deleted row is a row of the input that is not the first of its
      name. */
  lemma {:induction false} DuplicatesAreLaters(rows: seq<Scheme>)
    ensures forall k :: k in Duplicates(rows) <==> exists i :: 0 <= i < |rows| && !FirstOfName(rows, i) && rows[i] == k
    decreases |rows|
  {
    if |rows| > 0 {
      var init := rows[..|rows| - 1];
      DuplicatesAreLaters(init);
      forall i | 0 <= i < |init| ensures FirstOfName(init, i) <==> FirstOfName(rows, i) {
        assert forall j :: 0 <= j < i ==> init[j] == rows[j];
      }
    }
  }

  /** With rows in id order, a row is deleted exactly when an earlier row
      has its name. */
  lemma DeletedIffNotFirst(rows: seq<Scheme>, i: nat)
    requires IdsAscending(rows) && i < |rows|
    ensures rows[i] in Duplicates(rows) <==> !FirstOfName(rows, i)
    ensures rows[i] in Survivors(rows) <==> FirstOfName(rows, i)
  {
    DuplicatesAreLaters(rows);
    SurvivorsAreFirsts(rows);
    assert forall j :: 0 <= j < |rows| && rows[j] == rows[i] ==> j == i;
  }

  /** No two rows share a name. */
  predicate DistinctNames(rows: seq<Scheme>) {
    forall i, j :: 0 <= i < j < |rows| ==> rows[i].name != rows[j].name
  }

  /** The survivors have pairwise distinct names. */
  lemma {:induction false} SurvivorNamesDistinct(rows: seq<Scheme>)
    ensures DistinctNames(Survivors(rows))
    decreases |rows|
  {
    if |rows| > 0 {
      var init := rows[..|rows| - 1];
      SurvivorNamesDistinct(init);
      SurvivorNamesOccur(init);
      FirstOfNameIff(rows, |rows| - 1);
      var k := Survivors(init);
      var last := rows[|rows| - 1];
      if FirstOfName(rows, |rows| - 1) {
        assert Survivors(rows) == k + [last];
        assert last.name !in Names(init);
        forall i, j | 0 <= i < j < |k + [last]| ensures (k + [last])[i].name != (k + [last])[j].name {
          assert (k + [last])[i] == k[i] && k[i] in k;
          if j < |k| {
            assert (k + [last])[j] == k[j];
          } else {
            assert (k + [last])[j] == last;
            assert k[i].name in Names(init);
          }
        }
      } else {
        assert Survivors(rows) == k + [];
        assert k + [] == k;
      }
    }
  }

  /** Survivors' names are names of the input. */
  lemma {:induction false} SurvivorNamesOccur(rows: seq<Scheme>)
    ensures forall k :: k in Survivors(rows) ==> k.name in Names(rows)
    decreases |rows|
  {
    if |rows| > 0 {
      SurvivorNamesOccur(rows[..|rows| - 1]);
      NamesSnoc(rows);
    }
  }

  /** Every name of the input keeps a row. */
  lemma {:induction false} EveryNameSurvives(rows: seq<Scheme>)
    ensures forall n :: n in Names(rows) ==> exists k :: k in Survivors(rows) && k.name == n
    decreases |rows|
  {
    if |rows| > 0 {
      var init := rows[..|rows| - 1];
      EveryNameSurvives(init);
      NamesSnoc(rows);
      FirstOfNameIff(rows, |rows| - 1);
    }
  }

  /** The row kept for a name has the smallest id of all rows with that
      name. */
  lemma KeptHasSmallestId(rows: seq<Scheme>, k: Scheme, j: nat)
    requires IdsAscending(rows)
    requires k in Survivors(rows) && j < |rows| && rows[j].name == k.name
    ensures k.id.Some? && k.id.value <= rows[j].id.value
  {
    SurvivorsAreFirsts(rows);
    var i :| 0 <= i < |rows| && FirstOfName(rows, i) && rows[i] == k;
  }

  /** A row whose name occurs only once is never deleted. */
  lemma UniqueNameKept(rows: seq<Scheme>, i: nat)
    requires i < |rows| && forall j :: 0 <= j < |rows| && j != i ==> rows[j].name != rows[i].name
    ensures rows[i] in Survivors(rows) && rows[i] !in Duplicates(rows)
  {
    SurvivorsAreFirsts(rows);
    DuplicatesAreLaters(rows);
  }

  /** Names differing only in case are different names: both rows stay. */
  lemma CaseSensitive(a: Scheme, b: Scheme)
    requires a.name == Some("PM Kisan") && b.name == Some("pm kisan")
    ensures Survivors([a, b]) == [a, b]
  {
    assert [a, b][..1] == [a];
    assert "PM Kisan"[0] != "pm kisan"[0];
  }

  /** Cleaning twice deletes nothing the second time. */
  lemma CleanupIdempotent(rows: seq<Scheme>)
    ensures Survivors(Survivors(rows)) == Survivors(rows)
    ensures Duplicates(Survivors(rows)) == []
  {
    var kept := Survivors(rows);
    SurvivorNamesDistinct(rows);
    DistinctSurvive(kept);
  }

  /** Rows with pairwise distinct names all survive. */
  lemma {:induction false} DistinctSurvive(rows: seq<Scheme>)
    requires DistinctNames(rows)
    ensures Survivors(rows) == rows && Duplicates(rows) == []
    decreases |rows|
  {
    if |rows| > 0 {
      var init := rows[..|rows| - 1];
      DistinctSurvive(init);
      assert FirstOfName(rows, |rows| - 1);
      assert init + [rows[|rows| - 1]] == rows;
    }
  }
}
