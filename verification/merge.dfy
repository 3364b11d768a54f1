/** The ingestion merge engine: a batch of normalized records from one
    external source is folded into the scheme catalog.  A record whose
    `source_scheme_id` is falsy is skipped; one whose (source, id) pair is
    already catalogued updates the stored scheme partially; any other
    inserts a new scheme.  The catalog is keyed by (source, external id),
    and the lookup of each record sees the schemes earlier records of the
    same batch inserted. */
module Merge {
  import opened Options
  import opened Models

  /** (source, external id). */
  type CatalogKey = (string, string)

  type Catalog = map<CatalogKey, Scheme>

  /** What the batch did: the resulting catalog and the two counters. */
  datatype Summary = Summary(catalog: Catalog, inserted: nat, updated: nat)

  /** The only way a batch fails: the record at `index` would insert a
      scheme but has no "name" key, so the lookup `item["name"]` raises and
      nothing of the batch is committed. */
  datatype MergeError = MissingName(index: nat)

  datatype Outcome = Skipped | Inserted | Updated

  // ------------------------------------------------------- reading records

  /** `item.get("source_scheme_id")` when it is truthy: non-empty text.  A
      missing key, `None` and "" are falsy; a number is not an identifier
      in the normalized format and is treated as missing. */
  function SidOf(item: Record): Option<string> {
    if SourceIdKey in item && item[SourceIdKey].Some? && item[SourceIdKey].value.Str?
       && item[SourceIdKey].value.text != ""
    then Some(item[SourceIdKey].value.text)
    else None
  }

  /** `item.get(key, current)` for a text column. */
  function PickText(item: Record, key: string, current: Option<string>): Option<string> {
    if key in item then TextOf(item[key]) else current
  }

  /** `item.get(key, current)` for an integer column. */
  function PickNumber(item: Record, key: string, current: Option<int>): Option<int> {
    if key in item then NumberOf(item[key]) else current
  }

  /** The columns an update may overwrite: all but gender, caste and
      disability. */
  predicate Mutable(c: Column) {
    !(c.Gender? || c.Caste? || c.Disability?)
  }

  // ------------------------------------------------------- the two writes

  /** The update path without the clock: every mutable column whose key the
      record carries takes the record's value, even `None`. */
  function Refresh(s: Scheme, item: Record): Scheme {
    s.(name := PickText(item, "name", s.name),
       state := PickText(item, "state", s.state),
       category := PickText(item, "category", s.category),
       shortDescription := PickText(item, "short_description", s.shortDescription),
       fullDescription := PickText(item, "full_description", s.fullDescription),
       minAge := PickNumber(item, "min_age", s.minAge),
       maxAge := PickNumber(item, "max_age", s.maxAge),
       minIncome := PickNumber(item, "min_income", s.minIncome),
       maxIncome := PickNumber(item, "max_income", s.maxIncome),
       occupation := PickText(item, "occupation", s.occupation),
       officialLink := PickText(item, "official_link", s.officialLink),
       applicationProcess := PickText(item, "application_process", s.applicationProcess))
  }

  /** Updating a catalogued scheme from a record at time `now`. */
  function Update(s: Scheme, item: Record, now: int): (u: Scheme)
    ensures u.id == s.id && u.source == s.source && u.sourceSchemeId == s.sourceSchemeId
    ensures u.gender == s.gender && u.caste == s.caste && u.disability == s.disability
    ensures u.lastSyncedAt == Some(now)
  {
    Refresh(s, item).(lastSyncedAt := Some(now))
  }

  /** The scheme a record inserts.  The name is read with `item["name"]`,
      so the record must carry the key; every other column is read with
      `item.get`, and gender, caste and disability stay unset. */
  function Insert(item: Record, source: string, sid: string, now: int): (s: Scheme)
    requires "name" in item
    ensures s.id.None? && s.source == Some(source) && s.sourceSchemeId == Some(sid)
    ensures s.gender.None? && s.caste.None? && s.disability.None?
    ensures s.lastSyncedAt == Some(now)
  {
    Scheme(
      id := None,
      name := TextOf(item["name"]),
      shortDescription := TextOf(Lookup(item, "short_description")),
      fullDescription := TextOf(Lookup(item, "full_description")),
      category := TextOf(Lookup(item, "category")),
      state := TextOf(Lookup(item, "state")),
      minAge := NumberOf(Lookup(item, "min_age")),
      maxAge := NumberOf(Lookup(item, "max_age")),
      minIncome := NumberOf(Lookup(item, "min_income")),
      maxIncome := NumberOf(Lookup(item, "max_income")),
      occupation := TextOf(Lookup(item, "occupation")),
      gender := None,
      caste := None,
      disability := None,
      officialLink := TextOf(Lookup(item, "official_link")),
      applicationProcess := TextOf(Lookup(item, "application_process")),
      source := Some(source),
      sourceSchemeId := Some(sid),
      lastSyncedAt := Some(now))
  }

  // ------------------------------------------------------------ the fold

  /** One record of the batch; `None` when it would insert without a name. */
  function Step(cat: Catalog, item: Record, source: string, now: int): Option<(Catalog, Outcome)> {
    match SidOf(item)
    case None => Some((cat, Skipped))
    case Some(sid) =>
      if (source, sid) in cat then
        Some((cat[(source, sid) := Update(cat[(source, sid)], item, now)], Updated))
      else if "name" in item then
        Some((cat[(source, sid) := Insert(item, source, sid, now)], Inserted))
      else None
  }

  /** The batch as a left fold over its records, stopping at the first
      failure. */
  function MergeAll(cat: Catalog, items: seq<Record>, source: string, now: int): Result<Summary, MergeError>
    decreases |items|
  {
    if |items| == 0 then Success(Summary(cat, 0, 0))
    else
      match MergeAll(cat, items[..|items| - 1], source, now)
      case Failure(e) => Failure(e)
      case Success(acc) =>
        match Step(acc.catalog, items[|items| - 1], source, now)
        case None => Failure(MissingName(|items| - 1))
        case Some((next, outcome)) =>
          Success(Summary(next,
                          acc.inserted + (if outcome == Inserted then 1 else 0),
                          acc.updated + (if outcome == Updated then 1 else 0)))
  }

  // ---------------------------------------------- reference descriptions

  /** The number of records with a truthy identifier. */
  function Truthy(items: seq<Record>): nat
    decreases |items|
  {
    if |items| == 0 then 0
    else Truthy(items[..|items| - 1]) + (if SidOf(items[|items| - 1]).Some? then 1 else 0)
  }

  /** The truthy identifiers of a batch. */
  function Sids(items: seq<Record>): set<string>
    decreases |items|
  {
    if |items| == 0 then {}
    else
      var last := items[|items| - 1];
      Sids(items[..|items| - 1]) + (if SidOf(last).Some? then {SidOf(last).value} else {})
  }

  /** The identifiers of a batch that the catalog does not hold yet. */
  function NewSids(cat: Catalog, items: seq<Record>, source: string): set<string> {
    set sid | sid in Sids(items) && (source, sid) !in cat
  }

  /** Everything the batch says about one identifier, later records
      overriding earlier ones key by key. */
  function Overlay(items: seq<Record>, sid: string): Record
    decreases |items|
  {
    if |items| == 0 then map[]
    else
      var last := items[|items| - 1];
      Overlay(items[..|items| - 1], sid) + (if SidOf(last) == Some(sid) then last else map[])
  }

  /** The scheme a batch starts from for one identifier: the catalogued one,
      or a blank one with just the provenance. */
  function Base(cat: Catalog, source: string, sid: string): Scheme {
    if (source, sid) in cat then cat[(source, sid)] else Blank(source, sid)
  }

  /** A record that inserts without a name at position `i`: its identifier
      is truthy, neither the catalog nor an earlier record has it. */
  predicate InsertsWithoutName(cat: Catalog, items: seq<Record>, source: string, i: int)
    requires 0 <= i < |items|
  {
    && SidOf(items[i]).Some?
    && (source, SidOf(items[i]).value) !in cat
    && SidOf(items[i]).value !in Sids(items[..i])
    && "name" !in items[i]
  }

  /** Every entry is stored under its own (source, id). */
  predicate WellKeyed(cat: Catalog) {
    forall k :: k in cat ==> cat[k].source == Some(k.0) && cat[k].sourceSchemeId == Some(k.1)
  }

  // ------------------------------------------------------------ the method

  /** The entry point: one pass over the records with the two counters.
      The result is the fold above; on success the counters add up to the
      truthy records, the inserted count is the number of identifiers new
      to the catalog, and every catalogued scheme of another key is kept
      as it was. */
  method UpsertSchemesFromSource(cat: Catalog, items: seq<Record>, source: string, now: int)
    returns (r: Result<Summary, MergeError>)
    ensures r == MergeAll(cat, items, source, now)
    ensures r.Success? ==> r.value.inserted + r.value.updated == Truthy(items)
    ensures r.Success? ==> r.value.inserted == |NewSids(cat, items, source)|
    ensures r.Success? ==> forall k :: k in cat ==> k in r.value.catalog
    ensures r.Success? ==> forall k :: k in cat && (k.0 != source || k.1 !in Sids(items)) ==>
      r.value.catalog[k] == cat[k]
    ensures r.Failure? ==>
      r.error.index < |items| && InsertsWithoutName(cat, items, source, r.error.index)
    ensures forall i :: 0 <= i < |items| && InsertsWithoutName(cat, items, source, i) ==>
      r.Failure? && r.error.index <= i
  {
    var current := cat;
    var inserted, updated := 0, 0;
    for i := 0 to |items|
      invariant MergeAll(cat, items[..i], source, now) == Success(Summary(current, inserted, updated))
    {
      assert items[..i + 1][..i] == items[..i];
      var item := items[i];
      var sid := SidOf(item);
      if sid.None? {
        continue;
      }
      var key := (source, sid.value);
      if key in current {
        current := current[key := Update(current[key], item, now)];
        updated := updated + 1;
      } else {
        if "name" !in item {
          r := Failure(MissingName(i));
          MergeStopsAtFailure(cat, items, source, now, i);
          MergeAllFailure(cat, items, source, now);
          NamelessInsertsFail(cat, items, source, now);
          return;
        }
        current := current[key := Insert(item, source, sid.value, now)];
        inserted := inserted + 1;
      }
    }
    assert items[..|items|] == items;
    r := Success(Summary(current, inserted, updated));
    MergeAllCharacterized(cat, items, source, now);
    NamelessInsertsFail(cat, items, source, now);
  }

  /** Every record that would insert without a name bounds the failure. */
  lemma NamelessInsertsFail(cat: Catalog, items: seq<Record>, source: string, now: int)
    ensures forall i :: 0 <= i < |items| && InsertsWithoutName(cat, items, source, i) ==>
      MergeAll(cat, items, source, now).Failure? && MergeAll(cat, items, source, now).error.index <= i
  {
    forall i | 0 <= i < |items| && InsertsWithoutName(cat, items, source, i)
      ensures MergeAll(cat, items, source, now).Failure? && MergeAll(cat, items, source, now).error.index <= i
    {
      NamelessInsertFails(cat, items, source, now, i);
    }
  }

  // ---------------------------------------------------------------- proofs

  /** Once a prefix fails, the whole batch fails the same way. */
  lemma {:induction false} MergeStopsAtFailure(cat: Catalog, items: seq<Record>, source: string, now: int, i: nat)
    requires i < |items|
    requires MergeAll(cat, items[..i + 1], source, now).Failure?
    ensures MergeAll(cat, items, source, now) == MergeAll(cat, items[..i + 1], source, now)
    decreases |items|
  {
    if |items| > i + 1 {
      assert items[..|items| - 1][..i + 1] == items[..i + 1];
      MergeStopsAtFailure(cat, items[..|items| - 1], source, now, i);
    } else {
      assert items[..i + 1] == items;
    }
  }

  /** A failed batch names a record that inserts without a name. */
  lemma {:induction false} MergeAllFailure(cat: Catalog, items: seq<Record>, source: string, now: int)
    requires MergeAll(cat, items, source, now).Failure?
    ensures var e := MergeAll(cat, items, source, now).error;
      e.index < |items| && InsertsWithoutName(cat, items, source, e.index)
    decreases |items|
  {
    var n := |items| - 1;
    var init := items[..n];
    if MergeAll(cat, init, source, now).Failure? {
      MergeAllFailure(cat, init, source, now);
      var e := MergeAll(cat, init, source, now).error;
      assert items[..e.index] == init[..e.index];
    } else {
      MergeAllCharacterized(cat, init, source, now);
      assert items[..n] == init;
    }
  }

  /** Conversely, a record that would insert without a name makes the
      batch fail, at that record or at an earlier one: the failure is
      reported at the first such record. */
  lemma {:induction false} NamelessInsertFails(cat: Catalog, items: seq<Record>, source: string, now: int, i: nat)
    requires i < |items| && InsertsWithoutName(cat, items, source, i)
    ensures MergeAll(cat, items, source, now).Failure?
    ensures MergeAll(cat, items, source, now).error.index <= i
    decreases |items|
  {
    var n := |items| - 1;
    var init := items[..n];
    if i < n {
      assert init[..i] == items[..i] && init[i] == items[i];
      NamelessInsertFails(cat, init, source, now, i);
    } else if MergeAll(cat, init, source, now).Failure? {
      MergeAllFailure(cat, init, source, now);
    } else {
      assert items[..i] == init;
      MergeAllCharacterized(cat, init, source, now);
    }
  }

  /** The fold, described without reference to the order of the writes:
      which keys the catalog ends with, what each touched scheme holds, that
      nothing else changes, and what the counters count. */
  lemma MergeAllCharacterized(cat: Catalog, items: seq<Record>, source: string, now: int)
    requires MergeAll(cat, items, source, now).Success?
    ensures var r := MergeAll(cat, items, source, now).value;
      && (forall k :: k in r.catalog <==> k in cat || (k.0 == source && k.1 in Sids(items)))
      && (forall k :: k in cat && (k.0 != source || k.1 !in Sids(items)) ==> r.catalog[k] == cat[k])
      && (forall sid :: sid in Sids(items) ==>
            r.catalog[(source, sid)] == Update(Base(cat, source, sid), Overlay(items, sid), now))
      && r.inserted == |NewSids(cat, items, source)|
      && r.inserted + r.updated == Truthy(items)
  {
    MergeKeys(cat, items, source, now);
    MergeKeepsOthers(cat, items, source, now);
    MergeValues(cat, items, source, now);
    MergeCounts(cat, items, source, now);
  }

  /** A successful batch succeeded on all but its last record too. */
  lemma MergeInit(cat: Catalog, items: seq<Record>, source: string, now: int)
    requires |items| > 0 && MergeAll(cat, items, source, now).Success?
    ensures MergeAll(cat, items[..|items| - 1], source, now).Success?
    ensures var acc := MergeAll(cat, items[..|items| - 1], source, now).value;
      var r := MergeAll(cat, items, source, now).value;
      var step := Step(acc.catalog, items[|items| - 1], source, now);
      && step.Some? && r.catalog == step.value.0
      && r.inserted == acc.inserted + (if step.value.1 == Inserted then 1 else 0)
      && r.updated == acc.updated + (if step.value.1 == Updated then 1 else 0)
  {
  }

  /** The keys after a batch: the old ones and one per truthy identifier. */
  lemma {:induction false} MergeKeys(cat: Catalog, items: seq<Record>, source: string, now: int)
    requires MergeAll(cat, items, source, now).Success?
    ensures forall k :: k in MergeAll(cat, items, source, now).value.catalog <==>
      k in cat || (k.0 == source && k.1 in Sids(items))
    decreases |items|
  {
    if |items| > 0 {
      var init := items[..|items| - 1];
      MergeInit(cat, items, source, now);
      MergeKeys(cat, init, source, now);
    }
  }

  /** A scheme under any other key is left as it was. */
  lemma {:induction false} MergeKeepsOthers(cat: Catalog, items: seq<Record>, source: string, now: int)
    requires MergeAll(cat, items, source, now).Success?
    ensures forall k :: k in cat && (k.0 != source || k.1 !in Sids(items)) ==>
      k in MergeAll(cat, items, source, now).value.catalog &&
      MergeAll(cat, items, source, now).value.catalog[k] == cat[k]
    decreases |items|
  {
    if |items| > 0 {
      var init := items[..|items| - 1];
      MergeInit(cat, items, source, now);
      MergeKeepsOthers(cat, init, source, now);
      assert Sids(init) <= Sids(items);
    }
  }

  /** Each identifier of the batch ends with its starting scheme updated
      once from everything the batch says about it. */
  lemma MergeValues(cat: Catalog, items: seq<Record>, source: string, now: int)
    requires MergeAll(cat, items, source, now).Success?
    ensures forall sid :: sid in Sids(items) ==>
      (source, sid) in MergeAll(cat, items, source, now).value.catalog &&
      MergeAll(cat, items, source, now).value.catalog[(source, sid)] ==
        Update(Base(cat, source, sid), Overlay(items, sid), now)
  {
    forall sid | sid in Sids(items)
      ensures (source, sid) in MergeAll(cat, items, source, now).value.catalog &&
        MergeAll(cat, items, source, now).value.catalog[(source, sid)] ==
        Update(Base(cat, source, sid), Overlay(items, sid), now)
    {
      MergeValue(cat, items, source, now, sid);
    }
  }

  /** One identifier's scheme after the batch. */
  lemma {:induction false} MergeValue(cat: Catalog, items: seq<Record>, source: string, now: int, sid: string)
    requires MergeAll(cat, items, source, now).Success? && sid in Sids(items)
    ensures (source, sid) in MergeAll(cat, items, source, now).value.catalog
    ensures MergeAll(cat, items, source, now).value.catalog[(source, sid)] ==
      Update(Base(cat, source, sid), Overlay(items, sid), now)
    decreases |items|
  {
    var n := |items| - 1;
    var init, last := items[..n], items[n];
    var key := (source, sid);
    MergeInit(cat, items, source, now);
    MergeKeys(cat, init, source, now);
    OverlaySnoc(items, sid);
    if SidOf(last) == Some(sid) {
      if sid in Sids(init) {
        MergeValue(cat, init, source, now, sid);
        UpdateCompose(Base(cat, source, sid), Overlay(init, sid), last, now, now);
      } else {
        OverlayAbsent(init, sid);
        assert map[] + last == last;
        if key in cat {
          MergeKeepsOthers(cat, init, source, now);
          UpdateCompose(cat[key], map[], last, now, now);
          RefreshEmpty(cat[key]);
        } else {
          InsertIsBlankUpdate(last, source, sid, now);
        }
      }
    } else {
      assert sid in Sids(init);
      MergeValue(cat, init, source, now, sid);
      assert Overlay(init, sid) + map[] == Overlay(init, sid);
    }
  }

  /** The last record of a batch extends what the batch says about its own
      identifier and nothing else. */
  lemma OverlaySnoc(items: seq<Record>, sid: string)
    requires |items| > 0
    ensures var init, last := items[..|items| - 1], items[|items| - 1];
      Overlay(items, sid) == Overlay(init, sid) + (if SidOf(last) == Some(sid) then last else map[])
  {
  }

  /** The counters: inserts are the identifiers new to the catalog, and
      inserts and updates together are the truthy records. */
  lemma {:induction false} MergeCounts(cat: Catalog, items: seq<Record>, source: string, now: int)
    requires MergeAll(cat, items, source, now).Success?
    ensures MergeAll(cat, items, source, now).value.inserted == |NewSids(cat, items, source)|
    ensures MergeAll(cat, items, source, now).value.inserted +
            MergeAll(cat, items, source, now).value.updated == Truthy(items)
    decreases |items|
  {
    if |items| == 0 {
      assert NewSids(cat, items, source) == {};
    } else {
      var n := |items| - 1;
      var init, last := items[..n], items[n];
      MergeInit(cat, items, source, now);
      MergeCounts(cat, init, source, now);
      MergeKeys(cat, init, source, now);
      var acc := MergeAll(cat, init, source, now).value;
      NewSidsSnoc(cat, items, source);
      if SidOf(last).Some? {
        var sid := SidOf(last).value;
        assert (source, sid) in acc.catalog <==> (source, sid) in cat || sid in Sids(init);
      }
    }
  }

  /** The last record adds its identifier to the new ones when neither the
      catalog nor an earlier record has it. */
  lemma NewSidsSnoc(cat: Catalog, items: seq<Record>, source: string)
    requires |items| > 0
    ensures var init, last := items[..|items| - 1], items[|items| - 1];
      var isNew := SidOf(last).Some? && (source, SidOf(last).value) !in cat && SidOf(last).value !in Sids(init);
      && (isNew ==> SidOf(last).value !in NewSids(cat, init, source))
      && NewSids(cat, items, source) ==
           NewSids(cat, init, source) + (if isNew then {SidOf(last).value} else {})
  {
  }

  /** A batch without the identifier says nothing about it. */
  lemma {:induction false} OverlayAbsent(items: seq<Record>, sid: string)
    requires sid !in Sids(items)
    ensures Overlay(items, sid) == map[]
    decreases |items|
  {
    if |items| > 0 {
      var init := items[..|items| - 1];
      assert Sids(init) <= Sids(items);
      OverlayAbsent(init, sid);
    }
  }

  /** Refreshing from an empty record changes nothing. */
  lemma RefreshEmpty(s: Scheme)
    ensures Refresh(s, map[]) == s
  {
  }

  /** Two updates in a row are one update from the two records overlaid,
      the later one winning key by key; the earlier clock reading is lost. */
  lemma UpdateCompose(s: Scheme, a: Record, b: Record, t1: int, t2: int)
    ensures Update(Update(s, a, t1), b, t2) == Update(s, a + b, t2)
  {
  }

  /** Updating twice from the same record is updating once. */
  lemma UpdateIdempotent(s: Scheme, item: Record, t1: int, t2: int)
    ensures Update(Update(s, item, t1), item, t2) == Update(s, item, t2)
  {
    UpdateCompose(s, item, item, t1, t2);
    assert item + item == item;
  }

  /** An insert is an update of a blank scheme with the same provenance. */
  lemma InsertIsBlankUpdate(item: Record, source: string, sid: string, now: int)
    requires "name" in item
    ensures Insert(item, source, sid, now) == Update(Blank(source, sid), item, now)
  {
  }

  /** Column by column, an update overwrites exactly the mutable columns
      whose key the record carries, with the record's value even when it is
      `None`, and keeps every other column. */
  lemma UpdateColumn(s: Scheme, item: Record, now: int, c: Column)
    requires Normalized(item)
    ensures Get(Update(s, item, now), c) ==
      if Mutable(c) && Key(c) in item then item[Key(c)] else Get(s, c)
  {
    if Key(c) in item && item[Key(c)].Some? {
      assert HasType(c, item[Key(c)].value);
    }
  }

  /** Column by column, an insert takes the record's value for each mutable
      column and leaves the others unset. */
  lemma InsertColumn(item: Record, source: string, sid: string, now: int, c: Column)
    requires Normalized(item) && "name" in item
    ensures Get(Insert(item, source, sid, now), c) ==
      if Mutable(c) then Lookup(item, Key(c)) else None
  {
    if Key(c) in item && item[Key(c)].Some? {
      assert HasType(c, item[Key(c)].value);
    }
  }

  /** A skipped record changes nothing. */
  lemma SkipIsNoOp(cat: Catalog, item: Record, source: string, now: int)
    requires SidOf(item).None?
    ensures Step(cat, item, source, now) == Some((cat, Skipped))
  {
  }

  /** The merge keeps the catalog well keyed. */
  lemma MergeKeepsWellKeyed(cat: Catalog, items: seq<Record>, source: string, now: int)
    requires WellKeyed(cat) && MergeAll(cat, items, source, now).Success?
    ensures WellKeyed(MergeAll(cat, items, source, now).value.catalog)
  {
    MergeAllCharacterized(cat, items, source, now);
    var r := MergeAll(cat, items, source, now).value;
    forall k | k in r.catalog
      ensures r.catalog[k].source == Some(k.0) && r.catalog[k].sourceSchemeId == Some(k.1)
    {
      if k.0 == source && k.1 in Sids(items) {
        assert r.catalog[k] == Update(Base(cat, source, k.1), Overlay(items, k.1), now);
      }
    }
  }

  /** Merging the same batch twice from an empty catalog: the first pass
      inserts each distinct identifier once and updates its repeats, the
      second inserts nothing and updates every truthy record, and the
      stored schemes differ only in their clock reading. */
  lemma MergeTwiceFromEmpty(items: seq<Record>, source: string, t1: int, t2: int)
    requires MergeAll(map[], items, source, t1).Success?
    ensures var first := MergeAll(map[], items, source, t1).value;
      && first.inserted == |Sids(items)|
      && first.inserted + first.updated == Truthy(items)
      && MergeAll(first.catalog, items, source, t2).Success?
      && var second := MergeAll(first.catalog, items, source, t2).value;
      && second.inserted == 0 && second.updated == Truthy(items)
      && second.catalog.Keys == first.catalog.Keys
      && forall k :: k in first.catalog ==>
           second.catalog[k] == first.catalog[k].(lastSyncedAt := Some(t2))
  {
    FirstPass(items, source, t1);
    var first := MergeAll(map[], items, source, t1).value;
    SecondPass(first.catalog, items, source, t2);
    var second := MergeAll(first.catalog, items, source, t2).value;
    forall k | k in first.catalog
      ensures second.catalog[k] == first.catalog[k].(lastSyncedAt := Some(t2))
    {
      var o := Overlay(items, k.1);
      assert first.catalog[k] == Update(Blank(source, k.1), o, t1);
      assert second.catalog[k] == Update(first.catalog[k], o, t2);
      UpdateIdempotent(Blank(source, k.1), o, t1, t2);
    }
  }

  /** From an empty catalog a batch inserts each distinct identifier once,
      and each entry is the blank scheme updated from the batch. */
  lemma FirstPass(items: seq<Record>, source: string, now: int)
    requires MergeAll(map[], items, source, now).Success?
    ensures var r := MergeAll(map[], items, source, now).value;
      && r.inserted == |Sids(items)|
      && r.inserted + r.updated == Truthy(items)
      && (forall k :: k in r.catalog <==> k.0 == source && k.1 in Sids(items))
      && (forall k :: k in r.catalog ==> r.catalog[k] == Update(Blank(source, k.1), Overlay(items, k.1), now))
  {
    var empty: Catalog := map[];
    MergeAllCharacterized(empty, items, source, now);
    assert NewSids(empty, items, source) == Sids(items);
  }

  /** A batch over a catalog that holds exactly its identifiers inserts
      nothing, updates every truthy record and keeps the keys. */
  lemma SecondPass(cat: Catalog, items: seq<Record>, source: string, now: int)
    requires forall k :: k in cat <==> k.0 == source && k.1 in Sids(items)
    ensures MergeAll(cat, items, source, now).Success?
    ensures var r := MergeAll(cat, items, source, now).value;
      && r.inserted == 0 && r.updated == Truthy(items)
      && r.catalog.Keys == cat.Keys
      && (forall k :: k in cat ==> r.catalog[k] == Update(cat[k], Overlay(items, k.1), now))
  {
    NoNameFailures(cat, items, source, now);
    MergeAllCharacterized(cat, items, source, now);
    assert NewSids(cat, items, source) == {};
  }

  /** A batch whose every truthy identifier is already catalogued cannot
      fail: it only updates. */
  lemma NoNameFailures(cat: Catalog, items: seq<Record>, source: string, now: int)
    requires forall sid :: sid in Sids(items) ==> (source, sid) in cat
    ensures MergeAll(cat, items, source, now).Success?
  {
    if MergeAll(cat, items, source, now).Failure? {
      MergeAllFailure(cat, items, source, now);
      var i := MergeAll(cat, items, source, now).error.index;
      SidsContains(items, i);
    }
  }

  /** The identifier of each truthy record is in the batch's set. */
  lemma {:induction false} SidsContains(items: seq<Record>, i: nat)
    requires i < |items| && SidOf(items[i]).Some?
    ensures SidOf(items[i]).value in Sids(items)
    decreases |items|
  {
    if i < |items| - 1 {
      var init := items[..|items| - 1];
      SidsContains(init, i);
    }
  }
}
