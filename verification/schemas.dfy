/** The request schemas: which fields a scheme or a profile must carry, of
    which type, and within which bounds.  Parsing a raw record either
    yields the typed value or lists one error per offending field, in the
    order the schema declares its fields. */
module Schemas {
  import opened Options
  import opened Models

  /** One declared field: its key, whether it holds an integer (otherwise
      text), whether it must be present and not `None`, and its inclusive
      bounds. */
  datatype Field = Field(key: string, numeric: bool, required: bool, min: Option<int>, max: Option<int>)

  datatype FieldError =
    | Missing(field: string)
    | WrongType(field: string)
    | BelowMinimum(field: string, bound: int)
    | AboveMaximum(field: string, bound: int)

  function TextField(key: string, required: bool): Field {
    Field(key, false, required, None, None)
  }

  /** The scheme schema: name, short description and state are required;
      ages lie in [0, 120] and incomes are at least 0 when given. */
  const SchemeFields: seq<Field> := [
    TextField("name", true),
    TextField("short_description", true),
    TextField("full_description", false),
    TextField("category", false),
    TextField("state", true),
    Field("min_age", true, false, Some(0), Some(120)),
    Field("max_age", true, false, Some(0), Some(120)),
    Field("min_income", true, false, Some(0), None),
    Field("max_income", true, false, Some(0), None),
    TextField("occupation", false),
    TextField("gender", false),
    TextField("caste", false),
    TextField("disability", false),
    TextField("official_link", false),
    TextField("application_process", false)]

  /** The profile schema: name, state and an age in [0, 120] are required;
      an income, when given, is at least 0. */
  const ProfileFields: seq<Field> := [
    TextField("name", true),
    TextField("state", true),
    Field("age", true, true, Some(0), Some(120)),
    TextField("gender", false),
    TextField("occupation", false),
    Field("annual_income", true, false, Some(0), None),
    TextField("caste", false),
    TextField("disability", false)]

  /** A value of the field's type within its bounds. */
  predicate Acceptable(f: Field, v: Value) {
    && (if f.numeric then v.Int? else v.Str?)
    && (f.numeric && f.min.Some? ==> v.number >= f.min.value)
    && (f.numeric && f.max.Some? ==> v.number <= f.max.value)
  }

  /** What a field accepts: absence and `None` when it is optional, and
      otherwise an acceptable value. */
  predicate FieldOk(raw: Record, f: Field) {
    if f.key !in raw || raw[f.key].None? then !f.required else Acceptable(f, raw[f.key].value)
  }

  /** The error one field reports, if any. */
  function FieldErrors(raw: Record, f: Field): (errs: seq<FieldError>)
    ensures |errs| <= 1
    ensures |errs| == 0 <==> FieldOk(raw, f)
    ensures forall e :: e in errs ==> e.field == f.key
  {
    if f.key !in raw then (if f.required then [Missing(f.key)] else [])
    else match raw[f.key]
      case None => if f.required then [WrongType(f.key)] else []
      case Some(v) =>
        if f.numeric != v.Int? then [WrongType(f.key)]
        else if f.numeric && f.min.Some? && v.number < f.min.value then [BelowMinimum(f.key, f.min.value)]
        else if f.numeric && f.max.Some? && v.number > f.max.value then [AboveMaximum(f.key, f.max.value)]
        else []
  }

  /** The errors of all fields, in declaration order. */
  function Errors(raw: Record, fields: seq<Field>): seq<FieldError>
    decreases |fields|
  {
    if |fields| == 0 then [] else FieldErrors(raw, fields[0]) + Errors(raw, fields[1..])
  }

  /** The text under a key; "" when there is none. */
  function TextAt(raw: Record, key: string): string {
    if key in raw && raw[key].Some? && raw[key].value.Str? then raw[key].value.text else ""
  }

  /** The integer under a key; 0 when there is none. */
  function NumberAt(raw: Record, key: string): int {
    if key in raw && raw[key].Some? && raw[key].value.Int? then raw[key].value.number else 0
  }

  /** The optional text under a key. */
  function OptText(raw: Record, key: string): Option<string> {
    if key in raw then TextOf(raw[key]) else None
  }

  /** The optional integer under a key. */
  function OptNumber(raw: Record, key: string): Option<int> {
    if key in raw then NumberOf(raw[key]) else None
  }

  // --------------------------------------------------------------- validity

  predicate ValidAge(a: int) {
    0 <= a <= 120
  }

  predicate ValidIncome(i: Option<int>) {
    i.None? || i.value >= 0
  }

  /** A profile the schema admits. */
  predicate ValidProfile(p: Profile) {
    ValidAge(p.age) && ValidIncome(p.annualIncome)
  }

  /** A scheme the schema admits, as created (no id, no provenance). */
  predicate ValidScheme(s: Scheme) {
    && s.name.Some? && s.shortDescription.Some? && s.state.Some?
    && (s.minAge.None? || ValidAge(s.minAge.value))
    && (s.maxAge.None? || ValidAge(s.maxAge.value))
    && ValidIncome(s.minIncome) && ValidIncome(s.maxIncome)
    && s.id.None? && s.source.None? && s.sourceSchemeId.None? && s.lastSyncedAt.None?
  }

  // ---------------------------------------------------------------- parsing

  /** The profile a record describes, read without checks. */
  function BuildProfile(raw: Record): Profile {
    Profile(
      TextAt(raw, "name"), TextAt(raw, "state"), NumberAt(raw, "age"),
      OptText(raw, "gender"), OptText(raw, "occupation"), OptNumber(raw, "annual_income"),
      OptText(raw, "caste"), OptText(raw, "disability"))
  }

  /** The scheme a record describes, read without checks. */
  function BuildScheme(raw: Record): Scheme {
    Scheme(
      id := None,
      name := OptText(raw, "name"),
      shortDescription := OptText(raw, "short_description"),
      fullDescription := OptText(raw, "full_description"),
      category := OptText(raw, "category"),
      state := OptText(raw, "state"),
      minAge := OptNumber(raw, "min_age"),
      maxAge := OptNumber(raw, "max_age"),
      minIncome := OptNumber(raw, "min_income"),
      maxIncome := OptNumber(raw, "max_income"),
      occupation := OptText(raw, "occupation"),
      gender := OptText(raw, "gender"),
      caste := OptText(raw, "caste"),
      disability := OptText(raw, "disability"),
      officialLink := OptText(raw, "official_link"),
      applicationProcess := OptText(raw, "application_process"),
      source := None,
      sourceSchemeId := None,
      lastSyncedAt := None)
  }

  /** Parsing a profile. */
  function ParseProfile(raw: Record): (r: Result<Profile, seq<FieldError>>)
    ensures r.Success? <==> forall i :: 0 <= i < |ProfileFields| ==> FieldOk(raw, ProfileFields[i])
    ensures r.Success? ==> ValidProfile(r.value)
    ensures r.Success? ==> forall i :: 0 <= i < |ProfileFields| ==>
      Lookup(ProfileRecord(r.value), ProfileFields[i].key) == Lookup(raw, ProfileFields[i].key)
    ensures r.Failure? ==> |r.error| > 0
  {
    var errs := Errors(raw, ProfileFields);
    ErrorsEmpty(raw, ProfileFields);
    if |errs| > 0 then Failure(errs)
    else
      BuiltProfileValid(raw);
      BuiltProfileValues(raw);
      Success(BuildProfile(raw))
  }

  /** Parsing a scheme to be created. */
  function ParseScheme(raw: Record): (r: Result<Scheme, seq<FieldError>>)
    ensures r.Success? <==> forall i :: 0 <= i < |SchemeFields| ==> FieldOk(raw, SchemeFields[i])
    ensures r.Success? ==> ValidScheme(r.value)
    ensures r.Success? ==> forall i :: 0 <= i < |SchemeFields| ==>
      Lookup(SchemeRecord(r.value), SchemeFields[i].key) == Lookup(raw, SchemeFields[i].key)
    ensures r.Failure? ==> |r.error| > 0
  {
    var errs := Errors(raw, SchemeFields);
    ErrorsEmpty(raw, SchemeFields);
    if |errs| > 0 then Failure(errs)
    else
      BuiltSchemeValid(raw);
      BuiltSchemeValues(raw);
      Success(BuildScheme(raw))
  }

  // ------------------------------------------------------------- encoding

  /** A profile as the record a client would send. */
  function ProfileRecord(p: Profile): Record {
    map["name" := Some(Str(p.name)), "state" := Some(Str(p.state)), "age" := Some(Int(p.age)),
        "gender" := Wrap(p.gender), "occupation" := Wrap(p.occupation),
        "annual_income" := WrapNumber(p.annualIncome),
        "caste" := Wrap(p.caste), "disability" := Wrap(p.disability)]
  }

  /** A scheme as the record a client would send: one key per column. */
  function SchemeRecord(s: Scheme): Record {
    map["name" := Wrap(s.name),
        "short_description" := Wrap(s.shortDescription),
        "full_description" := Wrap(s.fullDescription),
        "category" := Wrap(s.category),
        "state" := Wrap(s.state),
        "min_age" := WrapNumber(s.minAge),
        "max_age" := WrapNumber(s.maxAge),
        "min_income" := WrapNumber(s.minIncome),
        "max_income" := WrapNumber(s.maxIncome),
        "occupation" := Wrap(s.occupation),
        "gender" := Wrap(s.gender),
        "caste" := Wrap(s.caste),
        "disability" := Wrap(s.disability),
        "official_link" := Wrap(s.officialLink),
        "application_process" := Wrap(s.applicationProcess)]
  }

  // ---------------------------------------------------------------- proofs

  /** A required text field that is acceptable holds text. */
  lemma RequiredText(raw: Record, key: string)
    requires FieldOk(raw, TextField(key, true))
    ensures OptText(raw, key).Some?
  {
  }

  /** An acceptable optional integer field lies within its bounds. */
  lemma BoundedNumber(raw: Record, f: Field)
    requires f.numeric && FieldOk(raw, f)
    ensures var n := OptNumber(raw, f.key);
      && (n.Some? && f.min.Some? ==> n.value >= f.min.value)
      && (n.Some? && f.max.Some? ==> n.value <= f.max.value)
  {
  }

  lemma BuiltProfileValid(raw: Record)
    requires forall i :: 0 <= i < |ProfileFields| ==> FieldOk(raw, ProfileFields[i])
    ensures ValidProfile(BuildProfile(raw))
  {
    var age, income := ProfileFields[2], ProfileFields[5];
    assert FieldOk(raw, age) && FieldOk(raw, income);
    BoundedNumber(raw, income);
  }

  /** An acceptable optional text field reads back as the record holds it. */
  lemma OptionalTextValue(raw: Record, f: Field)
    requires !f.numeric && FieldOk(raw, f)
    ensures Wrap(OptText(raw, f.key)) == Lookup(raw, f.key)
  {
  }

  /** An acceptable optional integer field reads back as the record holds it. */
  lemma OptionalNumberValue(raw: Record, f: Field)
    requires f.numeric && FieldOk(raw, f)
    ensures WrapNumber(OptNumber(raw, f.key)) == Lookup(raw, f.key)
  {
  }

  /** The profile read from an acceptable record holds the record's values. */
  lemma BuiltProfileValues(raw: Record)
    requires forall i :: 0 <= i < |ProfileFields| ==> FieldOk(raw, ProfileFields[i])
    ensures forall i :: 0 <= i < |ProfileFields| ==>
      Lookup(ProfileRecord(BuildProfile(raw)), ProfileFields[i].key) == Lookup(raw, ProfileFields[i].key)
  {
    var fs := ProfileFields;
    assert FieldOk(raw, fs[0]) && FieldOk(raw, fs[1]) && FieldOk(raw, fs[2]);
    OptionalTextValue(raw, fs[3]);
    OptionalTextValue(raw, fs[4]);
    OptionalNumberValue(raw, fs[5]);
    OptionalTextValue(raw, fs[6]);
    OptionalTextValue(raw, fs[7]);
  }

  /** The scheme read from an acceptable record holds the record's values. */
  lemma BuiltSchemeValues(raw: Record)
    requires forall i :: 0 <= i < |SchemeFields| ==> FieldOk(raw, SchemeFields[i])
    ensures forall i :: 0 <= i < |SchemeFields| ==>
      Lookup(SchemeRecord(BuildScheme(raw)), SchemeFields[i].key) == Lookup(raw, SchemeFields[i].key)
  {
    var fs := SchemeFields;
    var s := BuildScheme(raw);
    forall i | 0 <= i < |fs|
      ensures Lookup(SchemeRecord(s), fs[i].key) == Lookup(raw, fs[i].key)
    {
      var c := Columns[i];
      ColumnField(i);
      SchemeRecordAt(s, c);
      BuiltColumn(raw, c);
      if IsNumeric(c) {
        OptionalNumberValue(raw, fs[i]);
      } else {
        OptionalTextValue(raw, fs[i]);
      }
    }
  }

  /** The scheme schema declares the columns in order, each with its key
      and type. */
  lemma ColumnField(i: nat)
    requires i < |SchemeFields|
    ensures |Columns| == |SchemeFields|
    ensures SchemeFields[i].key == Key(Columns[i]) && SchemeFields[i].numeric == IsNumeric(Columns[i])
  {
  }

  /** Each column of a scheme read without checks comes from its key. */
  lemma BuiltColumn(raw: Record, c: Column)
    ensures Get(BuildScheme(raw), c) ==
      if IsNumeric(c) then WrapNumber(OptNumber(raw, Key(c))) else Wrap(OptText(raw, Key(c)))
  {
  }

  lemma BuiltSchemeValid(raw: Record)
    requires forall i :: 0 <= i < |SchemeFields| ==> FieldOk(raw, SchemeFields[i])
    ensures ValidScheme(BuildScheme(raw))
  {
    var fs := SchemeFields;
    assert FieldOk(raw, fs[0]) && FieldOk(raw, fs[1]) && FieldOk(raw, fs[4]);
    RequiredText(raw, "name");
    RequiredText(raw, "short_description");
    RequiredText(raw, "state");
    assert FieldOk(raw, fs[5]) && FieldOk(raw, fs[6]) && FieldOk(raw, fs[7]) && FieldOk(raw, fs[8]);
    BoundedNumber(raw, fs[5]);
    BoundedNumber(raw, fs[6]);
    BoundedNumber(raw, fs[7]);
    BoundedNumber(raw, fs[8]);
  }

  /** No errors at all exactly when every field is acceptable. */
  lemma {:induction false} ErrorsEmpty(raw: Record, fields: seq<Field>)
    ensures |Errors(raw, fields)| == 0 <==> forall i :: 0 <= i < |fields| ==> FieldOk(raw, fields[i])
    decreases |fields|
  {
    if |fields| > 0 {
      ErrorsEmpty(raw, fields[1..]);
      assert forall i :: 1 <= i < |fields| ==> fields[i] == fields[1..][i - 1];
    }
  }

  /** Each error names a declared field, and a required field the record
      lacks is reported as missing. */
  lemma {:induction false} ErrorsName(raw: Record, fields: seq<Field>)
    ensures forall e :: e in Errors(raw, fields) ==> exists i :: 0 <= i < |fields| && fields[i].key == e.field
    ensures forall i :: 0 <= i < |fields| && fields[i].required && fields[i].key !in raw ==>
      Missing(fields[i].key) in Errors(raw, fields)
    decreases |fields|
  {
    if |fields| > 0 {
      ErrorsName(raw, fields[1..]);
      forall e | e in Errors(raw, fields)
        ensures exists i :: 0 <= i < |fields| && fields[i].key == e.field
      {
        if e !in FieldErrors(raw, fields[0]) {
          var j :| 0 <= j < |fields[1..]| && fields[1..][j].key == e.field;
          assert fields[j + 1].key == e.field;
        }
      }
      forall i | 0 <= i < |fields| && fields[i].required && fields[i].key !in raw
        ensures Missing(fields[i].key) in Errors(raw, fields)
      {
        if i > 0 {
          assert fields[1..][i - 1] == fields[i];
        }
      }
    }
  }

  /** A profile without a name, state or age is refused with that field
      reported missing. */
  lemma ProfileRequiredFields(raw: Record, key: string)
    requires key in {"name", "state", "age"} && key !in raw
    ensures ParseProfile(raw).Failure? && Missing(key) in ParseProfile(raw).error
  {
    ErrorsName(raw, ProfileFields);
    if key == "name" {
      assert ProfileFields[0].key == key;
    } else if key == "state" {
      assert ProfileFields[1].key == key;
    } else {
      assert ProfileFields[2].key == key;
    }
  }

  /** An age outside [0, 120] is refused with the bound it crosses. */
  lemma AgeOutOfRange(raw: Record, age: int)
    requires "age" in raw && raw["age"] == Some(Int(age)) && !ValidAge(age)
    ensures ParseProfile(raw).Failure?
    ensures age < 0 ==> BelowMinimum("age", 0) in ParseProfile(raw).error
    ensures age > 120 ==> AboveMaximum("age", 120) in ParseProfile(raw).error
  {
    var fs := ProfileFields;
    assert Errors(raw, fs) == FieldErrors(raw, fs[0]) + (FieldErrors(raw, fs[1]) + Errors(raw, fs[2..]));
    assert fs[2..][0] == fs[2];
    assert Errors(raw, fs[2..]) == FieldErrors(raw, fs[2]) + Errors(raw, fs[3..]);
  }

  /** Every admissible profile survives its own record. */
  lemma ProfileRoundTrip(p: Profile)
    requires ValidProfile(p)
    ensures ParseProfile(ProfileRecord(p)) == Success(p)
  {
    var raw := ProfileRecord(p);
    assert BuildProfile(raw) == p;
    ProfileRecordFieldsOk(p);
  }

  lemma ProfileRecordFieldsOk(p: Profile)
    requires ValidProfile(p)
    ensures forall i :: 0 <= i < |ProfileFields| ==> FieldOk(ProfileRecord(p), ProfileFields[i])
  {
    var raw := ProfileRecord(p);
    var fs := ProfileFields;
    assert FieldOk(raw, fs[0]) && FieldOk(raw, fs[1]) && FieldOk(raw, fs[2]) && FieldOk(raw, fs[3]);
    assert FieldOk(raw, fs[4]) && FieldOk(raw, fs[5]) && FieldOk(raw, fs[6]) && FieldOk(raw, fs[7]);
  }

  /** Each column of a scheme's record holds the column's value. */
  lemma SchemeRecordAt(s: Scheme, c: Column)
    ensures Key(c) in SchemeRecord(s) && SchemeRecord(s)[Key(c)] == Get(s, c)
  {
  }

  lemma SchemeRecordFieldsOk(s: Scheme)
    requires ValidScheme(s)
    ensures forall i :: 0 <= i < |SchemeFields| ==> FieldOk(SchemeRecord(s), SchemeFields[i])
  {
    SchemeRecordTextOk(s);
    SchemeRecordNumbersOk(s);
    SchemeRecordOptionalOk(s);
  }

  lemma SchemeRecordTextOk(s: Scheme)
    requires ValidScheme(s)
    ensures forall i :: 0 <= i < 5 ==> FieldOk(SchemeRecord(s), SchemeFields[i])
  {
  }

  lemma SchemeRecordNumbersOk(s: Scheme)
    requires ValidScheme(s)
    ensures forall i :: 5 <= i < 9 ==> FieldOk(SchemeRecord(s), SchemeFields[i])
  {
  }

  lemma SchemeRecordOptionalOk(s: Scheme)
    ensures forall i :: 9 <= i < 15 ==> FieldOk(SchemeRecord(s), SchemeFields[i])
  {
  }

  /** Every admissible scheme survives its own record. */
  lemma SchemeRoundTrip(s: Scheme)
    requires ValidScheme(s)
    ensures ParseScheme(SchemeRecord(s)) == Success(s)
  {
    assert BuildScheme(SchemeRecord(s)) == s;
    SchemeRecordFieldsOk(s);
  }

  /** A parsed scheme has the state the eligibility evaluator reads. */
  lemma ParsedSchemeHasState(raw: Record)
    requires ParseScheme(raw).Success?
    ensures ParseScheme(raw).value.state.Some?
  {
  }
}
