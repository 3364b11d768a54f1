/** The record shapes shared by every component: a scheme in the catalog,
    a citizen's profile, and the loosely typed records (string keys to
    optional scalars) in which schemes arrive from outside. */
module Models {
  import opened Options

  /** A scalar as it arrives in an external record. */
  datatype Value = Str(text: string) | Int(number: int)

  /** An external record: a key that is missing differs from a key that is
      present with value `None`. */
  type Record = map<string, Option<Value>>

  /** A row of the scheme catalog.  Every column is optional here because
      the merge engine may write `None` into any of the mutable ones; `id`
      is `None` until the storage layer assigns it, and `lastSyncedAt` is a
      clock reading. */
  datatype Scheme = Scheme(
    id: Option<int>,
    name: Option<string>,
    shortDescription: Option<string>,
    fullDescription: Option<string>,
    category: Option<string>,
    state: Option<string>,
    minAge: Option<int>,
    maxAge: Option<int>,
    minIncome: Option<int>,
    maxIncome: Option<int>,
    occupation: Option<string>,
    gender: Option<string>,
    caste: Option<string>,
    disability: Option<string>,
    officialLink: Option<string>,
    applicationProcess: Option<string>,
    source: Option<string>,
    sourceSchemeId: Option<string>,
    lastSyncedAt: Option<int>)

  /** A citizen's profile: name, state and age are always there. */
  datatype Profile = Profile(
    name: string,
    state: string,
    age: int,
    gender: Option<string>,
    occupation: Option<string>,
    annualIncome: Option<int>,
    caste: Option<string>,
    disability: Option<string>)

  /** The descriptive and eligibility columns of a scheme, in the order its
      schema declares them. */
  datatype Column =
    | Name | ShortDescription | FullDescription | Category | State
    | MinAge | MaxAge | MinIncome | MaxIncome
    | Occupation | Gender | Caste | Disability | OfficialLink | ApplicationProcess

  const Columns: seq<Column> := [
    Name, ShortDescription, FullDescription, Category, State,
    MinAge, MaxAge, MinIncome, MaxIncome,
    Occupation, Gender, Caste, Disability, OfficialLink, ApplicationProcess]

  /** The record key that carries a column. */
  function Key(c: Column): string {
    match c
    case Name => "name"
    case ShortDescription => "short_description"
    case FullDescription => "full_description"
    case Category => "category"
    case State => "state"
    case MinAge => "min_age"
    case MaxAge => "max_age"
    case MinIncome => "min_income"
    case MaxIncome => "max_income"
    case Occupation => "occupation"
    case Gender => "gender"
    case Caste => "caste"
    case Disability => "disability"
    case OfficialLink => "official_link"
    case ApplicationProcess => "application_process"
  }

  /** The record key of the external identifier. */
  const SourceIdKey: string := "source_scheme_id"

  lemma KeyInjective(c: Column, d: Column)
    ensures Key(c) == Key(d) ==> c == d
  {
  }

  /** Age and income bounds are integer columns, the rest hold text. */
  predicate IsNumeric(c: Column) {
    c.MinAge? || c.MaxAge? || c.MinIncome? || c.MaxIncome?
  }

  /** A value of the column's type. */
  predicate HasType(c: Column, v: Value) {
    if IsNumeric(c) then v.Int? else v.Str?
  }

  /** A record in the normalized form the ingestion path hands over: each
      known column, when present and not `None`, holds a value of its type,
      and the external identifier is text. */
  predicate Normalized(item: Record) {
    && (forall c: Column :: Key(c) in item && item[Key(c)].Some? ==> HasType(c, item[Key(c)].value))
    && (SourceIdKey in item && item[SourceIdKey].Some? ==> item[SourceIdKey].value.Str?)
  }

  /** `item.get(key)`: a missing key reads as `None`. */
  function Lookup(item: Record, key: string): Option<Value> {
    if key in item then item[key] else None
  }

  /** The text stored in a record slot, if it is text. */
  function TextOf(v: Option<Value>): Option<string> {
    match v
    case Some(Str(t)) => Some(t)
    case _ => None
  }

  /** The integer stored in a record slot, if it is an integer. */
  function NumberOf(v: Option<Value>): Option<int> {
    match v
    case Some(Int(n)) => Some(n)
    case _ => None
  }

  function Wrap(t: Option<string>): Option<Value> {
    match t
    case Some(s) => Some(Str(s))
    case None => None
  }

  function WrapNumber(n: Option<int>): Option<Value> {
    match n
    case Some(k) => Some(Int(k))
    case None => None
  }

  /** A column of a scheme, as a record value. */
  function Get(s: Scheme, c: Column): (v: Option<Value>)
    ensures v.Some? ==> HasType(c, v.value)
  {
    match c
    case Name => Wrap(s.name)
    case ShortDescription => Wrap(s.shortDescription)
    case FullDescription => Wrap(s.fullDescription)
    case Category => Wrap(s.category)
    case State => Wrap(s.state)
    case MinAge => WrapNumber(s.minAge)
    case MaxAge => WrapNumber(s.maxAge)
    case MinIncome => WrapNumber(s.minIncome)
    case MaxIncome => WrapNumber(s.maxIncome)
    case Occupation => Wrap(s.occupation)
    case Gender => Wrap(s.gender)
    case Caste => Wrap(s.caste)
    case Disability => Wrap(s.disability)
    case OfficialLink => Wrap(s.officialLink)
    case ApplicationProcess => Wrap(s.applicationProcess)
  }

  /** A scheme with nothing but its provenance set. */
  function Blank(source: string, sourceSchemeId: string): Scheme {
    Scheme(None, None, None, None, None, None, None, None, None, None,
           None, None, None, None, None, None, Some(source), Some(sourceSchemeId), None)
  }
}
