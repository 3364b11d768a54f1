# Government-scheme assistant: the deterministic core

This project models, in Dafny, the deterministic core of a backend that helps citizens find government welfare schemes. It covers six pieces:

- **Eligibility evaluator** (`Eligibility`). It checks one user profile against one scheme. Nine rules run in a fixed order with no early exit: state, minimum age, maximum age, minimum income, maximum income, occupation, gender, caste, disability. Every failing rule adds one reason. The profile is eligible exactly when there are no reasons, and the score is 1 or 0.
- **Source merge** (`Merge`). It upserts a batch of scheme records from an external source into a catalog keyed by (source, source scheme id). An existing entry gets a partial update. A new identifier is inserted. A record without an identifier is skipped. The result carries insert and update counts.
- **Input validation** (`Schemas`). The field constraints on incoming profiles and schemes: required fields, ages in [0, 120], incomes at least 0. Parsing returns either a value or the list of field errors.
- **Question routing in the mock assistant** (`Classify`, `SchemeMatch`, `Dispatch`):
  - the priority-ordered pattern classifier;
  - the fuzzy scheme-name lookup with its scoring;
  - the greeting / thank-you / answer dispatch at the head of a chat reply.
- **Rate limiter** (`RateLimiter`). A per-address sliding window of 60 seconds admitting at most 20 requests.
- **Duplicate cleanup** (`Cleanup`). Rows read in id order are grouped by exact name, and all but the first row of each name are deleted.

The shared record shapes are in `Models`: the scheme and profile rows, the raw field/value records, and the column keys. `Options` holds `Option` and `Result`. `Text` holds the Python string primitives used: ASCII lower-casing, whitespace stripping, substring search, splitting and word splitting.

Most operations are pure functions, or methods with loop invariants proved equal to one. The fuzzy scheme-name lookup (`SchemeMatch.FindSchemeByName`) is the exception: it is specified relationally. Its contract says what the chosen scheme is, and no function is proved equal to its loop. The clock is a parameter (`now`). The database session is replaced by explicit values:
- the merge's catalog is a `map<(string, string), Scheme>`;
- the limiter's global dictionary is a `map<string, seq<int>>`;
- the cleanup's table is a `seq<Scheme>` in id order.

## Model

| member | source | states |
|---|---|---|
| Eligibility.CheckEligibility | backend/services/eligibility_service.py:6-105 | The reasons are exactly those of the nine checks, gathered in rule order. Eligible holds iff there are no reasons, iff every rule is satisfied. The score is 1 when eligible and 0 otherwise. |
| Eligibility.ReasonsExplainFailures | backend/services/eligibility_service.py:21-96 | A rule is reported iff it is violated. The reasons appear in the fixed rule order. Each reason is the output of its own rule's check. |
| Eligibility.CheckIffViolated | backend/services/eligibility_service.py:24-96 | Each rule's check yields a reason exactly when the rule is not satisfied, and the reason names that rule. |
| Eligibility.ReasonsAreCheckOutputs | backend/services/eligibility_service.py:21-96 | A reason is listed iff its own rule's check produces it. |
| Eligibility.ListedOnce | backend/services/eligibility_service.py:21-96 | Each listed reason value occurs exactly once, and no two listed reasons come from the same rule. |
| Eligibility.NoReasonsIffAllSatisfied | backend/services/eligibility_service.py:21-99 | The reason list is empty iff all nine rules are satisfied. |
| Eligibility.CentralAdmitsEveryState | backend/services/eligibility_service.py:25-27 | A scheme whose state lower-cases to "central" never yields a state reason, whatever the profile's state. |
| Eligibility.StateMismatchReportedFirst | backend/services/eligibility_service.py:25-27 | A non-central state that differs case-insensitively from the profile's is reported first, naming the scheme's state as written. |
| Eligibility.AgeBoundsInclusive | backend/services/eligibility_service.py:30-36 | A minimum-age reason appears iff the scheme sets that minimum and the age is strictly below it; likewise strictly above for the maximum. An age equal to a bound passes. |
| Eligibility.IncomeBoundsInclusive | backend/services/eligibility_service.py:39-53 | A stated income gets a bound reason iff it is strictly outside that bound, and never gets a missing-income reason. |
| Eligibility.MissingIncomeReportedPerBound | backend/services/eligibility_service.py:39-53 | A missing income is reported once for each income bound the scheme sets, so twice when both are set. |
| Eligibility.OccupationHasNoWildcard | backend/services/eligibility_service.py:56-63 | A scheme occupation fails a profile without occupation, and fails a stated one iff it differs case-insensitively. There is no "any" wildcard. |
| Eligibility.WildcardsAlwaysPass | backend/services/eligibility_service.py:65-96 | A gender, caste or disability that is unset or lower-cases to "any" never yields a reason, even when the profile lacks the value. |
| Eligibility.CasteListMembership | backend/services/eligibility_service.py:74-83 | A constrained caste fails a profile without caste. A stated caste fails iff its lower-cased form is none of the scheme's "/"-separated entries, each trimmed and lower-cased. |
| Eligibility.AllowedCastesAsSet | backend/services/eligibility_service.py:80-81 | The list comprehension of accepted castes and the set it describes agree on membership. |
| Eligibility.DisabilityReasonKind | backend/services/eligibility_service.py:86-96 | A constrained disability fails a profile without one. On a case-insensitive mismatch the reason is "only for disabled" iff the scheme value lower-cases to "yes", else "not for disabled". A match gives no reason. |
| Eligibility.SingleFailure | backend/services/eligibility_service.py:21-96 | When exactly one rule fails, its reason is the only one. |
| Eligibility.CasteListExample | backend/services/eligibility_service.py:80-81 | "SC/ST/OBC" accepts exactly "sc", "st" and "obc". |
| Eligibility.CentralSchemeAdmitsStudent | backend/services/eligibility_service.py:21-99 | A Karnataka student within the age, income and caste limits of a central student scheme gets no reasons. |
| Eligibility.OtherStateRejectsStudent | backend/services/eligibility_service.py:25-27 | The same student is refused a scheme of any other non-central state, with the state reason only. |
| Eligibility.UntrimmedCasteRejected | backend/services/eligibility_service.py:80-83 | A profile caste " ST" is rejected by "SC/ST/OBC": the profile side is lower-cased but not trimmed. |
| Merge.UpsertSchemesFromSource | backend/ingestion/merge.py:10-73 | The loop computes the fold. On success: inserted + updated equals the records with a truthy id; inserted equals the ids new to the catalog; no entry is deleted; entries under other keys are unchanged. A failure names a record that would insert without a name. Every such record makes the batch fail, at it or earlier, so the failure is at the first one. |
| Merge.MergeAllCharacterized | backend/ingestion/merge.py:22-70 | The final keys are the old ones plus (source, id) for each truthy id. Every other entry is unchanged. Each touched entry is its starting scheme updated once from all the batch says about it. |
| Merge.MergeAllFailure | backend/ingestion/merge.py:50-55 | A batch fails only at a record whose truthy id is in neither the catalog nor an earlier record and which carries no "name" key. |
| Merge.NamelessInsertFails | backend/ingestion/merge.py:50-55 | A record whose truthy id is new to the catalog and to the earlier records, and which has no "name" key, makes the batch fail at that record or an earlier one. |
| Merge.MergeKeepsOthers | backend/ingestion/merge.py:27-32 | Lookup is by (source, id): entries under another source or id are kept as they were. |
| Merge.MergeCounts | backend/ingestion/merge.py:19-70 | Inserts are the ids new to the catalog; inserts plus updates are the records with a truthy id. |
| Merge.SkipIsNoOp | backend/ingestion/merge.py:23-25 | A record with a missing or empty id changes nothing and counts as neither an insert nor an update. |
| Merge.Update | backend/ingestion/merge.py:34-49 | An update never changes id, source, source id, gender, caste or disability, and sets the sync time to now. |
| Merge.UpdateColumn | backend/ingestion/merge.py:36-47 | Column by column: a mutable column whose key the record carries takes the record's value, even None. Every other column is kept. |
| Merge.Insert | backend/ingestion/merge.py:51-70 | An insert takes its provenance from the arguments, leaves id, gender, caste and disability unset, and stamps now. |
| Merge.InsertColumn | backend/ingestion/merge.py:51-68 | Column by column: an insert takes each mutable column from the record (unset when absent) and leaves the rest unset. |
| Merge.InsertIsBlankUpdate | backend/ingestion/merge.py:34-70 | An insert equals an update of the blank scheme with the same provenance. |
| Merge.UpdateCompose | backend/ingestion/merge.py:36-48 | Two updates in a row equal one update from the two records overlaid, the later winning key by key. |
| Merge.MergeKeepsWellKeyed | backend/ingestion/merge.py:27-70 | Every entry stays stored under its own (source, id). |
| Merge.MergeTwiceFromEmpty | backend/test_ingestion.py:42-48 | Merging a batch twice from an empty catalog inserts each distinct id once. The second pass inserts nothing and updates every truthy record. The stored schemes differ only in their sync time. |
| Schemas.ParseProfile | backend/schemas.py:35-43 | Parsing succeeds iff every profile field is acceptable. A parsed profile is valid: age in [0, 120], income absent or at least 0. Every declared field of the parsed profile, encoded back, holds the value the input record holds (absent and None both read as None). A failure carries at least one error. |
| Schemas.ParseScheme | backend/schemas.py:5-20 | Parsing succeeds iff every scheme field is acceptable. A parsed scheme has a name, short description and state, ages in [0, 120] when present and incomes at least 0 when present. Every declared field of the parsed scheme, encoded back, holds the value the input record holds. A failure carries at least one error. |
| Schemas.ProfileRequiredFields | backend/schemas.py:36-38 | A profile lacking name, state or age is refused with that field reported missing. |
| Schemas.AgeOutOfRange | backend/schemas.py:38 | An age below 0 or above 120 is refused with the bound it crosses. |
| Schemas.ErrorsName | backend/schemas.py:5-43 | Every error names a declared field, and each missing required field is reported. |
| Schemas.ProfileRoundTrip | backend/schemas.py:35-43 | Every valid profile parses back from its own record unchanged. |
| Schemas.SchemeRoundTrip | backend/schemas.py:5-20 | Every valid scheme parses back from its own record unchanged. |
| Schemas.ParsedSchemeHasState | backend/schemas.py:10 | A parsed scheme always has the state the evaluator reads. |
| Classify.ClassifyQuestion | backend/services/mock_ai.py:37-88 | On the normalised text, each category is chosen iff its pattern list is mentioned and no earlier list is. |
| Classify.AnyIn | backend/services/mock_ai.py:58 | The pattern-by-pattern scan is true iff some pattern of the list occurs in the text. |
| Classify.EmptyQuestionIsGeneral | backend/services/mock_ai.py:47-88 | A missing or empty question is classified as general. |
| Classify.CaseInsensitive | backend/services/mock_ai.py:47 | Lower-casing the question first does not change its category. |
| Classify.RequirementsForIsDocuments | backend/services/mock_ai.py:62-74 | A text containing "requirements for" is an application question if it mentions an application pattern, else a documents question. |
| Classify.RequirementsForNeverDecides | backend/services/mock_ai.py:71-77 | No text classified as eligibility contains "requirements for". |
| Classify.ApplyWins | backend/services/mock_ai.py:53-59 | Any application pattern in the normalised text makes it an application question. |
| SchemeMatch.FindSchemeByName | backend/services/mock_ai.py:91-143 | The result is a member of the list. The first directly named scheme wins. Otherwise a scheme is returned iff some score reaches 3, and it is the earliest best-scoring one. |
| SchemeMatch.Significants | backend/services/mock_ai.py:105-106 | A word is kept iff it is not a stop word and is longer than two characters; every occurrence of a kept word is kept, so a repeated question word scores again. |
| SchemeMatch.SignificantsAppend | backend/services/mock_ai.py:106 | The filter distributes over concatenation, so kept words stay in their input order. |
| SchemeMatch.WordScore | backend/services/mock_ai.py:125-131 | A word scores 3 iff it occurs in the name; 2 iff not in the name but in the category; 1 iff in neither but in the short description; 0 iff in none of the three. |
| SchemeMatch.SharedNameWordReachesThreshold | backend/services/mock_ai.py:122-143 | A significant question word occurring in a scheme's name alone reaches the threshold. |
| SchemeMatch.NameWordsEarnBonus | backend/services/mock_ai.py:133-136 | Two significant name words found in the question earn the bonus of 5, which passes the threshold. |
| SchemeMatch.NoKeywordsOnlyBonus | backend/services/mock_ai.py:106-136 | A question without significant words scores only the bonus. |
| Dispatch.Respond | backend/services/mock_ai.py:287-302 | Greetings come first, addressed to the profile's non-empty name. Then any thank-you word as a substring gets "you're welcome". Everything else is answered with its classified category. |
| Dispatch.GreetsWith | backend/services/mock_ai.py:290-291 | The scan is true iff the message is a greeting or starts with one followed by a space or comma. |
| Dispatch.Addressee | backend/services/mock_ai.py:292 | A greeting names the profile's name iff there is a profile with a non-empty name. |
| Dispatch.EligibilityReadAsThanks | backend/services/mock_ai.py:297-300 | As written, every non-greeting message containing "eligibility" gets "you're welcome". |
| Dispatch.RespondCorrected | backend/services/mock_ai.py:287-302 | As Respond, but only a whole thank-you word, less trailing punctuation, gets "you're welcome". |
| Dispatch.CorrectedNarrows | backend/services/mock_ai.py:298-299 | Every message the corrected test reads as thanks, the original does too. |
| Dispatch.CorrectedDiffersOnlyOnThanks | backend/services/mock_ai.py:297-303 | Where the two dispatches differ, the original says "you're welcome" and the corrected one answers the question. |
| Dispatch.EligibilityWordMisrouted | backend/services/mock_ai.py:297-303 | A one-word question containing "eligibility" (and none of the letters o, c, p, r, u, one of which occurs in every application and document pattern) is classified as eligibility. The original thanks the asker; the corrected dispatch answers it. |
| Dispatch.EligibilityQuestionQualifies | backend/services/mock_ai.py:287-303 | The question "eligibility" on its own meets those conditions: one word, no greeting, no whole thank-you word. |
| Dispatch.ThanksStillWelcomed | backend/services/mock_ai.py:297-300 | A message that is just a thank-you word, possibly with trailing punctuation, gets "you're welcome" under both dispatches. |
| Dispatch.PlainQuestionIsAnswered | backend/services/mock_ai.py:297-303 | Without a greeting or a thank-you substring, both dispatches answer with the classified category. |
| RateLimiter.Recent | backend/utils/rate_limiter.py:31 | Exactly the stored times with now - t < 60 are kept, each with all its copies: the count of every kept time equals its count in the input, and every other time is dropped. |
| RateLimiter.RecentAppend | backend/utils/rate_limiter.py:31 | The filter distributes over concatenation, so kept times stay in their input order. |
| RateLimiter.Admit | backend/utils/rate_limiter.py:31-39 | A request is allowed iff fewer than 20 times remain in the window. The new log is the pruned log with now appended at the end when allowed, and the pruned log alone when refused. |
| RateLimiter.CheckRateLimit | backend/utils/rate_limiter.py:17-39 | Only the address's own entry is written, and it becomes the admitted log. The verdict is "allowed" iff the window holds fewer than 20 requests. |
| RateLimiter.CheckKeepsWithinLimit | backend/utils/rate_limiter.py:31-39 | No log grows beyond 20 entries. |
| RateLimiter.CheckKeepsOrder | backend/utils/rate_limiter.py:31-39 | With a clock that does not run backwards, every log stays oldest-first. |
| RateLimiter.FullWindowRefuses | backend/utils/rate_limiter.py:33-35 | With 20 requests in the window, the request is refused and the pruned log is stored without it. |
| RateLimiter.ReplayLog | backend/utils/rate_limiter.py:17-39 | Over any non-decreasing sequence of request times, the log is exactly the admitted requests of the last 60 seconds, never more than 20. |
| RateLimiter.WindowGuarantee | backend/utils/rate_limiter.py:12-14 | For every request, at most 20 admitted requests fall in the 60 seconds ending at it. |
| Cleanup.CleanupDuplicates | backend/cleanup_duplicates.py:12-47 | The pass keeps the first row of each name and deletes the rest. The count deleted is the rows minus the distinct names. |
| Cleanup.SurvivorsAreFirsts | backend/cleanup_duplicates.py:21-36 | A row survives iff it is the first of its name. |
| Cleanup.SurvivorNamesDistinct | backend/cleanup_duplicates.py:28-37 | The surviving rows have pairwise distinct names. |
| Cleanup.EveryNameSurvives | backend/cleanup_duplicates.py:28-37 | Every name of the input keeps a row. |
| Cleanup.KeptHasSmallestId | backend/cleanup_duplicates.py:18-36 | With rows in id order, the row kept for a name has the smallest id of that name. |
| Cleanup.UniqueNameKept | backend/cleanup_duplicates.py:21-29 | A row whose name occurs once is kept and is not among the deleted rows. |
| Cleanup.DuplicatesAreLaters | backend/cleanup_duplicates.py:28-37 | A row is deleted iff it is a row of the input that some earlier row shares its name with. |
| Cleanup.DeletedIffNotFirst | backend/cleanup_duplicates.py:18-37 | With rows in id order, row i is deleted iff an earlier row has its name, and kept iff none does. |
| Cleanup.CaseSensitive | backend/cleanup_duplicates.py:21-23 | "PM Kisan" and "pm kisan" are different names and both stay. |
| Cleanup.CleanupIdempotent | backend/cleanup_duplicates.py:28-37 | A second cleanup deletes nothing. |

## Left out

- Lower-casing is ASCII only. Python's `str.lower` also folds non-ASCII letters; the models' data is ASCII.
- Reason texts, and the thousands-separator formatting of incomes, are structured reason constructors rather than strings.
- The eligibility score is the integer 1 or 0 rather than the float 1.0 or 0.0.
- Eligibility.CheckEligibility: requires a scheme with a state. The source calls `.lower()` on it and would raise on a missing one, and the stored column is NOT NULL.
- The database session, the query, `commit` and the per-record `datetime.utcnow()` are left out. The merge takes one clock reading `now` for the whole batch.
- Whether a repeated identifier within one batch is seen by the lookup depends on the session flushing. The model assumes it is: later records see earlier inserts.
- An identifier is truthy only when it is a non-empty text. An integer identifier in a record is treated as missing, because normalised records carry text identifiers.
- The NOT NULL rejection on commit is left out, both for an inserted scheme without state or short description, or whose record carries `"name": None`, and for an update that writes None into name, short description or state. It is a storage error, not part of the merge logic.
- Merge.UpsertSchemesFromSource: a value of the wrong type for its column (for example "min_age": "18") is stored as None, whereas the source stores the raw value. The source's docstring (backend/ingestion/merge.py:13) asks for normalized records; the column lemmas Merge.UpdateColumn and Merge.InsertColumn assume them.
- Eligibility.ListedOnce: the source appends the same sentence for a missing income at both bounds (backend/services/eligibility_service.py:42 and :50). The model keeps the two apart as IncomeRequired(true) and IncomeRequired(false), so that one text appears twice in the source when both bounds are set.
- Validation is pydantic's strict shape: a value of the wrong type is an error. Its lax coercions, such as "20" to 20, are left out.
- The response bodies after the dispatch are left out: the answer templates, `summarize_scheme`, `explain_eligibility`, and the use of the looked-up scheme in an answer. Only the kind of reply is modelled.
- The limiter's `time.time()` is a float. The model uses an integer clock in seconds.
- The limiter's state is an explicit map passed in and returned. The module-level dictionary and concurrent callers are left out.
- The cleanup's printed messages and the final count query are left out. Deletions are returned as the list of deleted rows in row order, rather than issued group by group.

## Findings

| source | as written | input that shows it | evidently intended | confidence | as-written member | corrected member |
|---|---|---|---|---|---|---|
| backend/services/mock_ai.py:298-299 | A message is read as a thank-you when any thank-you word occurs anywhere in it as a substring. | "eligibility" (or any non-greeting question containing "ty", "thx" or "thank") | Only a whole word such as "thanks" or "ty", possibly followed by punctuation, is a thank-you; other questions are classified and answered. | high; not executed | Dispatch.Respond, Dispatch.EligibilityReadAsThanks | Dispatch.RespondCorrected, Dispatch.EligibilityWordMisrouted |
