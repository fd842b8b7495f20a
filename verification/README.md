# User events service — a verified model

`api.py` is a small HTTP service that keeps an ordered, append-only list of
user events in memory and persists it after each change. Clients submit events
as JSON (one object or an array of objects) or as plain text (one event per line,
`user_id event_type event_timestamp`). They then query the list: filtered by user
and/or type, grouped by user or by type, or summarised as overall statistics. A
delete request clears it.

This project models the logic inside the handlers as pure Dafny functions over a
`seq<Event>` and proves what each operation promises:

| file | module | what it models |
|---|---|---|
| `wrappers.dfy` | `Wrappers` | `Option` and `Result` |
| `json.dfy` | `JsonValues` | decoded JSON values and Python's `key in value` on them |
| `text.dfy` | `Text` | `str.strip()`, `str.split()` and `str.split('\n')` with Python's whitespace set |
| `sequences.dfy` | `Sequences` | list comprehensions with a condition (`Select`), subsequences, counting |
| `events.dfy` | `Events` | the event record, its JSON object view, the persisted snapshot, the text line parser |
| `ingestion.dfy` | `Ingestion` | the POST handler: JSON batch, JSON object, text, unsupported content type |
| `queries.dfy` | `Queries` | filtering, per-user and per-type grouping, statistics, clearing |
| `service.dfy` | `Service` | the store over a run of the service: POSTs and DELETEs in order, each followed by a save |

Modelling choices:

- The server clock is an input. Each submission receives one `stamp` string,
  which becomes the `added_at` of every record it adds.
- A record keeps `user_id`, `event_type` and `event_timestamp` as the JSON values
  the client sent. The handler only checks that these keys are present, never what
  their values are. Every other field the client sent goes into `extra`, unchanged.
  Records parsed from text carry three strings and no extra fields.
- The JSON branch keeps Python's behaviour on values that are not objects.
  - `key in v` searches the elements of an array and the substrings of a string.
    On `null`, booleans and numbers it raises.
  - Stamping `added_at` into an array or a string raises.
  - A body that is not valid JSON makes the decoder raise.
  - Every such exception reaches the handler's catch-all and answers HTTP 500.
    The model calls this `InternalError` and leaves the store unchanged.
- The Content-Type header is compared with `application/json` and `text/plain`
  as exact strings, as the code does. So a header such as
  `text/plain; charset=utf-8` is an unsupported content type.
- A query parameter filters only when it is given and non-empty, which is
  Python's truthiness. A filter matches a record whose field is that JSON string.
- Python's sets and dictionaries become Dafny sets and maps, so the model
  promises no listing order for users or types.
- The most active user is the first user, in order of first appearance in the
  store, among those with the largest count. This matches `max` over a
  dictionary, which keeps the first maximal entry in insertion order.

## Model

| member | source | states |
|---|---|---|
| Text.TrimStart | api.py:33 | what `lstrip` removes is all whitespace, and what remains is a suffix of the input that is empty or starts with a non-space |
| Text.TrimEnd | api.py:33 | what `rstrip` removes is all whitespace, and what remains is a prefix of the input that is empty or ends with a non-space |
| Text.Tokens | api.py:33 | every token produced by `split()` is non-empty and free of whitespace; which tokens they are is stated by Text.TokensOfSpaced |
| Text.TokensIgnoreStrip | api.py:33 | `line.strip().split()` has the same tokens as `line.split()` |
| Text.TokensWordSepThen | api.py:33 | a word followed by any non-empty run of whitespace is the first token, and the tokens of the rest follow it |
| Text.TokensOfSpaced | api.py:33 | splitting words separated by non-empty runs of any whitespace, of any lengths, gives the words back |
| Text.TokensOfJoin | api.py:33 | splitting words joined by single spaces gives the words back |
| Text.TokensIgnorePadding | api.py:33 | whitespace before and after a string does not change its tokens |
| Text.BlankIffNoTokens | api.py:126 | a line is blank after `strip()` exactly when it has no tokens |
| Text.Split | api.py:122 | `split('\n')` yields at least one piece, even for an empty string |
| Text.SplitPiecesFree | api.py:122 | no piece of `split('\n')` contains the separator |
| Text.SplitSnocSeparator | api.py:122 | a trailing separator adds exactly one empty last piece |
| Text.SplitSnocOther | api.py:122 | a trailing character other than the separator extends the last piece and leaves the others alone |
| Text.JoinSplit | api.py:122 | splitting a string and joining the pieces with the separator gives the string back |
| Text.SplitJoin | api.py:122 | joining separator-free pieces and splitting gives the pieces back |
| Sequences.Select | api.py:71 | a conditional list comprehension keeps only elements satisfying the condition and never grows the list |
| Sequences.SelectIsSubsequence | api.py:71 | a conditional list comprehension yields an order-preserving subsequence |
| Sequences.SelectCounts | api.py:71 | a conditional list comprehension keeps every copy of each satisfying element and none of the others |
| Sequences.SelectTwice | api.py:70-74 | filtering by one condition and then another equals filtering once by both |
| Sequences.SumCountsPartition | api.py:172-174 | counting the occurrences of each distinct value, over a list of all values without repeats, sums to the length |
| JsonValues.Contains | api.py:106 | Python's `key in value` raises exactly on null, booleans and numbers, and on an object tests the key |
| Ingestion.HasAllKeys | api.py:106 | the three-key `all(...)` check raises exactly on scalars, and on an object says whether all required keys are present |
| Events.StampObject | api.py:107 | an accepted object becomes a well-formed record whose object view is the submitted object with `added_at` set to the stamp |
| Events.ObjectRoundTrip | api.py:19-22 | the object view of a stored record reads back as the same record |
| Events.SnapshotRoundTrip | api.py:16-29 | loading (`Restore`) the document saved by `Snapshot` gives back the same ordered store of well-formed records |
| Service.SavedStoreReloads | api.py:16-29 | whatever POSTs and DELETEs the service has handled since it started empty, the document saved last loads back as the current store |
| Events.ParseLine | api.py:31-41 | a parsed line gives a well-formed record carrying the stamp |
| Events.ParseLineAccepts | api.py:31-41 | a line parses exactly when it has at least three tokens, and the record holds tokens 0, 1 and 2 |
| Events.ParseLineFromTokens | api.py:33-41 | the parser's result depends only on the line's tokens, and further tokens are ignored |
| Events.ParseLineOfWords | api.py:31-41 | a line of words separated by runs of any whitespace, with whitespace around it, parses to its first three words, or to nothing when it has fewer than three |
| Events.ExampleTabbedLine | api.py:31-41 | `u1<TAB>click  2024` parses to the record of `u1`, `click` and `2024` |
| Events.BlankLineRejected | api.py:126-128 | a blank line never yields a record |
| Ingestion.AdmitBatch | api.py:105-108 | every record a batch yields is well formed and carries the stamp |
| Ingestion.AdmitCases | api.py:106-108 | `Admit` on one JSON value raises exactly when `in` or stamping raises, is dropped exactly when it lacks a key, and otherwise becomes the stamped record |
| Ingestion.AdmitBatchSelects | api.py:102-109 | a batch fails exactly when an element raises; otherwise it yields the stamped complete objects, in order |
| Ingestion.JsonBatchIngest | api.py:102-109 | an array appends exactly its complete objects in order, stamped with other fields kept, and drops the rest silently; a raising element leaves the store unchanged |
| Ingestion.ObjectBatchSucceeds | api.py:105-109 | an array of objects always succeeds and adds one record per complete object |
| Ingestion.JsonObjectIngest | api.py:110-117 | a single object missing a key is refused with the store unchanged; otherwise the store grows by one and its new last record is the stamped object |
| Ingestion.JsonScalarIngest | api.py:110-117 | a single scalar or string is refused with the store unchanged |
| Ingestion.JsonUndecodable | api.py:98-100 | an undecodable JSON body is refused with the store unchanged |
| Ingestion.AddEventsKeepsWellFormed | api.py:93-145 | a submission, accepted or refused, leaves every record of the store well formed |
| Service.RunKeepsWellFormed | api.py:92-188 | any sequence of POSTs and DELETEs keeps every record of the store well formed |
| Ingestion.AddEvents | api.py:93-145 | a refused submission leaves the store unchanged, and an accepted one appends exactly its stamped records; an unsupported content type is refused and text is always accepted |
| Ingestion.LineRecord | api.py:126-128 | a line the handler keeps gives a well-formed record carrying the stamp |
| Ingestion.LineRecordCases | api.py:125-128 | the handler keeps a line exactly when it has three tokens, and the record holds the line's first three tokens |
| Ingestion.ParseLines | api.py:124-130 | the records of the lines are at most one per line, each well formed and stamped |
| Ingestion.ParseLinesSelects | api.py:124-130 | parsing the lines gives the records of exactly the accepted lines, in input order |
| Ingestion.ParseLinesAppend | api.py:125-130 | parsing lines one after another is the same as parsing them all at once |
| Ingestion.ParseIgnoresLeadingSpace | api.py:122 | leading whitespace of the body changes no record |
| Ingestion.ParseIgnoresTrailingSpace | api.py:122 | trailing whitespace of the body changes no record |
| Ingestion.ParseTextIgnoresStrip | api.py:122 | stripping the body before splitting it into lines changes no record |
| Ingestion.TextIngest | api.py:119-130 | text always succeeds and appends `ParseText`'s records, which are exactly the accepted lines' records in order; it grows the store by that many and keeps the old store as a prefix |
| Ingestion.TextRoundTrip | api.py:119-130 | a body written from rows of words yields one record per row of three or more words, in row order |
| Ingestion.ExampleBatch | api.py:102-109 | an array holding one complete object and one object without `user_id` stores only the first |
| Ingestion.ExampleText | api.py:119-130 | a body holding a three-token line and a one-token line stores only the first |
| Queries.FilterEventsOnePass | api.py:68-74 | the two successive filters equal a single pass that keeps the records matching every given filter |
| Queries.FilterEventsSpec | api.py:62-80 | `FilterEvents` returns an order-preserving subsequence that holds every copy of exactly the matching records, and the whole store when no filter is given |
| Queries.UserEventsIsFilter | api.py:85 | `UserEvents`, a user's events, are the events filtered by that user alone, and there are as many as the user has events |
| Queries.SelectLengthIsOccurrences | api.py:174 | the list of events carrying a value is as long as the value's number of occurrences |
| Queries.OccurrencesPositive | api.py:150 | a value is among the distinct values exactly when some event carries it |
| Queries.CountBySpec | api.py:169-174 | in `TypeCounts` (`CountBy` on the event type) a type is counted exactly when some event has it, and its count is its positive number of events |
| Queries.UserSummariesSpec | api.py:150-158 | in `UserSummaries` a user is listed exactly when some event carries it, with their event count and exactly the types of their events |
| Queries.CountsSumToTotal | api.py:172-174 | the counts of all distinct values, listed in any order, sum to the number of events |
| Queries.UserCountsSumToTotal | api.py:153-158 | the users' event counts sum to the number of events |
| Queries.TypeCountsSumToTotal | api.py:172-174 | the types' counts sum to the number of events |
| Queries.CountPerUser | api.py:204-207 | the counting loop yields one entry per distinct user, holding that user's number of events |
| Queries.MostActive | api.py:209 | the user picked has a count at least every user's, and each user appearing earlier has a strictly smaller count; there is none only for an empty store |
| Queries.ComputeStats | api.py:191-219 | an empty store gives zeros and no most active user; otherwise the event total, the distinct-user count, the distinct types and the first user with the largest count |
| Queries.MostActiveUnique | api.py:209 | the statistics determine a single most active user |
| Queries.StrictMaximumIsReported | api.py:209 | a user with strictly more events than all others is the one reported |
| Queries.ClearEmptiesEveryView | api.py:182-188 | after `Clear`, every filter, user listing, type listing and snapshot is empty |

## Left out

- The documentation route `home`, and the port and environment configuration, are
  left out. They contain no logic over the store.
- HTTP is not modelled: routing, status codes, `jsonify`, response bodies and
  messages. A refusal is a `Result` failure naming its reason.
- File I/O is reduced to the document that is written and read back. The model
  covers neither a failed write nor a missing or corrupt file. When `save_data`
  fails after a record has been appended, the source returns HTTP 500 but keeps
  the record in memory; the model has no failing write.
- Ingestion.AddEvents: one clock reading stamps every record of a submission. The
  source reads the clock once per record, and ISO formatting is not modelled.
- Events.Restore: reads only documents that hold records. The source's
  `load_data` accepts any JSON document as the store.
- Service.SavedStoreReloads: starts from an empty store, as on a first start with
  no data file. A store loaded from an earlier file is covered by
  Service.RunKeepsWellFormed only when its records are well formed.
- JSON numbers are integers; floats are not modelled. Python's `True == 1` and
  `1 == 1.0` equalities are not modelled either. A filter compares with a string,
  and no string equals a number in Python, so filtering is unaffected.
- Queries.UserSummaries: does not model the exception Python raises when a
  `user_id` or `event_type` is an array or object (unhashable), which turns
  GET /users, GET /event-types and GET /stats into HTTP 500 errors.
- Queries.ComputeStats: the empty-store answer omits the most active user entry
  altogether; the model reports `None` for it.
- Concurrency is not modelled. The source has no locking.
