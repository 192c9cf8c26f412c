# fhir_conditions_manager, modelled in Dafny

This project models the core of `fhir_conditions_manager`: a store of FHIR R4
`Condition` resources for one patient, with hygiene features for a
clinician-facing assistant. The modelled operations are:

- **Ingestion.** Raw condition dictionaries become normalised
  `ConditionRecord`s. Each record gets its codes bucketed by code system, a
  normalised clinical status, a lower-cased search text, a display name, its
  onset period, up to six data-quality flags and its "derived-from" links.
  Records are added to the store, first write wins. Per-batch metrics go to
  the monitoring dashboard.
- **The store.** Records are kept by resource id, in insertion order. Removal
  is soft: a removed record keeps its data, is marked removed, and never
  becomes active again.
- **Corrections.** Bulk soft removal of active records by substring, by exact
  code, by id, or by a named OR-of-criteria predicate (`tuberculosis`,
  `admin_codes`). Each operation that matched something writes one audit
  entry.
- **Retrieval.** Active records are filtered by text, code (optionally within
  one code system) and status. They are grouped by a canonical code (ICD-10,
  then SNOMED, then ICD-9, else the lower-cased display name), and overlapping
  onset periods are detected within each group. Groups are ordered by
  encounter count, largest first and stable, then cut to `max_results` and
  summarised.
- **Monitoring.** An append-only ledger of ingestion batches with running
  per-flag totals, and an append-only audit log of corrections.

Modules follow the source files:

| module | file | models |
|---|---|---|
| `Base` | `base.dfy` | `Option`, `Result`, and a list comprehension (`Filter`) with its facts |
| `Text` | `text.dfy` | `str.lower`, `str.strip`, the substring test `in`, `str.join` |
| `Sorting` | `sorting.dfy` | `sorted(..., key=...)` as a stable insertion sort, with its facts |
| `ConditionModel` | `condition_model.dfy` | `condition_model.py` |
| `Storage` | `condition_store.dfy` | `condition_store.py` (class `ConditionStore`) |
| `Monitoring` | `monitoring.dfy` | `monitoring.py` (class `MonitoringDashboard`) |
| `Ingestion` | `ingestion.dfy` | `ingestion.py` |
| `Corrections` | `corrections.dfy` | `corrections.py` (class `CorrectionEngine`) |
| `Retrieval` | `retrieval.dfy` | `retrieval.py` |

Representation choices:

- **The store.** `ConditionStore` holds a `map` from id to record plus a
  `seq` of ids, which is the dictionary's insertion order. `Valid()`
  says the two describe the same keys, without duplicates, each record
  filed under its own id.
- **The dashboard and the correction engine.** `MonitoringDashboard` keeps
  its running totals equal to the per-flag sums over every recorded batch;
  that is its `Valid()`. `CorrectionEngine` holds the store and the
  dashboard.
- **Python sets of codes.** These are duplicate-free sequences in
  first-seen order. The source's `next(iter(codes))` becomes the first
  code seen.
- **Time.** Timestamps are integers of seconds. Parsing an ISO string is a
  parameter `parse`, which returns `None` where `datetime.fromisoformat`
  raises. The date an onset is shown under (`isoformat()[:10]`) is the
  day number `seconds / 86400`. The "now" of an operation is a parameter.
- **Rendered text.** Retrieval and correction answers are structured
  values, not text: `GroupSummary`, `RetrievalResult`, `Message`.

Each operation is specified against a function of its inputs, or of the
old state, and lemmas prove what the source promises about that function:

- Ingestion accounts for every input exactly once. It adds just the
  records with a fresh id, and counts each flag once per added record.
- Removal only ever moves records from active to removed.
- The active and removed lists partition the store.
- A correction marks exactly the active records it matches. It never
  touches another record, and it logs one audit entry exactly when it removed something.
- Grouping puts every record in exactly one group, sums the encounter
  counts to the number of records, orders groups by encounter count and
  keeps arrival order among ties.
- The neighbour-only overlap scan finds every overlapping pair of
  start-sorted periods.
- Retrieval's header counts, its truncation note and its summaries are
  those of the grouped matches.

Two details of the source:

- The search text interleaves each coding's display and code
  (`fhir_conditions_manager/ingestion.py:60-64`).
- The `tuberculosis` predicate's text patterns include "tuberculosis"
  (`fhir_conditions_manager/corrections.py:28`).

## Model

| member | source | states |
|---|---|---|
| `Base.PySliceTo` | fhir_conditions_manager/retrieval.py:207 | Python's `s[:n]` for any integer `n`: a prefix whose length is `n` clipped to the sequence, or the length plus a negative `n`, never below 0 |
| `Base.Filter` | fhir_conditions_manager/condition_store.py:29 | a list comprehension keeps only satisfying elements, keeps every satisfying element, and is no longer than its input |
| `Base.FilterPartition` | fhir_conditions_manager/condition_store.py:27-33 | filtering by a test and by its negation splits a list: the lengths add up and the two multisets sum to the original |
| `Base.FilterLosesOne` | fhir_conditions_manager/condition_store.py:40 | turning one element from satisfying to not satisfying the test shortens the filtered list by exactly one |
| `Base.FilterGainsOne` | fhir_conditions_manager/condition_store.py:40 | turning one element from not satisfying to satisfying the test lengthens the filtered list by exactly one |
| `Base.AddUnique` | fhir_conditions_manager/ingestion.py:43-44 | `set.add` on an insertion-ordered set: unchanged when present, appended when absent, keeps it duplicate free |
| `Base.NoDupCardinality` | fhir_conditions_manager/ingestion.py:39 | a duplicate-free sequence holds as many distinct values as it has positions, so it is a faithful stand-in for a set |
| `Text.LowerChar` | fhir_conditions_manager/ingestion.py:51 | a lower-cased character is not upper case, is whitespace exactly when the original is, and equals the original when that was not upper case |
| `Text.Lower` | fhir_conditions_manager/ingestion.py:51 | `str.lower` keeps the length and lower-cases character by character |
| `Text.LowerIsLower` | fhir_conditions_manager/ingestion.py:65 | the result of lower-casing has no upper-case letter |
| `Text.LowerOfLower` | fhir_conditions_manager/ingestion.py:65 | a string with no upper-case letter is unchanged by lower-casing, so lower-casing is idempotent |
| `Text.LowerConcat` | fhir_conditions_manager/ingestion.py:65 | lower-casing distributes over concatenation |
| `Text.LowerContains` | fhir_conditions_manager/retrieval.py:53-54 | a substring stays a substring when both strings are lower-cased |
| `Text.TrimLeft` | fhir_conditions_manager/ingestion.py:51 | removing leading whitespace yields a suffix that is empty or starts with a non-space character; everything removed is whitespace |
| `Text.TrimRight` | fhir_conditions_manager/ingestion.py:51 | removing trailing whitespace yields a prefix that is empty or ends with a non-space character; everything removed is whitespace |
| `Text.Strip` | fhir_conditions_manager/ingestion.py:51 | `str.strip`: drops leading and trailing whitespace; `StripSlice`, `StripEnds`, `StripDropsSpaces` and `StripKeeps` state its effect |
| `Text.StripSlice` | fhir_conditions_manager/ingestion.py:51 | `str.strip` returns a contiguous slice of its input |
| `Text.StripEnds` | fhir_conditions_manager/ingestion.py:51 | `str.strip` leaves no whitespace at either end |
| `Text.StripDropsSpaces` | fhir_conditions_manager/ingestion.py:51 | everything `str.strip` drops is whitespace |
| `Text.StripKeeps` | fhir_conditions_manager/ingestion.py:51 | a string with no whitespace at either end is unchanged by `str.strip` |
| `Text.StripPaddedWord` | fhir_conditions_manager/ingestion.py:51 | stripping one space on each side of a word gives the word |
| `Text.LowerStripClean` | fhir_conditions_manager/ingestion.py:51 | a stripped, lower-cased status text is lower case with no whitespace at either end |
| `Text.Contains` | fhir_conditions_manager/retrieval.py:54 | Python's `p in text` on strings: `p` occurs at some position of `text` |
| `Text.StartsWithContains` | fhir_conditions_manager/ingestion.py:65 | a prefix occurs in the string |
| `Text.ContainsTransitive` | fhir_conditions_manager/retrieval.py:53-54 | an occurrence inside an occurrence is an occurrence |
| `Text.Join` | fhir_conditions_manager/ingestion.py:65 | `sep.join(parts)`: the parts in order with `sep` between neighbours; `JoinContainsPart` and `JoinStartsWithFirst` state what it contains |
| `Text.JoinContainsPart` | fhir_conditions_manager/ingestion.py:65 | joining with any separator contains every part |
| `Text.JoinStartsWithFirst` | fhir_conditions_manager/ingestion.py:65 | joining with any separator starts with the first part |
| `Text.LexLessIrreflexive` | fhir_conditions_manager/corrections.py:80 | string order is strict: no string sorts before itself |
| `Sorting.Insert` | fhir_conditions_manager/retrieval.py:80 | inserting into a list adds exactly that element: one more position and the same multiset plus it |
| `Sorting.SortBy` | fhir_conditions_manager/retrieval.py:80 | `sorted` returns a permutation of its input |
| `Sorting.SortBySorted` | fhir_conditions_manager/retrieval.py:80 | `sorted` returns its input in non-decreasing key order |
| `Sorting.SortByStable` | fhir_conditions_manager/retrieval.py:134 | `sorted` is stable: the elements with any one key keep their original relative order |
| `Sorting.SortBySum` | fhir_conditions_manager/retrieval.py:134 | sorting does not change a sum over the elements |
| `Sorting.InsertSorted` | fhir_conditions_manager/retrieval.py:80 | inserting into a sorted list keeps it sorted |
| `Sorting.InsertStable` | fhir_conditions_manager/retrieval.py:134 | inserting places the element after every element with the same key |
| `ConditionModel.Validate` | fhir_conditions_manager/condition_model.py:55-65 | validation succeeds exactly when the resource has an `id`; `resourceType` defaults to `"Condition"` and the other fields are carried over |
| `ConditionModel.SeverityOf` | fhir_conditions_manager/condition_model.py:10-17 | `admin_code` and `vague_entry` are high, the two status flags medium, `short_duration` and `missing_icd10` low, and exactly the six emitted flags have metadata |
| `ConditionModel.MetadataCoversEmittedFlags` | fhir_conditions_manager/condition_model.py:10-17 | the metadata table's keys are exactly the six flags, one entry each |
| `ConditionModel.NewRecord` | fhir_conditions_manager/condition_model.py:74-100 | a fresh record has the dataclass defaults: no codes, status `"unknown"`, empty search text and display name, no onset, no flags, no links, not removed, no batch |
| `ConditionModel.RemovalLabel` | fhir_conditions_manager/corrections.py:129 | `f"{display_name} ({resource_id[:8]})"`: the display name, then the first eight characters of the id in parentheses |
| `ConditionModel.MarkRemoved` | fhir_conditions_manager/condition_store.py:40-42 | a soft removal sets `is_removed`, the reason and the timestamp, keeps the record consistent, and changes no other field |
| `ConditionModel.Prefix` | fhir_conditions_manager/corrections.py:129 | `s[:8]`: the first eight characters, or the whole string when it is shorter |
| `Storage.Ids` | fhir_conditions_manager/condition_store.py:45-48 | the ids of a list of records, position by position |
| `Storage.ValuesInOrder` | fhir_conditions_manager/condition_store.py:47 | `dict.values()`: the record filed under each key, in key order |
| `Storage.ValuesInOrderUpdate` | fhir_conditions_manager/condition_store.py:40-42 | replacing one stored record replaces that one position of `values()` and nothing else |
| `Storage.RemovalMovesOne` | fhir_conditions_manager/condition_store.py:55-63 | marking one active record removed lowers the active count by one and raises the removed count by one |
| `Storage.FilterKeepsIdsDistinct` | fhir_conditions_manager/condition_store.py:27-29 | a filtered list of records with distinct ids still has distinct ids |
| `Storage.MarkingActiveIsMonotone` | fhir_conditions_manager/condition_store.py:38-42 | overwriting an active record never reactivates a removed one, drops a key, or changes another key's record |
| `Storage.InsertKeepsIndexed` | fhir_conditions_manager/condition_store.py:18-20 | inserting a record under a new id appends it to `values()` and raises exactly the matching count |
| `Storage.AppendKeepsIndexed` | fhir_conditions_manager/condition_store.py:20 | inserting under a new id keeps the store's map and key order consistent |
| `Storage.ValuesInOrderAppend` | fhir_conditions_manager/condition_store.py:20 | a new key appended to the order appends its record to `values()` |
| `Storage.RemovalKeepsIndexed` | fhir_conditions_manager/condition_store.py:38-43 | soft-removing an active record keeps the store consistent, moves one record from active to removed and is removal-monotone |
| `Storage.ReplaceKeepsIndexed` | fhir_conditions_manager/condition_store.py:40-42 | replacing an active record by one with the same id keeps the store consistent and removal-monotone |
| `Storage.IndexOf` | fhir_conditions_manager/condition_store.py:23-25 | the position at which a present key occurs |
| `Storage.ConditionStore.constructor` | fhir_conditions_manager/condition_store.py:12-14 | a new store is empty and consistent |
| `Storage.ConditionStore.Iterate` | fhir_conditions_manager/condition_store.py:45-48 | `iterate` yields every stored record once, in insertion order, each the one filed under its id |
| `Storage.ConditionStore.GetAllActive` | fhir_conditions_manager/condition_store.py:27-29 | the stored records not yet removed, in insertion order; `CountsAddUp` and `ActiveSnapshot` prove it is exactly the active stored records, with distinct ids |
| `Storage.ConditionStore.GetAllRemoved` | fhir_conditions_manager/condition_store.py:31-33 | the stored records already removed, in insertion order; `CountsAddUp` proves that with the active list it partitions the store |
| `Storage.ConditionStore.TotalCount` | fhir_conditions_manager/condition_store.py:50-53 | the number of stored records; `TotalIsOrderLength` proves it is the length of the insertion order |
| `Storage.ConditionStore.ActiveCount` | fhir_conditions_manager/condition_store.py:55-58 | the number of records not yet removed; `CountsAddUp` proves it adds up with the removed count to the total |
| `Storage.ConditionStore.RemovedCount` | fhir_conditions_manager/condition_store.py:60-63 | the number of removed records; `CountsAddUp` proves it adds up with the active count to the total |
| `Storage.ConditionStore.GetById` | fhir_conditions_manager/condition_store.py:23-25 | `get_by_id` finds a record exactly when the id is stored, and the record found carries that id and is in the store |
| `Storage.ConditionStore.TotalIsOrderLength` | fhir_conditions_manager/condition_store.py:50-53 | `total_count` is the number of stored records |
| `Storage.ConditionStore.CountsAddUp` | fhir_conditions_manager/condition_store.py:27-33 | `get_all_active` and `get_all_removed` partition the stored records, so `active_count + removed_count == total_count` (lines 55-63) |
| `Storage.ConditionStore.ActiveSnapshot` | fhir_conditions_manager/condition_store.py:27-29 | the active list has distinct ids, holds exactly the stored records not removed, each the one filed under its id |
| `Storage.ConditionStore.Add` | fhir_conditions_manager/condition_store.py:16-21 | `add` adds exactly when the id is new (first write wins): it appends to the iteration order and raises the total and the matching count by one; otherwise it changes nothing; never un-removes |
| `Storage.ConditionStore.SoftRemove` | fhir_conditions_manager/condition_store.py:35-43 | `soft_remove` succeeds exactly when the id is stored and active, then marks that record only; counts move by one; order and total unchanged |
| `Monitoring.UnnamedFlagTotal` | fhir_conditions_manager/monitoring.py:49-52 | a flag that no batch counted has running total zero |
| `Monitoring.MonitoringDashboard.constructor` | fhir_conditions_manager/monitoring.py:41-45 | a new dashboard has no batches, no totals and no corrections |
| `Monitoring.MonitoringDashboard.RecordBatch` | fhir_conditions_manager/monitoring.py:47-52 | `record_batch` appends the batch and adds each of its flag counts to that flag's running total, other totals unchanged, keeping every total equal to the sum over all batches |
| `Monitoring.MonitoringDashboard.RecordCorrection` | fhir_conditions_manager/monitoring.py:54-67 | `record_correction` appends one audit entry with the given fields and touches nothing else |
| `Monitoring.MonitoringDashboard.GetSystemStatus` | fhir_conditions_manager/monitoring.py:72-100 | records loaded is the sum of `received`, conditions removed the sum of `records_affected`, corrections applied the number of entries; per-flag totals are the sums over the batches |
| `Ingestion.CodesOf` | fhir_conditions_manager/ingestion.py:32-45 | each system's set holds exactly the codes of codings with both a code and that system, without duplicates; `_all` holds exactly every such code |
| `Ingestion.CodedUnderStep` | fhir_conditions_manager/ingestion.py:41-43 | a code is listed under a system after one more coding exactly when it was before, or that coding carries it under that system |
| `Ingestion.CodedStep` | fhir_conditions_manager/ingestion.py:41-44 | a code is in `_all` after one more coding exactly when it was before, or that coding carries it with a system |
| `Ingestion.AddCodeKeepsListing` | fhir_conditions_manager/ingestion.py:43 | adding one coding's code keeps a system's set listing exactly that system's codes |
| `Ingestion.SystemCodesAmongAll` | fhir_conditions_manager/ingestion.py:43-44 | every code of every system is also in `_all` |
| `Ingestion.ExtractCodesBySystem` | fhir_conditions_manager/ingestion.py:32-45 | without a `code` concept all sets are empty; the ICD-10 set and `_all` hold exactly the codes the codings carry |
| `Ingestion.StatusKey` | fhir_conditions_manager/ingestion.py:51 | the stripped, lower-cased status text is lower case with no whitespace at either end |
| `Ingestion.StatusWordsClean` | fhir_conditions_manager/ingestion.py:25-29 | the normalisation table maps only to `"active"` and `"resolved"` |
| `Ingestion.NormalizeKey` | fhir_conditions_manager/ingestion.py:52 | a tabled key maps to its entry, an empty key to `"unknown"`, any other key to itself |
| `Ingestion.NormalizeClinicalStatus` | fhir_conditions_manager/ingestion.py:48-52 | no clinical status gives `"unknown"`; otherwise the normalised text, which is never empty and always lower case with no whitespace at either end |
| `Ingestion.QualifiedActiveIsActive` | fhir_conditions_manager/ingestion.py:27 | `"Active (qualifier value)"` normalises to `"active"` |
| `Ingestion.PaddedResolvedIsResolved` | fhir_conditions_manager/ingestion.py:51-52 | `" Resolved "` normalises to `"resolved"` |
| `Ingestion.UnknownWordIsKept` | fhir_conditions_manager/ingestion.py:52 | an unlisted status such as `"Inactive"` is kept, lower-cased |
| `Ingestion.BlankStatusIsUnknown` | fhir_conditions_manager/ingestion.py:51-52 | a blank or missing status text normalises to `"unknown"` |
| `Ingestion.SearchParts` | fhir_conditions_manager/ingestion.py:55-64 | no parts without a concept; otherwise its truthy text, then each coding's parts; `BuildSearchableText` and `CodingsAreSearchable` state what the joined text contains |
| `Ingestion.CodingParts` | fhir_conditions_manager/ingestion.py:60-64 | the parts of the codings are non-empty and include every non-empty display and code |
| `Ingestion.BuildSearchableText` | fhir_conditions_manager/ingestion.py:55-65 | the search text is lower case, contains every part lower-cased, starts with the concept text when there is one, and is empty without parts |
| `Ingestion.JoinedTextFacts` | fhir_conditions_manager/ingestion.py:65 | joining parts with spaces and lower-casing contains every part lower-cased and starts with the first |
| `Ingestion.CodingsAreSearchable` | fhir_conditions_manager/ingestion.py:60-64 | every non-empty display and code of a coding can be found in the search text |
| `Ingestion.FirstDisplay` | fhir_conditions_manager/ingestion.py:72-74 | the first non-empty display: present exactly when some coding has one, and no earlier coding does |
| `Ingestion.PickDisplayName` | fhir_conditions_manager/ingestion.py:68-75 | the concept text when non-empty, else the first non-empty coding display, else `"Unknown condition"`; never empty |
| `Ingestion.ParseInstant` | fhir_conditions_manager/ingestion.py:84-93 | a missing or empty timestamp is `None`; a present one is whatever the parser yields, `None` when it fails |
| `Ingestion.ParseOnsetDates` | fhir_conditions_manager/ingestion.py:78-94 | no onset period gives `(None, None)`; otherwise start and end are parsed independently |
| `Ingestion.StatusInconsistent` | fhir_conditions_manager/ingestion.py:110-114 | an active status with an end date, or a resolved status without one |
| `Ingestion.IsShort` | fhir_conditions_manager/ingestion.py:120-123 | both onset times are present and the end is after the start by less than a day |
| `Ingestion.FlagList` | fhir_conditions_manager/ingestion.py:104-127 | the fired flags in emission order; `FlagListMembers` and `FlagListOrdered` state which and in what order |
| `Ingestion.FlagListMembers` | fhir_conditions_manager/ingestion.py:104-127 | the flag list contains a flag exactly when its rule fired |
| `Ingestion.FiredExactly` | fhir_conditions_manager/ingestion.py:104-127 | each of the six flags fires exactly on its own condition, and every flag that fires has metadata |
| `Ingestion.FlagListOrdered` | fhir_conditions_manager/ingestion.py:104-127 | flags appear in the fixed emission order, each at most once |
| `Ingestion.RankAlongOrder` | fhir_conditions_manager/ingestion.py:107-125 | the emission order ranks the flags strictly increasingly |
| `Ingestion.FlagNamesDistinct` | fhir_conditions_manager/ingestion.py:108-125 | the six flag names are pairwise different |
| `Ingestion.HasAdminIndicator` | fhir_conditions_manager/ingestion.py:116 | one of the three administrative indicator phrases occurs in the search text; `AdminIndicatorsAsSet` ties it to the indicator set |
| `Ingestion.HasVagueKeyword` | fhir_conditions_manager/ingestion.py:118 | one of the three vague-entry phrases occurs in the search text; `VagueKeywordsAsSet` ties it to the keyword set |
| `Ingestion.AdminIndicatorsAsSet` | fhir_conditions_manager/ingestion.py:116 | the admin test holds exactly when some indicator of the set occurs in the text |
| `Ingestion.VagueKeywordsAsSet` | fhir_conditions_manager/ingestion.py:118 | the vague-entry test holds exactly when some keyword of the set occurs in the text |
| `Ingestion.DetectQualityFlags` | fhir_conditions_manager/ingestion.py:97-127 | `missing_clinical_status` iff no status; `inconsistent_status` iff active with an end or resolved without; `admin_code`/`vague_entry` iff an indicator/keyword occurs in the search text; `short_duration` iff 0 < end − start < 86400 s; `missing_icd10` iff no ICD-10 code; ordered, distinct, all with metadata |
| `Ingestion.ExtractDerivedFromIds` | fhir_conditions_manager/ingestion.py:133-144 | one id per extension with the related-artifact URL, type `derived-from` and a `Condition/` display, in order, each the display minus its prefix |
| `Ingestion.DerivedFromIdsAppend` | fhir_conditions_manager/ingestion.py:135-143 | the ids of two extension lists put together are the ids of each, put together |
| `Ingestion.DerivedFromIdsExample` | fhir_conditions_manager/ingestion.py:136-143 | a well-formed link `Condition/abc` yields `abc`; any other extension yields nothing |
| `Ingestion.BuildConditionRecord` | fhir_conditions_manager/ingestion.py:147-171 | succeeds exactly when the raw resource has an id; the record is filed under it, keeps the validated condition, is active, tagged with the batch, and each field is its helper's result: the code lists, status, search text, display name, onset instants, flags and derived-from ids |
| `Ingestion.RecordFlagsAgreeWithFields` | fhir_conditions_manager/ingestion.py:147-171 | a built record's flags say exactly what its own fields show: missing status, inconsistent status, admin/vague text, short period, no ICD-10 code |
| `Ingestion.BareConditionRecord` | fhir_conditions_manager/ingestion.py:147-171 | a resource with only an id builds a record with status `"unknown"`, name `"Unknown condition"`, no codes, empty search text, resource type `"Condition"` |
| `Ingestion.BareConditionFlags` | fhir_conditions_manager/ingestion.py:97-127 | such a resource gets exactly `missing_clinical_status` and `missing_icd10` |
| `Ingestion.IngestTally` | fhir_conditions_manager/ingestion.py:183-198 | a batch's added, duplicate and error counts add up to the number of inputs |
| `Ingestion.IngestTallyErrors` | fhir_conditions_manager/ingestion.py:184-189 | the errors of a batch are exactly its inputs without an id |
| `Ingestion.IngestTallyAddsFresh` | fhir_conditions_manager/ingestion.py:191-197 | the added records have ids new to the store and pairwise distinct, and are well formed, active and tagged with the batch |
| `Ingestion.TallyNextKeeps` | fhir_conditions_manager/ingestion.py:183-198 | one more input keeps the tally's guarantees and adds one to exactly one counter |
| `Ingestion.IngestTallyStep` | fhir_conditions_manager/ingestion.py:183 | the tally of one more input is the previous tally advanced by that input |
| `Ingestion.CountFlags` | fhir_conditions_manager/ingestion.py:193-194 | each flag of an added record raises its count by one; other counts unchanged; no flag is counted as zero |
| `Ingestion.CountRecordFlags` | fhir_conditions_manager/ingestion.py:192-194 | after counting one more added record, each flag's count is the number of added records carrying it |
| `Ingestion.CountCarryingAppend` | fhir_conditions_manager/ingestion.py:193-194 | one more record raises a flag's carrier count by one exactly when it carries the flag |
| `Ingestion.OccurrencesNoDup` | fhir_conditions_manager/ingestion.py:193 | a flag occurs at most once in a record's flag list, so each record adds at most one to a flag's count |
| `Ingestion.OutcomeMeaning` | fhir_conditions_manager/ingestion.py:184-198 | an input is an error iff it fails to build, added iff its id is new to the store and to the batch, and a duplicate otherwise; each outcome raises only its own counter |
| `Ingestion.RemovalMonotoneTrans` | fhir_conditions_manager/condition_store.py:16-43 | never un-removing is preserved across successive store updates |
| `Ingestion.StoreOne` | fhir_conditions_manager/ingestion.py:185-198 | storing one built record yields the outcome the tally predicts and keeps the store equal to the initial records plus the added ones |
| `Ingestion.IngestOne` | fhir_conditions_manager/ingestion.py:183-198 | one loop iteration advances the counters, the flag counts and the store exactly as the tally does |
| `Ingestion.Account` | fhir_conditions_manager/ingestion.py:191-198 | counting a stored, duplicate or failed input after the store call matches the tally |
| `Ingestion.LoadBatch` | fhir_conditions_manager/ingestion.py:180-198 | the loop's counters and flag counts are those of the tally; the store is its old records followed by the added ones, in input order; nothing is un-removed |
| `Ingestion.IngestBatch` | fhir_conditions_manager/ingestion.py:174-208 | the metrics carry the batch number, `received == len(raws)`, the tally's counts (which add up to `received`) and per-flag counts over added records; the dashboard gets exactly this one batch; the store gets exactly the added records |
| `Ingestion.SplitIntoBatches` | fhir_conditions_manager/ingestion.py:211-217 | the halves put back together give the shuffled list; the first takes the middle element of an odd-length list |
| `Corrections.PredicatesNamedByKey` | fhir_conditions_manager/corrections.py:24-37 | each predicate is filed under its own name |
| `Corrections.PredicateNamesSorted` | fhir_conditions_manager/corrections.py:80 | the listed names are exactly the predicate names, each once, in sorted order |
| `Corrections.AnyOf` | fhir_conditions_manager/corrections.py:41-43 | a loop that returns on the first hit is true exactly when some element satisfies the test |
| `Corrections.Intersects` | fhir_conditions_manager/corrections.py:44-47 | a non-empty set intersection is exactly a shared code |
| `Corrections.MatchesPredicate` | fhir_conditions_manager/corrections.py:40-51 | a record matches exactly when a text pattern occurs in its search text, or it shares an ICD-10 or SNOMED code, or it carries one of the flags |
| `Corrections.TuberculosisMatches` | fhir_conditions_manager/corrections.py:25-31 | the `tuberculosis` predicate matches "tuberculosis" or "latent tb" in the text, or one of its two ICD-10 or two SNOMED codes; "hx of latent tb" adds nothing |
| `Corrections.AdminCodesMatches` | fhir_conditions_manager/corrections.py:32-36 | the `admin_codes` predicate matches exactly the records flagged `admin_code` |
| `Corrections.SweepOf` | fhir_conditions_manager/corrections.py:126-130 | the removal loop keeps the store's keys and each record's id, removes at most the matched records, and never un-removes |
| `Corrections.SweepNext` | fhir_conditions_manager/corrections.py:128-129 | one iteration keeps the keys and ids and never un-removes |
| `Corrections.SweepOfStep` | fhir_conditions_manager/corrections.py:127 | the loop over one more record is the previous loop followed by that record's iteration |
| `Corrections.SweepMovesCounted` | fhir_conditions_manager/corrections.py:126-136 | the loop keeps the store consistent and moves exactly as many records from active to removed as it lists |
| `Corrections.Labels` | fhir_conditions_manager/corrections.py:129 | one label per removed record: its display name and the first eight characters of its id |
| `Corrections.SweepRemovesAll` | fhir_conditions_manager/corrections.py:126-130 | over distinct active stored matches, the loop marks exactly those records removed and lists a label for each, in order |
| `Corrections.SweepOfActiveMatches` | fhir_conditions_manager/corrections.py:123-130 | sweeping the active records that satisfy a test marks exactly the active records satisfying it, lists their labels, and matches nothing exactly when no active record satisfies it |
| `Corrections.ActiveMatchesDistinct` | fhir_conditions_manager/corrections.py:62-66 | the active matches are active, stored and pairwise distinct in id |
| `Corrections.ActiveMatchesListed` | fhir_conditions_manager/corrections.py:62-66 | an id is among the active matches exactly when its record is active and satisfies the test |
| `Corrections.ActiveMatchIsListed` | fhir_conditions_manager/corrections.py:62 | an active stored record that satisfies the test is among the matches |
| `Corrections.ListedIsActiveMatch` | fhir_conditions_manager/corrections.py:62 | any match is a stored active record that satisfies the test |
| `Corrections.StoredValue` | fhir_conditions_manager/condition_store.py:29 | a record in the store's values is the one filed under its id |
| `Corrections.CorrectionEngine.constructor` | fhir_conditions_manager/corrections.py:56-58 | the engine holds the given store and dashboard |
| `Corrections.TextMatches` | fhir_conditions_manager/corrections.py:61-62 | the lower-cased target occurs in the record's search text |
| `Corrections.CodeMatches` | fhir_conditions_manager/corrections.py:66 | the code is among the record's `all_codes`, compared exactly |
| `Corrections.CorrectionEngine.NoMatch` | fhir_conditions_manager/corrections.py:142-148 | a failure naming the target, nothing removed, the current active count |
| `Corrections.CorrectionEngine.AlreadyRemovedResult` | fhir_conditions_manager/corrections.py:150-156 | a failure saying the target is already removed, nothing removed, the current active count |
| `Corrections.CorrectionEngine.ApplyRemovals` | fhir_conditions_manager/corrections.py:116-140 | no matches gives the no-match result and changes nothing; otherwise the store is the loop's result, one audit entry counts the removals, and the result reports them and the remaining active count |
| `Corrections.CorrectionEngine.SoftRemoveAll` | fhir_conditions_manager/corrections.py:126-130 | the imperative loop computes exactly the reference sweep: the same store and the same labels |
| `Corrections.CorrectionEngine.RemoveWhere` | fhir_conditions_manager/corrections.py:116-140 | exactly the active records satisfying the test are marked removed, others untouched; success iff one existed; labels of the matches in store order; one audit entry iff success |
| `Corrections.CorrectionEngine.RemoveByText` | fhir_conditions_manager/corrections.py:60-63 | removes exactly the active records whose search text contains the lower-cased target; the active count falls by the number removed; one `remove_by_text` entry iff something was removed |
| `Corrections.CorrectionEngine.RemoveByCode` | fhir_conditions_manager/corrections.py:65-67 | removes exactly the active records carrying the code (exact match); one `remove_by_code` entry iff something was removed |
| `Corrections.CorrectionEngine.RemoveById` | fhir_conditions_manager/corrections.py:69-75 | an unknown id gives no-match and changes nothing; a removed one gives already-removed and changes nothing; an active one is marked removed alone, labelled, and logged once, with the store's order and the dashboard's batches and flag totals unchanged |
| `Corrections.CorrectionEngine.RemoveByPredicate` | fhir_conditions_manager/corrections.py:77-89 | an unknown name fails listing the sorted names and changes nothing; a known one removes exactly the active records it matches and logs once iff any |
| `Corrections.CorrectionEngine.ListCorrections` | fhir_conditions_manager/corrections.py:91-105 | the audit log, its length, and the store's removed count |
| `Corrections.CorrectionEngine.GetStatus` | fhir_conditions_manager/corrections.py:107-111 | the store's active and removed counts, which add up to the total, with the dashboard's sums |
| `Corrections.CorrectionEngine.GetAvailablePredicates` | fhir_conditions_manager/corrections.py:113-114 | each predicate's description under its name, for exactly the predicate names |
| `Retrieval.CanonicalCode` | fhir_conditions_manager/retrieval.py:30-37 | an ICD-10 code if the record has one, else SNOMED, else ICD-9, else the lower-cased display name under `text`; never IMO; the code is one the record carries |
| `Retrieval.CodeLabels` | fhir_conditions_manager/retrieval.py:40-50 | a label is present exactly when the record has codes in that system, and maps to those codes |
| `Retrieval.CodeLabelsCover` | fhir_conditions_manager/retrieval.py:40-50 | the canonical code is among the labelled codes; no `text` label; every labelled code is among the record's codes |
| `Retrieval.MatchesText` | fhir_conditions_manager/retrieval.py:53-54 | the lower-cased query occurs in the record's search text |
| `Retrieval.MatchesCode` | fhir_conditions_manager/retrieval.py:57-70 | a known system alias tests that system's codes; no alias or an unknown one tests `all_codes`; `MatchesCodeNarrows` proves the narrowing |
| `Retrieval.MatchesStatus` | fhir_conditions_manager/retrieval.py:73-74 | the normalised status equals the lower-cased filter |
| `Retrieval.MatchesCodeNarrows` | fhir_conditions_manager/retrieval.py:57-70 | naming a system only narrows the match; an absent or unknown system falls back to all codes |
| `Retrieval.Candidates` | fhir_conditions_manager/retrieval.py:187-194 | the active records passed through each truthy filter in turn; `CandidatesAreSelected` and `CandidatesMembers` state what they are |
| `Retrieval.CandidatesAreSelected` | fhir_conditions_manager/retrieval.py:187-194 | the three successive filters equal one filter by their conjunction, each applied only when its argument is non-empty |
| `Retrieval.CandidatesMembers` | fhir_conditions_manager/retrieval.py:187-194 | a record is a candidate exactly when it is active and passes every filter given |
| `Retrieval.CandidatesFewer` | fhir_conditions_manager/retrieval.py:187-194 | filtering never yields more records than are active |
| `Retrieval.FilterTwice` | fhir_conditions_manager/retrieval.py:190-194 | filtering twice equals filtering once by the conjunction |
| `Retrieval.FilterMembers` | fhir_conditions_manager/retrieval.py:190 | an element survives a filter exactly when it was there and passes |
| `Retrieval.AddMember` | fhir_conditions_manager/retrieval.py:105-127 | one loop iteration's update of a group by one record; `AggregateAppend` and the `Aggregate…` lemmas state its effect |
| `Retrieval.Aggregate` | fhir_conditions_manager/retrieval.py:93-127 | the group the first loop builds from a key's members, started from the first member; `AggregateCounts` to `AggregateOnsets` state its fields |
| `Retrieval.MergeCodes` | fhir_conditions_manager/retrieval.py:114-115 | `setdefault(...).update(...)`: each label present in either map holds the union of its codes |
| `Retrieval.AggregateAppend` | fhir_conditions_manager/retrieval.py:105-127 | the group of one more member is the previous group updated by that member |
| `Retrieval.NewGroup` | fhir_conditions_manager/retrieval.py:97-102 | a new group takes its key and label from `_canonical_code`, its name from the record and its codes from `_code_labels`, with every counter at zero and no dates |
| `Retrieval.AggregateCounts` | fhir_conditions_manager/retrieval.py:96-112 | a group is keyed and labelled by its first member, counts its members, counts consolidated members, and has at least as many sources as consolidated records |
| `Retrieval.AggregateStatuses` | fhir_conditions_manager/retrieval.py:107 | a group's statuses are exactly its members' statuses |
| `Retrieval.AggregateFlags` | fhir_conditions_manager/retrieval.py:108 | a group's flags are exactly its members' flags |
| `Retrieval.AggregateSystems` | fhir_conditions_manager/retrieval.py:101-115 | a group has a system label exactly when some member has codes in it |
| `Retrieval.AggregateCodes` | fhir_conditions_manager/retrieval.py:101-115 | a group's codes under a label are exactly its members' codes in that system |
| `Retrieval.OnsetDay` | fhir_conditions_manager/retrieval.py:118 | `isoformat()[:10]` as whole days since the epoch, in the offset all timestamps share; comparing days stands for comparing the date strings |
| `Retrieval.AggregateOnsets` | fhir_conditions_manager/retrieval.py:117-122 | the group's earliest and latest onset days are the least and greatest over its members |
| `Retrieval.OnsetsPresent` | fhir_conditions_manager/retrieval.py:117-122 | an earliest onset exists exactly when some member has an onset, and then so does a latest |
| `Retrieval.OnsetsBound` | fhir_conditions_manager/retrieval.py:119-122 | every member's onset day lies between the earliest and the latest |
| `Retrieval.EarliestAttained` | fhir_conditions_manager/retrieval.py:119-120 | the earliest onset day is some member's onset day |
| `Retrieval.LatestAttained` | fhir_conditions_manager/retrieval.py:121-122 | the latest onset day is some member's onset day |
| `Retrieval.AggregateHasOnset` | fhir_conditions_manager/retrieval.py:117-122 | a group has onset dates exactly when some member has an onset |
| `Retrieval.AggregateOnsetBounds` | fhir_conditions_manager/retrieval.py:117-122 | every member's onset day lies within the group's dates |
| `Retrieval.AggregateEarliestAttained` | fhir_conditions_manager/retrieval.py:119-120 | the group's earliest date is attained by a member |
| `Retrieval.AggregateLatestAttained` | fhir_conditions_manager/retrieval.py:121-122 | the group's latest date is attained by a member |
| `Retrieval.DetectOverlappingOnsetPeriods` | fhir_conditions_manager/retrieval.py:77-86 | true exactly when, after sorting by start, some period starts before its predecessor ends |
| `Retrieval.AdjacentOverlapComplete` | fhir_conditions_manager/retrieval.py:80-86 | on start-sorted periods, the neighbour scan finds an overlap exactly when some pair overlaps |
| `Retrieval.OverlapIsAdjacent` | fhir_conditions_manager/retrieval.py:81-85 | on start-sorted periods, any overlapping pair forces an overlapping pair of neighbours, even when a period ends before it starts |
| `Retrieval.AdjacentIsOverlap` | fhir_conditions_manager/retrieval.py:81-85 | an overlapping pair of neighbours is an overlapping pair |
| `Retrieval.OverlapFlagMeaning` | fhir_conditions_manager/retrieval.py:129-132 | for any periods, including ones that end before they start, a group is flagged exactly when it has two or more periods and, among its start-sorted periods, some pair overlaps |
| `Retrieval.GroupKeys` | fhir_conditions_manager/retrieval.py:93-103 | the group keys are distinct, at most one per record, and exactly the canonical codes of the records |
| `Retrieval.GroupKeysAppend` | fhir_conditions_manager/retrieval.py:96-103 | a record opens a new group exactly when its key is new, and the new key goes last |
| `Retrieval.MembersNonEmpty` | fhir_conditions_manager/retrieval.py:96-103 | a key has members exactly when it is a group key |
| `Retrieval.MembersAppend` | fhir_conditions_manager/retrieval.py:105 | one more record joins exactly the group of its own key |
| `Retrieval.MembersPartition` | fhir_conditions_manager/retrieval.py:93-127 | every record is a member of the group of its key, and only of a group of its key |
| `Retrieval.PeriodsOfMembers` | fhir_conditions_manager/retrieval.py:124-127 | a group's periods are exactly those of members with both an onset start and an end |
| `Retrieval.CollectGroups` | fhir_conditions_manager/retrieval.py:90-127 | after the loop, the keys in first-seen order, the groups aggregated over their members, and each key's periods are tracked |
| `Retrieval.OverlapFlag` | fhir_conditions_manager/retrieval.py:131 | two or more periods and a neighbour overlap after sorting by start; `OverlapFlagMeaning` states it as an overlapping pair |
| `Retrieval.GroupOverlaps` | fhir_conditions_manager/retrieval.py:130-132 | the overlap test of one group is `OverlapFlag`: two or more periods, and some start-sorted pair overlaps |
| `Retrieval.FlagOverlaps` | fhir_conditions_manager/retrieval.py:129-132 | after setting the overlap flags, the groups are, key by key, the finished groups of their members |
| `Retrieval.FlaggedGroup` | fhir_conditions_manager/retrieval.py:130-132 | flagging one more group extends the finished groups by that group |
| `Retrieval.GroupsForNext` | fhir_conditions_manager/retrieval.py:129 | the finished groups of one more key are those before plus that key's group |
| `Retrieval.Grouped` | fhir_conditions_manager/retrieval.py:89-134 | the reference grouping: one finished group per key, sorted stably by descending encounter count; `GroupedAreGroups` to `GroupedPartition` state its properties |
| `Retrieval.GroupByCanonicalCode` | fhir_conditions_manager/retrieval.py:89-134 | the method computes the finished groups, sorted stably by encounter count, descending |
| `Retrieval.GroupsForAt` | fhir_conditions_manager/retrieval.py:129-132 | the group at each key's position is that key's finished group |
| `Retrieval.FinishCode` | fhir_conditions_manager/retrieval.py:98 | a key's group carries that key as its canonical code |
| `Retrieval.GroupOfGrouped` | fhir_conditions_manager/retrieval.py:89-134 | every returned group is the finished group of its own key's members |
| `Retrieval.GroupedSize` | fhir_conditions_manager/retrieval.py:89-134 | one group per key, at most one per record, at least one when there are records |
| `Retrieval.GroupedAreGroups` | fhir_conditions_manager/retrieval.py:89-134 | one group per key, and every group is the finished group of its key's members |
| `Retrieval.GroupedCoverKeys` | fhir_conditions_manager/retrieval.py:89-134 | every key's group is returned |
| `Retrieval.GroupedByEncounters` | fhir_conditions_manager/retrieval.py:134 | groups come in non-increasing encounter count |
| `Retrieval.GroupedTiesInArrivalOrder` | fhir_conditions_manager/retrieval.py:134 | groups with equal encounter counts stay in first-seen order |
| `Retrieval.MemberTotalAll` | fhir_conditions_manager/retrieval.py:93-106 | the members of all groups number exactly the records |
| `Retrieval.GroupsForTotal` | fhir_conditions_manager/retrieval.py:106 | the encounter counts of the groups sum to their members' number |
| `Retrieval.GroupedPartition` | fhir_conditions_manager/retrieval.py:89-134 | the encounter counts of the returned groups sum to the number of records |
| `Retrieval.RankOrdersNames` | fhir_conditions_manager/retrieval.py:139 | the label ranking agrees with the sorted order of the label names |
| `Retrieval.CodeParts` | fhir_conditions_manager/retrieval.py:139-141 | one part per label present in the group, in label-name order; `CodePartsEntries`, `CodePartsComplete` and `CodePartsOrdered` state its contents and order |
| `Retrieval.CodePartsEntries` | fhir_conditions_manager/retrieval.py:139-140 | each code part is a label of the group with exactly its codes |
| `Retrieval.CodePartsComplete` | fhir_conditions_manager/retrieval.py:139-140 | every label of the group gets a code part |
| `Retrieval.CodePartsOrdered` | fhir_conditions_manager/retrieval.py:139 | the code parts come in sorted order of their label names |
| `Retrieval.FormatGroup` | fhir_conditions_manager/retrieval.py:145-150 | a date range is shown only for two different days |
| `Retrieval.SummaryDates` | fhir_conditions_manager/retrieval.py:145-150 | no dates exactly when no member has an onset; one day equal to every member's onset day; or a range first before last spanning every member's onset day |
| `Retrieval.SummaryNotes` | fhir_conditions_manager/retrieval.py:152-172 | the summary shows the member count and first name; the consolidation note iff a member is consolidated; the overlap note iff the periods overlap; a warning for each high or medium flag of a member and no other |
| `Retrieval.SummaryCounts` | fhir_conditions_manager/retrieval.py:152-164 | the count, name, consolidation and overlap parts of a summary, as in `SummaryNotes` |
| `Retrieval.SummaryWarnings` | fhir_conditions_manager/retrieval.py:166-172 | the warnings are exactly the descriptions of the members' high and medium flags |
| `Retrieval.FinishCounts` | fhir_conditions_manager/retrieval.py:106-132 | a finished group counts its members and consolidated members, takes the first member's name, and is flagged iff its periods overlap |
| `Retrieval.SomeConsolidated` | fhir_conditions_manager/retrieval.py:160 | a positive consolidated count means some member is consolidated |
| `Retrieval.FiltersUsed` | fhir_conditions_manager/retrieval.py:197-203 | one entry per non-empty filter argument, in the order `text="…"` (the query in double quotes), `code=…`, `status=…` |
| `Retrieval.Summaries` | fhir_conditions_manager/retrieval.py:209 | one summary per group, position by position |
| `Retrieval.SummariesOfFirst` | fhir_conditions_manager/retrieval.py:207-209 | the summaries shown are those of the first `max_results` groups |
| `Retrieval.Report` | fhir_conditions_manager/retrieval.py:206-213 | the report of a non-empty candidate list; `ReportMeaning` states its header, truncation and summaries |
| `Retrieval.Answer` | fhir_conditions_manager/retrieval.py:187-213 | the no-match answer or the report of the candidates; `AnswerMeaning` states which |
| `Retrieval.ReportMeaning` | fhir_conditions_manager/retrieval.py:206-213 | the header counts the matches and their groups (at least one, at most one per match, matches at most the active total); the summaries are the first `max_results` groups; "showing top" iff groups were cut off |
| `Retrieval.AnswerMeaning` | fhir_conditions_manager/retrieval.py:187-213 | no match iff no candidate, then the filters used are named; otherwise the report of the candidates |
| `Retrieval.FilterActive` | fhir_conditions_manager/retrieval.py:187-194 | the filtering statements compute exactly the candidates |
| `Retrieval.Retrieve` | fhir_conditions_manager/retrieval.py:177-220 | the answer for the store's active records, in storage order |

## Left out

- Logging (`logger.info`, `logger.warning`, `logger.error`) and `configure_logging` are left out: they have no effect on state or results.
- The store's `RLock` is left out. Operations are modelled as atomic, and concurrency is not modelled.
- `LatencyTracker`, `record_retrieval_latency` and `avg_retrieval_latency_ms` are left out: they involve clocks and floating point.
- `main.py` and `mcp_tools.py` are not part of this model. They load files, shuffle, print and wrap the core as tools.
- The shuffle in `split_into_batches` is left out, because it is randomness. `SplitIntoBatches` takes the already shuffled list.
- `datetime.now()` in `soft_remove` and `record_correction` becomes a `now` parameter, because it is a clock. One `now` string stands for every record's `removal_timestamp` in a sweep and for the audit entry's timestamp. The source reads the clock again in each `soft_remove` call (a datetime) and in `record_correction` (an ISO string), so the timestamps may differ and their types differ.
- `datetime.fromisoformat` becomes the `parse` parameter, because it is a foreign call. The datetimes are integer seconds.
- The model assumes every timestamp uses the same offset. Under that assumption, comparing `isoformat()` strings is comparing numbers, and the `[:10]` date is `seconds / 86400`. Mixing naive and aware timestamps makes the source raise during subtraction, which counts the input as an error; the model does not capture this.
- Pydantic validation is modelled as "the `id` is present". Type errors in other fields, which pydantic would also reject, are not modelled, because the raw input is already typed.
- `str.lower` is ASCII only, and Unicode case mapping is not modelled. `strip` uses Python's full Unicode whitespace set (`str.isspace`).
- Python sets become duplicate-free sequences in first-seen order. Set iteration order is not fixed in Python, so `next(iter(...))` is modelled as the first code seen.
- A group's codes per label are kept as sets. The source renders them sorted; the model keeps the set and leaves the rendering out.
- The warnings are a set, so the order of the `"; "`-joined warnings is not modelled, and neither is a repeated description.
- Retrieval and correction answers are structured values (`GroupSummary`, `RetrievalResult`, `Message`), not formatted text. Only the wording is left out; every number and name the strings carry is kept.
- `removed_conditions` is the empty list in the model where the source's result dictionary has no such key: no-match, already-removed and unknown-predicate results.
- `ConditionGroup` objects mutated in `group_by_canonical_code` become values in a map. The loop is split into `CollectGroups` and `FlagOverlaps`. Nothing outside the function can see the groups while they change, so no aliasing is lost.
- `soft_remove` mutates the record object in place, so lists returned earlier see the change. The model stores records as values: a list returned earlier keeps the old value, and the aliasing is not modelled.
- `GetSystemStatus` returns the integer parts of the status dictionary. The latency average is left out with the latency tracker.
