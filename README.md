# Face re-identification core: vector stores, retention and recency tiers

This project models the identity-resolution core of FaceRecCAM in Dafny. FaceRecCAM
recognises a face from an embedding vector. It classifies each sighting as *green*
(known and seen within the last 14 days), *yellow* (known, last seen earlier) or *red*
(unknown). It keeps a rolling window of at most ten embeddings per person.

Two interchangeable back ends exist, and both are modelled:

- `face_db.py`: a relational store with a `persons` table and a `vectors` table. It
  runs one transaction per call. The model is the class `FaceDb.Store`, with the
  tables as fields (`persons: set<int>`, `vectors: seq<Row>`) and the two SERIAL
  sequences as counters.
- `pinecone_db.py`: a managed vector index keyed by record ID, with no transactions.
  The model is the class `PineconeDb.Index`, whose single field is
  `records: map<string, Entry>`.

Two front ends sit on top of them, each with its own `is_familiar` and its own
approval actions:

- `imagesProcessing.py`, modelled by the module `ImagesProcessing`;
- `pinecone_imageProcessing.py`, modelled by the module `PineconeImageProcessing`.

Shared pieces:

- `Common`: timestamps (`Time`, integer microseconds), vectors, `Option`, `Result`,
  and the lookup `Verdict`.
- `Recency`: `is_within_period` and the tiers.
- `RecordIds`: the record ID `person_{p}_vector_{n}` as a string, and a proof that
  distinct pairs `(p, n)` give distinct IDs.

Each store operation is a method that loops over the stored state. It is proved
against a specification function: `Retain`, `Lookup` and `AfterEviction` for the
relational store; `StepOutcome`, `Grouped` and `NewPersonId` for the index. The long-run
properties are lemmas about those functions:

- the cap is preserved;
- other people's rows are untouched;
- the newest ten of a strictly increasing run of insertions are retained;
- table validity is an invariant (ids issued, foreign key, row order, every person owns
  a row);
- the listing groups the scan correctly;
- a new person id is fresh.

Environment inputs become parameters:

- the face model's embedding is `Option<Vector>` (None when extraction raises);
- the current time is `now`;
- the metric is a function parameter: a distance `dist` for the relational store, a
  cosine similarity `score` for the index;
- whether a store request raises is a boolean or a `WriteFault` parameter.

A query whose result order the index does not fix is modelled as any response that
satisfies a predicate (`IsPersonQuery`, `IsScan`, `IsTop`), and the lemmas hold for
every such response.

The two stores differ in three ways that the model keeps apart:

- **`last_seen`.** `face_db.py` reports the matched person's latest `last_checked` over
  all of their rows (`LatestOf`). `pinecone_db.py` reports the matched record's own
  `last_checked` (`MatchVerdict`).
- **Atomicity.** `face_db.py` runs each call in one transaction, so a failure changes
  nothing. `pinecone_db.py` has no transaction: a failing upsert after the delete leaves
  the delete in place (`StepOutcome` with `UpsertFault`).
- **Retention.** Keeping the newest `max_vectors` insertions of a person is proved for
  `face_db.py` (`ExistingPersonKeepsNewest`, `ReplayVisitsKeepsNewest`). It does not hold
  for `pinecone_db.py`; see Findings.

The threshold comparisons also differ between the two stores, as the code has them:

- `face_db.py` matches when the distance is strictly below 0.65;
- `pinecone_db.py` matches when the similarity is at least 0.65.

The relational store's `GROUP BY person_id ... ORDER BY min_distance LIMIT 1` picks the
person who owns a globally nearest row. When distances tie, the database leaves the choice
open; the model takes the first such row in table order.

## Model

| member | source | states |
|---|---|---|
| Recency.WithinPeriodIsAgeBound | imagesProcessing.py:15-18 | a date is within the period iff it is at most `period` days before now |
| Recency.WithinPeriodBoundary | pinecone_imageProcessing.py:12-15 | the window is inclusive: exactly `period` days old is inside, one microsecond older is outside |
| RecordIds.NatToDecimalInjective | pinecone_db.py:86 | the decimal rendering used in record IDs is injective |
| RecordIds.IntToStringInjective | pinecone_db.py:86 | `str` of an int, sign included, is injective |
| RecordIds.IdStringInjective | pinecone_db.py:134 | equal record IDs `person_{p}_vector_{n}` mean equal person and equal number |
| RecordIds.IdStringsDiffer | pinecone_db.py:134 | a different person or number gives a different record ID |
| FaceDb.OldestIn | face_db.py:61-68 | the row picked by `ORDER BY last_checked ASC LIMIT 1` among `p`'s rows: none iff `p` has no row; otherwise a row of `p` with the minimum timestamp (among ties the model takes the first in table order) |
| FaceDb.NearestIn | face_db.py:99-107 | the nearest row to the query over the whole table: none iff the table is empty, else a row at minimum distance |
| FaceDb.LatestOf | face_db.py:117-122 | `MAX(last_checked)` over `p`'s rows: NULL iff `p` has none, else a value attained by a row of `p` and bounding all of them |
| FaceDb.Lookup | face_db.py:85-127 | found iff some row is strictly closer than the threshold; then the person owns a globally nearest row, and `last_seen` is the maximum over that person's rows |
| FaceDb.RetainBelowCap | face_db.py:53-76 | below the cap nothing is deleted; the new row is appended and the count rises by one |
| FaceDb.RetainAtCap | face_db.py:59-76 | at the cap exactly one row of `p` with minimal timestamp is deleted before the append; the count is unchanged. The statement holds for whichever minimal row is chosen |
| FaceDb.RemoveOwnRow | face_db.py:61-69 | deleting one of `p`'s rows lowers `p`'s count by one |
| FaceDb.RetainKeepsCap | face_db.py:45-82 | at most `max_vectors` rows of the person before the step means at most that many after |
| FaceDb.RetainOthersUntouched | face_db.py:61-76 | the rows of every other person are exactly as before |
| FaceDb.OldestOfIncreasing | face_db.py:61-68 | with `p`'s timestamps increasing in table order, deleting the oldest drops `p`'s first timestamp |
| FaceDb.RetainTimesBelowCap | face_db.py:71-76 | below the cap the new timestamp is appended to `p`'s timestamps |
| FaceDb.RetainTimesAtCap | face_db.py:59-76 | at the cap, with increasing timestamps, the first is dropped and the new one appended |
| FaceDb.RetainKeepsNewest | face_db.py:45-82 | one insertion with the latest timestamp turns "newest `max` of the earlier times" into "newest `max` of all times" |
| FaceDb.ReplayKeepsMostRecent | face_db.py:43-48 | for a person with no rows yet, after a run of that person's own insertions with strictly increasing times, the person's rows hold exactly the newest `max_vectors` timestamps |
| FaceDb.ReplayKeepsNewestAfter | face_db.py:43-48 | a person whose rows hold the newest `max` of earlier times `pre` holds, after more of its own insertions `ts`, the newest `max` of `pre + ts` |
| FaceDb.OwnVisitStep | face_db.py:53-76 | an insertion for `p` with the latest time extends `p`'s newest-`max` window by that time |
| FaceDb.OtherVisitStep | face_db.py:61-76 | an insertion for another person leaves `p`'s timestamps unchanged |
| FaceDb.LastVisitStep | face_db.py:45-82 | the last insertion of a run, for `p` or for anyone else, carries `p`'s window from the run's front to the whole run |
| FaceDb.ReplayVisitsKeepsNewest | face_db.py:43-48 | for any interleaved run of insertions for any persons: if `p`'s rows held the newest `max` of earlier times `pre`, they afterwards hold the newest `max` of `pre` followed by `p`'s own insertion times, provided those times increase |
| FaceDb.ExistingPersonKeepsNewest | face_db.py:43-48 | a person already in the store, within the cap and with increasing timestamps, holds the newest `max` of its current and later times after any interleaved run of insertions |
| FaceDb.ElevenInsertsKeepTen | face_db.py:44-45 | eleven insertions at the default cap of 10 keep ten rows, and the first timestamp is gone |
| FaceDb.EvictionKeepsRows | face_db.py:61-69 | the delete step removes rows and never adds one |
| FaceDb.EvictionKeepsOrder | face_db.py:61-69 | the delete step keeps the remaining rows in vector_id order |
| FaceDb.RetainRowsReferenced | face_db.py:71-76 | after the step every row carries an issued vector_id and references an existing person |
| FaceDb.RetainRowsOrdered | face_db.py:71-76 | after the step the rows remain in vector_id order |
| FaceDb.RetainEveryoneKeepsARow | face_db.py:59-76 | after the step every person still owns a row |
| FaceDb.RetainKeepsTablesValid | face_db.py:45-82 | a committed retention step preserves the table invariant |
| FaceDb.NewPersonKeepsTablesValid | face_db.py:21-41 | adding a person with its first row preserves the table invariant |
| FaceDb.Store.constructor | face_db.py:27-34 | empty tables, both sequences at 1 |
| FaceDb.Store.InsertNewPerson | face_db.py:21-41 | on commit: a fresh person id from the sequence, one person and one row added, both sequences advance; on abort nothing changes |
| FaceDb.Store.InsertVectorForPerson | face_db.py:45-82 | succeeds iff the transaction commits and the person exists (foreign key); the table becomes `Retain(old, ...)` with the next vector id; on failure nothing changes |
| FaceDb.Store.StagedEviction | face_db.py:53-69 | the table after the count and the conditional delete equals `AfterEviction` |
| FaceDb.Store.CountRows | face_db.py:54-57 | the loop computes `COUNT(*)` for the person |
| FaceDb.Store.FindOldest | face_db.py:63-68 | the loop selects the row `OldestIn` specifies |
| FaceDb.Store.CheckPersonExists | face_db.py:85-131 | the answer is `Lookup(vectors, ...)`, or a failure when the store is unavailable |
| FaceDb.Store.NearestRow | face_db.py:99-110 | the loop selects the row `NearestIn` specifies |
| FaceDb.Store.LatestCheck | face_db.py:117-122 | the loop computes `LatestOf` |
| PineconeDb.MatchVerdict | pinecone_db.py:175-195 | found iff there is a top match with score at least the threshold; the verdict carries that record's own person_id and last_checked |
| PineconeDb.GroupStep | pinecone_db.py:213-222 | one loop iteration keeps the dictionary well formed |
| PineconeDb.GroupState | pinecone_db.py:211-224 | the dictionary after the loop is well formed |
| PineconeDb.SeqMax | pinecone_db.py:62 | Python's `max`: an element of the list and at least every element |
| PineconeDb.OldestAmong | pinecone_db.py:124-125 | `sorted(..., key=last_checked)[0]`: a record with minimal last_checked, the first in response order among ties (stable sort) |
| PineconeDb.VectorNumber | pinecone_db.py:130-131 | the new vector number is count + 1 below the cap and the cap itself at or above it |
| PineconeDb.MaxNumber | pinecone_db.py:129-134 | an upper bound, at least 0, on every vector number among the matched records; it is used by the corrected numbering |
| PineconeDb.KeysOfDelete | pinecone_db.py:126 | deleting an ID removes exactly that key from every person's keys |
| PineconeDb.KeysOfWrite | pinecone_db.py:134-145 | an upsert adds its ID to the writer's keys and takes it from everyone else's |
| PineconeDb.FreshKey | pinecone_db.py:134 | a number above all of `p`'s numbers names no record yet |
| PineconeDb.WrittenKeepsIdsConsistent | pinecone_db.py:134-145 | every upsert of this module keeps each ID's metadata matching the person and number in the ID |
| PineconeDb.StepDeletesOldestIffAtCap | pinecone_db.py:112-126 | below the cap the step only upserts; at the cap it deletes one record of `p` with minimal last_checked, then upserts |
| PineconeDb.StepOthersUntouched | pinecone_db.py:109-151 | the step leaves every other person's records unchanged, whichever request fails |
| PineconeDb.AsWrittenKeepsCap | pinecone_db.py:109-151 | as written, the count never exceeds the cap |
| PineconeDb.AtCapOverwritesNewest | pinecone_db.py:129-145 | as written, at the cap the step overwrites record `person_p_vector_max`; the count drops to max - 1 |
| PineconeDb.BelowCapOverwritesAgain | pinecone_db.py:129-145 | as written, at max - 1 with `person_p_vector_max` present, the step rewrites that ID; the count and every other record stay as they were |
| PineconeDb.EvictedCount | pinecone_db.py:122-127 | the delete step lowers the person's count by one exactly when the fetched count reaches the cap |
| PineconeDb.WriteFreshCount | pinecone_db.py:144-145 | an upsert under an unused ID gives the person one more record |
| PineconeDb.RevisedKeyIsFresh | pinecone_db.py:129-134 | the corrected number (1 + largest existing number) names no record |
| PineconeDb.RevisedFillsToCap | pinecone_db.py:109-151 | corrected step: below the cap the count rises by one; at the cap it stays at the cap |
| PineconeDb.SumCountsUnrelated | pinecone_db.py:222 | updating a person outside the order leaves the sum of counts unchanged |
| PineconeDb.SumCountsUpdate | pinecone_db.py:222 | updating one entry changes the sum of counts by that entry's difference |
| PineconeDb.StepKeys | pinecone_db.py:215-221 | a new person is appended to the insertion order, a known one leaves it unchanged, and ids stay distinct |
| PineconeDb.StepSum | pinecone_db.py:222 | each iteration adds one to the total count |
| PineconeDb.StepSumKnown | pinecone_db.py:222 | the same for a person already in the dictionary |
| PineconeDb.StepSumNew | pinecone_db.py:215-222 | the same for a newly created entry |
| PineconeDb.GroupKeys | pinecone_db.py:211-222 | the dictionary's keys are exactly the scanned person ids, each once in the order |
| PineconeDb.GroupEntries | pinecone_db.py:215-222 | each entry holds the first scanned record's last_checked and the person's number of scanned records |
| PineconeDb.GroupOrder | pinecone_db.py:212-224 | the insertion order is the order of first appearance in the scan |
| PineconeDb.GroupSum | pinecone_db.py:213-222 | the counts sum to the number of scanned records |
| PineconeDb.TotalOfGrouped | pinecone_db.py:224 | `list(people_dict.values())` has the same total as the dictionary |
| PineconeDb.GroupedCoversScan | pinecone_db.py:213-224 | every scanned person id appears in the listing |
| PineconeDb.GroupedEntriesFit | pinecone_db.py:215-224 | each listed entry has the first-seen timestamp and the record count of its person |
| PineconeDb.GroupedDistinctInOrder | pinecone_db.py:212-224 | listed ids are distinct and in first-seen order |
| PineconeDb.GroupedTotal | pinecone_db.py:222-224 | listed counts sum to the number of scanned records |
| PineconeDb.IdsOfGrouped | pinecone_db.py:224 | the listed ids are the dictionary keys in insertion order |
| PineconeDb.GroupedMeaning | pinecone_db.py:201-228 | `list_people`: one entry per distinct scanned person, in first-seen order, with that person's first timestamp and record count; counts sum to the scan length |
| PineconeDb.NextIdAboveAll | pinecone_db.py:39-70 | with a complete scan the next id is above every stored person id; an empty index gives 1 |
| PineconeDb.NewPersonIsFresh | pinecone_db.py:77-103 | with a complete scan the new person's ID is not in use, and the person has exactly that record afterwards |
| PineconeDb.GroupByPerson | pinecone_db.py:211-224 | the loop computes `Grouped(scan)` |
| PineconeDb.NextPersonId | pinecone_db.py:48-70 | returns 1 for an empty listing, else max id + 1, above every listed id |
| PineconeDb.Index.constructor | pinecone_db.py:37 | an empty index satisfying the ID invariant |
| PineconeDb.Index.QueryByPerson | pinecone_db.py:113-120 | the filtered query returns distinct records of the person, `min(count, top_k)` of them, all of them when that is enough |
| PineconeDb.Index.ScanAll | pinecone_db.py:205-209 | the unfiltered query returns distinct records, `min(size, 5000)` of them |
| PineconeDb.Index.QueryTop1 | pinecone_db.py:167-171 | none iff the index is empty, else a record with the highest score |
| PineconeDb.Index.CheckPersonExists | pinecone_db.py:153-199 | fails iff the index raises; found iff some record's score reaches the threshold; the verdict carries a top record's own last_checked and person_id |
| PineconeDb.Index.ListPeople | pinecone_db.py:201-228 | on success returns `Grouped` of the scanned records' metadata; fails iff the query raises |
| PineconeDb.Index.GetNextPersonId | pinecone_db.py:39-75 | the listing's max id + 1, or 1 when the listing is empty or raises |
| PineconeDb.Index.InsertNewPerson | pinecone_db.py:77-107 | upserts `person_{id}_vector_1` with vector_count 1 under the id above, and returns that id; a failing upsert changes nothing |
| PineconeDb.Index.OldestMatch | pinecone_db.py:124-125 | the loop selects the record `OldestAmong` specifies |
| PineconeDb.Index.InsertVectorForPerson | pinecone_db.py:109-151 | as written: the new index and result are `StepOutcome` with the number `VectorNumber(count, max)`; the ID invariant is kept |
| PineconeDb.Index.InsertVectorForPersonRevised | pinecone_db.py:109-151 | corrected: the same step numbered `1 + MaxNumber`; the ID invariant is kept |
| PineconeDb.EmptyIndexListing | test_pinecone_setup.py:68-75 | an empty index lists nobody; the first person id is 1 |
| PineconeDb.SingleRecordListing | test_pinecone_setup.py:83-87 | an index of one record lists that person with one vector and the record's timestamp |
| PineconeDb.SetupScenario | test_pinecone_setup.py:60-89 | the setup flow: not found, person 1 added, then found with its timestamp, listing `[person 1, 1 vector]` |
| ImagesProcessing.Classify | imagesProcessing.py:27-36 | green iff found and seen within 14 days (no payload); yellow iff found but older (vector and id); red iff not found (vector only) |
| ImagesProcessing.TierMeaning | imagesProcessing.py:24-36 | red iff no row is strictly closer than 0.65; otherwise green iff some row of the nearest row's person was checked within 14 days |
| ImagesProcessing.IsFamiliar | imagesProcessing.py:24-36 | the classification of the store's lookup; a failing embedding or store fails the call |
| ImagesProcessing.AddNewPerson | imagesProcessing.py:6-7 | forwards to the store's new-person insert, discarding the id; new tables and counters as in the store method, all unchanged on abort |
| ImagesProcessing.AddNewVisit | imagesProcessing.py:10-11 | forwards to the store's vector insert with the default cap of 10: the table becomes `Retain` of the old one and the vector sequence advances on success; nothing changes on failure; persons and the person sequence never change |
| ImagesProcessing.LookupOfSingle | face_db.py:99-124 | a one-row table matches a close query with that row's person and timestamp |
| ImagesProcessing.SecondRow | face_db.py:53-76 | a second insertion for a person with one row keeps both rows |
| ImagesProcessing.FirstSighting | imagesProcessing.py:6-36 | on an empty store a face is red; after approval it is green the same day, and the store holds person 1 with one row |
| ImagesProcessing.VisitScenario | imagesProcessing.py:10-36 | fifteen days later the same face is yellow with id 1; approving the visit gives person 1 two rows |
| PineconeImageProcessing.Classify | pinecone_imageProcessing.py:35-55 | error iff the lookup raised; green and yellow carry vector and id; red carries the vector only |
| PineconeImageProcessing.IsFamiliar | pinecone_imageProcessing.py:20-55 | error when extraction or the index fails; otherwise red iff no record reaches the threshold; else a top record's person is reported, green iff that record is within 14 days |
| PineconeImageProcessing.AddNewPerson | pinecone_imageProcessing.py:5-6 | forwards to the index's new-person insert and returns the new id |
| PineconeImageProcessing.AddNewVisit | pinecone_imageProcessing.py:8-9 | forwards to the index's vector insert as written, with cap 10: the result and new index are `StepOutcome` numbered `VectorNumber(count, 10)` |
| PineconeImageProcessing.AddNewVisitRevised | pinecone_imageProcessing.py:8-9 | the same forwarding through the corrected numbering `1 + MaxNumber` |
| PineconeImageProcessing.VisitScenario | pinecone_imageProcessing.py:5-55 | red, then person 1 added, green the same day, yellow fifteen days later; the approved visit leaves person 1 with the two records numbered 1 and 2 |

## Left out

- Face embedding extraction (DeepFace) is not modelled. It becomes the `embedding: Option<Vector>` parameter.
- The distance and similarity metrics (pgvector `<->`, Pinecone cosine) are function parameters.
  The zero-vector and mismatched-length cases of the metric are therefore not modelled.
- Connection setup, credentials and index creation (`get_connection`, `initialize_pinecone`,
  `get_conn`) are not modelled. Availability is a parameter of each operation.
- The `print` diagnostics are not modelled; they have no effect on results.
- `datetime.now()` is the `now` parameter. Both `last_checked` and `created_at` get the
  same `now`, since the source calls `now()` twice within microseconds.
- Timestamps are integers. `face_db.py` stores database timestamps; `pinecone_db.py`
  stores ISO-8601 strings, and their lexicographic order in `sorted` is taken to be
  chronological order.
- The vectors are not serialised to a string; the model stores the vector value itself.
- Pinecone metadata is always present, so `metadata.get(..., "")` defaults never apply.
- A person id of float type (`int(person_id)` in `add_new_visit` and `get_next_person_id`)
  is not modelled; person ids are integers.
- Sequence values consumed by a rolled-back transaction are not modelled: on abort the
  counters stay as they were.
- The foreign key from `vectors.person_id` to `persons` is assumed to exist. It is not part
  of the Python source.
- Concurrency is not modelled; the model runs each operation alone. On the relational
  store, two concurrent `insert_vector_for_person` calls for one person can both count below
  the cap and both insert (face_db.py:53-76), going over the cap. Person ids there come from
  a SERIAL sequence and never repeat. On the index, two concurrent `insert_new_person` calls
  can list the same people and pick the same next id (pinecone_db.py:39-70, 83).
- FaceDb.OldestIn: PostgreSQL does not fix which row `ORDER BY last_checked ASC LIMIT 1`
  returns among rows with equal timestamps. The model takes the first in table order.
  `Store.InsertVectorForPerson` is stated with that choice. `RetainAtCap` holds for any
  minimal row.
- FaceDb.NearestIn: among rows at equal distance from the query, the model takes the first in
  table order. PostgreSQL leaves that choice open.
- The `main`/`__main__` entry points, `server.py`, `websocket_manager.py`,
  `face_capture.py`, `check_database.py`, the setup script's initialisation test and the
  React UI (`ui_app/`) are outside the core and not modelled.
- PineconeDb.IdsConsistent: the invariant fixes the metadata of records stored under
  `person_{p}_vector_{n}` IDs only. Records under other IDs are allowed and unconstrained.
- PineconeDb.Index.ListPeople: the scan order of the index is unspecified. The result is
  stated for the scan the method took, which any order satisfying `IsScan` may be.
- PineconeDb.NextIdAboveAll: freshness is proved only when the index holds at most 5000
  records. Beyond that the scan is truncated and the next id may collide, as in the source.

## Findings

| source | as written | input that shows it | evidently intended | confidence | as-written member | corrected member |
|---|---|---|---|---|---|---|
| pinecone_db.py:129-134 | At the cap the new vector number is `max_vectors`, so the upsert writes ID `person_{p}_vector_10`. That ID is normally the person's newest record, so the upsert overwrites it. The person then has 9 records. Every later insertion writes `person_{p}_vector_10` again, so the 8 oldest records are never evicted. | Person 1 has 10 records numbered 1..10; the oldest is number 1. Insert one more vector. | Keep 10 records: evict the oldest and add the new one under a fresh ID | not executed | PineconeDb.AtCapOverwritesNewest, PineconeDb.BelowCapOverwritesAgain, PineconeDb.Index.InsertVectorForPerson | PineconeDb.RevisedFillsToCap, PineconeDb.Index.InsertVectorForPersonRevised |
