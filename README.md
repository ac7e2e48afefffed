# Source-to-target record synchronisation, modelled in Dafny

The exercise copies records from a read-only source store into a write-only
target store in three ways:

- a naive full copy (`syncAllNoLimit`);
- a paginated copy driven by a mutable cursor (`syncWithLimit` and `syncAllSafely`);
- a delta sync over the list of touched names (`touch` and `syncNewChanges`).

Its module-level state is `TOTAL_RECORDS`, `EVENTS_SENT` and `REGISTERS_UPDATED`.

The model keeps the program's imperative shape:

- `Sync.Synchronizer` is a class whose fields are the source (a sequence in
  the order `find({})` returns it), the target store, `TOTAL_RECORDS`,
  `EVENTS_SENT` and `REGISTERS_UPDATED`. Its methods are the sync routines.
  Their loops carry invariants, and each method's postcondition ties the new
  state to a specification function of the old state.
- `Pagination.Cursor` is the cursor object `data`. Its one field is `lastResultSize`.
- `Target.TargetStore` is the target. It is a map keyed by the business key
  `name`, with an insert that may fail and an update that only overwrites an
  existing entry.

The specification functions are:

- `Store` (index.js:136-139 and 157-164): target contents after a run of inserts;
- `CountAccepted` (index.js:157-164): events sent for a run of inserts;
- `FirstRejected` (index.js:136-139): where the naive copy stops;
- `SkipOf` (index.js:151-153): the skip a cursor stands for, with the sentinel -1 read as 0;
- `Page` (index.js:155): one `skip/limit` query;
- `PageOffsets` and `FinalCursor` (index.js:182-185): the queries and the end state of the paginated loop;
- `Fetched` (index.js:155 and 182-185): the records those queries return;
- `Refresh` (index.js:200-201): one `find({ name })` and the `update` it feeds, where the model overwrites the entry in place of the literal `$set` patch;
- `ApplyChanges` (index.js:198-209): the delta sync.

The lemmas prove these facts about them:

- the paginated copy terminates with the cursor at or past `TOTAL_RECORDS`;
- its pages are disjoint, in increasing order, and cover every position;
- the page count is ceil(N / B), with one empty page when N = 0;
- with `TOTAL_RECORDS` equal to the source size, it fetches every source record exactly once, in order;
- it agrees with the naive copy when no insert fails;
- the delta sync refreshes exactly the listed names, ignores duplicates and is idempotent.

Where the intended design of such a synchroniser and this code differ, the model follows the
code:

- the delta sync does not deduplicate the change list, and sends one event per entry;
- the naive copy fails fast on the first refused insert, with no retries;
- no pass reports the keys that failed;
- `synchronize` is an empty function, so there is no scheduler, cadence or "has synced" flag to model.

## Model

| member | source | states |
|---|---|---|
| `Records.IndexOfName` | index.js:200-201 | the position of the first record with the given name, or None exactly when no record has it |
| `Records.FindByName` | index.js:200 | `find({ name })` yields a source record carrying that name, and None exactly when no record has it |
| `Records.TouchSource` | index.js:101-102 | `touch` sets owner "test4" on the first record with that name (the update is single-match) and on no other record, not even a later one with the same name; no name changes; lookups of other names are unaffected |
| `Target.TargetStore.constructor` | index.js:61-64 | the target starts empty |
| `Target.TargetStore.Insert` | index.js:137 | an insert succeeds exactly when the store accepts the record; on success the record is stored under its name, and on failure nothing changes |
| `Target.TargetStore.Update` | index.js:201 | an update overwrites the entry of that name when there is one and a patch was found; it never creates an entry |
| `Target.CountAcceptedAll` | index.js:157-164 | a page sends at most one event per record, and exactly one per record if and only if no insert was refused |
| `Target.StoreKeys` | index.js:157-164 | after a run of inserts, the target keys are the old keys plus the names of the accepted records; other entries are unchanged |
| `Target.StoreHoldsAccepted` | index.js:136-139 | with distinct names, every accepted record ends up in the target under its name, unchanged |
| `Target.FirstRejected` | index.js:136-139 | the naive copy gets through exactly the records before the first refused one |
| `Target.ApplyChangesAt` | index.js:198-209 | the delta sync adds no key; it refreshes from the source each listed name held by both stores, and leaves every unlisted entry alone |
| `Target.ApplyChangesIgnoresDuplicates` | index.js:198-209 | change lists naming the same keys, with any order or repetition, produce the same target |
| `Target.ApplyChangesIdempotent` | index.js:195-211 | running the same delta twice leaves the target as running it once |
| `Pagination.Page` | index.js:155 | `skip(k).limit(b)` returns at most b records, exactly the ones at positions k, k+1, …; the page is short or empty at the end of the source |
| `Pagination.FinalCursor` | index.js:182-185 | the loop stops with the cursor at or past `TOTAL_RECORDS` and never below its start |
| `Pagination.OffsetsFrom` | index.js:165 | from a started cursor c, the i-th query skips c + i·B; the loop stops one batch past the last query, after the first window that reaches the total |
| `Pagination.SafeOffsets` | index.js:181-185 | starting from the sentinel -1, page i skips i·B; there are ceil(N/B) pages, or one page when N = 0; the final cursor is in [N, N+B), or equals B when N = 0; a negative total fetches nothing |
| `Pagination.PagesPartition` | index.js:182-185 | every position below the total lies in the window [skip, skip+B) of its page; the windows increase and do not overlap |
| `Pagination.FetchedWindow` | index.js:155-165 | from a started cursor, the queries fetch exactly the source positions from the cursor up to the final cursor |
| `Pagination.SafeFetchesPrefix` | index.js:181-185 | one paginated copy fetches a prefix of the source: the positions below the final cursor, each record once and in order; a negative total fetches nothing |
| `Pagination.SafeFetchesSource` | index.js:182-185 | when the total is at least the source size, one paginated copy fetches the whole source, each record exactly once and in order |
| `Pagination.Cursor.constructor` | index.js:177-181 | a new cursor holds the sentinel -1 |
| `Sync.Synchronizer.constructor` | index.js:92-93 | after `load`, the source holds the seeded records and TOTAL_RECORDS is their count; one event was sent per seeded insert, and the change list is empty |
| `Sync.Synchronizer.SendEvent` | index.js:110-111 | EVENTS_SENT grows by one; nothing else changes |
| `Sync.Synchronizer.Touch` | index.js:101-104 | the source is touched, and the name is appended to REGISTERS_UPDATED even if it is already there |
| `Sync.Synchronizer.SyncAllNoLimit` | index.js:132-142 | records are inserted in source order, one event each, up to the first refused insert, which ends the copy; `ok` holds exactly when every record went through |
| `Sync.Synchronizer.SyncWithLimit` | index.js:148-168 | the cursor -1 becomes 0 and any other value is kept; the page at the cursor is inserted and refusals are skipped; EVENTS_SENT grows by the number of accepted inserts; the cursor advances by exactly `limit` |
| `Sync.Synchronizer.SyncAllSafely` | index.js:174-188 | uses the given cursor or a new one and resets it to -1; terminates with the cursor at or past TOTAL_RECORDS; the target and EVENTS_SENT reflect exactly the pages PageOffsets(-1, B, TOTAL_RECORDS) |
| `Sync.Synchronizer.SyncNewChanges` | index.js:195-211 | one update and one event per list entry, duplicates included; the target becomes `ApplyChanges` of the list; the list ends empty |
| `Sync.NaiveAndSafeAgree` | index.js:174-188 | when no insert is refused, the naive copy and a paginated copy over N = the source size give the same target, and each sends one event per source record |
| `Sync.TouchThenSync` | index.js:101-104 | touching a name, with other names pending or not, and then running the delta sync gives that target entry owner "test4"; no entry is added; every entry neither touched nor pending is unchanged |
| `Sync.RunTest` | index.js:227-260 | for seeded records the target accepts, all three of the test's event counts come out as expected |

## Left out

- The storage library's internals are not part of this model: its query engine, its `_id` field and index, and its timestamps. The target is keyed by `name`. Whether an insert succeeds is a fixed property of the record (`accepts`), not of the store's state.
- Sync.RunTest: assumes the target accepts every seeded record. A store whose unique `_id` index refuses a second insert of the same document would refuse every insert of the paginated pass that follows the naive copy. The model's `accepts` cannot express that.
- The literal patch in `syncNewChanges` is `{ $set: { ...data } }`, where `data` is the array `find` returns. Spreading an array nests the found document under a field `"0"`, so in the program the target's own `owner` field never becomes "test4". The model instead overwrites the target entry of that name with the source record; `Sync.TouchThenSync` proves that chosen behaviour, not the program's literal patch. When several source records share a name, the first one in source order is used.
- Seeding with `load` and faker: `Sync.Synchronizer.constructor` takes the seeded records as given.
- The `read` helper and all console output are left out.
- `Promise.all`, the un-awaited updates and `the.while` are modelled as sequential loops. `the.wait(300)` is only a delay, and `Sync.RunTest` leaves it out. `syncNewChanges` empties the list with `splice` after every `find` has resolved and every update has been issued; the updates themselves are not awaited, so the list may be emptied before any of them has finished. A name appended by a concurrent `touch` during a pass would be dropped unsynced. Neither interleaving is modelled.
- `synchronize` has an empty body, so the model has no scheduler, polling cadence or "has synced" flag.
- TOTAL_RECORDS is `undefined` before `load` runs, and then `-1 < undefined` stops the paginated loop at once. The model always holds an integer (the constructor is the state after `load`).
- Sync.Synchronizer.SyncWithLimit: requires `limit >= 1` and a cursor of at least -1. The store's handling of `limit(0)` (no limit) and of a negative skip is not modelled.
- Sync.Synchronizer.SyncAllSafely: requires `batchSize >= 1`. With a batch size of 0 and TOTAL_RECORDS of at least 1 the loop never terminates: `limit(0)` means no limit, and the cursor stays at 0. Batch sizes of 0 with TOTAL_RECORDS at most 0, and negative batch sizes, are not modelled.
