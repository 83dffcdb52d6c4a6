# collie feed synchronisation, modelled in Dafny

collie is a feed reader. Its core is the synchronisation pass, `Worker::execute`, which does the following:

- It stamps `checked_at` on every subscribed feed.
- It looks up, for each feed that does not back-fill, the newest stored `published_at` (the baseline).
- It fetches every subscribed feed and keeps, per feed, one of these:
  - the single newest entry, on the first sync of an incremental feed;
  - the entries strictly newer than the baseline;
  - everything, for a back-fill feed.
- It sorts the kept entries by date and normalises them into `ItemToCreate` records.
- It inserts them into the items table. Inserts rejected by the unique fingerprint are dropped, and the pass returns only the inserts that succeeded.

An older copy of the same pass lives in `producer/worker.rs`.

The pass runs over a SQLite store with two tables, feeds and items. Its repository functions insert, filter, order, page, count, update and delete. A smaller auth crate does three things:

- It keeps a `keys` table of access and secret pairs.
- It generates 64-character keys from a 72-character alphabet.
- It answers two lookups: `exists` (pair is present and not expired) and `find_secret_by_access`.

The model has these parts:

- **Store**: `Database.Connection` is a class whose fields are the two tables, held as sequences in rowid order, and the two AUTOINCREMENT counters. `Valid()` is the schema's invariant:
  - ids ascend and stay below the counter;
  - fingerprints are unique;
  - `(title, link)` is unique;
  - every item references an existing feed.

  In `FeedRepository` and `ItemRepository`, the statements that write (create, update and delete) are methods on the connection. Each is proved against a pure function of the old tables. The reads and counts (`read_all`, `read`, `count_all`) are pure functions of the tables.
- **Pass**: the `Worker.Worker` class holds the connection, a clock, the fetch oracle and the store's read faults. Each of its methods mirrors one source function and is proved equal to a pure specification in module `Worker`:
  - `LinksToCheck` and `Stamped`;
  - `MostRecent` and `Baselines`;
  - `InsertAll`, `RunFeeds` and `Pass`.

  `Worker.PassIdempotent` proves that a second pass over sources that have not changed inserts nothing.

  The pure selection logic is in `Selection`: `Newest`, `Filter`, `Select`, `Prepared` and `Normalize`. The stable sort is in `Sorting`.
- **Values**: `FeedModel` and `ItemModel` hold the two status enums with their string forms, and the fingerprint.
- **Auth**:
  - `KeyStore` holds the keys table.
  - `KeyRepository` and `KeyModel` hold the two repository variants.
  - `KeyGen` holds the generator over a random-draw oracle.
  - `KeyService` and `AuthKey` hold the two `create` entry points.

Timestamps are integers. `Utc::now()` is a `Time.Clock` that reads an oracle `at: nat -> int` and advances a tick counter. SHA-1 is an uninterpreted function `sha1: string -> string` fixed per connection. Fetching a feed is an oracle `fetch: string -> Result<seq<RawItem>, Error>`.

## Model

| member | source | states |
|---|---|---|
| Worker.Worker.Execute | collie-core/src/worker.rs:28-71 | One pass leaves the store and returns exactly what the specification `Pass` computes. Feeds are stamped, baselines looked up, then each subscribed feed is fetched, selected, sorted, normalised and inserted in order. The first fetch error aborts the pass, and the rows already inserted stay. |
| Worker.PassOutcome | collie-core/src/worker.rs:28-71 | The pass fails iff the feed list was readable and some subscribed feed's fetch fails. Either way the items table grows by exactly the rows of one list `added`, with consecutive ids. On success the pass returns that list. |
| Worker.RunFeedsError | collie-core/src/worker.rs:45-46 | Over the list of feeds to poll, the run is `Err` iff some fetch fails, and the error is the first failing fetch's error (`?` on the fetch). |
| Worker.RunFeedsRows | collie-core/src/worker.rs:45-71 | Whether or not the run fails, the table gains exactly the rows of `Created` (every successful insert before any failing fetch), with consecutive ids. On success the returned list is `Created` itself, in feed order then insertion order. |
| Worker.PassIdempotent | collie-core/src/worker.rs:28-71 | Run a pass, then run a second pass on the tables, feeds and clock it left, with the same sources and the same read faults. The second pass leaves the items table and the id counter exactly as the first left them. This holds whatever the clock reads, wherever the fetches fail (the same place again) and whether or not the item reads fail. |
| Worker.RunFeedsCovers | collie-core/src/worker.rs:45-67 | After the loop, every create prepared for a feed the loop reached, with an existing feed, has its fingerprint stored: it was inserted, or it was already there. |
| Worker.RunFeedsNothingNew | collie-core/src/worker.rs:45-67 | If no reached feed has a create that is both new and of an existing feed, the loop leaves the table and the counter unchanged. |
| Worker.RunFeedsValid | collie-core/src/worker.rs:45-67 | The loop keeps the schema invariants of both tables. |
| Worker.CreatedOrigin | collie-core/src/worker.rs:45-67 | Every successful create was prepared for a feed the loop reached, at the clock reading of that feed's insert call. |
| Worker.AddedRowOrigin | collie-core/src/worker.rs:45-67 | Every row the loop added carries the feed and the date of a create prepared for a reached feed. |
| Worker.LinksToCheckIdsUnique | collie-core/src/worker.rs:73-96 | Two polled feeds with the same id are the same feed. |
| Worker.BaselinesGrow | collie-core/src/worker.rs:33-43 | Baselines never shrink. A feed with a baseline before a pass still has one on the next pass, and it is at least as late. |
| Worker.FirstSyncBound | collie-core/src/worker.rs:48-53 | What a first sync inserts is dated at or after every dated entry fetched. |
| Worker.FirstSyncCovered | collie-core/src/worker.rs:48-53 | A feed synced for the first time by one pass gets, on the next pass, a baseline at or after every date it fetches. |
| Worker.SelectedAgain | collie-core/src/worker.rs:48-64 | With a baseline that only grew, and that bounds the fetched dates after a first sync, every entry the feed keeps on the second pass it also kept on the first. |
| Worker.FeedAddsNothingAgain | collie-core/src/worker.rs:48-67 | On the second pass, every create prepared for a feed is a duplicate of a stored fingerprint, at any clock reading. |
| Worker.FeedAgain | collie-core/src/worker.rs:33-67 | Within two consecutive passes, a feed the first pass reached adds nothing on the second. |
| Worker.FeedStepRows | collie-core/src/worker.rs:46-67 | One feed's step fails iff its fetch fails; it then returns the fetch's error and leaves the table alone. Otherwise it appends one row per returned item, with consecutive ids. |
| Worker.Worker.SyncFeeds | collie-core/src/worker.rs:45-70 | The loop over the feeds to poll ends in the state and result of `RunFeeds`, with the loop's running `inserted` list prepended to each step's result. |
| Worker.Worker.SyncFeed | collie-core/src/worker.rs:46-67 | One iteration: fetch, select, sort and insert, ending in the state and result of `FeedStep`. |
| Worker.LinksToCheck | collie-core/src/worker.rs:73-96 | The polled triples are exactly `(id, link, fetch_old_items)` of the feeds whose status is `Subscribed`. |
| Worker.Stamped | collie-core/src/worker.rs:76-90 | Every subscribed feed gets `checked_at` set to the one shared `current` instant, and every other feed is unchanged. |
| Worker.StampedValid | collie-core/src/worker.rs:80-90 | Stamping keeps the feeds table valid and keeps the set of feed ids, so none of the per-feed updates can fail. |
| Worker.StampedTargets | collie-core/src/worker.rs:73-93 | Stamping `checked_at` does not change which triples are polled. |
| Worker.Worker.GetLinksToCheck | collie-core/src/worker.rs:73-96 | If the feed list cannot be read, it returns no triples and changes nothing. Otherwise it reads the clock once, returns `LinksToCheck` of the old feeds, and leaves the table as `Stamped` with that instant. |
| Worker.StampStep | collie-core/src/worker.rs:80-90 | The per-feed `update` with only `checked_at` set stamps exactly the next subscribed feed and keeps `(title, link)` unique. |
| Worker.LinksToCheckStep | collie-core/src/worker.rs:76-93 | The polled list grows by one triple exactly when the next feed is subscribed. |
| Worker.IncrementalIds | collie-core/src/worker.rs:33-36 | The ids to look up are exactly the ids of polled feeds with `fetch_old_items = false`. |
| Worker.MostRecentSpec | collie-core/src/worker.rs:122-145 | The baseline map has an entry for an id iff the id was asked for and the feed has stored items. The entry is the greatest `published_at` among that feed's rows. |
| Worker.MostRecentStep | collie-core/src/worker.rs:128-142 | Each loop step adds the first row of the `PublishedDateDesc`, `limit 1` read under its feed id, or nothing when the read is empty. |
| Worker.Worker.GetMostRecentItems | collie-core/src/worker.rs:122-145 | If the item read fails, a non-empty lookup returns the storage error. Otherwise the filled map equals `MostRecent`. |
| Worker.BaselinesSpec | collie-core/src/worker.rs:33-43 | When the items table can be read, the baselines exist exactly for polled incremental feeds with stored items, and each is that feed's newest date. |
| Worker.FailedLookupMeansFirstSync | collie-core/src/worker.rs:38-43 | When the baseline lookup fails (`unwrap_or_default`), every incremental feed takes the first-sync branch and keeps only `Newest`. |
| Worker.InsertAll | collie-core/src/worker.rs:112-119 | Inserting a list keeps at most its length. The counter advances by the number kept, and the table gains exactly the rows of the kept arguments, in order. |
| Worker.InsertAllSpec | collie-core/src/worker.rs:112-119 | The kept arguments are a subsequence of the input, and each had a fingerprint not yet stored. Afterwards, every argument whose feed exists has its fingerprint stored: it was inserted or it was a duplicate. |
| Worker.InsertAllNone | collie-core/src/worker.rs:112-119 | When every argument is a duplicate or has no feed, nothing is inserted and nothing changes. |
| Worker.InsertAllAgain | collie-core/src/worker.rs:112-119 | Re-inserting the same list right after adds nothing, because every insert is a duplicate. |
| Worker.InsertAllValid | collie-core/src/worker.rs:112-119 | The insert loop keeps the schema invariants of both tables. |
| Worker.InsertAllStep | collie-core/src/worker.rs:113-117 | One loop step: the argument is pushed onto `inserted` iff its `create` succeeded. |
| Worker.Worker.CreateAll | collie-core/src/worker.rs:112-119 | The loop over `create` ends with the `inserted` list and the table that `InsertAll` specifies. |
| Worker.Worker.InsertNewItems | collie-core/src/worker.rs:99-120 | It reads the clock once, normalises every item with that instant, and returns and stores what `InsertAll` specifies for the normalised list. |
| Worker.NewRows | collie-core/src/repository/item.rs:13-39 | Rows for a list of inserted arguments: one per argument, with consecutive ids. |
| Worker.PrepareApply | collie-core/src/worker.rs:48-67 | A feed's kept entries are the normalised `Prepared` (selected, then sorted) list. |
| Worker.RunFeedsStep | collie-core/src/worker.rs:45-68 | One loop iteration: a failing fetch ends the run with its error, otherwise the feed's inserts are prepended to the rest of the run. |
| Selection.LastMaxIndex | collie-core/src/worker.rs:51 | `max_by_key` on `published_at`: the index holds a maximal date (`None` below every `Some`), and no later entry is as large, so it is the last maximum. |
| Selection.Newest | collie-core/src/worker.rs:48-53 | The first-sync list has at most one entry, and it is empty iff nothing was fetched. |
| Selection.SelectFirstSync | collie-core/src/worker.rs:48-53 | An incremental feed without a baseline keeps at most one entry. It keeps none only when nothing was fetched, and otherwise keeps the last entry of maximal date. |
| Selection.Filter | collie-core/src/worker.rs:55-63 | An entry is kept iff the feed back-fills, or there is no baseline, or its date is `Some(t)` with `t` after the baseline. |
| Selection.SelectIncremental | collie-core/src/worker.rs:55-63 | With baseline `b`, an incremental feed keeps exactly the entries dated `Some(t)` with `t > b`. |
| Selection.SelectBackfill | collie-core/src/worker.rs:55-63 | A back-fill feed keeps every fetched entry, in fetch order. |
| Selection.FilterAll | collie-core/src/worker.rs:61 | The `\|\| fetch_old_items` disjunct keeps everything. |
| Selection.PreparedOrder | collie-core/src/worker.rs:66 | After `sort_by_key`, the kept entries are in nondecreasing date order (`None` first) and a permutation of the selection. Entries with equal dates keep their fetch order. |
| Selection.ByDateTotalPreorder | collie-core/src/worker.rs:66 | The date key order (`None` below every `Some`) is a total preorder. |
| Selection.Normalize | collie-core/src/worker.rs:102-110 | Title, author, link and description are trimmed. A missing link is `"#"`, missing content is `""` and a missing date is `current`. Status is `Unread` and the feed is the given id. |
| Selection.NormalizedTrimmed | collie-core/src/worker.rs:103-106 | Every normalised text field is already trimmed. |
| Selection.NormalizeAll | collie-core/src/worker.rs:102-110 | Normalising a list maps `Normalize` over each entry with the one `current` instant. |
| Selection.NormalizedFingerprint | collie-core/src/worker.rs:102-110 | Two fetched entries with the same title and link normalise to the same fingerprint, whatever their feed and clock, so the second is a duplicate. |
| Selection.FixtureSelection | collie-core/src/tests/syndication.rs:39-59 | On the three fixture entries (01:33:24, 01:05:24, 00:32:34): a first sync keeps the newest; with baseline 01:05:24 only 01:33:24 survives; back-fill keeps all three, sorted oldest first. |
| Sorting.SortBy | collie-core/src/worker.rs:66 | Sorting keeps the length and the multiset of entries. |
| Sorting.SortBySorted | collie-core/src/worker.rs:66 | Under a total preorder the sort's result is sorted. |
| Sorting.SortByStable | collie-core/src/worker.rs:66 | The sort is stable: the entries equivalent to any key keep their relative order. |
| Sorting.InsertBy | collie-core/src/worker.rs:66 | Inserting one entry adds it to the multiset and grows the length by one. |
| Sorting.InsertBySorted | collie-core/src/worker.rs:66 | Inserting into a sorted list keeps it sorted. |
| Sorting.InsertByTies | collie-core/src/worker.rs:66 | Insertion places a new entry after every entry equivalent to it. |
| Sorting.TiesAppend | collie-core/src/worker.rs:66 | The entries equivalent to a key, taken from a concatenation, are those of each part in order. |
| Sorting.DistinctPermutation | collie-core/src/worker.rs:66 | A permutation of a list without repeats has no repeats. |
| Common.Trim | collie-core/src/worker.rs:103-106 | `trim` removes exactly the leading and trailing whitespace, and the result neither starts nor ends with whitespace. |
| Common.TrimStart | collie-core/src/worker.rs:103-106 | The result is a suffix of the input, and only whitespace was dropped. |
| Common.TrimEnd | collie-core/src/worker.rs:103-106 | The result is a prefix of the input, and only whitespace was dropped. |
| Common.TrimIdempotent | collie-core/src/worker.rs:103-106 | Trimming twice is trimming once. |
| Common.TrimFixesTrimmed | collie-core/src/worker.rs:103-106 | A string without surrounding whitespace is left as it is. |
| ItemModel.ItemStatusFromStr | collie-core/src/model/item.rs:28-36 | Parsing accepts exactly the two display strings. Any other input `x` fails with `InvalidEnumKey(x, "ItemStatus")`. |
| ItemModel.ItemStatusRoundTrip | collie-core/src/model/item.rs:16-38 | `from_str(to_string(s)) == Ok(s)` for every item status. |
| ItemModel.ItemStatusToStringInjective | collie-core/src/model/item.rs:17-22 | The two statuses display as two distinct strings. |
| ItemModel.FingerprintOnlyTitleAndLink | collie-core/src/model/item.rs:94-96 | The fingerprint depends only on title and link. |
| ItemModel.FingerprintSeparatorAmbiguity | collie-core/src/model/item.rs:95 | Two different (title, link) pairs that join to the same `title:link` string share a fingerprint. |
| FeedModel.FeedStatusFromStr | collie-core/src/model/feed.rs:30-38 | Parsing accepts exactly the two display strings. Any other input `x` fails with `InvalidEnumKey(x, "FeedStatus")`. |
| FeedModel.FeedStatusRoundTrip | collie-core/src/model/feed.rs:18-40 | `from_str(to_string(s)) == Ok(s)` for every feed status. |
| FeedModel.FeedStatusToStringInjective | collie-core/src/model/feed.rs:19-24 | The two statuses display as two distinct strings. |
| Database.StatusStringsMatchSchema | collie-core/src/repository/database.rs:99-105 | The display strings of both enums are exactly the values the schema's CHECK constraints allow, and each allowed value parses. |
| Database.Connection.constructor | collie-core/src/repository/database.rs:138-186 | A fresh store has empty tables that satisfy the schema invariants. |
| FeedRepository.Create | collie-core/src/repository/feed.rs:12-31 | A new `(title, link)` is appended as a `subscribed` feed with the given fields, `checked_at = now` and the next id, returning `Ok(1)`. A duplicate pair fails on the unique index and leaves the table unchanged. |
| FeedRepository.ReadAll | collie-core/src/repository/feed.rs:33-51 | Every feed is returned, unfiltered and in table order. |
| FeedRepository.Read | collie-core/src/repository/feed.rs:53-73 | It returns `None` iff no feed has the id; otherwise it returns a stored feed with that id. |
| FeedRepository.ReadFindsRow | collie-core/src/repository/feed.rs:53-73 | The read returns the first stored feed with the id (`limit 1`). |
| FeedRepository.UpdatedFeeds | collie-core/src/repository/feed.rs:75-106 | Only the feed with `arg.id` changes, and only in its `Some` fields. |
| FeedRepository.Update | collie-core/src/repository/feed.rs:75-106 | With no field given, the statement is rejected and nothing changes. A result that would duplicate a `(title, link)` fails on the unique index and changes nothing. Otherwise the table becomes `UpdatedFeeds`, and the count of matched rows is returned. |
| FeedRepository.UpdateKeepsFeedIds | collie-core/src/repository/feed.rs:75-106 | An update never removes a feed id. |
| FeedRepository.CountId | collie-core/src/repository/feed.rs:75-106 | The matched-row count is zero iff no feed has the id. |
| FeedRepository.Delete | collie-core/src/repository/feed.rs:108-116 | The feed with the id is removed and, by the cascade, so is every item of that feed. The number of feeds removed is returned. |
| FeedRepository.WithoutFeed | collie-core/src/repository/feed.rs:108-116 | A feed is kept iff it was stored and its id differs. |
| FeedRepository.WithoutItemsOf | collie-core/src/repository/database.rs:175-182 | An item is kept iff it was stored and belongs to another feed. |
| FeedRepository.WithoutFeedValid | collie-core/src/repository/feed.rs:108-116 | Deleting a feed keeps the feeds table valid. |
| FeedRepository.WithoutFeedAscending | collie-core/src/repository/feed.rs:108-116 | Deleting a feed keeps feed ids ascending. |
| FeedRepository.WithoutFeedUnique | collie-core/src/repository/database.rs:113-118 | Deleting a feed keeps `(title, link)` unique. |
| FeedRepository.WithoutItemsValid | collie-core/src/repository/database.rs:175-182 | After the cascade every remaining item still references a remaining feed, and the items table stays valid. |
| FeedRepository.WithoutItemsAscending | collie-core/src/repository/database.rs:175-182 | The cascade keeps item ids ascending. |
| FeedRepository.WithoutItemsUnique | collie-core/src/repository/database.rs:150-153 | The cascade keeps fingerprints unique. |
| ItemRepository.InsertSpec | collie-core/src/repository/item.rs:13-39 | An insert succeeds iff the fingerprint is new and the feed exists. It then appends one row with the next id and returns `Ok(1)`. A stored fingerprint fails on the unique constraint, and any failure leaves the table unchanged. |
| ItemRepository.InsertValid | collie-core/src/repository/database.rs:138-186 | An insert keeps both tables valid. |
| ItemRepository.InsertTwiceRejected | collie-core/src/repository/database.rs:150-153 | After an insert its fingerprint is stored, so the same insert again fails and changes nothing. |
| ItemRepository.Create | collie-core/src/repository/item.rs:13-39 | `create` returns and stores what `Insert` specifies, and keeps the schema invariants. |
| ItemRepository.Where | collie-core/src/repository/item.rs:64-85 | The filtered join has at most one item per stored row. |
| ItemRepository.WhereSound | collie-core/src/repository/item.rs:71-85 | Every item returned comes from a stored row that satisfies every given filter and is joined to its own feed. |
| ItemRepository.WhereComplete | collie-core/src/repository/item.rs:71-85 | Every stored row that satisfies the filters and has a feed appears in the join. |
| ItemRepository.OrderLeTotalPreorder | collie-core/src/repository/item.rs:87-106 | Each of the three orderings is a total preorder. |
| ItemRepository.Ordered | collie-core/src/repository/item.rs:87-106 | Ordering keeps the length and the multiset of items. |
| ItemRepository.Page | collie-core/src/repository/item.rs:108-118 | The page is the slice starting at `offset*limit` (or at `offset` when no limit is given), of length `limit` or up to the end. |
| ItemRepository.PageHolds | collie-core/src/repository/item.rs:112-117 | Offset is a page index: item `i` is at position `i % l` of page `i / l`. |
| ItemRepository.ReadAll | collie-core/src/repository/item.rs:42-126 | At most `limit` items are returned, and each satisfies every filter. |
| ItemRepository.ReadAllComplete | collie-core/src/repository/item.rs:42-126 | Without limit and offset, every matching row is returned. |
| ItemRepository.ReadAllAsWrittenOutcome | collie-core/src/repository/item.rs:64-73 | As the statement is built, a read fails with an ambiguous `id` exactly when it filters by a non-empty `ids` list. Every other read, the worker's and one with an empty `ids` list included, returns what `ReadAll` describes. |
| ItemRepository.IdsReadRejected | collie-core/src/repository/item.rs:71-73 | Take a stored row of an existing feed, asked for by its own id. It is in the intended read, but the read as written fails. |
| ItemRepository.WhereNoIds | collie-core/src/repository/item.rs:71-73 | An empty `ids` list matches no row, so the join is empty. |
| ItemRepository.EmptyIdsReadsNothing | collie-core/src/repository/item.rs:71-73 | With an empty `ids` list the intended read is empty, and the read as written returns `Ok` with no item, because the filter is rendered as `1 = 2` and names no column. |
| ItemRepository.FirstShared | collie-core/src/repository/item.rs:64-73 | It returns nothing iff no listed column is shared, and otherwise a listed column that is shared. |
| ItemRepository.PageSorted | collie-core/src/repository/item.rs:108-118 | Paging a sorted list keeps it sorted. |
| ItemRepository.ReadAllSorted | collie-core/src/repository/item.rs:87-118 | With an ordering given, the result is sorted by it. |
| ItemRepository.ReadAllPublishedDesc | collie-core/src/repository/item.rs:94-96 | `PublishedDateDesc` yields nonincreasing `published_at`. |
| ItemRepository.ReadAllUnreadFirst | collie-core/src/repository/item.rs:97-104 | `UnreadFirst` puts every unread item before any read item, with dates descending inside each group. |
| ItemRepository.WhereAscending | collie-core/src/repository/item.rs:64-85 | The unordered join returns ids in ascending rowid order. |
| ItemRepository.ReadAllReceivedDesc | collie-core/src/repository/item.rs:89-93 | `ReceivedDateDesc` yields strictly decreasing ids. |
| ItemRepository.SameIdSameItem | collie-core/src/repository/item.rs:64-85 | Two returned items with the same id are the same item. |
| ItemRepository.NewestFirstRow | collie-core/src/repository/item.rs:42-126 | The `PublishedDateDesc`, `limit 1` read of a feed is empty iff the feed has no rows. Otherwise it returns one of its rows with the greatest date. |
| ItemRepository.CountWhere | collie-core/src/repository/item.rs:128-156 | The count is at most the table size, and zero iff no row matches. |
| ItemRepository.CountAll | collie-core/src/repository/item.rs:128-156 | `count_all` ignores the `ids` filter: its count is zero iff no row matches the feed, status and `is_saved` filters. |
| ItemRepository.CountAllIsReadLength | collie-core/src/repository/item.rs:128-156 | The count equals the length of the unpaged `read_all` with the same filters and without `ids`. |
| ItemRepository.ReadAllUnpaged | collie-core/src/repository/item.rs:108-118 | Without limit and offset nothing is cut. |
| ItemRepository.WhereCount | collie-core/src/repository/item.rs:42-156 | The join returns exactly as many items as the same filters count. |
| ItemRepository.UpdatedRows | collie-core/src/repository/item.rs:179-213 | Every matching row (every row when `opt` is `None`) gets the given fields, and all other rows are unchanged. |
| ItemRepository.UpdatedRowsValid | collie-core/src/repository/item.rs:179-213 | A partial update keeps the items table valid. |
| ItemRepository.Update | collie-core/src/repository/item.rs:158-177 | With no field given, the statement is rejected and nothing changes. Otherwise only the row with `arg.id` gets the given fields, and the matched-row count is returned. |
| ItemRepository.UpdateAll | collie-core/src/repository/item.rs:179-213 | With no field given, the statement is rejected and nothing changes. Otherwise every row matching `opt` (all rows without `opt`) gets the given fields, and the count of those rows is returned. |
| ItemRepository.UpdateOnlyThatRow | collie-core/src/repository/item.rs:158-177 | At most one row has the id. Every other row is unchanged, and on that row only status and `is_saved` can differ. |
| ItemRepository.CountAtMostOne | collie-core/src/repository/item.rs:172 | The id filter matches at most one row. |
| ProducerWorker.CreateNewItems | collie-core/src/producer/worker.rs:20-62 | The older pass ends in the same state and result as `Pass`, so `Worker.PassIdempotent` covers it too: a second run adds nothing. |
| ProducerWorker.GetLinksToCheck | collie-core/src/producer/worker.rs:64-88 | Same contract as the worker's: subscribed triples, all stamped with one instant, and nothing changes when the feed read fails. |
| ProducerWorker.InsertNewItems | collie-core/src/producer/worker.rs:90-111 | Same contract as the worker's: one clock reading, normalise, keep exactly the successful creates. |
| ProducerWorker.GetMostRecentItems | collie-core/src/producer/worker.rs:113-136 | Same contract as the worker's: the storage error, or the map of newest dates. |
| Time.Clock.Now | collie-core/src/worker.rs:75 | Each reading returns the oracle's next instant and advances the clock. |
| KeyStore.InsertKeySpec | collie-auth/src/repository/key.rs:8-27 | An insert succeeds iff the access key is new. It then appends one row holding the four given fields. On failure nothing changes, and the table stays valid either way. |
| KeyStore.InsertKeyTwice | collie-auth/src/model/database.rs:24 | The same access key cannot be stored twice. |
| KeyStore.Insert | collie-auth/src/repository/key.rs:8-27 | The method stores and returns what `InsertKey` specifies and keeps the table valid. |
| KeyStore.KeyTable.constructor | collie-auth/src/model/database.rs:13-29 | A fresh keys table is empty and valid. |
| KeyRepository.Create | collie-auth/src/repository/key.rs:8-27 | It returns `Ok` iff the access key is new, and then appends the row with the four given fields. On a duplicate it fails on `keys.access` and changes nothing. |
| KeyRepository.Exists | collie-auth/src/repository/key.rs:29-48 | `exists(a, s)` holds iff some row has access `a` and secret `s` and has no expiry or expires after `now`. |
| KeyRepository.NeverExpires | collie-auth/src/repository/key.rs:35-38 | A stored pair without expiry is accepted at every instant. |
| KeyRepository.ExpiredRefused | collie-auth/src/repository/key.rs:35-38 | With unique access keys, a pair whose row has `expired_at <= now` is refused. |
| KeyModel.Create | collie-auth/src/model/key.rs:41-60 | The same contract as the repository's `create`. |
| KeyModel.FindSecretByAccess | collie-auth/src/model/key.rs:62-78 | The intended lookup. It returns `Ok` iff some row has the access key, and the secret is then that of the first such row (`limit 1`). Otherwise it returns `Err(Unauthorized)`. |
| KeyModel.FindSecretOfStoredKey | collie-auth/src/model/key.rs:62-78 | With unique access keys, the intended lookup returns the secret of the row with that access key, whether or not it has expired. |
| KeyModel.AcceptedPairResolves | collie-auth/src/model/key.rs:62-78 | A pair that `exists` accepts resolves, through the intended lookup of its access key, to its secret. |
| KeyModel.FirstMissing | collie-auth/src/model/key.rs:21-31 | It returns nothing iff every listed column was selected, and otherwise a listed column that was not. |
| KeyModel.FindSecretByAccessAsWritten | collie-auth/src/model/key.rs:21-78 | As written, a lookup that finds no row returns what the intended lookup returns. A lookup that finds a row aborts, on a column the row conversion reads but the SELECT does not return. |
| KeyModel.FindSecretAsWrittenOutcome | collie-auth/src/model/key.rs:62-78 | As written, a lookup aborts on `id` exactly when some row has the access key, and otherwise returns `Err(Unauthorized)`. No call returns a secret. |
| KeyModel.StoredKeyPanics | collie-auth/src/model/key.rs:74-75 | For any stored key, the intended lookup returns its secret while the lookup as written aborts on `id`. |
| KeyGen.ThreadRng.GenRange | collie-auth/src/service/key.rs:32 | Each draw is an index below the alphabet size taken from the next value of the random source. |
| KeyGen.KeyFrom | collie-auth/src/service/key.rs:25-36 | The key built from `n` draws has `n` characters, all from the alphabet. |
| KeyGen.KeyFromSplit | collie-auth/src/service/key.rs:30-35 | Each draw appends the character at the drawn index. |
| KeyGen.Generate | collie-auth/src/service/key.rs:25-36 | `generate` returns 64 characters from the 72-character alphabet, built from the next 64 draws. |
| KeyGen.CharsSize | collie-auth/src/service/key.rs:26-27 | The alphabet has 72 characters. |
| KeyService.Create | collie-auth/src/service/key.rs:8-23 | It generates access then secret and stores them with the description and no expiry. It returns `Ok((access, secret))`, which is the pair it passed to storage, even when the insert fails. |
| AuthKey.GenerateKey | collie-auth/src/key.rs:25-36 | `generate_key` returns 64 characters from the same 72-character alphabet. |
| AuthKey.Create | collie-auth/src/key.rs:8-23 | It stores the generated pair with the description and no expiry, and returns `Ok(access)` only, never the secret, even when the insert fails. |

## Left out

- Network I/O, Atom/RSS parsing and the proxy: a feed fetch is an oracle from link to entries or error. `service/item.rs` and `util/fetcher.rs` are not part of this model.
- SHA-1 itself is an uninterpreted function of the `title:link` string. Only its determinism is used, not collision resistance, so distinct strings may share a fingerprint in the model as well.
- Concurrency: `Arc<Mutex<…>>`, `async`/`await` and the lock are left out, and the store is one sequential object.
- Time: chrono timestamps and time zones are integers. `Utc::now()` reads an oracle, and instants are compared as integers.
- Worker.Worker.Execute: `sort_by_key` sorts in place; the model sorts the kept list as a value (a stable insertion sort) and assigns the result.
- ItemRepository.Where: the join filters `ids` on `items.id`, which is the intended statement. As written, any non-empty `ids` filter makes the statement fail (see Findings and `ReadAllAsWritten`).
- ItemRepository.WhereComplete: completeness is stated for the intended statement. As written, a read with a non-empty `ids` filter returns an error instead (`ReadAllAsWrittenOutcome`).
- ItemRepository.ReadAll: this is the intended `read_all`. As written, a non-empty `ids` filter fails on an ambiguous column; `ReadAllAsWritten` models that, and agrees with `ReadAll` on every other read.
- ItemRepository.ReadAllComplete: stated for the intended statement. As written, it holds only for reads without a non-empty `ids` list.
- ItemRepository.WhereCount: compares the count with the intended join. As written, the join fails when a non-empty `ids` list is given, while `count_all` ignores `ids`.
- ItemRepository.Page: `offset * limit` is a 64-bit product in the source; its overflow is not modelled.
- ItemRepository.Ordered: SQL leaves the order of rows with equal sort keys unspecified. The model keeps table (rowid) order for ties, and the unordered query returns rows in rowid order.
- Foreign keys are taken as enforced, so an item insert for a missing feed fails and a feed delete cascades. The connection PRAGMA that turns enforcement on is not part of this model.
- FeedRepository.Update: an update with no field set builds an empty SET list. The model takes SQLite's rejection of that statement as an error that changes nothing.
- Store read failures are two flags: the feed list read fails, or every item read fails. A failure of some reads but not others is not modelled. Failures of single writes other than constraint violations are not modelled.
- KeyRepository.Exists: returns `bool`; the `Result` wrapper for query errors is not modelled.
- KeyModel.FindSecretByAccess: this is the intended lookup. As written, every lookup that finds a row aborts on the `id` column (see Findings and `FindSecretByAccessAsWritten`). A query error, as opposed to an empty result, is not modelled.
- KeyModel.FindSecretOfStoredKey: stated for the intended lookup. As written, the lookup of a stored key aborts instead (`StoredKeyPanics`).
- KeyModel.AcceptedPairResolves: stated for the intended lookup. As written, no accepted pair resolves, because the lookup aborts (`FindSecretAsWrittenOutcome`).
- KeyGen.ThreadRng.GenRange: `gen_range` rejection-samples a uniform index; the model takes the next oracle value modulo the alphabet size, so uniformity is not modelled.
- The producer copy (`producer/worker.rs`) and the older auth copy (`collie-auth/src/key.rs`, `model/key.rs`) are line for line the same logic. Their entry points delegate to the one model and carry the same contracts.
- The keys table is its own class. It shares the SQLite file with feeds and items in the source, but no constraint links them.
- JWT issuing and checking (`token.rs`) and the schema migration code are not part of this model. Their constraints appear as the table invariants.
- A fetch error aborts the whole pass with no per-feed isolation, as the code does. Feeds after the failing one are not polled, and the rows already inserted stay.

## Findings

| source | as written | input that shows it | evidently intended | confidence | as-written member | corrected member |
|---|---|---|---|---|---|---|
| collie-core/src/repository/item.rs:72 | The `ids` filter of `read_all` is `Expr::col(Items::Id)`. That names `id` without its table, in a SELECT that inner-joins `feeds`, which also has an `id` column. SQLite refuses to prepare the statement ("ambiguous column name: id"), so `read_all` returns `Err` whenever `ids` is a non-empty list. An empty list is rendered as `1 = 2`, names no column, and reads nothing. | Any read with `ids: Some([n])`, for example the id of a stored item of an existing feed. | Qualify the column as `(Items::Table, Items::Id)`, as lines 80 and 91 do, so the read returns the stored items with those ids. | not executed | ItemRepository.ReadAllAsWritten, ItemRepository.IdsReadRejected | ItemRepository.ReadAll, ItemRepository.ReadAllComplete |
| collie-auth/src/model/key.rs:74 | `find_secret_by_access` selects only `secret` (lines 63-64). It then turns the found row into a `Key` with `Key::from`, which reads `id` first with rusqlite's `get_unwrap` (line 24). That column is not in the result, so `get_unwrap` panics on every lookup that finds a row. Only lookups of unknown access keys return, with `Unauthorized`. | Keys `[Key(1, "a", "s", None, None)]`, lookup of access key `"a"`. | Read the selected column directly (`row.get("secret")`), or select every column `Key::from` reads, so the lookup returns `Ok("s")`. | not executed | KeyModel.FindSecretByAccessAsWritten, KeyModel.FindSecretAsWrittenOutcome, KeyModel.StoredKeyPanics | KeyModel.FindSecretByAccess, KeyModel.FindSecretOfStoredKey |
