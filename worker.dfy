/** The feed synchronisation pass (collie-core/src/worker.rs). The first half
    states the pass as functions of the tables, the clock and the fetch results;
    the class `Worker` then runs it step by step against the store and is proved
    to end in the state and with the result those functions give. */
module Worker {
  import opened Common
  import opened FeedModel
  import opened ItemModel
  import opened Database
  import opened Sorting
  import opened Syndication
  import opened Selection
  import opened Time
  import FeedRepository
  import ItemRepository

  /** One `(id, link, fetch_old_items)` triple of `get_links_to_check`. */
  datatype FeedTarget = FeedTarget(id: int, link: string, fetchOldItems: bool)

  /** Which SELECT statements of the pass fail (I/O, locking): the read of all
      feeds, and the reads of stored items. */
  datatype StoreFaults = StoreFaults(feedReadFails: bool, itemReadFails: bool)

  /** `item::fetch` with the worker's proxy: the entries behind a link, or the
      transport or parsing error. */
  type Fetcher = string -> Result<seq<RawItem>, Error>

  function Target(f: Feed): FeedTarget {
    FeedTarget(f.id, f.link, f.fetchOldItems)
  }

  // ---------------------------------------------------------------- get_links_to_check

  /** The feeds the pass polls, in table order: exactly the subscribed ones. */
  function LinksToCheck(feeds: seq<Feed>): (r: seq<FeedTarget>)
    ensures |r| <= |feeds|
    ensures forall f :: f in feeds && f.status == Subscribed ==> Target(f) in r
    ensures forall p :: p in r ==> exists f :: f in feeds && f.status == Subscribed && p == Target(f)
  {
    if feeds == [] then []
    else
      var init := feeds[..|feeds| - 1];
      var last := feeds[|feeds| - 1];
      assert forall f :: f in feeds <==> f in init || f == last;
      LinksToCheck(init) + (if last.status == Subscribed then [Target(last)] else [])
  }

  /** The feeds table after `get_links_to_check`: every subscribed feed has
      `checked_at` set to the one instant `current`; nothing else changes. */
  function Stamped(feeds: seq<Feed>, current: Timestamp): (r: seq<Feed>)
    ensures |r| == |feeds|
    ensures forall i :: 0 <= i < |feeds| ==>
              r[i] == if feeds[i].status == Subscribed then feeds[i].(checkedAt := current) else feeds[i]
  {
    seq(|feeds|, i requires 0 <= i < |feeds| =>
      if feeds[i].status == Subscribed then feeds[i].(checkedAt := current) else feeds[i])
  }

  /** Stamping keeps the feeds table valid and every feed id in place. */
  lemma StampedValid(feeds: seq<Feed>, nextId: int, current: Timestamp)
    requires FeedsValid(feeds, nextId)
    ensures FeedsValid(Stamped(feeds, current), nextId)
    ensures forall id :: FeedExists(feeds, id) <==> FeedExists(Stamped(feeds, current), id)
  {
    var s := Stamped(feeds, current);
    forall id ensures FeedExists(feeds, id) <==> FeedExists(s, id) {
      if FeedExists(feeds, id) {
        var f :| f in feeds && f.id == id;
        var i :| 0 <= i < |feeds| && feeds[i] == f;
        assert s[i] in s;
      }
      if FeedExists(s, id) {
        var f :| f in s && f.id == id;
        var i :| 0 <= i < |s| && s[i] == f;
        assert feeds[i] in feeds;
      }
    }
  }

  /** Stamping does not change which feeds are polled, or their links. */
  lemma {:induction false} StampedTargets(feeds: seq<Feed>, current: Timestamp)
    ensures LinksToCheck(Stamped(feeds, current)) == LinksToCheck(feeds)
  {
    if feeds != [] {
      var s := Stamped(feeds, current);
      var init := feeds[..|feeds| - 1];
      assert s[..|s| - 1] == Stamped(init, current);
      StampedTargets(init, current);
    }
  }

  /** The feeds table part-way through the stamping loop: the subscribed feeds
      among the first `n` are stamped. */
  function StampedUpTo(feeds: seq<Feed>, n: int, current: Timestamp): (r: seq<Feed>)
    ensures |r| == |feeds|
    ensures forall j :: 0 <= j < |feeds| ==>
              r[j] == if j < n && feeds[j].status == Subscribed then feeds[j].(checkedAt := current) else feeds[j]
  {
    seq(|feeds|, j requires 0 <= j < |feeds| =>
      if j < n && feeds[j].status == Subscribed then feeds[j].(checkedAt := current) else feeds[j])
  }

  /** Stamping the next subscribed feed through `update` is one step of the
      loop, and it never breaks the unique (title, link) index. */
  lemma StampStep(feeds: seq<Feed>, n: nat, current: Timestamp)
    requires n < |feeds| && FeedIdsAscending(feeds) && TitleLinksUnique(feeds)
    requires feeds[n].status == Subscribed
    ensures var arg := FeedToUpdate(feeds[n].id, None, None, None, Some(current), None);
            var u := FeedRepository.UpdatedFeeds(StampedUpTo(feeds, n, current), arg);
            u == StampedUpTo(feeds, n + 1, current) && TitleLinksUnique(u)
  {
    var arg := FeedToUpdate(feeds[n].id, None, None, None, Some(current), None);
    var s := StampedUpTo(feeds, n, current);
    var u := FeedRepository.UpdatedFeeds(s, arg);
    var t := StampedUpTo(feeds, n + 1, current);
    forall j | 0 <= j < |feeds|
      ensures u[j] == t[j] && SameTitleLink(u[j], feeds[j])
    {
      assert s[j].id == feeds[j].id;
      assert j != n ==> feeds[j].id != feeds[n].id;
    }
    assert u == t;
  }

  /** A feed that is not subscribed is passed over. */
  lemma StampSkip(feeds: seq<Feed>, n: nat, current: Timestamp)
    requires n < |feeds| && feeds[n].status != Subscribed
    ensures StampedUpTo(feeds, n + 1, current) == StampedUpTo(feeds, n, current)
  {
    assert forall j :: 0 <= j < |feeds| ==> StampedUpTo(feeds, n + 1, current)[j] == StampedUpTo(feeds, n, current)[j];
  }

  lemma StampedUpToEnds(feeds: seq<Feed>, current: Timestamp)
    ensures StampedUpTo(feeds, 0, current) == feeds
    ensures StampedUpTo(feeds, |feeds|, current) == Stamped(feeds, current)
  {
    assert forall j :: 0 <= j < |feeds| ==> StampedUpTo(feeds, 0, current)[j] == feeds[j];
    assert forall j :: 0 <= j < |feeds| ==> StampedUpTo(feeds, |feeds|, current)[j] == Stamped(feeds, current)[j];
  }

  lemma LinksToCheckStep(feeds: seq<Feed>, n: nat)
    requires n < |feeds|
    ensures LinksToCheck(feeds[..n + 1]) ==
              LinksToCheck(feeds[..n]) + (if feeds[n].status == Subscribed then [Target(feeds[n])] else [])
  {
    assert feeds[..n + 1][..n] == feeds[..n];
  }

  // ---------------------------------------------------------------- get_most_recent_items

  /** The feeds that get a baseline: those that do not fetch old items. */
  function IncrementalIds(pairs: seq<FeedTarget>): (r: seq<int>)
    ensures forall p :: p in pairs && !p.fetchOldItems ==> p.id in r
    ensures forall id :: id in r ==> exists p :: p in pairs && !p.fetchOldItems && p.id == id
  {
    if pairs == [] then []
    else
      assert forall p :: p in pairs <==> p == pairs[0] || p in pairs[1..];
      (if !pairs[0].fetchOldItems then [pairs[0].id] else []) + IncrementalIds(pairs[1..])
  }

  /** The newest-first read of at most one item of feed `id`. */
  function NewestItem(feeds: seq<Feed>, rows: seq<ItemRow>, id: int): seq<Item> {
    ItemRepository.ReadAll(feeds, rows, ItemRepository.NewestOf(id))
  }

  /** The map `get_most_recent_items` builds: for each id in turn, the date of
      the first row of its newest-first read of one row, keyed by that row's feed. */
  function MostRecent(feeds: seq<Feed>, rows: seq<ItemRow>, ids: seq<int>): map<int, Timestamp> {
    if ids == [] then map[]
    else
      var m := MostRecent(feeds, rows, ids[..|ids| - 1]);
      var r := NewestItem(feeds, rows, ids[|ids| - 1]);
      if r == [] then m else m[r[0].feed.id := r[0].publishedAt]
  }

  lemma MostRecentStep(feeds: seq<Feed>, rows: seq<ItemRow>, ids: seq<int>, n: nat)
    requires n < |ids|
    ensures var r := NewestItem(feeds, rows, ids[n]);
            var m := MostRecent(feeds, rows, ids[..n]);
            MostRecent(feeds, rows, ids[..n + 1]) == if r == [] then m else m[r[0].feed.id := r[0].publishedAt]
  {
    assert ids[..n + 1][..n] == ids[..n];
  }

  predicate HasItems(rows: seq<ItemRow>, id: int) {
    exists row :: row in rows && row.feed == id
  }

  /** `t` is the newest date among the items of feed `id`. */
  predicate IsNewest(rows: seq<ItemRow>, id: int, t: Timestamp) {
    && (exists row :: row in rows && row.feed == id && row.publishedAt == t)
    && (forall row :: row in rows && row.feed == id ==> row.publishedAt <= t)
  }

  /** A feed has a baseline exactly when it was asked for and has stored items;
      the baseline is the newest date among them. */
  lemma {:induction false} MostRecentSpec(feeds: seq<Feed>, rows: seq<ItemRow>, ids: seq<int>)
    requires FeedsReferenced(rows, feeds)
    ensures var m := MostRecent(feeds, rows, ids);
            && (forall id :: id in m <==> id in ids && HasItems(rows, id))
            && (forall id :: id in m ==> IsNewest(rows, id, m[id]))
  {
    if ids != [] {
      var init := ids[..|ids| - 1];
      var last := ids[|ids| - 1];
      MostRecentSpec(feeds, rows, init);
      assert forall id :: id in ids <==> id in init || id == last;
      ItemRepository.NewestFirstRow(feeds, rows, last);
      var r := ItemRepository.ReadAll(feeds, rows, ItemRepository.NewestOf(last));
      if r != [] {
        var row := ItemRepository.RowOf(r[0]);
        assert row in rows && row.feed == last && row.publishedAt == r[0].publishedAt;
      }
    }
  }

  /** The baselines of one pass: none when no feed is incremental or when the
      item reads fail (`unwrap_or_default`). */
  function Baselines(feeds: seq<Feed>, rows: seq<ItemRow>, pairs: seq<FeedTarget>, faults: StoreFaults): map<int, Timestamp> {
    var ids := IncrementalIds(pairs);
    if ids == [] || faults.itemReadFails then map[] else MostRecent(feeds, rows, ids)
  }

  /** With readable items, exactly the polled incremental feeds that have stored
      items get a baseline, and it is their newest date. */
  lemma BaselinesSpec(feeds: seq<Feed>, rows: seq<ItemRow>, pairs: seq<FeedTarget>, faults: StoreFaults)
    requires FeedsReferenced(rows, feeds) && !faults.itemReadFails
    ensures var b := Baselines(feeds, rows, pairs, faults);
            && (forall id :: id in b <==> (exists p :: p in pairs && !p.fetchOldItems && p.id == id) && HasItems(rows, id))
            && (forall id :: id in b ==> IsNewest(rows, id, b[id]))
  {
    MostRecentSpec(feeds, rows, IncrementalIds(pairs));
  }

  /** When the item reads fail, every incremental feed is treated as a first
      sync and keeps at most its newest entry. */
  lemma FailedLookupMeansFirstSync(feeds: seq<Feed>, rows: seq<ItemRow>, pairs: seq<FeedTarget>,
                                   faults: StoreFaults, p: FeedTarget, items: seq<RawItem>)
    requires faults.itemReadFails && p in pairs && !p.fetchOldItems
    ensures Select(items, p.id, false, Baselines(feeds, rows, pairs, faults)) == Newest(items)
  {
  }

  // ---------------------------------------------------------------- insert_new_items

  /** The rows `create` adds for `args`, numbered from `nextId`. */
  function NewRows(nextId: int, args: seq<ItemToCreate>, sha1: string -> string): (r: seq<ItemRow>)
    ensures |r| == |args|
    decreases |args|
  {
    if args == [] then [] else [ItemRepository.NewRow(nextId, args[0], sha1)] + NewRows(nextId + 1, args[1..], sha1)
  }

  lemma NewRowsCons(nextId: int, a: ItemToCreate, rest: seq<ItemToCreate>, sha1: string -> string)
    ensures NewRows(nextId, [a] + rest, sha1) == [ItemRepository.NewRow(nextId, a, sha1)] + NewRows(nextId + 1, rest, sha1)
  {
    assert ([a] + rest)[1..] == rest;
  }

  lemma {:induction false} NewRowsAppend(nextId: int, a: seq<ItemToCreate>, b: seq<ItemToCreate>, sha1: string -> string)
    ensures NewRows(nextId, a + b, sha1) == NewRows(nextId, a, sha1) + NewRows(nextId + |a|, b, sha1)
    decreases |a|
  {
    if a == [] {
      assert a + b == b;
    } else {
      NewRowsAppend(nextId + 1, a[1..], b, sha1);
      assert a + b == [a[0]] + (a[1..] + b);
      NewRowsCons(nextId, a[0], a[1..] + b, sha1);
      NewRowsCons(nextId, a[0], a[1..], sha1);
      assert [a[0]] + a[1..] == a;
    }
  }

  /** The successful creates of a sequence of inserts and the table after them. */
  datatype InsertRun = InsertRun(inserted: seq<ItemToCreate>, rows: seq<ItemRow>, nextId: int)

  /** The loop of `insert_new_items`: each argument is created in turn and the
      successful ones are collected. What it returns is exactly what it added to
      the table, row for row. */
  function InsertAll(feeds: seq<Feed>, rows: seq<ItemRow>, nextId: int, args: seq<ItemToCreate>,
                     sha1: string -> string): (run: InsertRun)
    ensures |run.inserted| <= |args|
    ensures run.nextId == nextId + |run.inserted|
    ensures run.rows == rows + NewRows(nextId, run.inserted, sha1)
    decreases |args|
  {
    if args == [] then
      assert rows + NewRows(nextId, [], sha1) == rows;
      InsertRun([], rows, nextId)
    else
      var ins := ItemRepository.Insert(feeds, rows, nextId, args[0], sha1);
      var rest := InsertAll(feeds, ins.rows, ins.nextId, args[1..], sha1);
      if ins.result.Ok? then
        var row := ItemRepository.NewRow(nextId, args[0], sha1);
        assert ins.rows == rows + [row] && ins.nextId == nextId + 1;
        NewRowsCons(nextId, args[0], rest.inserted, sha1);
        assert (rows + [row]) + NewRows(nextId + 1, rest.inserted, sha1) == rows + ([row] + NewRows(nextId + 1, rest.inserted, sha1));
        InsertRun([args[0]] + rest.inserted, rest.rows, rest.nextId)
      else
        assert ins.rows == rows && ins.nextId == nextId;
        rest
  }

  /** One step of the insert loop: the first create, then the rest. */
  lemma InsertAllStep(feeds: seq<Feed>, rows: seq<ItemRow>, nextId: int, args: seq<ItemToCreate>, i: nat,
                      sha1: string -> string)
    requires i < |args|
    ensures var ins := ItemRepository.Insert(feeds, rows, nextId, args[i], sha1);
            var rest := InsertAll(feeds, ins.rows, ins.nextId, args[i + 1..], sha1);
            InsertAll(feeds, rows, nextId, args[i..], sha1) ==
              if ins.result.Ok? then InsertRun([args[i]] + rest.inserted, rest.rows, rest.nextId) else rest
  {
    assert args[i..][0] == args[i] && args[i..][1..] == args[i + 1..];
  }

  lemma AppendAssoc<T>(a: seq<T>, x: T, b: seq<T>)
    ensures a + ([x] + b) == (a + [x]) + b
  {
  }

  /** `a` is `b` with some elements left out. */
  predicate IsSubsequence<T(==)>(a: seq<T>, b: seq<T>)
    decreases |b|
  {
    a == [] || (b != [] && ((a[0] == b[0] && IsSubsequence(a[1..], b[1..])) || IsSubsequence(a, b[1..])))
  }

  /** The inserted arguments are some of the arguments, in their order; each was
      new to the table; and afterwards every argument whose feed exists has its
      fingerprint stored, inserted or not. */
  lemma {:induction false} InsertAllSpec(feeds: seq<Feed>, rows: seq<ItemRow>, nextId: int,
                                         args: seq<ItemToCreate>, sha1: string -> string)
    ensures var run := InsertAll(feeds, rows, nextId, args, sha1);
            && IsSubsequence(run.inserted, args)
            && (forall a :: a in run.inserted ==> !FingerprintTaken(rows, Fingerprint(a, sha1)))
            && (forall a :: a in args && FeedExists(feeds, a.feed) ==> FingerprintTaken(run.rows, Fingerprint(a, sha1)))
    decreases |args|
  {
    if args != [] {
      var ins := ItemRepository.Insert(feeds, rows, nextId, args[0], sha1);
      var rest := InsertAll(feeds, ins.rows, ins.nextId, args[1..], sha1);
      var run := InsertAll(feeds, rows, nextId, args, sha1);
      InsertAllSpec(feeds, ins.rows, ins.nextId, args[1..], sha1);
      assert forall row :: row in rows ==> row in ins.rows;
      assert forall row :: row in ins.rows ==> row in rest.rows;
      if FeedExists(feeds, args[0].feed) {
        ItemRepository.InsertTwiceRejected(feeds, rows, nextId, args[0], sha1);
      }
      assert forall a :: a in args ==> a == args[0] || a in args[1..];
      if ins.result.Ok? {
        assert run.inserted == [args[0]] + rest.inserted;
        assert run.inserted[1..] == rest.inserted;
      } else {
        assert run.inserted == rest.inserted;
        assert IsSubsequence(rest.inserted, args[1..]);
      }
    }
  }

  /** Arguments that are all duplicates or orphans insert nothing. */
  lemma {:induction false} InsertAllNone(feeds: seq<Feed>, rows: seq<ItemRow>, nextId: int,
                                         args: seq<ItemToCreate>, sha1: string -> string)
    requires forall a :: a in args ==> FingerprintTaken(rows, Fingerprint(a, sha1)) || !FeedExists(feeds, a.feed)
    ensures InsertAll(feeds, rows, nextId, args, sha1) == InsertRun([], rows, nextId)
    decreases |args|
  {
    if args != [] {
      assert args[0] in args;
      assert forall a :: a in args[1..] ==> a in args;
      InsertAllNone(feeds, rows, nextId, args[1..], sha1);
    }
  }

  /** Inserting the same arguments a second time adds nothing and returns
      nothing: every one of them is then a duplicate or has no feed. */
  lemma InsertAllAgain(feeds: seq<Feed>, rows: seq<ItemRow>, nextId: int, args: seq<ItemToCreate>,
                       sha1: string -> string)
    ensures var run := InsertAll(feeds, rows, nextId, args, sha1);
            InsertAll(feeds, run.rows, run.nextId, args, sha1) == InsertRun([], run.rows, run.nextId)
  {
    var run := InsertAll(feeds, rows, nextId, args, sha1);
    InsertAllSpec(feeds, rows, nextId, args, sha1);
    InsertAllNone(feeds, run.rows, run.nextId, args, sha1);
  }

  /** The inserts keep the tables valid. */
  lemma {:induction false} InsertAllValid(feeds: seq<Feed>, nextFeedId: int, rows: seq<ItemRow>, nextId: int,
                                          args: seq<ItemToCreate>, sha1: string -> string)
    requires TablesValid(feeds, nextFeedId, rows, nextId)
    ensures var run := InsertAll(feeds, rows, nextId, args, sha1);
            TablesValid(feeds, nextFeedId, run.rows, run.nextId)
    decreases |args|
  {
    if args != [] {
      var ins := ItemRepository.Insert(feeds, rows, nextId, args[0], sha1);
      ItemRepository.InsertValid(feeds, nextFeedId, rows, nextId, args[0], sha1);
      InsertAllValid(feeds, nextFeedId, ins.rows, ins.nextId, args[1..], sha1);
    }
  }

  // ---------------------------------------------------------------- execute

  /** Where a pass ends: its result, the items table, the id counter and the
      number of clock readings so far. */
  datatype PassEnd = PassEnd(result: Result<seq<ItemToCreate>, Error>, rows: seq<ItemRow>, nextId: int, ticks: nat)

  /** `inserted` extended by what the rest of the pass returns. */
  function Prepend(inserted: seq<ItemToCreate>, e: PassEnd): PassEnd {
    e.(result := if e.result.Ok? then Ok(inserted + e.result.value) else e.result)
  }

  lemma PrependNothing(e: PassEnd)
    ensures Prepend([], e) == e
  {
    if e.result.Ok? {
      assert [] + e.result.value == e.result.value;
    }
  }

  /** What a feed's fetched entries become before insertion, given the instant
      of the insert call. */
  type Preparation = (FeedTarget, seq<RawItem>, Timestamp) -> seq<ItemToCreate>

  /** Select and sort what the feed keeps against `baselines`, then normalise. */
  function Prepare(baselines: map<int, Timestamp>): Preparation {
    (p: FeedTarget, items: seq<RawItem>, current: Timestamp) =>
      NormalizeAll(Prepared(items, p.id, p.fetchOldItems, baselines), p.id, current)
  }

  lemma PrepareApply(baselines: map<int, Timestamp>, p: FeedTarget, items: seq<RawItem>, current: Timestamp)
    ensures Prepare(baselines)(p, items, current) == NormalizeAll(Prepared(items, p.id, p.fetchOldItems, baselines), p.id, current)
  {
  }

  /** One feed of the loop: fetch it, select and sort what it keeps, normalise
      with the instant of its insert call, and insert. A fetch error changes
      nothing and takes no clock reading. */
  function FeedStep(feeds: seq<Feed>, rows: seq<ItemRow>, nextId: int, p: FeedTarget,
                    prepare: Preparation, fetch: Fetcher, at: nat -> Timestamp, ticks: nat,
                    sha1: string -> string): PassEnd
  {
    var items := fetch(p.link);
    if items.Err? then PassEnd(Err(items.error), rows, nextId, ticks)
    else
      var args := prepare(p, items.value, at(ticks));
      var run := InsertAll(feeds, rows, nextId, args, sha1);
      PassEnd(Ok(run.inserted), run.rows, run.nextId, ticks + 1)
  }

  /** One feed appends one row per successful create and returns those creates;
      a fetch error leaves the table alone. */
  lemma FeedStepRows(feeds: seq<Feed>, rows: seq<ItemRow>, nextId: int, p: FeedTarget,
                     prepare: Preparation, fetch: Fetcher, at: nat -> Timestamp, ticks: nat,
                     sha1: string -> string)
    ensures var e := FeedStep(feeds, rows, nextId, p, prepare, fetch, at, ticks, sha1);
            && (e.result.Err? <==> fetch(p.link).Err?)
            && (e.result.Err? ==> e.result.error == fetch(p.link).error && e.rows == rows && e.nextId == nextId)
            && (e.result.Ok? ==> e.rows == rows + NewRows(nextId, e.result.value, sha1) &&
                                 e.nextId == nextId + |e.result.value|)
  {
  }

  /** The loop over the polled feeds, in order. A fetch error ends the pass
      with that error; the inserts made before it stay in the table. */
  function RunFeeds(feeds: seq<Feed>, rows: seq<ItemRow>, nextId: int, pairs: seq<FeedTarget>,
                    prepare: Preparation, fetch: Fetcher, at: nat -> Timestamp, ticks: nat,
                    sha1: string -> string): PassEnd
    decreases |pairs|
  {
    if pairs == [] then PassEnd(Ok([]), rows, nextId, ticks)
    else
      var e := FeedStep(feeds, rows, nextId, pairs[0], prepare, fetch, at, ticks, sha1);
      if e.result.Err? then e
      else Prepend(e.result.value, RunFeeds(feeds, e.rows, e.nextId, pairs[1..], prepare, fetch, at, e.ticks, sha1))
  }

  /** One step of the feed loop: the feed at `k`, then the rest. */
  lemma RunFeedsStep(feeds: seq<Feed>, rows: seq<ItemRow>, nextId: int, pairs: seq<FeedTarget>, k: nat,
                     prepare: Preparation, fetch: Fetcher, at: nat -> Timestamp, ticks: nat,
                     sha1: string -> string)
    requires k < |pairs|
    ensures var e := FeedStep(feeds, rows, nextId, pairs[k], prepare, fetch, at, ticks, sha1);
            RunFeeds(feeds, rows, nextId, pairs[k..], prepare, fetch, at, ticks, sha1) ==
              if e.result.Err? then e
              else Prepend(e.result.value, RunFeeds(feeds, e.rows, e.nextId, pairs[k + 1..], prepare, fetch, at, e.ticks, sha1))
  {
    assert pairs[k..][0] == pairs[k] && pairs[k..][1..] == pairs[k + 1..];
  }

  lemma PrependTwice(a: seq<ItemToCreate>, b: seq<ItemToCreate>, e: PassEnd)
    ensures Prepend(a, Prepend(b, e)) == Prepend(a + b, e)
  {
    if e.result.Ok? {
      assert a + (b + e.result.value) == (a + b) + e.result.value;
    }
  }

  /** The pass fails exactly when some polled feed cannot be fetched, and then
      with the error of the first such feed. */
  lemma {:induction false} RunFeedsError(feeds: seq<Feed>, rows: seq<ItemRow>, nextId: int, pairs: seq<FeedTarget>,
                                         prepare: Preparation, fetch: Fetcher, at: nat -> Timestamp,
                                         ticks: nat, sha1: string -> string)
    ensures var e := RunFeeds(feeds, rows, nextId, pairs, prepare, fetch, at, ticks, sha1);
            && (e.result.Err? <==> exists k :: 0 <= k < |pairs| && fetch(pairs[k].link).Err?)
            && (e.result.Err? ==> exists k :: 0 <= k < |pairs| && fetch(pairs[k].link) == Err(e.result.error) &&
                                    forall j :: 0 <= j < k ==> fetch(pairs[j].link).Ok?)
    decreases |pairs|
  {
    if pairs != [] {
      var e0 := FeedStep(feeds, rows, nextId, pairs[0], prepare, fetch, at, ticks, sha1);
      if e0.result.Ok? {
        var rest := pairs[1..];
        RunFeedsError(feeds, e0.rows, e0.nextId, rest, prepare, fetch, at, e0.ticks, sha1);
        assert forall k :: 0 <= k < |rest| ==> rest[k] == pairs[k + 1];
        var e := RunFeeds(feeds, rows, nextId, pairs, prepare, fetch, at, ticks, sha1);
        var e1 := RunFeeds(feeds, e0.rows, e0.nextId, rest, prepare, fetch, at, e0.ticks, sha1);
        assert e.result.Err? <==> e1.result.Err?;
        if exists k :: 0 <= k < |pairs| && fetch(pairs[k].link).Err? {
          var k :| 0 <= k < |pairs| && fetch(pairs[k].link).Err?;
          assert k != 0;
          assert fetch(rest[k - 1].link).Err?;
        }
        if e.result.Err? {
          var k :| 0 <= k < |rest| && fetch(rest[k].link) == Err(e1.result.error) &&
                   forall j :: 0 <= j < k ==> fetch(rest[j].link).Ok?;
          assert fetch(pairs[k + 1].link) == Err(e.result.error);
          forall j | 0 < j < k + 1
            ensures fetch(pairs[j].link).Ok?
          {
            assert pairs[j] == rest[j - 1];
          }
        }
      }
    }
  }

  /** The creates that succeeded before the pass ended, whatever its outcome:
      on a fetch error they are not returned, but they are in the table. */
  function Created(feeds: seq<Feed>, rows: seq<ItemRow>, nextId: int, pairs: seq<FeedTarget>,
                   prepare: Preparation, fetch: Fetcher, at: nat -> Timestamp, ticks: nat,
                   sha1: string -> string): seq<ItemToCreate>
    decreases |pairs|
  {
    if pairs == [] then []
    else
      var e := FeedStep(feeds, rows, nextId, pairs[0], prepare, fetch, at, ticks, sha1);
      if e.result.Err? then []
      else e.result.value + Created(feeds, e.rows, e.nextId, pairs[1..], prepare, fetch, at, e.ticks, sha1)
  }

  lemma AppendedRows(rows: seq<ItemRow>, nextId: int, a: seq<ItemToCreate>, b: seq<ItemToCreate>, sha1: string -> string)
    ensures (rows + NewRows(nextId, a, sha1)) + NewRows(nextId + |a|, b, sha1) == rows + NewRows(nextId, a + b, sha1)
  {
    NewRowsAppend(nextId, a, b, sha1);
  }

  /** The rows of the first feed followed by those of the rest of the loop. */
  lemma PrependRows(rows: seq<ItemRow>, nextId: int, first: seq<ItemToCreate>, more: seq<ItemToCreate>,
                    rest: PassEnd, sha1: string -> string)
    requires rest.rows == (rows + NewRows(nextId, first, sha1)) + NewRows(nextId + |first|, more, sha1)
    requires rest.nextId == nextId + |first| + |more|
    requires rest.result.Ok? ==> rest.result.value == more
    ensures var e := Prepend(first, rest);
            && e.rows == rows + NewRows(nextId, first + more, sha1)
            && e.nextId == nextId + |first + more|
            && (e.result.Ok? ==> e.result.value == first + more)
  {
    AppendedRows(rows, nextId, first, more, sha1);
  }

  /** Whatever the outcome, the pass only appends rows, one per successful create
      and in order; when it succeeds it returns exactly those creates. */
  lemma {:induction false} RunFeedsRows(feeds: seq<Feed>, rows: seq<ItemRow>, nextId: int, pairs: seq<FeedTarget>,
                                        prepare: Preparation, fetch: Fetcher, at: nat -> Timestamp,
                                        ticks: nat, sha1: string -> string)
    ensures var e := RunFeeds(feeds, rows, nextId, pairs, prepare, fetch, at, ticks, sha1);
            var added := Created(feeds, rows, nextId, pairs, prepare, fetch, at, ticks, sha1);
            && e.rows == rows + NewRows(nextId, added, sha1)
            && e.nextId == nextId + |added|
            && (e.result.Ok? ==> e.result.value == added)
    decreases |pairs|
  {
    if pairs == [] {
      assert rows + NewRows(nextId, [], sha1) == rows;
    } else {
      var e0 := FeedStep(feeds, rows, nextId, pairs[0], prepare, fetch, at, ticks, sha1);
      if e0.result.Err? {
        assert rows + NewRows(nextId, [], sha1) == rows;
      } else {
        RunFeedsRows(feeds, e0.rows, e0.nextId, pairs[1..], prepare, fetch, at, e0.ticks, sha1);
        var first := e0.result.value;
        FeedStepRows(feeds, rows, nextId, pairs[0], prepare, fetch, at, ticks, sha1);
        var more := Created(feeds, e0.rows, e0.nextId, pairs[1..], prepare, fetch, at, e0.ticks, sha1);
        var rest := RunFeeds(feeds, e0.rows, e0.nextId, pairs[1..], prepare, fetch, at, e0.ticks, sha1);
        assert RunFeeds(feeds, rows, nextId, pairs, prepare, fetch, at, ticks, sha1) == Prepend(first, rest);
        assert Created(feeds, rows, nextId, pairs, prepare, fetch, at, ticks, sha1) == first + more;
        PrependRows(rows, nextId, first, more, rest, sha1);
      }
    }
  }

  /** A whole pass and the feeds table it leaves. */
  datatype Sync = Sync(feeds: seq<Feed>, end: PassEnd)

  /** `execute`: poll the subscribed feeds (stamping them with the first clock
      reading), compute the baselines, then run the feeds in table order. */
  function Pass(feeds: seq<Feed>, rows: seq<ItemRow>, nextId: int, faults: StoreFaults, fetch: Fetcher,
                at: nat -> Timestamp, ticks: nat, sha1: string -> string): Sync
  {
    var pairs := if faults.feedReadFails then [] else LinksToCheck(feeds);
    var feeds1 := if faults.feedReadFails then feeds else Stamped(feeds, at(ticks));
    var ticks1 := if faults.feedReadFails then ticks else ticks + 1;
    Sync(feeds1, RunFeeds(feeds1, rows, nextId, pairs, Prepare(Baselines(feeds1, rows, pairs, faults)), fetch, at, ticks1, sha1))
  }

  /** A pass fails exactly when the feeds can be read and some subscribed feed
      cannot be fetched; whatever the outcome, the items table only gains one
      row per successful create, and a successful pass returns those creates. */
  lemma PassOutcome(feeds: seq<Feed>, rows: seq<ItemRow>, nextId: int, faults: StoreFaults, fetch: Fetcher,
                    at: nat -> Timestamp, ticks: nat, sha1: string -> string)
    ensures var s := Pass(feeds, rows, nextId, faults, fetch, at, ticks, sha1);
            && (s.end.result.Err? <==>
                  !faults.feedReadFails && exists f :: f in feeds && f.status == Subscribed && fetch(f.link).Err?)
            && exists added :: && s.end.rows == rows + NewRows(nextId, added, sha1)
                               && s.end.nextId == nextId + |added|
                               && (s.end.result.Ok? ==> s.end.result.value == added)
  {
    var pairs := if faults.feedReadFails then [] else LinksToCheck(feeds);
    var feeds1 := if faults.feedReadFails then feeds else Stamped(feeds, at(ticks));
    var ticks1 := if faults.feedReadFails then ticks else ticks + 1;
    var prepare := Prepare(Baselines(feeds1, rows, pairs, faults));
    RunFeedsError(feeds1, rows, nextId, pairs, prepare, fetch, at, ticks1, sha1);
    RunFeedsRows(feeds1, rows, nextId, pairs, prepare, fetch, at, ticks1, sha1);
    var added := Created(feeds1, rows, nextId, pairs, prepare, fetch, at, ticks1, sha1);
    if !faults.feedReadFails {
      if exists f :: f in feeds && f.status == Subscribed && fetch(f.link).Err? {
        var f :| f in feeds && f.status == Subscribed && fetch(f.link).Err?;
        assert Target(f) in pairs;
        var k :| 0 <= k < |pairs| && pairs[k] == Target(f);
        assert fetch(pairs[k].link).Err?;
      }
      if exists k :: 0 <= k < |pairs| && fetch(pairs[k].link).Err? {
        var k :| 0 <= k < |pairs| && fetch(pairs[k].link).Err?;
        assert pairs[k] in pairs;
        var f :| f in feeds && f.status == Subscribed && pairs[k] == Target(f);
        assert fetch(f.link).Err?;
      }
    }
  }

  // ---------------------------------------------------------------- a second pass

  /** The pass gets as far as inserting for the feed at `k`: it and every feed
      before it were fetched. */
  predicate Reached(fetch: Fetcher, pairs: seq<FeedTarget>, k: int) {
    0 <= k < |pairs| && forall j :: 0 <= j <= k ==> fetch(pairs[j].link).Ok?
  }

  lemma ReachedNext(fetch: Fetcher, pairs: seq<FeedTarget>, k: nat)
    requires pairs != [] && fetch(pairs[0].link).Ok?
    ensures Reached(fetch, pairs[1..], k) <==> Reached(fetch, pairs, k + 1)
    ensures Reached(fetch, pairs, 0)
  {
    if Reached(fetch, pairs[1..], k) {
      forall j | 0 < j <= k + 1
        ensures fetch(pairs[j].link).Ok?
      {
        assert pairs[j] == pairs[1..][j - 1];
      }
    }
    if Reached(fetch, pairs, k + 1) {
      forall j | 0 <= j <= k
        ensures fetch(pairs[1..][j].link).Ok?
      {
        assert pairs[1..][j] == pairs[j + 1];
      }
    }
  }

  /** The first feed's creates are prepared at the first reading. */
  lemma PreparesFirst(pairs: seq<FeedTarget>, prepare: Preparation, fetch: Fetcher, at: nat -> Timestamp,
                      ticks: nat, a: ItemToCreate)
    requires pairs != [] && fetch(pairs[0].link).Ok?
    requires a in prepare(pairs[0], fetch(pairs[0].link).value, at(ticks))
    ensures Prepares(pairs, prepare, fetch, at, ticks, a)
  {
    ReachedNext(fetch, pairs, 0);
  }

  /** The rest of the loop starts one reading later. */
  lemma PreparesNext(pairs: seq<FeedTarget>, prepare: Preparation, fetch: Fetcher, at: nat -> Timestamp,
                     ticks: nat, a: ItemToCreate)
    requires pairs != [] && fetch(pairs[0].link).Ok?
    requires Prepares(pairs[1..], prepare, fetch, at, ticks + 1, a)
    ensures Prepares(pairs, prepare, fetch, at, ticks, a)
  {
    var k :| Reached(fetch, pairs[1..], k) &&
             a in prepare(pairs[1..][k], fetch(pairs[1..][k].link).value, at(ticks + 1 + k));
    ReachedNext(fetch, pairs, k);
    assert pairs[1..][k] == pairs[k + 1];
  }

  lemma {:induction false} SubsequenceMembers<T>(a: seq<T>, b: seq<T>)
    requires IsSubsequence(a, b)
    ensures forall x :: x in a ==> x in b
    decreases |b|
  {
    if a != [] {
      if a[0] == b[0] && IsSubsequence(a[1..], b[1..]) {
        SubsequenceMembers(a[1..], b[1..]);
        assert forall x :: x in a ==> x == a[0] || x in a[1..];
      } else {
        SubsequenceMembers(a, b[1..]);
      }
    }
  }

  /** Each row `create` adds carries the feed and the date of its argument. */
  lemma {:induction false} NewRowsOrigin(nextId: int, args: seq<ItemToCreate>, sha1: string -> string)
    ensures forall row :: row in NewRows(nextId, args, sha1) ==>
              exists a :: a in args && row.feed == a.feed && row.publishedAt == a.publishedAt
    decreases |args|
  {
    if args != [] {
      NewRowsOrigin(nextId + 1, args[1..], sha1);
      assert forall a :: a in args[1..] ==> a in args;
      assert args[0] in args;
    }
  }

  /** `a` was prepared for a feed the pass reached, at the instant of its insert. */
  ghost predicate Prepares(pairs: seq<FeedTarget>, prepare: Preparation, fetch: Fetcher, at: nat -> Timestamp,
                     ticks: nat, a: ItemToCreate) {
    exists k :: Reached(fetch, pairs, k) && a in prepare(pairs[k], fetch(pairs[k].link).value, at(ticks + k))
  }

  /** Every create that succeeds was prepared for a reached feed; the feed at
      `k` is inserted at the `k`-th clock reading after `ticks`. */
  lemma {:induction false} CreatedOrigin(feeds: seq<Feed>, rows: seq<ItemRow>, nextId: int, pairs: seq<FeedTarget>,
                                         prepare: Preparation, fetch: Fetcher, at: nat -> Timestamp, ticks: nat,
                                         sha1: string -> string)
    ensures forall a :: a in Created(feeds, rows, nextId, pairs, prepare, fetch, at, ticks, sha1) ==>
              Prepares(pairs, prepare, fetch, at, ticks, a)
    decreases |pairs|
  {
    if pairs != [] {
      var e0 := FeedStep(feeds, rows, nextId, pairs[0], prepare, fetch, at, ticks, sha1);
      if e0.result.Ok? {
        var args := prepare(pairs[0], fetch(pairs[0].link).value, at(ticks));
        InsertAllSpec(feeds, rows, nextId, args, sha1);
        SubsequenceMembers(e0.result.value, args);
        var more := Created(feeds, e0.rows, e0.nextId, pairs[1..], prepare, fetch, at, ticks + 1, sha1);
        CreatedOrigin(feeds, e0.rows, e0.nextId, pairs[1..], prepare, fetch, at, ticks + 1, sha1);
        forall a | a in e0.result.value + more
          ensures Prepares(pairs, prepare, fetch, at, ticks, a)
        {
          if a in e0.result.value {
            PreparesFirst(pairs, prepare, fetch, at, ticks, a);
          } else {
            PreparesNext(pairs, prepare, fetch, at, ticks, a);
          }
        }
      }
    }
  }

  /** A row the pass added comes from a create prepared for a reached feed, with
      that create's feed and date. */
  lemma AddedRowOrigin(feeds: seq<Feed>, rows: seq<ItemRow>, nextId: int, pairs: seq<FeedTarget>,
                       prepare: Preparation, fetch: Fetcher, at: nat -> Timestamp, ticks: nat,
                       sha1: string -> string, row: ItemRow)
    requires row in RunFeeds(feeds, rows, nextId, pairs, prepare, fetch, at, ticks, sha1).rows && row !in rows
    ensures exists k, a :: && Reached(fetch, pairs, k)
                           && a in prepare(pairs[k], fetch(pairs[k].link).value, at(ticks + k))
                           && a.feed == row.feed && a.publishedAt == row.publishedAt
  {
    var added := Created(feeds, rows, nextId, pairs, prepare, fetch, at, ticks, sha1);
    RunFeedsRows(feeds, rows, nextId, pairs, prepare, fetch, at, ticks, sha1);
    NewRowsOrigin(nextId, added, sha1);
    CreatedOrigin(feeds, rows, nextId, pairs, prepare, fetch, at, ticks, sha1);
    assert row in NewRows(nextId, added, sha1);
  }

  /** Every create prepared for a reached feed whose feed exists has its
      fingerprint in `rows`. */
  ghost predicate Covered(feeds: seq<Feed>, rows: seq<ItemRow>, pairs: seq<FeedTarget>, prepare: Preparation,
                          fetch: Fetcher, at: nat -> Timestamp, ticks: nat, sha1: string -> string) {
    forall k, a :: && Reached(fetch, pairs, k)
                   && a in prepare(pairs[k], fetch(pairs[k].link).value, at(ticks + k))
                   && FeedExists(feeds, a.feed)
                   ==> FingerprintTaken(rows, Fingerprint(a, sha1))
  }

  /** Coverage of the first feed and of the rest of the loop is coverage of the
      whole loop. */
  lemma CoveredCons(feeds: seq<Feed>, rows: seq<ItemRow>, pairs: seq<FeedTarget>, prepare: Preparation,
                    fetch: Fetcher, at: nat -> Timestamp, ticks: nat, sha1: string -> string)
    requires pairs != [] && fetch(pairs[0].link).Ok?
    requires forall a :: a in prepare(pairs[0], fetch(pairs[0].link).value, at(ticks)) && FeedExists(feeds, a.feed) ==>
               FingerprintTaken(rows, Fingerprint(a, sha1))
    requires Covered(feeds, rows, pairs[1..], prepare, fetch, at, ticks + 1, sha1)
    ensures Covered(feeds, rows, pairs, prepare, fetch, at, ticks, sha1)
  {
    var rest := pairs[1..];
    forall k, a | && Reached(fetch, pairs, k)
                  && a in prepare(pairs[k], fetch(pairs[k].link).value, at(ticks + k))
                  && FeedExists(feeds, a.feed)
      ensures FingerprintTaken(rows, Fingerprint(a, sha1))
    {
      if k > 0 {
        ReachedNext(fetch, pairs, k - 1);
        assert rest[k - 1] == pairs[k];
        assert a in prepare(rest[k - 1], fetch(rest[k - 1].link).value, at(ticks + 1 + (k - 1)));
      }
    }
  }

  /** Coverage survives appending rows. */
  lemma CoveredGrows(feeds: seq<Feed>, rows: seq<ItemRow>, more: seq<ItemRow>, pairs: seq<FeedTarget>,
                     prepare: Preparation, fetch: Fetcher, at: nat -> Timestamp, ticks: nat, sha1: string -> string)
    requires Covered(feeds, rows, pairs, prepare, fetch, at, ticks, sha1)
    ensures Covered(feeds, rows + more, pairs, prepare, fetch, at, ticks, sha1)
  {
    assert forall row :: row in rows ==> row in rows + more;
  }

  /** After the pass, every create prepared for a reached feed whose feed exists
      has its fingerprint stored, whether this pass inserted it or not. */
  lemma {:induction false} RunFeedsCovers(feeds: seq<Feed>, rows: seq<ItemRow>, nextId: int, pairs: seq<FeedTarget>,
                                          prepare: Preparation, fetch: Fetcher, at: nat -> Timestamp, ticks: nat,
                                          sha1: string -> string)
    ensures Covered(feeds, RunFeeds(feeds, rows, nextId, pairs, prepare, fetch, at, ticks, sha1).rows,
                    pairs, prepare, fetch, at, ticks, sha1)
    decreases |pairs|
  {
    if pairs != [] && fetch(pairs[0].link).Ok? {
      var e0 := FeedStep(feeds, rows, nextId, pairs[0], prepare, fetch, at, ticks, sha1);
      var rest := pairs[1..];
      var e1 := RunFeeds(feeds, e0.rows, e0.nextId, rest, prepare, fetch, at, ticks + 1, sha1);
      RunFeedsCovers(feeds, e0.rows, e0.nextId, rest, prepare, fetch, at, ticks + 1, sha1);
      RunFeedsRows(feeds, e0.rows, e0.nextId, rest, prepare, fetch, at, ticks + 1, sha1);
      InsertAllSpec(feeds, rows, nextId, prepare(pairs[0], fetch(pairs[0].link).value, at(ticks)), sha1);
      var added := Created(feeds, e0.rows, e0.nextId, rest, prepare, fetch, at, ticks + 1, sha1);
      assert forall row :: row in e0.rows ==> row in e1.rows;
      CoveredCons(feeds, e1.rows, pairs, prepare, fetch, at, ticks, sha1);
    }
  }

  /** The inserts keep the tables valid through the whole loop. */
  lemma {:induction false} RunFeedsValid(feeds: seq<Feed>, nextFeedId: int, rows: seq<ItemRow>, nextId: int,
                                         pairs: seq<FeedTarget>, prepare: Preparation, fetch: Fetcher,
                                         at: nat -> Timestamp, ticks: nat, sha1: string -> string)
    requires TablesValid(feeds, nextFeedId, rows, nextId)
    ensures var e := RunFeeds(feeds, rows, nextId, pairs, prepare, fetch, at, ticks, sha1);
            TablesValid(feeds, nextFeedId, e.rows, e.nextId)
    decreases |pairs|
  {
    if pairs != [] {
      var e0 := FeedStep(feeds, rows, nextId, pairs[0], prepare, fetch, at, ticks, sha1);
      if e0.result.Ok? {
        InsertAllValid(feeds, nextFeedId, rows, nextId, prepare(pairs[0], fetch(pairs[0].link).value, at(ticks)), sha1);
        RunFeedsValid(feeds, nextFeedId, e0.rows, e0.nextId, pairs[1..], prepare, fetch, at, ticks + 1, sha1);
      }
    }
  }

  /** Every create prepared for feed `p`, at any instant, is a duplicate or has
      no feed. */
  ghost predicate AddsNothing(feeds: seq<Feed>, rows: seq<ItemRow>, p: FeedTarget, prepare: Preparation,
                        items: seq<RawItem>, sha1: string -> string) {
    forall c, a :: a in prepare(p, items, c) ==> FingerprintTaken(rows, Fingerprint(a, sha1)) || !FeedExists(feeds, a.feed)
  }

  lemma AddsNothingAt(feeds: seq<Feed>, rows: seq<ItemRow>, p: FeedTarget, prepare: Preparation,
                      items: seq<RawItem>, sha1: string -> string, c: Timestamp)
    requires AddsNothing(feeds, rows, p, prepare, items, sha1)
    ensures forall a :: a in prepare(p, items, c) ==> FingerprintTaken(rows, Fingerprint(a, sha1)) || !FeedExists(feeds, a.feed)
  {
  }

  /** A loop in which no reached feed has anything new leaves the table alone. */
  lemma {:induction false} RunFeedsNothingNew(feeds: seq<Feed>, rows: seq<ItemRow>, nextId: int, pairs: seq<FeedTarget>,
                                              prepare: Preparation, fetch: Fetcher, at: nat -> Timestamp, ticks: nat,
                                              sha1: string -> string)
    requires forall k :: Reached(fetch, pairs, k) ==>
               AddsNothing(feeds, rows, pairs[k], prepare, fetch(pairs[k].link).value, sha1)
    ensures var e := RunFeeds(feeds, rows, nextId, pairs, prepare, fetch, at, ticks, sha1);
            e.rows == rows && e.nextId == nextId
    decreases |pairs|
  {
    if pairs != [] && fetch(pairs[0].link).Ok? {
      ReachedNext(fetch, pairs, 0);
      var args := prepare(pairs[0], fetch(pairs[0].link).value, at(ticks));
      AddsNothingAt(feeds, rows, pairs[0], prepare, fetch(pairs[0].link).value, sha1, at(ticks));
      InsertAllNone(feeds, rows, nextId, args, sha1);
      var rest := pairs[1..];
      forall k | Reached(fetch, rest, k)
        ensures AddsNothing(feeds, rows, rest[k], prepare, fetch(rest[k].link).value, sha1)
      {
        ReachedNext(fetch, pairs, k);
        assert rest[k] == pairs[k + 1];
      }
      RunFeedsNothingNew(feeds, rows, nextId, rest, prepare, fetch, at, ticks + 1, sha1);
    }
  }

  /** A polled feed is identified by its id. */
  lemma LinksToCheckIdsUnique(feeds: seq<Feed>)
    requires FeedIdsAscending(feeds)
    ensures forall p, q :: p in LinksToCheck(feeds) && q in LinksToCheck(feeds) && p.id == q.id ==> p == q
  {
    forall p, q | p in LinksToCheck(feeds) && q in LinksToCheck(feeds) && p.id == q.id
      ensures p == q
    {
      var f :| f in feeds && f.status == Subscribed && p == Target(f);
      var g :| g in feeds && g.status == Subscribed && q == Target(g);
      var i :| 0 <= i < |feeds| && feeds[i] == f;
      var j :| 0 <= j < |feeds| && feeds[j] == g;
      assert i == j;
    }
  }

  /** Every create prepared from `items` is of feed `feed` and made from one of
      the entries. */
  lemma NormalizedFrom(items: seq<RawItem>, feed: int, current: Timestamp, a: ItemToCreate)
    requires a in NormalizeAll(items, feed, current)
    ensures exists x :: x in items && a == Normalize(x, feed, current)
  {
    var i :| 0 <= i < |items| && NormalizeAll(items, feed, current)[i] == a;
    assert items[i] in items;
  }

  /** A first sync inserts the newest entry alone. */
  lemma PreparedFirstSync(items: seq<RawItem>, id: int, b1: map<int, Timestamp>)
    requires id !in b1
    ensures Prepared(items, id, false, b1) == Newest(items)
  {
    var s := Newest(items);
    if s != [] {
      assert SortBy(s, ByDate()) == InsertBy(SortBy([], ByDate()), s[0], ByDate());
    }
  }

  /** The newest entry bounds every fetched date, and its create carries that
      date. */
  lemma NewestBound(items: seq<RawItem>, id: int, c: Timestamp)
    requires items != []
    ensures var a := Normalize(items[LastMaxIndex(items)], id, c);
            forall x :: x in items && x.publishedAt.Some? ==> x.publishedAt.value <= a.publishedAt
  {
    var m := LastMaxIndex(items);
    forall x | x in items && x.publishedAt.Some?
      ensures x.publishedAt.value <= Normalize(items[m], id, c).publishedAt
    {
      var j :| 0 <= j < |items| && items[j] == x;
      assert DateLe(items[j].publishedAt, items[m].publishedAt);
    }
  }

  /** After a first sync, whatever was kept bounds the dates of the fetched
      entries: it is the entry with the greatest date. */
  lemma FirstSyncBound(items: seq<RawItem>, p: FeedTarget, b1: map<int, Timestamp>, a: ItemToCreate, c: Timestamp)
    requires !p.fetchOldItems && p.id !in b1
    requires a in Prepare(b1)(p, items, c)
    ensures forall x :: x in items && x.publishedAt.Some? ==> x.publishedAt.value <= a.publishedAt
  {
    PrepareApply(b1, p, items, c);
    PreparedFirstSync(items, p.id, b1);
    var s := NormalizeAll(Newest(items), p.id, c);
    assert |s| == 1 && a == s[0];
    NewestBound(items, p.id, c);
  }

  /** Baselines never shrink: a feed with one before the first pass has one
      after it, at least as late. */
  lemma BaselinesGrow(feeds1: seq<Feed>, feeds2: seq<Feed>, rows: seq<ItemRow>, rows1: seq<ItemRow>,
                      pairs: seq<FeedTarget>, faults: StoreFaults)
    requires FeedsReferenced(rows, feeds1) && FeedsReferenced(rows1, feeds2)
    requires forall row :: row in rows ==> row in rows1
    ensures var b1 := Baselines(feeds1, rows, pairs, faults);
            var b2 := Baselines(feeds2, rows1, pairs, faults);
            forall id :: id in b1 ==> id in b2 && b1[id] <= b2[id]
  {
    if !faults.itemReadFails {
      var b1 := Baselines(feeds1, rows, pairs, faults);
      var b2 := Baselines(feeds2, rows1, pairs, faults);
      BaselinesSpec(feeds1, rows, pairs, faults);
      BaselinesSpec(feeds2, rows1, pairs, faults);
      forall id | id in b1
        ensures id in b2 && b1[id] <= b2[id]
      {
        var row :| row in rows && row.feed == id && row.publishedAt == b1[id];
        assert row in rows1;
      }
    }
  }

  /** What a feed keeps on the second pass it kept on the first: its baseline
      only grew, and after a first sync it bounds every fetched date. */
  lemma SelectedAgain(items: seq<RawItem>, p: FeedTarget, b1: map<int, Timestamp>, b2: map<int, Timestamp>,
                      x: RawItem)
    requires forall id :: id in b1 ==> id in b2 && b1[id] <= b2[id]
    requires !p.fetchOldItems && p.id in b2 && p.id !in b1 ==>
               forall y :: y in items && y.publishedAt.Some? ==> y.publishedAt.value <= b2[p.id]
    requires x in Select(items, p.id, p.fetchOldItems, b2)
    ensures x in Select(items, p.id, p.fetchOldItems, b1)
  {
    if p.fetchOldItems {
      SelectBackfill(items, p.id, b1);
      SelectBackfill(items, p.id, b2);
    } else if p.id in b2 {
      SelectIncremental(items, p.id, b2);
      if p.id in b1 {
        SelectIncremental(items, p.id, b1);
      }
    }
  }

  /** The rows the loop added for a reached feed come from the creates prepared
      for it, each with the date of its create. */
  lemma AddedRowsOfFeed(feeds: seq<Feed>, rows: seq<ItemRow>, nextId: int, pairs: seq<FeedTarget>,
                        b1: map<int, Timestamp>, fetch: Fetcher, at: nat -> Timestamp, ticks: nat,
                        sha1: string -> string, k: nat, row: ItemRow)
    requires forall p, q :: p in pairs && q in pairs && p.id == q.id ==> p == q
    requires Reached(fetch, pairs, k)
    requires row in RunFeeds(feeds, rows, nextId, pairs, Prepare(b1), fetch, at, ticks, sha1).rows
    requires row !in rows && row.feed == pairs[k].id
    ensures exists c, a :: a in Prepare(b1)(pairs[k], fetch(pairs[k].link).value, c) && a.publishedAt == row.publishedAt
  {
    AddedRowOrigin(feeds, rows, nextId, pairs, Prepare(b1), fetch, at, ticks, sha1, row);
    var j, a :| && Reached(fetch, pairs, j)
                && a in Prepare(b1)(pairs[j], fetch(pairs[j].link).value, at(ticks + j))
                && a.feed == row.feed && a.publishedAt == row.publishedAt;
    var q := pairs[j];
    PrepareApply(b1, q, fetch(q.link).value, at(ticks + j));
    NormalizedFrom(Prepared(fetch(q.link).value, q.id, q.fetchOldItems, b1), q.id, at(ticks + j), a);
    assert q in pairs && pairs[k] in pairs;
    assert q == pairs[k];
  }

  /** A feed the first pass synced for the first time gets, on the second pass,
      a baseline that bounds every date it fetches: the one entry the first pass
      kept was the newest. `rows1` is the table after the first pass. */
  lemma FirstSyncCovered(rows: seq<ItemRow>, rows1: seq<ItemRow>, p: FeedTarget, items: seq<RawItem>,
                         b1: map<int, Timestamp>, b2: map<int, Timestamp>)
    requires !p.fetchOldItems && p.id in b2 ==> (p.id in b1 <==> HasItems(rows, p.id))
    requires p.id in b2 ==> IsNewest(rows1, p.id, b2[p.id])
    requires forall row :: row in rows1 && row !in rows && row.feed == p.id ==>
               exists c, a :: a in Prepare(b1)(p, items, c) && a.publishedAt == row.publishedAt
    ensures !p.fetchOldItems && p.id in b2 && p.id !in b1 ==>
              forall y :: y in items && y.publishedAt.Some? ==> y.publishedAt.value <= b2[p.id]
  {
    if !p.fetchOldItems && p.id in b2 && p.id !in b1 {
      var row :| row in rows1 && row.feed == p.id && row.publishedAt == b2[p.id];
      assert row !in rows;
      var c, a :| a in Prepare(b1)(p, items, c) && a.publishedAt == row.publishedAt;
      FirstSyncBound(items, p, b1, a, c);
    }
  }

  /** On the second pass a feed has nothing new: what it keeps it kept on the
      first pass, which stored the fingerprints of what it kept. */
  lemma FeedAddsNothingAgain(feeds1: seq<Feed>, feeds2: seq<Feed>, rows1: seq<ItemRow>, p: FeedTarget,
                             items: seq<RawItem>, b1: map<int, Timestamp>, b2: map<int, Timestamp>,
                             c1: Timestamp, sha1: string -> string)
    requires FeedExists(feeds1, p.id)
    requires forall a :: a in Prepare(b1)(p, items, c1) && FeedExists(feeds1, a.feed) ==>
               FingerprintTaken(rows1, Fingerprint(a, sha1))
    requires forall id :: id in b1 ==> id in b2 && b1[id] <= b2[id]
    requires !p.fetchOldItems && p.id in b2 && p.id !in b1 ==>
               forall y :: y in items && y.publishedAt.Some? ==> y.publishedAt.value <= b2[p.id]
    ensures AddsNothing(feeds2, rows1, p, Prepare(b2), items, sha1)
  {
    forall c, a | a in Prepare(b2)(p, items, c)
      ensures FingerprintTaken(rows1, Fingerprint(a, sha1))
    {
      PreparedFrom(items, p, b2, c, a);
      var x :| x in Select(items, p.id, p.fetchOldItems, b2) && a == Normalize(x, p.id, c);
      SelectedAgain(items, p, b1, b2, x);
      PreparedOf(items, p, b1, c1, x);
      NormalizedFingerprint(x, x, p.id, p.id, c, c1, sha1);
    }
  }

  /** A create prepared for a feed comes from an entry the feed keeps. */
  lemma PreparedFrom(items: seq<RawItem>, p: FeedTarget, b: map<int, Timestamp>, c: Timestamp, a: ItemToCreate)
    requires a in Prepare(b)(p, items, c)
    ensures exists x :: x in Select(items, p.id, p.fetchOldItems, b) && a == Normalize(x, p.id, c)
  {
    PrepareApply(b, p, items, c);
    var s := Prepared(items, p.id, p.fetchOldItems, b);
    NormalizedFrom(s, p.id, c, a);
    var x :| x in s && a == Normalize(x, p.id, c);
    assert x in multiset(Select(items, p.id, p.fetchOldItems, b));
  }

  /** Every entry a feed keeps is prepared, at any instant. */
  lemma PreparedOf(items: seq<RawItem>, p: FeedTarget, b: map<int, Timestamp>, c: Timestamp, x: RawItem)
    requires x in Select(items, p.id, p.fetchOldItems, b)
    ensures Normalize(x, p.id, c) in Prepare(b)(p, items, c)
  {
    var s := Prepared(items, p.id, p.fetchOldItems, b);
    assert x in multiset(s);
    var i :| 0 <= i < |s| && s[i] == x;
    NormalizedAt(s, p.id, c, i);
    PrepareApply(b, p, items, c);
  }

  lemma NormalizedAt(items: seq<RawItem>, feed: int, current: Timestamp, i: int)
    requires 0 <= i < |items|
    ensures Normalize(items[i], feed, current) in NormalizeAll(items, feed, current)
  {
    assert NormalizeAll(items, feed, current)[i] == Normalize(items[i], feed, current);
  }

  /** The feed at `k` has nothing new on the second pass. `rows1` is what the
      first pass over `feeds1` left of `rows`; the second pass reads `feeds2`. */
  lemma FeedAgain(feeds1: seq<Feed>, feeds2: seq<Feed>, rows: seq<ItemRow>, nextId: int, rows1: seq<ItemRow>,
                  pairs: seq<FeedTarget>, b1: map<int, Timestamp>, b2: map<int, Timestamp>,
                  faults: StoreFaults, fetch: Fetcher, at: nat -> Timestamp, ticks: nat,
                  sha1: string -> string, k: nat)
    requires pairs == LinksToCheck(feeds1) && FeedIdsAscending(feeds1)
    requires FeedsReferenced(rows, feeds1) && FeedsReferenced(rows1, feeds2)
    requires b1 == Baselines(feeds1, rows, pairs, faults) && b2 == Baselines(feeds2, rows1, pairs, faults)
    requires rows1 == RunFeeds(feeds1, rows, nextId, pairs, Prepare(b1), fetch, at, ticks, sha1).rows
    requires Reached(fetch, pairs, k)
    ensures AddsNothing(feeds2, rows1, pairs[k], Prepare(b2), fetch(pairs[k].link).value, sha1)
  {
    var p := pairs[k];
    var items := fetch(p.link).value;
    RunFeedsCovers(feeds1, rows, nextId, pairs, Prepare(b1), fetch, at, ticks, sha1);
    RunFeedsRows(feeds1, rows, nextId, pairs, Prepare(b1), fetch, at, ticks, sha1);
    assert forall row :: row in rows ==> row in rows1;
    BaselinesGrow(feeds1, feeds2, rows, rows1, pairs, faults);
    if !faults.itemReadFails {
      BaselinesSpec(feeds1, rows, pairs, faults);
      BaselinesSpec(feeds2, rows1, pairs, faults);
    }
    assert p in pairs;
    LinksToCheckIdsUnique(feeds1);
    forall row | row in rows1 && row !in rows && row.feed == p.id
      ensures exists c, a :: a in Prepare(b1)(p, items, c) && a.publishedAt == row.publishedAt
    {
      AddedRowsOfFeed(feeds1, rows, nextId, pairs, b1, fetch, at, ticks, sha1, k, row);
    }
    FirstSyncCovered(rows, rows1, p, items, b1, b2);
    FeedAddsNothingAgain(feeds1, feeds2, rows1, p, items, b1, b2, at(ticks + k), sha1);
  }

  /** A second pass over sources that have not changed adds
      no item, whatever the clock says, whichever feeds fail to fetch (the same
      ones again) and whether the item reads fail. */
  lemma PassIdempotent(feeds: seq<Feed>, nextFeedId: int, rows: seq<ItemRow>, nextId: int, faults: StoreFaults,
                       fetch: Fetcher, at: nat -> Timestamp, ticks: nat, sha1: string -> string)
    requires TablesValid(feeds, nextFeedId, rows, nextId)
    ensures var s1 := Pass(feeds, rows, nextId, faults, fetch, at, ticks, sha1);
            var s2 := Pass(s1.feeds, s1.end.rows, s1.end.nextId, faults, fetch, at, s1.end.ticks, sha1);
            s2.end.rows == s1.end.rows && s2.end.nextId == s1.end.nextId
  {
    if !faults.feedReadFails {
      var s1 := Pass(feeds, rows, nextId, faults, fetch, at, ticks, sha1);
      var pairs := LinksToCheck(feeds);
      var feeds1 := Stamped(feeds, at(ticks));
      var b1 := Baselines(feeds1, rows, pairs, faults);
      var rows1 := s1.end.rows;
      var feeds2 := Stamped(feeds1, at(s1.end.ticks));
      StampedValid(feeds, nextFeedId, at(ticks));
      StampedValid(feeds1, nextFeedId, at(s1.end.ticks));
      StampedTargets(feeds, at(ticks));
      StampedTargets(feeds1, at(s1.end.ticks));
      assert FeedsReferenced(rows, feeds1);
      RunFeedsValid(feeds1, nextFeedId, rows, nextId, pairs, Prepare(b1), fetch, at, ticks + 1, sha1);
      assert FeedsReferenced(rows1, feeds2);
      var b2 := Baselines(feeds2, rows1, pairs, faults);
      forall k | Reached(fetch, pairs, k)
        ensures AddsNothing(feeds2, rows1, pairs[k], Prepare(b2), fetch(pairs[k].link).value, sha1)
      {
        FeedAgain(feeds1, feeds2, rows, nextId, rows1, pairs, b1, b2, faults, fetch, at, ticks + 1, sha1, k);
      }
      RunFeedsNothingNew(feeds2, rows1, s1.end.nextId, pairs, Prepare(b2), fetch, at, s1.end.ticks + 1, sha1);
    }
  }

  /** The worker: a connection, the clock, and the fetcher with its proxy. */
  class Worker {
    const conn: Connection
    const clock: Clock
    const fetch: Fetcher
    const faults: StoreFaults

    constructor (conn: Connection, clock: Clock, fetch: Fetcher, faults: StoreFaults)
      ensures this.conn == conn && this.clock == clock && this.fetch == fetch && this.faults == faults
    {
      this.conn := conn;
      this.clock := clock;
      this.fetch := fetch;
      this.faults := faults;
    }

    /** `get_links_to_check`: when the feeds can be read, one clock reading is
        taken and every subscribed feed is stamped with it (update errors are
        ignored); the polled triples come back in table order. */
    method GetLinksToCheck() returns (pairs: seq<FeedTarget>)
      requires conn.Valid()
      modifies conn`feeds, clock`ticks
      ensures conn.Valid()
      ensures faults.feedReadFails ==> pairs == [] && conn.feeds == old(conn.feeds) && clock.ticks == old(clock.ticks)
      ensures !faults.feedReadFails ==>
                && pairs == LinksToCheck(old(conn.feeds))
                && conn.feeds == Stamped(old(conn.feeds), clock.at(old(clock.ticks)))
                && clock.ticks == old(clock.ticks) + 1
    {
      if faults.feedReadFails {
        return [];
      }
      var feeds := FeedRepository.ReadAll(conn.feeds);
      assert feeds == conn.feeds;
      var current := clock.Now();
      pairs := [];
      StampedUpToEnds(feeds, current);
      var i := 0;
      while i < |feeds|
        invariant 0 <= i <= |feeds|
        invariant conn.Valid()
        invariant conn.nextFeedId == old(conn.nextFeedId)
        invariant conn.feeds == StampedUpTo(feeds, i, current)
        invariant clock.ticks == old(clock.ticks) + 1
        invariant pairs == LinksToCheck(feeds[..i])
      {
        var x := feeds[i];
        LinksToCheckStep(feeds, i);
        if x.status == Subscribed {
          var arg := FeedToUpdate(x.id, None, None, None, Some(current), None);
          StampStep(feeds, i, current);
          var _ := FeedRepository.Update(conn, arg);
          pairs := pairs + [Target(x)];
        } else {
          StampSkip(feeds, i, current);
        }
        i := i + 1;
      }
      assert feeds[..i] == feeds;
    }

    /** `get_most_recent_items`: the newest-first read of one row per id; the
        first failing read fails the whole lookup. */
    method GetMostRecentItems(ids: seq<int>) returns (r: Result<map<int, Timestamp>, Error>)
      ensures faults.itemReadFails && ids != [] ==> r == Err(StorageFailure(ReadFailure))
      ensures !faults.itemReadFails || ids == [] ==> r == Ok(MostRecent(conn.feeds, conn.items, ids))
    {
      var m: map<int, Timestamp> := map[];
      var i := 0;
      while i < |ids|
        invariant 0 <= i <= |ids|
        invariant faults.itemReadFails ==> i == 0
        invariant m == MostRecent(conn.feeds, conn.items, ids[..i])
      {
        if faults.itemReadFails {
          return Err(StorageFailure(ReadFailure));
        }
        var found := NewestItem(conn.feeds, conn.items, ids[i]);
        MostRecentStep(conn.feeds, conn.items, ids, i);
        if found != [] {
          m := m[found[0].feed.id := found[0].publishedAt];
        }
        i := i + 1;
      }
      assert ids[..i] == ids;
      r := Ok(m);
    }

    /** `insert_new_items`: one clock reading for the whole call, then a create
        per normalised entry, collecting the ones that succeed. */
    method InsertNewItems(feed: int, items: seq<RawItem>) returns (inserted: seq<ItemToCreate>)
      requires conn.Valid()
      modifies conn`items, conn`nextItemId, clock`ticks
      ensures conn.Valid()
      ensures clock.ticks == old(clock.ticks) + 1
      ensures var run := InsertAll(conn.feeds, old(conn.items), old(conn.nextItemId),
                                   NormalizeAll(items, feed, clock.at(old(clock.ticks))), conn.sha1);
              inserted == run.inserted && conn.items == run.rows && conn.nextItemId == run.nextId
    {
      var current := clock.Now();
      var args := NormalizeAll(items, feed, current);
      inserted := CreateAll(args);
    }

    /** The create loop of `insert_new_items`. */
    method CreateAll(args: seq<ItemToCreate>) returns (inserted: seq<ItemToCreate>)
      requires conn.Valid()
      modifies conn`items, conn`nextItemId
      ensures conn.Valid()
      ensures var run := InsertAll(conn.feeds, old(conn.items), old(conn.nextItemId), args, conn.sha1);
              inserted == run.inserted && conn.items == run.rows && conn.nextItemId == run.nextId
    {
      ghost var target := InsertAll(conn.feeds, conn.items, conn.nextItemId, args, conn.sha1);
      assert args[0..] == args;
      inserted := [];
      var i := 0;
      while i < |args|
        invariant 0 <= i <= |args|
        invariant conn.Valid()
        invariant inserted + InsertAll(conn.feeds, conn.items, conn.nextItemId, args[i..], conn.sha1).inserted == target.inserted
        invariant InsertAll(conn.feeds, conn.items, conn.nextItemId, args[i..], conn.sha1).rows == target.rows
        invariant InsertAll(conn.feeds, conn.items, conn.nextItemId, args[i..], conn.sha1).nextId == target.nextId
      {
        var arg := args[i];
        InsertAllStep(conn.feeds, conn.items, conn.nextItemId, args, i, conn.sha1);
        var r := ItemRepository.Create(conn, arg);
        if r.Ok? {
          AppendAssoc(inserted, arg, InsertAll(conn.feeds, conn.items, conn.nextItemId, args[i + 1..], conn.sha1).inserted);
          inserted := inserted + [arg];
        }
        i := i + 1;
      }
    }

    /** `execute`: one pass, ending in the state and with the result of `Pass`. */
    method Execute() returns (r: Result<seq<ItemToCreate>, Error>)
      requires conn.Valid()
      modifies conn`feeds, conn`items, conn`nextItemId, clock`ticks
      ensures conn.Valid()
      ensures var s := Pass(old(conn.feeds), old(conn.items), old(conn.nextItemId), faults, fetch, clock.at,
                            old(clock.ticks), conn.sha1);
              && r == s.end.result && conn.feeds == s.feeds && conn.items == s.end.rows
              && conn.nextItemId == s.end.nextId && clock.ticks == s.end.ticks
    {
      var pairs := GetLinksToCheck();
      var ids := IncrementalIds(pairs);
      var mostRecent: map<int, Timestamp> := map[];
      if ids != [] {
        var found := GetMostRecentItems(ids);
        mostRecent := if found.Ok? then found.value else map[];
      }
      assert mostRecent == Baselines(conn.feeds, conn.items, pairs, faults);
      r := SyncFeeds(pairs, mostRecent);
    }

    /** The loop of `execute` over the polled feeds; the first fetch error
        returns at once. */
    method SyncFeeds(pairs: seq<FeedTarget>, baselines: map<int, Timestamp>) returns (r: Result<seq<ItemToCreate>, Error>)
      requires conn.Valid()
      modifies conn`items, conn`nextItemId, clock`ticks
      ensures conn.Valid()
      ensures var e := RunFeeds(conn.feeds, old(conn.items), old(conn.nextItemId), pairs, Prepare(baselines), fetch, clock.at,
                                old(clock.ticks), conn.sha1);
              r == e.result && conn.items == e.rows && conn.nextItemId == e.nextId && clock.ticks == e.ticks
    {
      ghost var target := RunFeeds(conn.feeds, conn.items, conn.nextItemId, pairs, Prepare(baselines), fetch, clock.at,
                                   clock.ticks, conn.sha1);
      assert pairs[0..] == pairs;
      PrependNothing(target);
      var inserted: seq<ItemToCreate> := [];
      var k := 0;
      while k < |pairs|
        invariant 0 <= k <= |pairs|
        invariant conn.Valid()
        invariant Prepend(inserted, RunFeeds(conn.feeds, conn.items, conn.nextItemId, pairs[k..], Prepare(baselines),
                                             fetch, clock.at, clock.ticks, conn.sha1)) == target
      {
        RunFeedsStep(conn.feeds, conn.items, conn.nextItemId, pairs, k, Prepare(baselines), fetch, clock.at, clock.ticks, conn.sha1);
        var step := SyncFeed(pairs[k], baselines);
        if step.Err? {
          return step;
        }
        PrependTwice(inserted, step.value, RunFeeds(conn.feeds, conn.items, conn.nextItemId, pairs[k + 1..], Prepare(baselines),
                                                    fetch, clock.at, clock.ticks, conn.sha1));
        inserted := inserted + step.value;
        k := k + 1;
      }
      assert pairs[k..] == [];
      assert inserted + [] == inserted;
      r := Ok(inserted);
    }

    /** One feed of the loop: fetch, filter, sort, insert. */
    method SyncFeed(p: FeedTarget, baselines: map<int, Timestamp>) returns (r: Result<seq<ItemToCreate>, Error>)
      requires conn.Valid()
      modifies conn`items, conn`nextItemId, clock`ticks
      ensures conn.Valid()
      ensures var e := FeedStep(conn.feeds, old(conn.items), old(conn.nextItemId), p, Prepare(baselines), fetch, clock.at,
                                old(clock.ticks), conn.sha1);
              r == e.result && conn.items == e.rows && conn.nextItemId == e.nextId && clock.ticks == e.ticks
    {
      var items := fetch(p.link);
      if items.Err? {
        return Err(items.error);
      }
      PrepareApply(baselines, p, items.value, clock.at(clock.ticks));
      var filtered := Select(items.value, p.id, p.fetchOldItems, baselines);
      filtered := SortBy(filtered, ByDate());
      var created := InsertNewItems(p.id, filtered);
      r := Ok(created);
    }
  }
}
