/** The per-feed decisions of the sync pass (collie-core/src/worker.rs:48-66 and
    100-110): which fetched entries a feed keeps, the order they are inserted in,
    and how each is turned into an `ItemToCreate`. These are the iterator closures
    of the pass, so they are functions here. */
module Selection {
  import opened Common
  import opened ItemModel
  import opened Sorting
  import opened Syndication

  /** Rust's order on `Option<DateTime>`: `None` is below every `Some`. */
  predicate DateLe(a: Option<Timestamp>, b: Option<Timestamp>) {
    a.None? || (b.Some? && a.value <= b.value)
  }

  /** The key of `sort_by_key(|x| x.published_at)`. */
  function ByDate(): (RawItem, RawItem) -> bool {
    (x: RawItem, y: RawItem) => DateLe(x.publishedAt, y.publishedAt)
  }

  lemma ByDateTotalPreorder()
    ensures TotalPreorder(ByDate())
  {
  }

  /** `max_by_key(|x| x.published_at)`: the position of the entry it returns. The
      fold keeps the later of two equal keys, so this is the last entry whose date
      is maximal. */
  function LastMaxIndex(items: seq<RawItem>): (i: nat)
    requires items != []
    ensures i < |items|
    ensures forall j :: 0 <= j < |items| ==> DateLe(items[j].publishedAt, items[i].publishedAt)
    ensures forall j :: i < j < |items| ==> !DateLe(items[i].publishedAt, items[j].publishedAt)
  {
    if |items| == 1 then 0
    else
      var init := items[..|items| - 1];
      var m := LastMaxIndex(init);
      assert init[m] == items[m];
      assert forall j :: 0 <= j < |init| ==> init[j] == items[j];
      if DateLe(items[m].publishedAt, items[|items| - 1].publishedAt) then |items| - 1 else m
  }

  /** First sync of an incremental feed: the one entry `max_by_key` picks, or
      nothing when nothing was fetched. */
  function Newest(items: seq<RawItem>): (r: seq<RawItem>)
    ensures |r| <= 1 && (r == [] <==> items == [])
  {
    if items == [] then [] else [items[LastMaxIndex(items)]]
  }

  /** The filter closure: without a baseline everything passes; with one, only
      entries dated strictly after it; a backfill feed keeps everything. */
  predicate Keep(x: RawItem, baseline: Option<Timestamp>, fetchOldItems: bool) {
    || baseline.None?
    || (x.publishedAt.Some? && x.publishedAt.value > baseline.value)
    || fetchOldItems
  }

  function Filter(items: seq<RawItem>, baseline: Option<Timestamp>, fetchOldItems: bool): (r: seq<RawItem>)
    ensures |r| <= |items|
    ensures forall x :: x in r <==> x in items && Keep(x, baseline, fetchOldItems)
  {
    if items == [] then []
    else
      assert forall x :: x in items <==> x == items[0] || x in items[1..];
      (if Keep(items[0], baseline, fetchOldItems) then [items[0]] else []) + Filter(items[1..], baseline, fetchOldItems)
  }

  /** A filter that keeps every entry returns the list unchanged. */
  lemma {:induction false} FilterAll(items: seq<RawItem>, baseline: Option<Timestamp>)
    ensures Filter(items, baseline, true) == items
  {
    if items != [] {
      FilterAll(items[1..], baseline);
      assert [items[0]] + items[1..] == items;
    }
  }

  /** The entries feed `id` keeps this pass, in fetch order (`worker.rs:48-64`). */
  function Select(items: seq<RawItem>, id: int, fetchOldItems: bool, baselines: map<int, Timestamp>): seq<RawItem> {
    if !fetchOldItems && id !in baselines then Newest(items)
    else Filter(items, if id in baselines then Some(baselines[id]) else None, fetchOldItems)
  }

  /** An incremental feed without a baseline keeps at most one entry: none when
      nothing was fetched, otherwise the last entry with the greatest date. */
  lemma SelectFirstSync(items: seq<RawItem>, id: int, baselines: map<int, Timestamp>)
    requires id !in baselines
    ensures var r := Select(items, id, false, baselines);
            && |r| <= 1
            && (r == [] <==> items == [])
            && (r != [] ==> exists i :: 0 <= i < |items| && r[0] == items[i] &&
                              (forall j :: 0 <= j < |items| ==> DateLe(items[j].publishedAt, items[i].publishedAt)) &&
                              (forall j :: i < j < |items| ==> !DateLe(items[i].publishedAt, items[j].publishedAt)))
  {
    if items != [] {
      var i := LastMaxIndex(items);
      assert Select(items, id, false, baselines)[0] == items[i];
    }
  }

  /** An incremental feed with baseline `b` keeps exactly the entries dated
      strictly after `b`; entries without a date are dropped. */
  lemma SelectIncremental(items: seq<RawItem>, id: int, baselines: map<int, Timestamp>)
    requires id in baselines
    ensures forall x :: x in Select(items, id, false, baselines) <==>
              x in items && x.publishedAt.Some? && x.publishedAt.value > baselines[id]
  {
  }

  /** A backfill feed keeps every fetched entry, in fetch order. */
  lemma SelectBackfill(items: seq<RawItem>, id: int, baselines: map<int, Timestamp>)
    ensures Select(items, id, true, baselines) == items
  {
    FilterAll(items, if id in baselines then Some(baselines[id]) else None);
  }

  /** The kept entries in insertion order: `sort_by_key(published_at)`, stable. */
  function Prepared(items: seq<RawItem>, id: int, fetchOldItems: bool, baselines: map<int, Timestamp>): seq<RawItem> {
    SortBy(Select(items, id, fetchOldItems, baselines), ByDate())
  }

  /** Insertion order: dates never decrease (undated entries first), the entries
      are exactly the kept ones, and entries with equal dates keep their fetch
      order. */
  lemma PreparedOrder(items: seq<RawItem>, id: int, fetchOldItems: bool, baselines: map<int, Timestamp>)
    ensures var s := Select(items, id, fetchOldItems, baselines);
            var r := Prepared(items, id, fetchOldItems, baselines);
            && (forall i, j :: 0 <= i < j < |r| ==> DateLe(r[i].publishedAt, r[j].publishedAt))
            && multiset(r) == multiset(s)
            && (forall x :: Ties(r, x, ByDate()) == Ties(s, x, ByDate()))
  {
    var s := Select(items, id, fetchOldItems, baselines);
    ByDateTotalPreorder();
    SortBySorted(s, ByDate());
    forall x ensures Ties(SortBy(s, ByDate()), x, ByDate()) == Ties(s, x, ByDate()) {
      SortByStable(s, x, ByDate());
    }
  }

  /** Rust's `str::trim` applied to an optional string. */
  function TrimOption(s: Option<string>): Option<string> {
    if s.Some? then Some(Trim(s.value)) else None
  }

  /** The `ItemToCreate` built from a fetched entry (`worker.rs:102-110`): text
      fields trimmed, a missing link read as "#", missing content as "", a missing
      date as the instant `current` of the call, status unread. */
  function Normalize(x: RawItem, feed: int, current: Timestamp): (a: ItemToCreate)
    ensures a.title == Trim(x.title)
    ensures a.link == (if x.link.Some? then Trim(x.link.value) else "#")
    ensures a.description == (if x.content.Some? then Trim(x.content.value) else "")
    ensures a.author == TrimOption(x.author)
    ensures a.status == Unread && a.feed == feed
    ensures a.publishedAt == if x.publishedAt.Some? then x.publishedAt.value else current
  {
    ItemToCreate(TrimOption(x.author), Trim(x.title),
                 Trim(if x.content.Some? then x.content.value else ""),
                 Trim(if x.link.Some? then x.link.value else "#"), Unread,
                 if x.publishedAt.Some? then x.publishedAt.value else current, feed)
  }

  /** Every text field of a normalised entry is already trimmed; a missing link
      stays "#". */
  lemma NormalizedTrimmed(x: RawItem, feed: int, current: Timestamp)
    ensures var a := Normalize(x, feed, current);
            && Trim(a.title) == a.title && Trim(a.link) == a.link && Trim(a.description) == a.description
            && (a.author.Some? ==> Trim(a.author.value) == a.author.value)
            && (x.link.None? ==> a.link == "#")
  {
    var link := if x.link.Some? then x.link.value else "#";
    var content := if x.content.Some? then x.content.value else "";
    TrimIdempotent(x.title);
    TrimIdempotent(link);
    TrimIdempotent(content);
    if x.author.Some? {
      TrimIdempotent(x.author.value);
    }
    if x.link.None? {
      TrimHash();
    }
  }

  lemma TrimHash()
    ensures Trim("#") == "#"
  {
    assert !IsWhitespace('#');
    TrimFixesTrimmed("#");
  }

  function NormalizeAll(items: seq<RawItem>, feed: int, current: Timestamp): (r: seq<ItemToCreate>)
    ensures |r| == |items| && forall i :: 0 <= i < |items| ==> r[i] == Normalize(items[i], feed, current)
  {
    seq(|items|, i requires 0 <= i < |items| => Normalize(items[i], feed, current))
  }

  /** The fingerprint of a normalised entry depends on its raw title and link
      only: the instant of the call, the feed and the other fields do not change
      it, so the same entry fetched again is recognised as a duplicate. */
  lemma NormalizedFingerprint(x: RawItem, y: RawItem, feed1: int, feed2: int, c1: Timestamp, c2: Timestamp,
                              sha1: string -> string)
    requires x.title == y.title && x.link == y.link
    ensures Fingerprint(Normalize(x, feed1, c1), sha1) == Fingerprint(Normalize(y, feed2, c2), sha1)
  {
  }

  /** Epoch seconds of the three entries of the fixture feed of
      collie-core/src/tests/syndication.rs:39-59, in fetch order. */
  const Fixture1: Timestamp := 1693186404  // 2023-08-28T01:33:24Z
  const Fixture2: Timestamp := 1693184724  // 2023-08-28T01:05:24Z
  const Fixture3: Timestamp := 1693182754  // 2023-08-28T00:32:34Z

  /** The fixture feed, newest first as fetched: a first sync keeps only the
      newest entry; with the middle entry stored as baseline, only the newest is
      new; as a backfill all three are inserted oldest first. */
  lemma FixtureSelection(a: RawItem, b: RawItem, c: RawItem, id: int)
    requires a.publishedAt == Some(Fixture1) && b.publishedAt == Some(Fixture2) && c.publishedAt == Some(Fixture3)
    ensures Prepared([a, b, c], id, false, map[]) == [a]
    ensures Prepared([a, b, c], id, false, map[id := Fixture2]) == [a]
    ensures Prepared([a, b, c], id, true, map[]) == [c, b, a]
  {
    var items := [a, b, c];
    assert LastMaxIndex([a, b]) == 0;
    assert LastMaxIndex(items) == 0;
    var f := Filter(items, Some(Fixture2), false);
    assert f == [a] by {
      assert Filter([c], Some(Fixture2), false) == [];
      assert Filter([b, c], Some(Fixture2), false) == [];
    }
    SelectBackfill(items, id, map[]);
    assert [a, b, c][..2] == [a, b];
    assert [a, b][..1] == [a];
    assert SortBy([a], ByDate()) == [a];
    assert SortBy([a, b], ByDate()) == [b, a];
    assert SortBy(items, ByDate()) == InsertBy([b, a], c, ByDate());
  }
}
