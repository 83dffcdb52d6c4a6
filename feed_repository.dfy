/** The feed repository (collie-core/src/repository/feed.rs) over the in-memory
    `feeds` table; deleting a feed cascades to its items. */
module FeedRepository {
  import opened Common
  import opened FeedModel
  import opened Database

  const TitleLinkIndex: string := "uk_feeds_title_link"

  predicate TitleLinkTaken(feeds: seq<Feed>, title: string, link: string) {
    exists f :: f in feeds && f.title == title && f.link == link
  }

  /** `create`: inserts a subscribed feed checked at `now` with the next id; a
      second feed with the same (title, link) violates the unique index and leaves
      the table as it was. */
  method Create(conn: Connection, arg: FeedToCreate, now: Timestamp) returns (r: Result<nat, Error>)
    requires conn.Valid()
    modifies conn`feeds, conn`nextFeedId
    ensures conn.Valid()
    ensures TitleLinkTaken(old(conn.feeds), arg.title, arg.link) ==>
              && r == Err(StorageFailure(UniqueViolation(TitleLinkIndex)))
              && conn.feeds == old(conn.feeds) && conn.nextFeedId == old(conn.nextFeedId)
    ensures !TitleLinkTaken(old(conn.feeds), arg.title, arg.link) ==>
              && r == Ok(1)
              && conn.feeds == old(conn.feeds) +
                   [Feed(old(conn.nextFeedId), arg.title, arg.link, Subscribed, now, arg.fetchOldItems)]
              && conn.nextFeedId == old(conn.nextFeedId) + 1
  {
    if TitleLinkTaken(conn.feeds, arg.title, arg.link) {
      return Err(StorageFailure(UniqueViolation(TitleLinkIndex)));
    }
    var row := Feed(conn.nextFeedId, arg.title, arg.link, Subscribed, now, arg.fetchOldItems);
    ghost var before := conn.feeds;
    conn.feeds := conn.feeds + [row];
    conn.nextFeedId := conn.nextFeedId + 1;
    forall i | 0 <= i < |conn.items| ensures FeedExists(conn.feeds, conn.items[i].feed) {
      var f :| f in before && f.id == conn.items[i].feed;
      assert f in conn.feeds;
    }
    forall i | 0 <= i < |before| ensures !SameTitleLink(before[i], row) {
      assert before[i] in before;
    }
    r := Ok(1);
  }

  /** `read_all`: every feed, unfiltered, in rowid order. */
  function ReadAll(feeds: seq<Feed>): (r: seq<Feed>)
    ensures |r| == |feeds| && forall i :: 0 <= i < |r| ==> r[i] == feeds[i]
  {
    feeds
  }

  /** `read`: the feed with the given id, or `None` when there is none. */
  function Read(feeds: seq<Feed>, id: int): (r: Option<Feed>)
    ensures r.Some? ==> r.value in feeds && r.value.id == id
    ensures r.None? <==> !FeedExists(feeds, id)
  {
    if feeds == [] then None
    else if feeds[0].id == id then Some(feeds[0])
    else
      assert forall f :: f in feeds <==> f == feeds[0] || f in feeds[1..];
      Read(feeds[1..], id)
  }

  /** With unique ids, `Read` finds the feed stored under that id. */
  lemma {:induction false} ReadFindsRow(feeds: seq<Feed>, i: int)
    requires 0 <= i < |feeds|
    requires forall k :: 0 <= k < i ==> feeds[k].id != feeds[i].id
    ensures Read(feeds, feeds[i].id) == Some(feeds[i])
  {
    if i > 0 {
      ReadFindsRow(feeds[1..], i - 1);
    }
  }

  /** The columns an UPDATE statement sets. */
  datatype FeedColumn = Title | Link | Status | CheckedAt | FetchOldItems

  /** A feed row after the SET list of `arg`: the `Some` fields replace the
      stored ones. */
  function ApplyUpdate(f: Feed, arg: FeedToUpdate): Feed {
    f.(title := if arg.title.Some? then arg.title.value else f.title,
       link := if arg.link.Some? then arg.link.value else f.link,
       status := if arg.status.Some? then arg.status.value else f.status,
       checkedAt := if arg.checkedAt.Some? then arg.checkedAt.value else f.checkedAt,
       fetchOldItems := if arg.fetchOldItems.Some? then arg.fetchOldItems.value else f.fetchOldItems)
  }

  /** The table after `UPDATE feeds SET ... WHERE id = arg.id`. */
  function UpdatedFeeds(feeds: seq<Feed>, arg: FeedToUpdate): (r: seq<Feed>)
    ensures |r| == |feeds|
    ensures forall i :: 0 <= i < |feeds| ==>
              r[i] == if feeds[i].id == arg.id then ApplyUpdate(feeds[i], arg) else feeds[i]
  {
    seq(|feeds|, i requires 0 <= i < |feeds| =>
      if feeds[i].id == arg.id then ApplyUpdate(feeds[i], arg) else feeds[i])
  }

  /** How many rows carry `id`. */
  function CountId(feeds: seq<Feed>, id: int): (n: nat)
    ensures n <= |feeds|
    ensures n == 0 <==> !FeedExists(feeds, id)
  {
    if feeds == [] then 0
    else
      assert forall f :: f in feeds <==> f == feeds[0] || f in feeds[1..];
      (if feeds[0].id == id then 1 else 0) + CountId(feeds[1..], id)
  }

  /** `update`: the feed with `arg.id` gets the `Some` fields of `arg`, nothing
      else changes. An empty SET list is rejected by SQLite, and so is a new
      (title, link) that another feed already has; both leave the table alone. */
  method Update(conn: Connection, arg: FeedToUpdate) returns (r: Result<nat, Error>)
    requires conn.Valid()
    modifies conn`feeds
    ensures conn.Valid()
    ensures arg.title.None? && arg.link.None? && arg.status.None? && arg.checkedAt.None? && arg.fetchOldItems.None? ==>
              r == Err(StorageFailure(EmptySetList)) && conn.feeds == old(conn.feeds)
    ensures r.Ok? ==> conn.feeds == UpdatedFeeds(old(conn.feeds), arg) && r.value == CountId(old(conn.feeds), arg.id)
    ensures r.Err? ==> conn.feeds == old(conn.feeds)
    ensures r.Err? <==>
              (arg.title.None? && arg.link.None? && arg.status.None? && arg.checkedAt.None? && arg.fetchOldItems.None?) ||
              !TitleLinksUnique(UpdatedFeeds(old(conn.feeds), arg))
    ensures r == Err(StorageFailure(UniqueViolation(TitleLinkIndex))) <==>
              r.Err? && !TitleLinksUnique(UpdatedFeeds(old(conn.feeds), arg))
  {
    var vals: seq<FeedColumn> := [];
    if arg.title.Some? {
      vals := vals + [Title];
    }
    if arg.link.Some? {
      vals := vals + [Link];
    }
    if arg.status.Some? {
      vals := vals + [Status];
    }
    if arg.checkedAt.Some? {
      vals := vals + [CheckedAt];
    }
    if arg.fetchOldItems.Some? {
      vals := vals + [FetchOldItems];
    }
    if vals == [] {
      return Err(StorageFailure(EmptySetList));
    }
    var updated := UpdatedFeeds(conn.feeds, arg);
    if !TitleLinksUnique(updated) {
      return Err(StorageFailure(UniqueViolation(TitleLinkIndex)));
    }
    UpdateKeepsFeedIds(conn.feeds, arg);
    var n := CountId(conn.feeds, arg.id);
    conn.feeds := updated;
    r := Ok(n);
  }

  /** An update never changes ids, so foreign keys into `feeds` still resolve. */
  lemma UpdateKeepsFeedIds(feeds: seq<Feed>, arg: FeedToUpdate)
    ensures forall id :: FeedExists(feeds, id) ==> FeedExists(UpdatedFeeds(feeds, arg), id)
  {
    var u := UpdatedFeeds(feeds, arg);
    forall id | FeedExists(feeds, id) ensures FeedExists(u, id) {
      var f :| f in feeds && f.id == id;
      var i :| 0 <= i < |feeds| && feeds[i] == f;
      assert u[i] in u;
    }
  }

  /** The feeds whose id is not `id`, in order. */
  function WithoutFeed(feeds: seq<Feed>, id: int): (r: seq<Feed>)
    ensures forall f :: f in r <==> f in feeds && f.id != id
    ensures |r| <= |feeds|
  {
    if feeds == [] then []
    else
      assert forall f :: f in feeds <==> f == feeds[0] || f in feeds[1..];
      (if feeds[0].id != id then [feeds[0]] else []) + WithoutFeed(feeds[1..], id)
  }

  /** The items that do not belong to feed `id`, in order. */
  function WithoutItemsOf(rows: seq<ItemRow>, id: int): (r: seq<ItemRow>)
    ensures forall x :: x in r <==> x in rows && x.feed != id
    ensures |r| <= |rows|
  {
    if rows == [] then []
    else
      assert forall x :: x in rows <==> x == rows[0] || x in rows[1..];
      (if rows[0].feed != id then [rows[0]] else []) + WithoutItemsOf(rows[1..], id)
  }

  /** `delete`: removes the feed with `id` and, through `ON DELETE CASCADE`, every
      item that references it; the result counts the deleted feeds. */
  method Delete(conn: Connection, id: int) returns (r: Result<nat, Error>)
    requires conn.Valid()
    modifies conn`feeds, conn`items
    ensures conn.Valid()
    ensures conn.feeds == WithoutFeed(old(conn.feeds), id)
    ensures conn.items == WithoutItemsOf(old(conn.items), id)
    ensures r == Ok(|old(conn.feeds)| - |conn.feeds|)
  {
    var feeds0 := conn.feeds;
    ghost var items0 := conn.items;
    conn.feeds := WithoutFeed(conn.feeds, id);
    conn.items := WithoutItemsOf(conn.items, id);
    WithoutFeedValid(feeds0, conn.nextFeedId, id);
    WithoutItemsValid(items0, conn.nextItemId, feeds0, id);
    r := Ok(|feeds0| - |conn.feeds|);
  }

  lemma WithoutFeedValid(feeds: seq<Feed>, nextId: int, id: int)
    requires FeedsValid(feeds, nextId)
    ensures FeedsValid(WithoutFeed(feeds, id), nextId)
  {
    WithoutFeedAscending(feeds, id);
    WithoutFeedUnique(feeds, id);
    var r := WithoutFeed(feeds, id);
    forall i | 0 <= i < |r| ensures r[i].id < nextId {
      assert r[i] in feeds;
    }
  }

  lemma {:induction false} WithoutFeedAscending(feeds: seq<Feed>, id: int)
    requires FeedIdsAscending(feeds)
    ensures FeedIdsAscending(WithoutFeed(feeds, id))
  {
    if feeds != [] {
      var rest := WithoutFeed(feeds[1..], id);
      WithoutFeedAscending(feeds[1..], id);
      if feeds[0].id != id {
        assert WithoutFeed(feeds, id) == [feeds[0]] + rest;
        forall j | 0 <= j < |rest| ensures feeds[0].id < rest[j].id {
          assert rest[j] in feeds[1..];
        }
      } else {
        assert WithoutFeed(feeds, id) == rest;
      }
    }
  }

  lemma {:induction false} WithoutFeedUnique(feeds: seq<Feed>, id: int)
    requires TitleLinksUnique(feeds)
    ensures TitleLinksUnique(WithoutFeed(feeds, id))
  {
    if feeds != [] {
      var rest := WithoutFeed(feeds[1..], id);
      WithoutFeedUnique(feeds[1..], id);
      if feeds[0].id != id {
        assert WithoutFeed(feeds, id) == [feeds[0]] + rest;
        forall j | 0 <= j < |rest| ensures !SameTitleLink(feeds[0], rest[j]) {
          assert rest[j] in feeds[1..];
        }
      } else {
        assert WithoutFeed(feeds, id) == rest;
      }
    }
  }

  /** The cascade keeps the items table consistent: no surviving item references
      the deleted feed, and every surviving item's feed survives. */
  lemma WithoutItemsValid(rows: seq<ItemRow>, nextId: int, feeds: seq<Feed>, id: int)
    requires ItemsValid(rows, nextId, feeds)
    ensures ItemsValid(WithoutItemsOf(rows, id), nextId, WithoutFeed(feeds, id))
  {
    WithoutItemsAscending(rows, id);
    WithoutItemsUnique(rows, id);
    var r := WithoutItemsOf(rows, id);
    forall i | 0 <= i < |r| ensures r[i].id < nextId && FeedExists(WithoutFeed(feeds, id), r[i].feed) {
      assert r[i] in rows;
      var f :| f in feeds && f.id == r[i].feed;
      assert f in WithoutFeed(feeds, id);
    }
  }

  lemma {:induction false} WithoutItemsAscending(rows: seq<ItemRow>, id: int)
    requires ItemIdsAscending(rows)
    ensures ItemIdsAscending(WithoutItemsOf(rows, id))
  {
    if rows != [] {
      var rest := WithoutItemsOf(rows[1..], id);
      WithoutItemsAscending(rows[1..], id);
      if rows[0].feed != id {
        assert WithoutItemsOf(rows, id) == [rows[0]] + rest;
        forall j | 0 <= j < |rest| ensures rows[0].id < rest[j].id {
          assert rest[j] in rows[1..];
        }
      } else {
        assert WithoutItemsOf(rows, id) == rest;
      }
    }
  }

  lemma {:induction false} WithoutItemsUnique(rows: seq<ItemRow>, id: int)
    requires FingerprintsUnique(rows)
    ensures FingerprintsUnique(WithoutItemsOf(rows, id))
  {
    if rows != [] {
      var rest := WithoutItemsOf(rows[1..], id);
      WithoutItemsUnique(rows[1..], id);
      if rows[0].feed != id {
        assert WithoutItemsOf(rows, id) == [rows[0]] + rest;
        forall j | 0 <= j < |rest| ensures rows[0].fingerprint != rest[j].fingerprint {
          assert rest[j] in rows[1..];
        }
      } else {
        assert WithoutItemsOf(rows, id) == rest;
      }
    }
  }
}
