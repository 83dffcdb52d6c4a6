/** The SQLite store as an in-memory object: the `feeds` and `items` tables with
    the constraints their schema builders declare (collie-core/src/repository/database.rs).
    Rows are kept in rowid order; `AUTOINCREMENT` is a counter per table. */
module Database {
  import opened Common
  import opened FeedModel
  import opened ItemModel

  /** A row of the `items` table; `feed` is the `feed_id` foreign key. */
  datatype ItemRow = ItemRow(
    id: int,
    fingerprint: string,
    author: Option<string>,
    title: string,
    description: string,
    link: string,
    status: ItemStatus,
    isSaved: bool,
    publishedAt: Timestamp,
    feed: int)

  /** The CHECK constraint on `feeds.status`. */
  const FeedStatusCheck: set<string> := {"subscribed", "unsubscribed"}

  /** The CHECK constraint on `items.status`. */
  const ItemStatusCheck: set<string> := {"unread", "read"}

  /** The strings Display writes into the status columns are exactly the values
      their CHECK constraints admit. */
  lemma StatusStringsMatchSchema()
    ensures forall s :: FeedStatusToString(s) in FeedStatusCheck
    ensures forall x :: x in FeedStatusCheck ==> FeedStatusFromStr(x).Ok?
    ensures forall s :: ItemStatusToString(s) in ItemStatusCheck
    ensures forall x :: x in ItemStatusCheck ==> ItemStatusFromStr(x).Ok?
  {
  }

  predicate FeedExists(feeds: seq<Feed>, id: int) {
    exists f :: f in feeds && f.id == id
  }

  predicate FingerprintTaken(rows: seq<ItemRow>, fp: string) {
    exists r :: r in rows && r.fingerprint == fp
  }

  predicate SameTitleLink(a: Feed, b: Feed) {
    a.title == b.title && a.link == b.link
  }

  predicate FeedIdsAscending(feeds: seq<Feed>) {
    forall i, j :: 0 <= i < j < |feeds| ==> feeds[i].id < feeds[j].id
  }

  predicate FeedIdsBelow(feeds: seq<Feed>, nextId: int) {
    forall i :: 0 <= i < |feeds| ==> feeds[i].id < nextId
  }

  /** The unique index `uk_feeds_title_link`. */
  predicate TitleLinksUnique(feeds: seq<Feed>) {
    forall i, j :: 0 <= i < j < |feeds| ==> !SameTitleLink(feeds[i], feeds[j])
  }

  /** `feeds`: ids in rowid order below the AUTOINCREMENT counter, and (title, link)
      unique. */
  predicate FeedsValid(feeds: seq<Feed>, nextId: int) {
    FeedIdsAscending(feeds) && FeedIdsBelow(feeds, nextId) && TitleLinksUnique(feeds)
  }

  predicate ItemIdsAscending(rows: seq<ItemRow>) {
    forall i, j :: 0 <= i < j < |rows| ==> rows[i].id < rows[j].id
  }

  predicate ItemIdsBelow(rows: seq<ItemRow>, nextId: int) {
    forall i :: 0 <= i < |rows| ==> rows[i].id < nextId
  }

  /** The UNIQUE constraint on `items.fingerprint`. */
  predicate FingerprintsUnique(rows: seq<ItemRow>) {
    forall i, j :: 0 <= i < j < |rows| ==> rows[i].fingerprint != rows[j].fingerprint
  }

  /** The foreign key `fk_items_feeds`. */
  predicate FeedsReferenced(rows: seq<ItemRow>, feeds: seq<Feed>) {
    forall i :: 0 <= i < |rows| ==> FeedExists(feeds, rows[i].feed)
  }

  /** `items`: ids in rowid order below the counter, `fingerprint` UNIQUE, and
      `feed_id` referencing an existing feed. */
  predicate ItemsValid(rows: seq<ItemRow>, nextId: int, feeds: seq<Feed>) {
    ItemIdsAscending(rows) && ItemIdsBelow(rows, nextId) && FingerprintsUnique(rows) && FeedsReferenced(rows, feeds)
  }

  predicate TablesValid(feeds: seq<Feed>, nextFeedId: int, rows: seq<ItemRow>, nextItemId: int) {
    FeedsValid(feeds, nextFeedId) && ItemsValid(rows, nextItemId, feeds)
  }

  /** One database connection. `sha1` is the hash behind item fingerprints. */
  class Connection {
    var feeds: seq<Feed>
    var items: seq<ItemRow>
    var nextFeedId: int
    var nextItemId: int
    const sha1: string -> string

    ghost predicate Valid()
      reads this
    {
      TablesValid(feeds, nextFeedId, items, nextItemId)
    }

    /** A freshly migrated, empty database. */
    constructor (sha1: string -> string)
      ensures Valid() && this.sha1 == sha1
      ensures feeds == [] && items == []
    {
      this.sha1 := sha1;
      feeds, items := [], [];
      nextFeedId, nextItemId := 1, 1;
    }
  }
}
