/** The item repository (collie-core/src/repository/item.rs) over the in-memory
    `items` table: insert with a unique fingerprint, reads that join the owning
    feed, filter, order and page, counts, and partial updates. */
module ItemRepository {
  import opened Common
  import opened FeedModel
  import opened ItemModel
  import opened Database
  import opened Sorting
  import FeedRepository

  /** The column SQLite names when the UNIQUE constraint on fingerprints fails. */
  const FingerprintConstraint: string := "items.fingerprint"

  // ---------------------------------------------------------------- create

  /** The row `create` inserts: the columns it binds, `is_saved` at its default. */
  function NewRow(id: int, arg: ItemToCreate, sha1: string -> string): ItemRow {
    ItemRow(id, Fingerprint(arg, sha1), arg.author, arg.title, arg.description,
            arg.link, arg.status, false, arg.publishedAt, arg.feed)
  }

  /** The outcome of one INSERT: the statement's result and the table after it. */
  datatype Insertion = Insertion(result: Result<nat, Error>, rows: seq<ItemRow>, nextId: int)

  /** `create` as a function of the tables: the UNIQUE fingerprint is checked
      first, then the foreign key; a rejected statement changes nothing. */
  function Insert(feeds: seq<Feed>, rows: seq<ItemRow>, nextId: int, arg: ItemToCreate,
                  sha1: string -> string): Insertion
  {
    if FingerprintTaken(rows, Fingerprint(arg, sha1)) then
      Insertion(Err(StorageFailure(UniqueViolation(FingerprintConstraint))), rows, nextId)
    else if !FeedExists(feeds, arg.feed) then
      Insertion(Err(StorageFailure(ForeignKeyViolation)), rows, nextId)
    else
      Insertion(Ok(1), rows + [NewRow(nextId, arg, sha1)], nextId + 1)
  }

  /** An insert succeeds exactly when the fingerprint is new and the feed
      exists; it then appends one row with the next id, and otherwise leaves the
      table as it was. */
  lemma InsertSpec(feeds: seq<Feed>, rows: seq<ItemRow>, nextId: int, arg: ItemToCreate, sha1: string -> string)
    ensures var ins := Insert(feeds, rows, nextId, arg, sha1);
            && (ins.result.Ok? <==> !FingerprintTaken(rows, Fingerprint(arg, sha1)) && FeedExists(feeds, arg.feed))
            && (ins.result.Ok? ==> ins.result.value == 1 && ins.nextId == nextId + 1 &&
                                   ins.rows == rows + [NewRow(nextId, arg, sha1)])
            && (ins.result.Err? ==> ins.rows == rows && ins.nextId == nextId)
            && (FingerprintTaken(rows, Fingerprint(arg, sha1)) ==>
                  ins.result == Err(StorageFailure(UniqueViolation(FingerprintConstraint))))
  {
  }

  /** An insert keeps the table invariants. */
  lemma InsertValid(feeds: seq<Feed>, nextFeedId: int, rows: seq<ItemRow>, nextId: int,
                    arg: ItemToCreate, sha1: string -> string)
    requires TablesValid(feeds, nextFeedId, rows, nextId)
    ensures var ins := Insert(feeds, rows, nextId, arg, sha1);
            TablesValid(feeds, nextFeedId, ins.rows, ins.nextId) && ins.nextId >= nextId
  {
    var ins := Insert(feeds, rows, nextId, arg, sha1);
    if ins.result.Ok? {
      var fp := Fingerprint(arg, sha1);
      forall i | 0 <= i < |rows| ensures rows[i].fingerprint != fp {
        assert rows[i] in rows;
      }
    }
  }

  /** Whatever the outcome, an insert into a feed that exists leaves the
      fingerprint in the table, so inserting the same item again fails and
      changes nothing. */
  lemma InsertTwiceRejected(feeds: seq<Feed>, rows: seq<ItemRow>, nextId: int,
                            arg: ItemToCreate, sha1: string -> string)
    requires FeedExists(feeds, arg.feed)
    ensures var ins := Insert(feeds, rows, nextId, arg, sha1);
            FingerprintTaken(ins.rows, Fingerprint(arg, sha1)) &&
            Insert(feeds, ins.rows, ins.nextId, arg, sha1) ==
              Insertion(Err(StorageFailure(UniqueViolation(FingerprintConstraint))), ins.rows, ins.nextId)
  {
    var ins := Insert(feeds, rows, nextId, arg, sha1);
    if ins.result.Ok? {
      assert NewRow(nextId, arg, sha1) in ins.rows;
    }
  }

  /** `create`: the INSERT of `arg` with its fingerprint. */
  method Create(conn: Connection, arg: ItemToCreate) returns (r: Result<nat, Error>)
    requires conn.Valid()
    modifies conn`items, conn`nextItemId
    ensures conn.Valid() && conn.nextItemId >= old(conn.nextItemId)
    ensures var ins := Insert(conn.feeds, old(conn.items), old(conn.nextItemId), arg, conn.sha1);
            r == ins.result && conn.items == ins.rows && conn.nextItemId == ins.nextId
  {
    InsertValid(conn.feeds, conn.nextFeedId, conn.items, conn.nextItemId, arg, conn.sha1);
    var fp := Fingerprint(arg, conn.sha1);
    if FingerprintTaken(conn.items, fp) {
      return Err(StorageFailure(UniqueViolation(FingerprintConstraint)));
    }
    if !FeedExists(conn.feeds, arg.feed) {
      return Err(StorageFailure(ForeignKeyViolation));
    }
    conn.items := conn.items + [NewRow(conn.nextItemId, arg, conn.sha1)];
    conn.nextItemId := conn.nextItemId + 1;
    r := Ok(1);
  }

  // ---------------------------------------------------------------- read_all

  /** The feed columns the read joins in. */
  function FeedRef(f: Feed): ItemFeed {
    ItemFeed(f.id, f.title, f.link)
  }

  /** A row joined with its feed, as `Item::from` builds it. */
  function ItemOf(row: ItemRow, f: Feed): Item {
    Item(row.id, row.fingerprint, row.author, row.title, row.description, row.link,
         row.status, row.isSaved, row.publishedAt, FeedRef(f))
  }

  /** The `items` columns of a joined item. */
  function RowOf(x: Item): ItemRow {
    ItemRow(x.id, x.fingerprint, x.author, x.title, x.description, x.link,
            x.status, x.isSaved, x.publishedAt, x.feed.id)
  }

  /** `x` carries the feed that its `feed_id` names. */
  predicate JoinedFeed(feeds: seq<Feed>, x: Item) {
    var f := FeedRepository.Read(feeds, x.feed.id);
    f.Some? && x.feed == FeedRef(f.value)
  }

  /** The WHERE clause of a read: every filter that is given must hold. */
  predicate RowMatches(row: ItemRow, opt: ItemReadOption) {
    && (opt.ids.None? || row.id in opt.ids.value)
    && (opt.feed.None? || row.feed == opt.feed.value)
    && (opt.status.None? || row.status == opt.status.value)
    && (opt.isSaved.None? || row.isSaved == opt.isSaved.value)
  }

  /** The inner join with `feeds` and the WHERE clause, in table order. */
  function Where(feeds: seq<Feed>, rows: seq<ItemRow>, opt: ItemReadOption): (r: seq<Item>)
    ensures |r| <= |rows|
  {
    if rows == [] then []
    else
      var f := FeedRepository.Read(feeds, rows[0].feed);
      (if RowMatches(rows[0], opt) && f.Some? then [ItemOf(rows[0], f.value)] else []) + Where(feeds, rows[1..], opt)
  }

  /** Whatever the join yields is a stored row that matches, with its own feed. */
  lemma {:induction false} WhereSound(feeds: seq<Feed>, rows: seq<ItemRow>, opt: ItemReadOption)
    ensures forall x :: x in Where(feeds, rows, opt) ==>
              RowOf(x) in rows && RowMatches(RowOf(x), opt) && JoinedFeed(feeds, x)
  {
    if rows != [] {
      WhereSound(feeds, rows[1..], opt);
      assert forall row :: row in rows[1..] ==> row in rows;
    }
  }

  /** Every stored row that matches and whose feed exists is in the join. */
  lemma {:induction false} WhereComplete(feeds: seq<Feed>, rows: seq<ItemRow>, opt: ItemReadOption, row: ItemRow)
    requires row in rows && RowMatches(row, opt) && FeedExists(feeds, row.feed)
    ensures ItemOf(row, FeedRepository.Read(feeds, row.feed).value) in Where(feeds, rows, opt)
  {
    if rows[0] != row {
      assert row in rows[1..];
      WhereComplete(feeds, rows[1..], opt, row);
    }
  }

  /** The rank ORDER BY FIELD(status, 'unread') gives: unread rows first. */
  function Rank(s: ItemStatus): nat {
    if s == Unread then 0 else 1
  }

  /** "`a` may come before `b`" for each ORDER BY clause. */
  function OrderLe(order: ItemOrder): (Item, Item) -> bool {
    match order
    case ReceivedDateDesc =>
      (a: Item, b: Item) => a.id > b.id || (a.id == b.id && a.publishedAt >= b.publishedAt)
    case PublishedDateDesc =>
      (a: Item, b: Item) => a.publishedAt >= b.publishedAt
    case UnreadFirst =>
      (a: Item, b: Item) => Rank(a.status) < Rank(b.status) ||
                            (Rank(a.status) == Rank(b.status) && a.publishedAt >= b.publishedAt)
  }

  lemma OrderLeTotalPreorder(order: ItemOrder)
    ensures TotalPreorder(OrderLe(order))
  {
  }

  /** ORDER BY when one is given; otherwise the rows stay in table order. */
  function Ordered(s: seq<Item>, orderBy: Option<ItemOrder>): (r: seq<Item>)
    ensures |r| == |s| && multiset(r) == multiset(s)
  {
    if orderBy.None? then s else SortBy(s, OrderLe(orderBy.value))
  }

  /** ORDER BY yields rows sorted by its clause. */
  lemma OrderedSorted(s: seq<Item>, order: ItemOrder)
    ensures SortedBy(Ordered(s, Some(order)), OrderLe(order))
  {
    OrderLeTotalPreorder(order);
    SortBySorted(s, OrderLe(order));
  }

  /** How many rows OFFSET skips: `offset` pages of `limit` rows when a limit is
      given, `offset` rows otherwise. */
  function Skip(limit: Option<nat>, offset: Option<nat>): nat {
    if offset.None? then 0
    else if limit.Some? then offset.value * limit.value
    else offset.value
  }

  /** LIMIT and OFFSET: the run of at most `limit` rows that starts after the
      skipped ones. */
  function Page<T>(s: seq<T>, limit: Option<nat>, offset: Option<nat>): (r: seq<T>)
    ensures Skip(limit, offset) >= |s| ==> r == []
    ensures Skip(limit, offset) < |s| ==>
              Skip(limit, offset) + |r| <= |s| && r == s[Skip(limit, offset)..Skip(limit, offset) + |r|]
    ensures limit.None? ==> |r| == if Skip(limit, offset) < |s| then |s| - Skip(limit, offset) else 0
    ensures limit.Some? ==> |r| == if Skip(limit, offset) + limit.value <= |s| then limit.value
                                   else if Skip(limit, offset) < |s| then |s| - Skip(limit, offset) else 0
  {
    var k := Skip(limit, offset);
    if k >= |s| then []
    else if limit.None? || k + limit.value > |s| then s[k..]
    else s[k..k + limit.value]
  }

  /** Every row lands on exactly one page: with pages of `l > 0` rows, row `i`
      is the `i % l`-th row of page `i / l`. */
  lemma PageHolds<T>(s: seq<T>, l: nat, i: int)
    requires l > 0 && 0 <= i < |s|
    ensures var p := Page(s, Some(l), Some(i / l));
            i % l < |p| && p[i % l] == s[i]
  {
    assert (i / l) * l + i % l == i;
  }

  /** The joined, filtered and ordered rows before paging. */
  function Selected(feeds: seq<Feed>, rows: seq<ItemRow>, opt: ItemReadOption): seq<Item> {
    Ordered(Where(feeds, rows, opt), opt.orderBy)
  }

  /** `read_all`: what comes back matches every filter given, is a stored row
      joined with its own feed, and is at most `limit` long. */
  function ReadAll(feeds: seq<Feed>, rows: seq<ItemRow>, opt: ItemReadOption): (r: seq<Item>)
    ensures opt.limit.Some? ==> |r| <= opt.limit.value
    ensures forall x :: x in r ==> RowOf(x) in rows && RowMatches(RowOf(x), opt) && JoinedFeed(feeds, x)
  {
    var s := Selected(feeds, rows, opt);
    var r := Page(s, opt.limit, opt.offset);
    WhereSound(feeds, rows, opt);
    assert forall x :: x in r ==> x in s;
    assert forall x :: x in s ==> x in multiset(Where(feeds, rows, opt));
    r
  }

  /** Without LIMIT and OFFSET nothing that matches is missing. */
  lemma ReadAllComplete(feeds: seq<Feed>, rows: seq<ItemRow>, opt: ItemReadOption, row: ItemRow)
    requires opt.limit.None? && opt.offset.None?
    requires row in rows && RowMatches(row, opt) && FeedExists(feeds, row.feed)
    ensures ItemOf(row, FeedRepository.Read(feeds, row.feed).value) in ReadAll(feeds, rows, opt)
  {
    var w := Where(feeds, rows, opt);
    WhereComplete(feeds, rows, opt, row);
    assert ItemOf(row, FeedRepository.Read(feeds, row.feed).value) in multiset(w);
  }

  /** The columns of `feeds`, all in scope once the read joins that table. */
  const FeedColumns: set<string> := {"id", "title", "link", "status", "checked_at", "fetch_old_items"}

  /** The columns `read_all` names without their table, in statement order:
      `id` for a non-empty `ids` (an empty list is written `1 = 2`, naming no
      column), `feed` for `feed` and `is_saved` for `is_saved` in the WHERE
      clause, and `published_at` in every ORDER BY. */
  function BareColumns(opt: ItemReadOption): seq<string> {
    (if opt.ids.Some? && opt.ids.value != [] then ["id"] else [])
    + (if opt.feed.Some? then ["feed"] else [])
    + (if opt.isSaved.Some? then ["is_saved"] else [])
    + (if opt.orderBy.Some? then ["published_at"] else [])
  }

  /** The first of `cols` that is in `shared`. */
  function FirstShared(cols: seq<string>, shared: set<string>): (r: Option<string>)
    ensures r.None? <==> forall c :: c in cols ==> c !in shared
    ensures r.Some? ==> r.value in cols && r.value in shared
  {
    if cols == [] then None
    else if cols[0] in shared then Some(cols[0])
    else FirstShared(cols[1..], shared)
  }

  /** `read_all` as the statement is built: SQLite will not prepare a statement
      that names without its table a column both joined tables have, and
      otherwise the read is the join described by `ReadAll`. */
  function ReadAllAsWritten(feeds: seq<Feed>, rows: seq<ItemRow>, opt: ItemReadOption): Result<seq<Item>, Error> {
    var clash := FirstShared(BareColumns(opt), FeedColumns);
    if clash.Some? then Err(StorageFailure(AmbiguousColumn(clash.value)))
    else Ok(ReadAll(feeds, rows, opt))
  }

  /** As written, a read fails exactly when it filters by a non-empty `ids`,
      because `id` is then ambiguous; every other read, among them the worker's
      `NewestOf` and a read with an empty `ids`, is the intended one. */
  lemma ReadAllAsWrittenOutcome(feeds: seq<Feed>, rows: seq<ItemRow>, opt: ItemReadOption)
    ensures var r := ReadAllAsWritten(feeds, rows, opt);
            && (r.Err? <==> opt.ids.Some? && opt.ids.value != [])
            && (r.Err? ==> r.error == StorageFailure(AmbiguousColumn("id")))
            && (r.Ok? ==> r.value == ReadAll(feeds, rows, opt))
  {
    var cols := BareColumns(opt);
    if opt.ids.Some? && opt.ids.value != [] {
      assert cols[0] == "id" && "id" in FeedColumns;
    } else {
      forall c | c in cols
        ensures c !in FeedColumns
      {
        assert c == "feed" || c == "is_saved" || c == "published_at";
      }
    }
  }

  /** The discrepancy on a concrete shape: a stored row of an existing feed,
      asked for by its own id, is in the intended read but the read as written
      fails. */
  lemma IdsReadRejected(feeds: seq<Feed>, rows: seq<ItemRow>, row: ItemRow)
    requires row in rows && FeedExists(feeds, row.feed)
    ensures var opt := ItemReadOption(Some([row.id]), None, None, None, None, None, None);
            && ItemOf(row, FeedRepository.Read(feeds, row.feed).value) in ReadAll(feeds, rows, opt)
            && ReadAllAsWritten(feeds, rows, opt) == Err(StorageFailure(AmbiguousColumn("id")))
  {
    var opt := ItemReadOption(Some([row.id]), None, None, None, None, None, None);
    ReadAllComplete(feeds, rows, opt, row);
    ReadAllAsWrittenOutcome(feeds, rows, opt);
  }

  /** An empty `ids` list matches no row, and the statement as written, which
      renders it as `1 = 2`, prepares and returns no item. */
  lemma EmptyIdsReadsNothing(feeds: seq<Feed>, rows: seq<ItemRow>, opt: ItemReadOption)
    requires opt.ids == Some([])
    ensures ReadAll(feeds, rows, opt) == []
    ensures ReadAllAsWritten(feeds, rows, opt) == Ok([])
  {
    WhereNoIds(feeds, rows, opt);
    ReadAllAsWrittenOutcome(feeds, rows, opt);
  }

  /** No row has its id in the empty list, so the join yields nothing. */
  lemma {:induction false} WhereNoIds(feeds: seq<Feed>, rows: seq<ItemRow>, opt: ItemReadOption)
    requires opt.ids == Some([])
    ensures Where(feeds, rows, opt) == []
  {
    if rows != [] {
      WhereNoIds(feeds, rows[1..], opt);
    }
  }

  /** The page is a slice of the ordered rows, so it keeps their order. */
  lemma PageSorted(s: seq<Item>, le: (Item, Item) -> bool, limit: Option<nat>, offset: Option<nat>)
    requires SortedBy(s, le)
    ensures SortedBy(Page(s, limit, offset), le)
  {
  }

  lemma ReadAllSorted(feeds: seq<Feed>, rows: seq<ItemRow>, opt: ItemReadOption)
    requires opt.orderBy.Some?
    ensures SortedBy(ReadAll(feeds, rows, opt), OrderLe(opt.orderBy.value))
  {
    OrderedSorted(Where(feeds, rows, opt), opt.orderBy.value);
    PageSorted(Selected(feeds, rows, opt), OrderLe(opt.orderBy.value), opt.limit, opt.offset);
  }

  /** PublishedDateDesc: publication dates never increase. */
  lemma ReadAllPublishedDesc(feeds: seq<Feed>, rows: seq<ItemRow>, opt: ItemReadOption)
    requires opt.orderBy == Some(PublishedDateDesc)
    ensures var r := ReadAll(feeds, rows, opt);
            forall i, j :: 0 <= i < j < |r| ==> r[i].publishedAt >= r[j].publishedAt
  {
    ReadAllSorted(feeds, rows, opt);
  }

  /** UnreadFirst: every unread item precedes every read one, and inside each
      group publication dates never increase. */
  lemma ReadAllUnreadFirst(feeds: seq<Feed>, rows: seq<ItemRow>, opt: ItemReadOption)
    requires opt.orderBy == Some(UnreadFirst)
    ensures var r := ReadAll(feeds, rows, opt);
            forall i, j :: 0 <= i < j < |r| ==>
              !(r[i].status == Read && r[j].status == Unread) &&
              (r[i].status == r[j].status ==> r[i].publishedAt >= r[j].publishedAt)
  {
    ReadAllSorted(feeds, rows, opt);
  }

  predicate IdsAscending(s: seq<Item>) {
    forall i, j :: 0 <= i < j < |s| ==> s[i].id < s[j].id
  }

  /** The join of rows with ascending ids has ascending ids. */
  lemma {:induction false} WhereAscending(feeds: seq<Feed>, rows: seq<ItemRow>, opt: ItemReadOption)
    requires ItemIdsAscending(rows)
    ensures IdsAscending(Where(feeds, rows, opt))
  {
    if rows != [] {
      WhereAscending(feeds, rows[1..], opt);
      WhereSound(feeds, rows[1..], opt);
      var w := Where(feeds, rows, opt);
      var rest := Where(feeds, rows[1..], opt);
      var f := FeedRepository.Read(feeds, rows[0].feed);
      if RowMatches(rows[0], opt) && f.Some? {
        assert w == [ItemOf(rows[0], f.value)] + rest;
        forall j | 0 <= j < |rest| ensures rows[0].id < rest[j].id {
          assert RowOf(rest[j]) in rows[1..];
        }
      } else {
        assert w == rest;
      }
    }
  }

  /** ReceivedDateDesc: ids strictly decrease (ids are the table's primary key). */
  lemma ReadAllReceivedDesc(feeds: seq<Feed>, rows: seq<ItemRow>, opt: ItemReadOption)
    requires ItemIdsAscending(rows)
    requires opt.orderBy == Some(ReceivedDateDesc)
    ensures var r := ReadAll(feeds, rows, opt);
            forall i, j :: 0 <= i < j < |r| ==> r[i].id > r[j].id
  {
    var s := Selected(feeds, rows, opt);
    SelectedIdsDesc(feeds, rows, opt);
    var r := ReadAll(feeds, rows, opt);
    var k := Skip(opt.limit, opt.offset);
    if r != [] {
      assert forall i :: 0 <= i < |r| ==> r[i] == s[k + i];
    }
  }

  /** Before paging, the ReceivedDateDesc order has strictly decreasing ids. */
  lemma SelectedIdsDesc(feeds: seq<Feed>, rows: seq<ItemRow>, opt: ItemReadOption)
    requires ItemIdsAscending(rows)
    requires opt.orderBy == Some(ReceivedDateDesc)
    ensures var s := Selected(feeds, rows, opt);
            forall i, j :: 0 <= i < j < |s| ==> s[i].id > s[j].id
  {
    var w := Where(feeds, rows, opt);
    var s := Selected(feeds, rows, opt);
    SelectedDistinct(feeds, rows, opt);
    OrderedSorted(w, ReceivedDateDesc);
    forall i, j | 0 <= i < j < |s| ensures s[i].id > s[j].id {
      assert OrderLe(ReceivedDateDesc)(s[i], s[j]);
      if s[i].id == s[j].id {
        assert s[i] in multiset(w) && s[j] in multiset(w);
        SameIdSameItem(feeds, rows, opt, s[i], s[j]);
      }
    }
  }

  /** The ordered join never holds the same item twice. */
  lemma SelectedDistinct(feeds: seq<Feed>, rows: seq<ItemRow>, opt: ItemReadOption)
    requires ItemIdsAscending(rows)
    ensures Distinct(Selected(feeds, rows, opt))
  {
    var w := Where(feeds, rows, opt);
    WhereAscending(feeds, rows, opt);
    forall i, j | 0 <= i < j < |w| ensures w[i] != w[j] {
      assert w[i].id < w[j].id;
    }
    DistinctPermutation(w, Selected(feeds, rows, opt));
  }

  /** Two joined items with the same id are the same item. */
  lemma SameIdSameItem(feeds: seq<Feed>, rows: seq<ItemRow>, opt: ItemReadOption, a: Item, b: Item)
    requires ItemIdsAscending(rows)
    requires a in Where(feeds, rows, opt) && b in Where(feeds, rows, opt) && a.id == b.id
    ensures a == b
  {
    WhereSound(feeds, rows, opt);
    var i :| 0 <= i < |rows| && rows[i] == RowOf(a);
    var j :| 0 <= j < |rows| && rows[j] == RowOf(b);
    assert i == j;
  }

  /** `get_most_recent_items`' query (one feed, PublishedDateDesc, LIMIT 1) finds a
      row exactly when the feed has items, and that row's date is the newest of
      the feed's items. */
  lemma NewestFirstRow(feeds: seq<Feed>, rows: seq<ItemRow>, id: int)
    requires FeedsReferenced(rows, feeds)
    ensures var r := ReadAll(feeds, rows, NewestOf(id));
            && |r| <= 1
            && (r == [] <==> forall row :: row in rows ==> row.feed != id)
            && (r != [] ==> RowOf(r[0]) in rows && r[0].feed.id == id &&
                            forall row :: row in rows && row.feed == id ==> row.publishedAt <= r[0].publishedAt)
  {
    var opt := NewestOf(id);
    var w := Where(feeds, rows, opt);
    var s := Selected(feeds, rows, opt);
    forall row | row in rows && row.feed == id
      ensures s != [] && row.publishedAt <= s[0].publishedAt
    {
      NewestDominates(feeds, rows, id, row);
    }
    var r := ReadAll(feeds, rows, opt);
    WhereSound(feeds, rows, opt);
    if s != [] {
      assert s[0] in multiset(w);
      assert r == [s[0]];
      assert RowOf(r[0]) in rows && RowOf(r[0]).feed == id;
    } else {
      assert r == [];
    }
  }

  /** Every row of the feed is in the ordered read, and none is newer than its
      first item. */
  lemma NewestDominates(feeds: seq<Feed>, rows: seq<ItemRow>, id: int, row: ItemRow)
    requires FeedsReferenced(rows, feeds)
    requires row in rows && row.feed == id
    ensures var s := Selected(feeds, rows, NewestOf(id));
            s != [] && row.publishedAt <= s[0].publishedAt
  {
    var opt := NewestOf(id);
    var s := Selected(feeds, rows, opt);
    OrderedSorted(Where(feeds, rows, opt), PublishedDateDesc);
    var k :| 0 <= k < |rows| && rows[k] == row;
    assert FeedExists(feeds, rows[k].feed);
    var x := ItemOf(row, FeedRepository.Read(feeds, row.feed).value);
    WhereComplete(feeds, rows, opt, row);
    assert x in multiset(s);
    var j :| 0 <= j < |s| && s[j] == x;
    assert j == 0 || OrderLe(PublishedDateDesc)(s[0], s[j]);
  }

  /** The read `get_most_recent_items` issues for one feed. */
  function NewestOf(id: int): ItemReadOption {
    ItemReadOption(None, Some(id), None, None, Some(PublishedDateDesc), Some(1), None)
  }

  // ---------------------------------------------------------------- count_all

  /** The number of rows the WHERE clause of `opt` selects. */
  function CountWhere(rows: seq<ItemRow>, opt: ItemReadOption): (n: nat)
    ensures n <= |rows|
    ensures n == 0 <==> forall row :: row in rows ==> !RowMatches(row, opt)
  {
    if rows == [] then 0
    else
      assert forall row :: row in rows <==> row == rows[0] || row in rows[1..];
      (if RowMatches(rows[0], opt) then 1 else 0) + CountWhere(rows[1..], opt)
  }

  /** `count_all`: the rows matching the feed, status and saved filters; `ids`,
      the order and the paging are ignored, and no join is made. */
  function CountAll(rows: seq<ItemRow>, opt: ItemReadOption): (n: nat)
    ensures n <= |rows|
    ensures n == 0 <==> forall row :: row in rows ==> !RowMatches(row, opt.(ids := None))
  {
    CountWhere(rows, opt.(ids := None))
  }

  /** With every item's feed present, `count_all` is the length of the unpaged
      `read_all` with the same filters and no `ids`. */
  lemma CountAllIsReadLength(feeds: seq<Feed>, rows: seq<ItemRow>, opt: ItemReadOption)
    requires FeedsReferenced(rows, feeds)
    ensures CountAll(rows, opt) == |ReadAll(feeds, rows, opt.(ids := None, limit := None, offset := None))|
  {
    var o := opt.(ids := None, limit := None, offset := None);
    WhereCount(feeds, rows, o, opt.(ids := None));
    ReadAllUnpaged(feeds, rows, o);
  }

  lemma ReadAllUnpaged(feeds: seq<Feed>, rows: seq<ItemRow>, opt: ItemReadOption)
    requires opt.limit.None? && opt.offset.None?
    ensures ReadAll(feeds, rows, opt) == Selected(feeds, rows, opt)
  {
    var s := Selected(feeds, rows, opt);
    assert Page(s, None, None) == s;
  }

  /** Counting and joining agree when every row's feed exists; the options
      need only agree on their filters. */
  lemma {:induction false} WhereCount(feeds: seq<Feed>, rows: seq<ItemRow>, opt: ItemReadOption, filters: ItemReadOption)
    requires FeedsReferenced(rows, feeds)
    requires opt.ids == filters.ids && opt.feed == filters.feed
    requires opt.status == filters.status && opt.isSaved == filters.isSaved
    ensures |Where(feeds, rows, opt)| == CountWhere(rows, filters)
  {
    if rows != [] {
      assert FeedExists(feeds, rows[0].feed);
      WhereCount(feeds, rows[1..], opt, filters);
    }
  }

  // ---------------------------------------------------------------- update, update_all

  /** The columns an UPDATE of items sets. */
  datatype ItemColumn = StatusColumn | IsSavedColumn

  /** A row after `SET status = ?, is_saved = ?` for the fields that are given. */
  function SetColumns(row: ItemRow, status: Option<ItemStatus>, isSaved: Option<bool>): ItemRow {
    row.(status := if status.Some? then status.value else row.status,
         isSaved := if isSaved.Some? then isSaved.value else row.isSaved)
  }

  /** The WHERE clause `id = arg.id` as a read option. */
  function IdFilter(id: int): ItemReadOption {
    ItemReadOption(Some([id]), None, None, None, None, None, None)
  }

  /** The table after setting the given fields on the rows `opt` selects (all
      rows when there is no `opt`). */
  function UpdatedRows(rows: seq<ItemRow>, status: Option<ItemStatus>, isSaved: Option<bool>,
                       opt: Option<ItemReadOption>): (r: seq<ItemRow>)
    ensures |r| == |rows|
    ensures forall i :: 0 <= i < |rows| ==>
              r[i] == if opt.None? || RowMatches(rows[i], opt.value) then SetColumns(rows[i], status, isSaved)
                      else rows[i]
  {
    seq(|rows|, i requires 0 <= i < |rows| =>
      if opt.None? || RowMatches(rows[i], opt.value) then SetColumns(rows[i], status, isSaved) else rows[i])
  }

  /** Setting status or saved flag never touches ids, fingerprints or feeds. */
  lemma UpdatedRowsValid(feeds: seq<Feed>, rows: seq<ItemRow>, nextId: int, status: Option<ItemStatus>,
                         isSaved: Option<bool>, opt: Option<ItemReadOption>)
    requires ItemsValid(rows, nextId, feeds)
    ensures ItemsValid(UpdatedRows(rows, status, isSaved, opt), nextId, feeds)
  {
  }

  /** `update`: the row with `arg.id` gets the given fields; every other row and
      field is unchanged. With no field given the UPDATE has an empty SET list
      and SQLite rejects it. */
  method Update(conn: Connection, arg: ItemToUpdate) returns (r: Result<nat, Error>)
    requires conn.Valid()
    modifies conn`items
    ensures conn.Valid()
    ensures arg.status.None? && arg.isSaved.None? ==>
              r == Err(StorageFailure(EmptySetList)) && conn.items == old(conn.items)
    ensures arg.status.Some? || arg.isSaved.Some? ==>
              && conn.items == UpdatedRows(old(conn.items), arg.status, arg.isSaved, Some(IdFilter(arg.id)))
              && r == Ok(CountWhere(old(conn.items), IdFilter(arg.id)))
  {
    var vals: seq<ItemColumn> := [];
    if arg.status.Some? {
      vals := vals + [StatusColumn];
    }
    if arg.isSaved.Some? {
      vals := vals + [IsSavedColumn];
    }
    if vals == [] {
      return Err(StorageFailure(EmptySetList));
    }
    UpdatedRowsValid(conn.feeds, conn.items, conn.nextItemId, arg.status, arg.isSaved, Some(IdFilter(arg.id)));
    var n := CountWhere(conn.items, IdFilter(arg.id));
    conn.items := UpdatedRows(conn.items, arg.status, arg.isSaved, Some(IdFilter(arg.id)));
    r := Ok(n);
  }

  /** `update_all`: the given fields are set on every row the filters of
      `arg.opt` select, or on every row when there is no `opt`. */
  method UpdateAll(conn: Connection, arg: ItemToUpdateAll) returns (r: Result<nat, Error>)
    requires conn.Valid()
    modifies conn`items
    ensures conn.Valid()
    ensures arg.status.None? && arg.isSaved.None? ==>
              r == Err(StorageFailure(EmptySetList)) && conn.items == old(conn.items)
    ensures arg.status.Some? || arg.isSaved.Some? ==>
              && conn.items == UpdatedRows(old(conn.items), arg.status, arg.isSaved, arg.opt)
              && r == Ok(if arg.opt.None? then |old(conn.items)| else CountWhere(old(conn.items), arg.opt.value))
  {
    var vals: seq<ItemColumn> := [];
    if arg.status.Some? {
      vals := vals + [StatusColumn];
    }
    if arg.isSaved.Some? {
      vals := vals + [IsSavedColumn];
    }
    if vals == [] {
      return Err(StorageFailure(EmptySetList));
    }
    UpdatedRowsValid(conn.feeds, conn.items, conn.nextItemId, arg.status, arg.isSaved, arg.opt);
    var n := if arg.opt.None? then |conn.items| else CountWhere(conn.items, arg.opt.value);
    conn.items := UpdatedRows(conn.items, arg.status, arg.isSaved, arg.opt);
    r := Ok(n);
  }

  /** `update` touches at most one row, since ids are unique, and only the given
      fields of it. */
  lemma UpdateOnlyThatRow(rows: seq<ItemRow>, arg: ItemToUpdate)
    requires ItemIdsAscending(rows)
    ensures CountWhere(rows, IdFilter(arg.id)) <= 1
    ensures var r := UpdatedRows(rows, arg.status, arg.isSaved, Some(IdFilter(arg.id)));
            forall i :: 0 <= i < |rows| ==>
              (rows[i].id != arg.id ==> r[i] == rows[i]) &&
              r[i].(status := rows[i].status, isSaved := rows[i].isSaved) == rows[i]
  {
    CountAtMostOne(rows, arg.id);
    var r := UpdatedRows(rows, arg.status, arg.isSaved, Some(IdFilter(arg.id)));
    forall i | 0 <= i < |rows|
      ensures (rows[i].id != arg.id ==> r[i] == rows[i]) &&
              r[i].(status := rows[i].status, isSaved := rows[i].isSaved) == rows[i]
    {
      if rows[i].id != arg.id {
        assert !RowMatches(rows[i], IdFilter(arg.id));
      }
    }
  }

  lemma {:induction false} CountAtMostOne(rows: seq<ItemRow>, id: int)
    requires ItemIdsAscending(rows)
    ensures CountWhere(rows, IdFilter(id)) <= 1
  {
    if rows != [] {
      CountAtMostOne(rows[1..], id);
      if rows[0].id == id {
        forall row | row in rows[1..] ensures !RowMatches(row, IdFilter(id)) {
          var k :| 0 <= k < |rows[1..]| && rows[1..][k] == row;
          assert rows[k + 1] == row;
        }
      }
    }
  }
}
