/** The older copy of the synchronisation pass (collie-core/src/producer/worker.rs).
    Its four functions take the store as an argument instead of living on a
    worker, and do line for line what `Worker.Worker` does; each is therefore
    modelled as that worker's operation on the same store, with the same
    contract. */
module ProducerWorker {
  import opened Common
  import opened ItemModel
  import opened Database
  import opened Syndication
  import opened Selection
  import opened Time
  import opened Worker
  import W = Worker

  /** The pass needs no fetch outside `create_new_items`. */
  function NoFetch(): Fetcher {
    (link: string) => Ok([])
  }

  /** `create_new_items`: one pass over the store. */
  method CreateNewItems(conn: Connection, clock: Clock, fetch: Fetcher, faults: StoreFaults)
    returns (r: Result<seq<ItemToCreate>, Error>)
    requires conn.Valid()
    modifies conn`feeds, conn`items, conn`nextItemId, clock`ticks
    ensures conn.Valid()
    ensures var s := Pass(old(conn.feeds), old(conn.items), old(conn.nextItemId), faults, fetch, clock.at,
                          old(clock.ticks), conn.sha1);
            && r == s.end.result && conn.feeds == s.feeds && conn.items == s.end.rows
            && conn.nextItemId == s.end.nextId && clock.ticks == s.end.ticks
  {
    var w := new W.Worker(conn, clock, fetch, faults);
    r := w.Execute();
  }

  /** `get_links_to_check`: stamp the subscribed feeds, return their triples. */
  method GetLinksToCheck(conn: Connection, clock: Clock, faults: StoreFaults) returns (pairs: seq<FeedTarget>)
    requires conn.Valid()
    modifies conn`feeds, clock`ticks
    ensures conn.Valid()
    ensures faults.feedReadFails ==> pairs == [] && conn.feeds == old(conn.feeds) && clock.ticks == old(clock.ticks)
    ensures !faults.feedReadFails ==>
              && pairs == LinksToCheck(old(conn.feeds))
              && conn.feeds == Stamped(old(conn.feeds), clock.at(old(clock.ticks)))
              && clock.ticks == old(clock.ticks) + 1
  {
    var w := new W.Worker(conn, clock, NoFetch(), faults);
    pairs := w.GetLinksToCheck();
  }

  /** `insert_new_items`: normalise with one clock reading, create each. */
  method InsertNewItems(conn: Connection, clock: Clock, feed: int, items: seq<RawItem>)
    returns (inserted: seq<ItemToCreate>)
    requires conn.Valid()
    modifies conn`items, conn`nextItemId, clock`ticks
    ensures conn.Valid()
    ensures clock.ticks == old(clock.ticks) + 1
    ensures var run := InsertAll(conn.feeds, old(conn.items), old(conn.nextItemId),
                                 NormalizeAll(items, feed, clock.at(old(clock.ticks))), conn.sha1);
            inserted == run.inserted && conn.items == run.rows && conn.nextItemId == run.nextId
  {
    var w := new W.Worker(conn, clock, NoFetch(), StoreFaults(false, false));
    inserted := w.InsertNewItems(feed, items);
  }

  /** `get_most_recent_items`: the newest stored date per feed id. */
  method GetMostRecentItems(conn: Connection, clock: Clock, faults: StoreFaults, ids: seq<int>)
    returns (r: Result<map<int, Timestamp>, Error>)
    ensures faults.itemReadFails && ids != [] ==> r == Err(StorageFailure(ReadFailure))
    ensures !faults.itemReadFails || ids == [] ==> r == Ok(MostRecent(conn.feeds, conn.items, ids))
  {
    var w := new W.Worker(conn, clock, NoFetch(), faults);
    r := w.GetMostRecentItems(ids);
  }
}
