/** Items as values: the read status with its string form, the fingerprint used
    for de-duplication, and the record shapes of the item repository
    (collie-core/src/model/item.rs). */
module ItemModel {
  import opened Common

  datatype ItemStatus = Unread | Read

  /** `impl Display for ItemStatus`. */
  function ItemStatusToString(s: ItemStatus): string {
    match s
    case Unread => "unread"
    case Read => "read"
  }

  /** `impl FromStr for ItemStatus`: the inverse of Display on its image; every
      other string is rejected with `InvalidEnumKey(x, "ItemStatus")`. */
  function ItemStatusFromStr(x: string): (r: Result<ItemStatus, Error>)
    ensures r.Ok? ==> ItemStatusToString(r.value) == x
    ensures r.Err? ==> r.error == InvalidEnumKey(x, "ItemStatus")
    ensures r.Err? ==> forall s :: ItemStatusToString(s) != x
  {
    match x
    case "unread" => Ok(Unread)
    case "read" => Ok(Read)
    case _ => Err(InvalidEnumKey(x, "ItemStatus"))
  }

  lemma ItemStatusRoundTrip(s: ItemStatus)
    ensures ItemStatusFromStr(ItemStatusToString(s)) == Ok(s)
  {
  }

  lemma ItemStatusToStringInjective(a: ItemStatus, b: ItemStatus)
    ensures ItemStatusToString(a) == ItemStatusToString(b) <==> a == b
  {
  }

  /** What the sync pass (or a client) asks the store to insert. */
  datatype ItemToCreate = ItemToCreate(
    author: Option<string>,
    title: string,
    description: string,
    link: string,
    status: ItemStatus,
    publishedAt: Timestamp,
    feed: int)

  /** The de-duplication key: SHA-1 of `title ++ ":" ++ link`, as a hex digest.
      The hash is a parameter of the model and stays uninterpreted. */
  function Fingerprint(arg: ItemToCreate, sha1: string -> string): string {
    sha1(arg.title + ":" + arg.link)
  }

  /** The fingerprint sees only the title and the link: two items that agree on
      those have the same fingerprint whatever their author, description, status,
      date or feed. */
  lemma FingerprintOnlyTitleAndLink(a: ItemToCreate, b: ItemToCreate, sha1: string -> string)
    requires a.title == b.title && a.link == b.link
    ensures Fingerprint(a, sha1) == Fingerprint(b, sha1)
  {
  }

  /** The separator is not escaped, so two different (title, link) pairs can hash
      the same string: ("a:b", "c") and ("a", "b:c") both give "a:b:c". */
  lemma FingerprintSeparatorAmbiguity(sha1: string -> string)
    ensures var a := ItemToCreate(None, "a:b", "", "c", Unread, 0, 0);
            var b := ItemToCreate(None, "a", "", "b:c", Unread, 0, 0);
            (a.title, a.link) != (b.title, b.link) && Fingerprint(a, sha1) == Fingerprint(b, sha1)
  {
    assert "a:b" + ":" + "c" == "a" + ":" + "b:c";
  }

  /** The partial update of one item. */
  datatype ItemToUpdate = ItemToUpdate(id: int, status: Option<ItemStatus>, isSaved: Option<bool>)

  /** The bulk update: the fields to set and the rows to set them on. */
  datatype ItemToUpdateAll = ItemToUpdateAll(
    status: Option<ItemStatus>,
    isSaved: Option<bool>,
    opt: Option<ItemReadOption>)

  datatype ItemOrder = ReceivedDateDesc | PublishedDateDesc | UnreadFirst

  /** Filters (all optional, combined with AND), ordering and paging of a read.
      `offset` counts pages of `limit` rows when a limit is given. */
  datatype ItemReadOption = ItemReadOption(
    ids: Option<seq<int>>,
    feed: Option<int>,
    status: Option<ItemStatus>,
    isSaved: Option<bool>,
    orderBy: Option<ItemOrder>,
    limit: Option<nat>,
    offset: Option<nat>)

  /** The feed an item belongs to, as the read joins it in. */
  datatype ItemFeed = ItemFeed(id: int, title: string, link: string)

  /** An item as the store returns it. */
  datatype Item = Item(
    id: int,
    fingerprint: string,
    author: Option<string>,
    title: string,
    description: string,
    link: string,
    status: ItemStatus,
    isSaved: bool,
    publishedAt: Timestamp,
    feed: ItemFeed)
}
