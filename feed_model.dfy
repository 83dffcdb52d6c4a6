/** Feeds as values: the subscription status with its string form, and the
    record shapes the feed repository reads and writes (collie-core/src/model/feed.rs). */
module FeedModel {
  import opened Common

  datatype FeedStatus = Subscribed | Unsubscribed

  /** `impl Display for FeedStatus`. */
  function FeedStatusToString(s: FeedStatus): string {
    match s
    case Subscribed => "subscribed"
    case Unsubscribed => "unsubscribed"
  }

  /** `impl FromStr for FeedStatus`: the inverse of Display on its image; every
      other string is rejected with `InvalidEnumKey(x, "FeedStatus")`. */
  function FeedStatusFromStr(x: string): (r: Result<FeedStatus, Error>)
    ensures r.Ok? ==> FeedStatusToString(r.value) == x
    ensures r.Err? ==> r.error == InvalidEnumKey(x, "FeedStatus")
    ensures r.Err? ==> forall s :: FeedStatusToString(s) != x
  {
    match x
    case "subscribed" => Ok(Subscribed)
    case "unsubscribed" => Ok(Unsubscribed)
    case _ => Err(InvalidEnumKey(x, "FeedStatus"))
  }

  /** Parsing what Display printed gives the status back. */
  lemma FeedStatusRoundTrip(s: FeedStatus)
    ensures FeedStatusFromStr(FeedStatusToString(s)) == Ok(s)
  {
  }

  /** Display maps the two statuses to two different strings. */
  lemma FeedStatusToStringInjective(a: FeedStatus, b: FeedStatus)
    ensures FeedStatusToString(a) == FeedStatusToString(b) <==> a == b
  {
  }

  /** A row of the `feeds` table. */
  datatype Feed = Feed(
    id: int,
    title: string,
    link: string,
    status: FeedStatus,
    checkedAt: Timestamp,
    fetchOldItems: bool)

  datatype FeedToCreate = FeedToCreate(title: string, link: string, fetchOldItems: bool)

  /** A partial update: `None` leaves the column as it is. */
  datatype FeedToUpdate = FeedToUpdate(
    id: int,
    title: Option<string>,
    link: Option<string>,
    status: Option<FeedStatus>,
    checkedAt: Option<Timestamp>,
    fetchOldItems: Option<bool>)
}
