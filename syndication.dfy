/** What fetching a feed yields (collie-core/src/model/syndication.rs): one raw
    entry per Atom entry or RSS item, before the sync pass normalises it. Fetching
    and parsing themselves are outside the model; the pass receives them as a
    function from a link to a list of entries or an error. */
module Syndication {
  import opened Common

  datatype RawItem = RawItem(
    title: string,
    author: Option<string>,
    link: Option<string>,
    content: Option<string>,
    publishedAt: Option<Timestamp>)
}
