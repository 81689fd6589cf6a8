/**
  The boundary to the outside world. HTTP requests, HTML parsing and the YAKE
  keyword scorer are not modelled; what a site serves is a pair of fixed
  per-URL results, one for each of the two requests the crawler issues per page.
 */
module Fetching {

  /** A value that may be absent: an `<a>` tag's `href` attribute may be missing. */
  datatype Option<T> = None | Some(value: T)

  /** The outcome of a request-and-parse step: its data, or an exception. */
  datatype Fetch<T> = Fetched(value: T) | Failed

  /** The raw `href` attribute of one anchor, in document order. */
  type Href = Option<string>

  /**
    What the site answers for each URL:
    `hrefsOf(url)` is the anchors' hrefs of the page (or an exception while fetching it);
    `keywordsOf(url)` is the ranked phrase list the extractor produces for it (or an exception).
   */
  datatype Site = Site(hrefsOf: string -> Fetch<seq<Href>>, keywordsOf: string -> Fetch<seq<string>>)
}
