/**
  The internal-link filter: which anchors of a page the crawler follows.
  Scope is a plain prefix test against the seed URL, not a host comparison.
 */
module Links {
  import opened Prefix
  import opened Fetching

  /**
    The link one `href` contributes, if any. A missing or empty href gives
    nothing; a root-relative href (leading '/') is glued onto the seed URL;
    any other href is kept unchanged when it already starts with the seed URL.
   */
  function Resolve(baseUrl: string, href: Href): (r: Option<string>)
    ensures r.Some? ==> StartsWith(r.value, baseUrl)
    ensures r.Some? <==> href.Some? && href.value != "" && (href.value[0] == '/' || StartsWith(href.value, baseUrl))
    ensures r.Some? && href.value[0] == '/' ==> r.value == baseUrl + href.value
    ensures r.Some? && href.value[0] != '/' ==> r.value == href.value
  {
    match href
    case None => None
    case Some(h) =>
      if h == "" then None
      else if StartsWith(h, "/") then ConcatStartsWith(baseUrl, h); Some(baseUrl + h)
      else if StartsWith(h, baseUrl) then Some(h)
      else None
  }

  /** The set of in-scope links of a page, built anchor by anchor. */
  function InternalLinks(baseUrl: string, hrefs: seq<Href>): (r: set<string>)
    ensures forall u :: u in r ==> StartsWith(u, baseUrl)
    decreases |hrefs|
  {
    if hrefs == [] then {}
    else
      var rest := InternalLinks(baseUrl, hrefs[..|hrefs| - 1]);
      match Resolve(baseUrl, hrefs[|hrefs| - 1])
      case None => rest
      case Some(u) => rest + {u}
  }

  /** A URL is a link exactly when some anchor resolves to it. */
  ghost predicate LinkedFrom(baseUrl: string, hrefs: seq<Href>, u: string) {
    exists i :: 0 <= i < |hrefs| && Resolve(baseUrl, hrefs[i]) == Some(u)
  }

  /**
    The filter keeps exactly the URLs some anchor resolves to: repeats
    collapse, and anchors that resolve to nothing contribute nothing.
   */
  lemma {:induction false} InternalLinksExactly(baseUrl: string, hrefs: seq<Href>)
    ensures forall u :: u in InternalLinks(baseUrl, hrefs) <==> LinkedFrom(baseUrl, hrefs, u)
    decreases |hrefs|
  {
    if hrefs != [] {
      var init := hrefs[..|hrefs| - 1];
      InternalLinksExactly(baseUrl, init);
      forall u
        ensures u in InternalLinks(baseUrl, hrefs) <==> LinkedFrom(baseUrl, hrefs, u)
      {
        if LinkedFrom(baseUrl, init, u) {
          var i :| 0 <= i < |init| && Resolve(baseUrl, init[i]) == Some(u);
          assert hrefs[i] == init[i];
        }
        if LinkedFrom(baseUrl, hrefs, u) {
          var i :| 0 <= i < |hrefs| && Resolve(baseUrl, hrefs[i]) == Some(u);
          if i < |init| {
            assert init[i] == hrefs[i];
          }
        }
      }
    }
  }

  /** The links found on a fetched page; a page whose fetch failed yields none. */
  function PageLinks(baseUrl: string, page: Fetch<seq<Href>>): (r: set<string>)
    ensures page.Failed? ==> r == {}
    ensures forall u :: u in r ==> StartsWith(u, baseUrl)
  {
    match page
    case Failed => {}
    case Fetched(hrefs) => InternalLinks(baseUrl, hrefs)
  }

  /**
    The filter's result depends only on which hrefs occur, not on their
    order or multiplicity.
   */
  lemma LinksIgnoreOrder(baseUrl: string, a: seq<Href>, b: seq<Href>)
    requires forall h :: h in a <==> h in b
    ensures InternalLinks(baseUrl, a) == InternalLinks(baseUrl, b)
  {
    InternalLinksExactly(baseUrl, a);
    InternalLinksExactly(baseUrl, b);
    forall u | LinkedFrom(baseUrl, a, u)
      ensures LinkedFrom(baseUrl, b, u)
    {
      var i :| 0 <= i < |a| && Resolve(baseUrl, a[i]) == Some(u);
      assert a[i] in b;
      var j :| 0 <= j < |b| && b[j] == a[i];
    }
    forall u | LinkedFrom(baseUrl, b, u)
      ensures LinkedFrom(baseUrl, a, u)
    {
      var j :| 0 <= j < |b| && Resolve(baseUrl, b[j]) == Some(u);
      assert b[j] in a;
      var i :| 0 <= i < |a| && a[i] == b[j];
    }
  }

  /**
    Root-relative hrefs are appended to the seed URL exactly as given: with a
    trailing slash on the seed the link gets a doubled slash, and with a path
    on the seed the href lands under that path rather than under the host.
   */
  lemma RootRelativeKeepsSeedText()
    ensures Resolve("https://a.org/", Some("/x")) == Some("https://a.org//x")
    ensures Resolve("https://a.org/blog", Some("/x")) == Some("https://a.org/blog/x")
    ensures Resolve("https://a.org", Some("https://b.org/x")) == None
    ensures Resolve("https://a.org", Some("")) == None
  {
    assert "/x"[..1] == "/";
    assert "https://a.org/" + "/x" == "https://a.org//x";
    assert "https://a.org/blog" + "/x" == "https://a.org/blog/x";
    assert "https://b.org/x"[8] != "https://a.org"[8];
  }
}
