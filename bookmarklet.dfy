/** The "save page" bookmarklet (bookmarklet/save-page.js): extraction of the
    current page's content and metadata in the browser, and the request it sends
    to the save-page endpoint. */
module Bookmarklet {
  import opened Base
  import opened Strs
  import opened Seqs
  import opened Dom
  import SavePage

  /** `article p, main p, .article-body p, .post-content p, .entry-content p, [role="article"] p`. */
  const ArticleParagraphs: seq<Selector> := [
    Under(TagSel("article"), TagSel("p")),
    Under(TagSel("main"), TagSel("p")),
    Under(ClassSel("article-body"), TagSel("p")),
    Under(ClassSel("post-content"), TagSel("p")),
    Under(ClassSel("entry-content"), TagSel("p")),
    Under(AttrEqSel("", "role", "article"), TagSel("p"))
  ]

  /** `text && text.length > n`. */
  function LongerThan(n: nat): string -> bool
  {
    text => text != "" && |text| > n
  }

  /** The trimmed texts of `nodes` longer than `n`, in order. */
  function LongTexts(nodes: seq<Node>, n: nat): (r: seq<string>)
    ensures forall k :: 0 <= k < |r| ==> |r[k]| > n
  {
    var r := Filter(Map(nodes, TrimmedInnerText), LongerThan(n));
    assert forall k :: 0 <= k < |r| ==> LongerThan(n)(r[k]);
    r
  }

  /** The primary scan: paragraphs under the article containers, longer than 20. */
  function PrimaryFragments(d: Document): seq<string>
  {
    LongTexts(DocQueryAll(d, ArticleParagraphs), 20)
  }

  /** The fragments `extractContent` collects: the primary ones, followed, when there
      are fewer than 3 of them, by every paragraph of the page longer than 50. */
  function Fragments(d: Document): seq<string>
  {
    var primary := PrimaryFragments(d);
    if |primary| < 3 then primary + LongTexts(DocQueryAll(d, [TagSel("p")]), 50) else primary
  }

  /** The fallback appends: the primary fragments stay in front, and only then do
      page-wide paragraphs follow, each longer than 50 characters. */
  lemma FallbackAppends(d: Document)
    ensures |PrimaryFragments(d)| >= 3 ==> Fragments(d) == PrimaryFragments(d)
    ensures |PrimaryFragments(d)| <= |Fragments(d)| && Fragments(d)[..|PrimaryFragments(d)|] == PrimaryFragments(d)
    ensures forall k :: 0 <= k < |Fragments(d)| ==> |Fragments(d)[k]| > 20
    ensures forall k :: |PrimaryFragments(d)| <= k < |Fragments(d)| ==> |Fragments(d)[k]| > 50
  {
    var primary := PrimaryFragments(d);
    if |primary| < 3 {
      var extra := LongTexts(DocQueryAll(d, [TagSel("p")]), 50);
      assert Fragments(d) == primary + extra;
      assert (primary + extra)[..|primary|] == primary;
      forall k | |primary| <= k < |Fragments(d)|
        ensures |Fragments(d)[k]| > 50
      {
        assert Fragments(d)[k] == extra[k - |primary|];
      }
    }
  }

  /** A paragraph inside an article that is longer than 50 characters, on a page
      with fewer than 3 primary fragments, is collected twice. */
  lemma RepeatedParagraph(d: Document, t: string)
    requires |PrimaryFragments(d)| < 3
    requires t in PrimaryFragments(d) && t in LongTexts(DocQueryAll(d, [TagSel("p")]), 50)
    ensures multiset(Fragments(d))[t] >= 2
  {
    var primary := PrimaryFragments(d);
    var extra := LongTexts(DocQueryAll(d, [TagSel("p")]), 50);
    assert multiset(primary + extra) == multiset(primary) + multiset(extra);
  }

  /** One `forEach` pass: pushes onto `paragraphs` the trimmed text of each node
      that is longer than `n`. */
  method PushLongTexts(paragraphs: seq<string>, nodes: seq<Node>, n: nat) returns (out: seq<string>)
    ensures out == paragraphs + LongTexts(nodes, n)
  {
    var texts := CollectTexts(nodes, LongerThan(n));
    out := paragraphs + texts;
  }

  /** `extractContent`. */
  method ExtractContent(d: Document) returns (content: string)
    ensures content == Join(Fragments(d), "\n\n")
    ensures Fragments(d) == [] ==> content == ""
  {
    var paragraphs: seq<string> := [];
    paragraphs := PushLongTexts(paragraphs, DocQueryAll(d, ArticleParagraphs), 20);
    assert [] + PrimaryFragments(d) == PrimaryFragments(d);
    if |paragraphs| < 3 {
      paragraphs := PushLongTexts(paragraphs, DocQueryAll(d, [TagSel("p")]), 50);
    }
    content := Join(paragraphs, "\n\n");
  }

  /** `meta[name="x"], meta[property="x"], meta[property="og:x"]`. */
  function MetaGroup(name: string): seq<Selector>
  {
    [AttrEqSel("meta", "name", name), AttrEqSel("meta", "property", name), AttrEqSel("meta", "property", "og:" + name)]
  }

  /** `getMeta(name)`: the non-empty content of the first meta element, in document
      order, named `name` or with property `name` or `og:name`; else null. */
  function GetMeta(d: Document, name: string): (r: Option<string>)
    ensures r.Some? ==> r.value != ""
    ensures DocQueryFirst(d, MetaGroup(name)).None? ==> r.None?
    ensures DocQueryFirst(d, MetaGroup(name)).Some? ==> r == OrNull(GetAttribute(DocQueryFirst(d, MetaGroup(name)).value, "content"))
  {
    match DocQueryFirst(d, MetaGroup(name))
    case None => None
    case Some(el) => OrNull(GetAttribute(el, "content"))
  }

  /** `getSiteName(url)`: the URL's host name without its first "www.", or, when the
      URL does not parse (`urlHost` None), the page's host name likewise. */
  function GetSiteName(urlHost: Option<string>, locationHost: string): (r: string)
    ensures urlHost.Some? ==> r == DropWww(urlHost.value)
    ensures urlHost.None? ==> r == DropWww(locationHost)
  {
    DropWww(if urlHost.Some? then urlHost.value else locationHost)
  }

  /** The trimmed text of the first h1 when non-empty, else the document title. */
  function PageTitle(d: Document): (r: string)
    ensures Truthy(QueryTrimmedText(d, [TagSel("h1")])) ==> r == QueryTrimmedText(d, [TagSel("h1")]).value
    ensures !Truthy(QueryTrimmedText(d, [TagSel("h1")])) ==> r == d.title
  {
    OrElse(QueryTrimmedText(d, [TagSel("h1")]), d.title)
  }

  /** `getMeta('author') || document.querySelector('[rel="author"], .author, .byline')?.innerText?.trim() || null`. */
  function PageAuthor(d: Document): (r: Option<string>)
    ensures r.Some? ==> r.value != ""
    ensures GetMeta(d, "author").Some? ==> r == GetMeta(d, "author")
    ensures GetMeta(d, "author").None? ==> r == OrNull(QueryTrimmedText(d, [AttrEqSel("", "rel", "author"), ClassSel("author"), ClassSel("byline")]))
  {
    if GetMeta(d, "author").Some? then GetMeta(d, "author")
    else OrNull(QueryTrimmedText(d, [AttrEqSel("", "rel", "author"), ClassSel("author"), ClassSel("byline")]))
  }

  /** The `prefetched` object built from the page. */
  function BuildPrefetched(d: Document, content: string, urlHost: Option<string>, locationHost: string): (p: SavePage.Prefetched)
    ensures p.title == Some(PageTitle(d)) && p.content == Some(content)
    ensures p.excerpt == Some(if GetMeta(d, "description").Some? then GetMeta(d, "description").value
                              else OrElse(GetMeta(d, "og:description"), ""))
    ensures p.imageUrl == GetMeta(d, "og:image") && p.author == PageAuthor(d)
    ensures p.siteName == Some(OrElse(GetMeta(d, "og:site_name"), GetSiteName(urlHost, locationHost)))
  {
    SavePage.Prefetched(
      Some(PageTitle(d)),
      Some(OrElse(GetMeta(d, "description"), OrElse(GetMeta(d, "og:description"), ""))),
      Some(content),
      GetMeta(d, "og:image"),
      Some(OrElse(GetMeta(d, "og:site_name"), GetSiteName(urlHost, locationHost))),
      PageAuthor(d))
  }

  /** The JSON body posted to the save-page endpoint. */
  datatype Payload = Payload(url: string, userId: string, highlight: Option<string>, source: string,
                             prefetched: Option<SavePage.Prefetched>)

  /** The bookmarklet run: `selectionText` is the page selection, `href` the page
      URL, `urlHost` its parsed host name (None if it does not parse), `userId` the
      configured user. */
  method SaveFromPage(d: Document, selectionText: string, href: string, urlHost: Option<string>,
                      locationHost: string, userId: string) returns (payload: Payload)
    ensures payload.url == href && payload.userId == userId && payload.source == "bookmarklet"
    ensures payload.highlight == OrNull(Some(Trim(selectionText)))
    ensures payload.prefetched.None? <==> Trim(selectionText) != ""
    ensures payload.prefetched.Some? ==>
      payload.prefetched.value == BuildPrefetched(d, Join(Fragments(d), "\n\n"), urlHost, locationHost)
  {
    var selection := Trim(selectionText);
    var content := ExtractContent(d);
    var prefetched := BuildPrefetched(d, content, urlHost, locationHost);
    payload := Payload(href, userId, if selection != "" then Some(selection) else None, "bookmarklet",
                       if selection != "" then None else Some(prefetched));
  }
}
