/** The page-saving endpoint (supabase/functions/save-page/index.ts): server-side
    extraction of article fields from fetched HTML, the defaults applied to data the
    client already extracted, and the row that is saved. Fetching, HTML parsing,
    Readability, URL parsing and the database are inputs. */
module SavePage {
  import opened Base
  import opened Strs
  import opened Seqs
  import opened Dom

  /** `extractMeta`: the non-empty `content` of the first `meta[attr="value"]`, else null. */
  function ExtractMeta(d: Document, attr: string, value: string): (r: Option<string>)
    ensures r.Some? <==> Truthy(MetaContent(d, attr, value))
    ensures r.Some? ==> r == MetaContent(d, attr, value)
  {
    OrNull(MetaContent(d, attr, value))
  }

  /** `document.querySelector("title")?.textContent`. */
  function TitleText(d: Document): Option<string>
  {
    match DocQueryFirst(d, [TagSel("title")])
    case None => None
    case Some(el) => Some(TextContent(el))
  }

  /** An optional field of an optional Readability result: `article?.field`. */
  function Field(article: Option<Readable>, f: Readable -> Option<string>): Option<string>
  {
    if article.Some? then f(article.value) else None
  }

  function TitleOf(r: Readable): Option<string> { r.title }
  function ExcerptOf(r: Readable): Option<string> { r.excerpt }
  function BylineOf(r: Readable): Option<string> { r.byline }
  function ContentOf(r: Readable): Option<string> { r.content }
  function TextContentOf(r: Readable): Option<string> { r.textContent }

  /** The title chain: Readability title, og:title, the `<title>` text, "Untitled". */
  function PageTitle(d: Document, article: Option<Readable>): (r: string)
    ensures r != ""
    ensures Truthy(Field(article, TitleOf)) ==> r == Field(article, TitleOf).value
    ensures !Truthy(Field(article, TitleOf)) && ExtractMeta(d, "property", "og:title").Some? ==>
      r == ExtractMeta(d, "property", "og:title").value
    ensures !Truthy(Field(article, TitleOf)) && ExtractMeta(d, "property", "og:title").None? && Truthy(TitleText(d)) ==>
      r == TitleText(d).value
    ensures !Truthy(Field(article, TitleOf)) && ExtractMeta(d, "property", "og:title").None? && !Truthy(TitleText(d)) ==>
      r == "Untitled"
  {
    var chain := [Field(article, TitleOf), ExtractMeta(d, "property", "og:title"), TitleText(d)];
    assert chain[0] == Field(article, TitleOf) && chain[1] == ExtractMeta(d, "property", "og:title") && chain[2] == TitleText(d);
    OrElse(FirstTruthy(chain), "Untitled")
  }

  /** The excerpt chain: Readability excerpt, description, og:description, "". */
  function PageExcerpt(d: Document, article: Option<Readable>): (r: string)
    ensures Truthy(Field(article, ExcerptOf)) ==> r == Field(article, ExcerptOf).value
    ensures !Truthy(Field(article, ExcerptOf)) && ExtractMeta(d, "name", "description").Some? ==>
      r == ExtractMeta(d, "name", "description").value
    ensures !Truthy(Field(article, ExcerptOf)) && ExtractMeta(d, "name", "description").None? ==>
      r == OrElse(ExtractMeta(d, "property", "og:description"), "")
  {
    var chain := [Field(article, ExcerptOf), ExtractMeta(d, "name", "description"), ExtractMeta(d, "property", "og:description")];
    assert chain[0] == Field(article, ExcerptOf) && chain[1] == ExtractMeta(d, "name", "description");
    assert chain[2] == ExtractMeta(d, "property", "og:description");
    OrElse(FirstTruthy(chain), "")
  }

  /** The author chain: Readability byline, author meta, article:author meta, null. */
  function PageAuthor(d: Document, article: Option<Readable>): (r: Option<string>)
    ensures r.Some? ==> r.value != ""
    ensures Truthy(Field(article, BylineOf)) ==> r == Field(article, BylineOf)
    ensures !Truthy(Field(article, BylineOf)) ==>
      r == (if ExtractMeta(d, "name", "author").Some? then ExtractMeta(d, "name", "author") else ExtractMeta(d, "property", "article:author"))
  {
    var chain := [Field(article, BylineOf), ExtractMeta(d, "name", "author"), ExtractMeta(d, "property", "article:author")];
    assert chain[0] == Field(article, BylineOf) && chain[1] == ExtractMeta(d, "name", "author");
    assert chain[2] == ExtractMeta(d, "property", "article:author");
    FirstTruthy(chain)
  }

  /** `x || new URL(url).hostname.replace("www.", "")`: the URL is parsed only when
      `x` is falsy, and a URL that does not parse (`hostname` None) throws. */
  function SiteNameOr(x: Option<string>, hostname: Option<string>): (r: Option<string>)
    ensures Truthy(x) ==> r == x
    ensures !Truthy(x) ==> r == (if hostname.Some? then Some(DropWww(hostname.value)) else None)
  {
    if Truthy(x) then x
    else if hostname.Some? then Some(DropWww(hostname.value))
    else None
  }

  /** The extracted fields of a page. */
  datatype PageArticle = PageArticle(
    title: string,
    excerpt: string,
    imageUrl: Option<string>,
    siteName: string,
    author: Option<string>,
    content: string)

  /** `p.textContent?.trim()`. */
  function TrimmedTextContent(n: Node): string
  {
    Trim(TextContent(n))
  }

  predicate NonEmpty(s: string)
  {
    s != ""
  }

  /** The non-empty trimmed paragraph texts of the Readability HTML, in order. */
  function ArticleParagraphs(articleDoc: Document): seq<string>
  {
    Filter(Map(DocQueryAll(articleDoc, [TagSel("p")]), TrimmedTextContent), NonEmpty)
  }

  /** A paragraph kept from the article HTML is non-empty and trimmed, and every
      non-empty trimmed paragraph text is kept. */
  lemma ArticleParagraphsExactly(articleDoc: Document, t: string)
    ensures t in ArticleParagraphs(articleDoc) <==> t in Map(DocQueryAll(articleDoc, [TagSel("p")]), TrimmedTextContent) && t != ""
    ensures t in ArticleParagraphs(articleDoc) ==> IsTrimmed(t, IsJsSpace)
  {
    FilterMembership(Map(DocQueryAll(articleDoc, [TagSel("p")]), TrimmedTextContent), NonEmpty, t);
  }

  /** The content of `extractArticle`: the paragraphs joined by blank lines, or the
      Readability text when that is empty. */
  function PageContent(article: Option<Readable>, parseDoc: string -> Document): string
  {
    var joined := if Truthy(Field(article, ContentOf)) then Join(ArticleParagraphs(parseDoc(Field(article, ContentOf).value)), "\n\n") else "";
    if joined == "" && Truthy(Field(article, TextContentOf)) then Field(article, TextContentOf).value else joined
  }

  /** The `forEach` over the article's paragraphs `ps`, pushing the non-empty
      trimmed texts. */
  method CollectParagraphs(ps: seq<Node>) returns (paragraphs: seq<string>)
    ensures paragraphs == Filter(Map(ps, TrimmedTextContent), NonEmpty)
  {
    paragraphs := [];
    for k := 0 to |ps|
      invariant paragraphs == Filter(Map(ps[..k], TrimmedTextContent), NonEmpty)
    {
      var text := Trim(TextContent(ps[k]));
      if text != "" {
        paragraphs := paragraphs + [text];
      }
      FilterMapStep(ps, k, TrimmedTextContent, NonEmpty);
    }
    assert ps[..|ps|] == ps;
  }

  /** The `content` computation of `extractArticle`. */
  method ExtractContent(article: Option<Readable>, parseDoc: string -> Document) returns (content: string)
    ensures content == PageContent(article, parseDoc)
    ensures Truthy(Field(article, ContentOf)) && ArticleParagraphs(parseDoc(Field(article, ContentOf).value)) != [] ==>
              content == Join(ArticleParagraphs(parseDoc(Field(article, ContentOf).value)), "\n\n")
  {
    content := "";
    if article.Some? && Truthy(article.value.content) {
      var articleDoc := parseDoc(article.value.content.value);
      var paragraphs := CollectParagraphs(DocQueryAll(articleDoc, [TagSel("p")]));
      JoinNonEmpty(paragraphs, "\n\n");
      content := Join(paragraphs, "\n\n");
    }
    if content == "" && article.Some? && Truthy(article.value.textContent) {
      content := article.value.textContent.value;
    }
  }

  /** Joining a non-empty list of non-empty strings gives a non-empty string. */
  lemma {:induction false} JoinNonEmpty(parts: seq<string>, sep: string)
    requires forall k :: 0 <= k < |parts| ==> parts[k] != ""
    ensures parts != [] ==> Join(parts, sep) != ""
  {
    if parts != [] {
      if |parts| == 1 {
      } else {
        JoinAppend(parts[..|parts| - 1], parts[|parts| - 1], sep);
        assert parts[..|parts| - 1] + [parts[|parts| - 1]] == parts;
      }
    }
  }

  /** The value of `extractArticle(html, url)` for the parsed page `d` and its
      Readability result; None when `new URL(url)` throws. */
  function ArticleOf(d: Document, article: Option<Readable>, hostname: Option<string>,
                     parseDoc: string -> Document): Option<PageArticle>
  {
    match SiteNameOr(ExtractMeta(d, "property", "og:site_name"), hostname)
    case None => None
    case Some(siteName) =>
      Some(PageArticle(PageTitle(d, article), PageExcerpt(d, article), ExtractMeta(d, "property", "og:image"),
                       siteName, PageAuthor(d, article), PageContent(article, parseDoc)))
  }

  /** `extractArticle(html, url)`. */
  method ExtractArticle(d: Document, article: Option<Readable>, hostname: Option<string>,
                        parseDoc: string -> Document) returns (r: Option<PageArticle>)
    ensures r.Some? <==> ExtractMeta(d, "property", "og:site_name").Some? || hostname.Some?
    ensures r.Some? ==> r.value == PageArticle(
      PageTitle(d, article), PageExcerpt(d, article), ExtractMeta(d, "property", "og:image"),
      SiteNameOr(ExtractMeta(d, "property", "og:site_name"), hostname).value,
      PageAuthor(d, article), PageContent(article, parseDoc))
    ensures r.Some? ==> r.value.title != ""
    ensures r == ArticleOf(d, article, hostname, parseDoc)
  {
    var title := PageTitle(d, article);
    var excerpt := PageExcerpt(d, article);
    var imageUrl := ExtractMeta(d, "property", "og:image");
    var siteName := SiteNameOr(ExtractMeta(d, "property", "og:site_name"), hostname);
    if siteName.None? {
      return None;
    }
    var author := PageAuthor(d, article);
    var content := ExtractContent(article, parseDoc);
    return Some(PageArticle(title, excerpt, imageUrl, siteName.value, author, content));
  }

  /** The `prefetched` object a client may send. */
  datatype Prefetched = Prefetched(
    title: Option<string>,
    excerpt: Option<string>,
    content: Option<string>,
    imageUrl: Option<string>,
    siteName: Option<string>,
    author: Option<string>)

  /** The article built from prefetched data, with its defaults; None when the site
      name is missing and the URL does not parse. */
  function FromPrefetched(p: Prefetched, hostname: Option<string>): (r: Option<PageArticle>)
    ensures r.Some? <==> Truthy(p.siteName) || hostname.Some?
    ensures r.Some? ==> r.value.title != "" && (!Truthy(p.title) ==> r.value.title == "Untitled")
    ensures r.Some? ==> (!Truthy(p.excerpt) ==> r.value.excerpt == "") && (!Truthy(p.content) ==> r.value.content == "")
    ensures r.Some? ==> r.value.imageUrl == OrNull(p.imageUrl) && r.value.author == OrNull(p.author)
    ensures r.Some? && !Truthy(p.siteName) ==> r.value.siteName == DropWww(hostname.value)
    ensures r.Some? && Truthy(p.siteName) ==> r.value.siteName == p.siteName.value
    ensures r.Some? && Truthy(p.title) ==> r.value.title == p.title.value
    ensures r.Some? && Truthy(p.excerpt) ==> r.value.excerpt == p.excerpt.value
    ensures r.Some? && Truthy(p.content) ==> r.value.content == p.content.value
  {
    match SiteNameOr(p.siteName, hostname)
    case None => None
    case Some(siteName) =>
      Some(PageArticle(OrElse(p.title, "Untitled"), OrElse(p.excerpt, ""), OrNull(p.imageUrl), siteName,
                       OrNull(p.author), OrElse(p.content, "")))
  }

  /** The row inserted into `saves`. */
  datatype SaveData = SaveData(
    userId: string,
    url: string,
    title: string,
    excerpt: string,
    content: Option<string>,
    highlight: Option<string>,
    imageUrl: Option<string>,
    siteName: string,
    author: Option<string>,
    source: string)

  /** The `saveData` construction: no content is stored for a highlight, otherwise at
      most 100000 characters of it; an absent highlight is null; the source defaults
      to "api". */
  function BuildSaveData(userId: string, url: string, a: PageArticle, highlight: Option<string>, source: Option<string>): (s: SaveData)
    ensures s.content.None? <==> Truthy(highlight)
    ensures s.content.Some? ==> (|s.content.value| <= 100000 && |s.content.value| <= |a.content|
      && s.content.value == a.content[..|s.content.value|])
    ensures s.content.Some? && |a.content| <= 100000 ==> s.content.value == a.content
    ensures s.highlight == OrNull(highlight)
    ensures s.source == OrElse(source, "api") && s.source != ""
    ensures (s.title, s.excerpt, s.imageUrl, s.siteName, s.author) == (a.title, a.excerpt, a.imageUrl, a.siteName, a.author)
  {
    SaveData(userId, url, a.title, a.excerpt, if Truthy(highlight) then None else Some(Prefix(a.content, 100000)),
             OrNull(highlight), a.imageUrl, a.siteName, a.author, OrElse(source, "api"))
  }

  /** The result of the server-side fetch. */
  datatype Fetched = FetchThrew | NotOk | Body(html: string)

  datatype Response = BadRequest | Saved(row: SaveData) | ServerError

  /** The article a request is saved from: built from the prefetched data when the
      client sent it, otherwise extracted from the fetched page when the fetch gave a
      non-empty body; None where the handler throws before building the row. */
  function RequestArticle(prefetched: Option<Prefetched>, hostname: Option<string>, fetched: Fetched,
                          parse: string -> (Document, Option<Readable>), parseDoc: string -> Document): Option<PageArticle>
  {
    if prefetched.Some? then FromPrefetched(prefetched.value, hostname)
    else if fetched.Body? && fetched.html != "" then
      ArticleOf(parse(fetched.html).0, parse(fetched.html).1, hostname, parseDoc)
    else None
  }

  /** The request handler after CORS preflight. `hostname` is `new URL(url).hostname`
      (None when it throws), `parse` gives the document and Readability result of an
      HTML string, `parseDoc` the document of the article HTML, and `insertFails`
      whether the database rejects the row. */
  method HandleSave(url: Option<string>, userId: Option<string>, highlight: Option<string>, source: Option<string>,
                    prefetched: Option<Prefetched>, hostname: Option<string>, fetched: Fetched,
                    parse: string -> (Document, Option<Readable>), parseDoc: string -> Document, insertFails: bool)
    returns (resp: Response, didFetch: bool)
    ensures !Truthy(url) || !Truthy(userId) ==> resp == BadRequest && !didFetch
    ensures didFetch <==> Truthy(url) && Truthy(userId) && prefetched.None?
    ensures resp.Saved? ==> (Truthy(url) && Truthy(userId) && !insertFails
      && resp.row.userId == userId.value && resp.row.url == url.value && resp.row.title != ""
      && (resp.row.content.None? <==> Truthy(highlight))
      && resp.row.source == OrElse(source, "api"))
    ensures resp.Saved? && prefetched.Some? ==>
      exists a :: FromPrefetched(prefetched.value, hostname) == Some(a) && resp.row == BuildSaveData(userId.value, url.value, a, highlight, source)
    ensures Truthy(url) && Truthy(userId) && prefetched.None? && !fetched.Body? ==> resp == ServerError
    ensures Truthy(url) && Truthy(userId) && prefetched.None? && fetched == Body("") ==> resp == ServerError
    ensures Truthy(url) && Truthy(userId) ==>
      (resp == ServerError <==> RequestArticle(prefetched, hostname, fetched, parse, parseDoc).None? || insertFails)
    ensures Truthy(url) && Truthy(userId) && !insertFails && RequestArticle(prefetched, hostname, fetched, parse, parseDoc).Some? ==>
      resp == Saved(BuildSaveData(userId.value, url.value, RequestArticle(prefetched, hostname, fetched, parse, parseDoc).value, highlight, source))
  {
    didFetch := false;
    if !Truthy(url) || !Truthy(userId) {
      return BadRequest, didFetch;
    }
    var article: Option<PageArticle>;
    if prefetched.Some? {
      article := FromPrefetched(prefetched.value, hostname);
    } else {
      didFetch := true;
      if fetched.FetchThrew? {
        return ServerError, didFetch;
      }
      var html := if fetched.Body? then fetched.html else "";
      if html != "" {
        var (doc, readable) := parse(html);
        article := ExtractArticle(doc, readable, hostname, parseDoc);
      } else {
        article := None;
      }
    }
    if article.None? {
      return ServerError, didFetch;
    }
    var saveData := BuildSaveData(userId.value, url.value, article.value, highlight, source);
    if insertFails {
      return ServerError, didFetch;
    }
    return Saved(saveData), didFetch;
  }
}
