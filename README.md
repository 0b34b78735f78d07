# Stash: a Dafny model of its text extraction and saving policies

Stash is a read-later application with several parts. A browser extension and a
bookmarklet capture web pages. Supabase edge functions save pages, import Kindle
highlights and send a weekly digest e-mail. A Python worker reads saved articles
aloud. This project models the parts of Stash that decide what text is kept. It
covers how a page becomes archived text, which saves and highlights are stored,
and what the digest and the speech worker do with them. It proves properties of
each part.

One Dafny module per source file:

| module | source file | what it models |
|---|---|---|
| `HtmlRender` | extension/content.js | `htmlToText`: the recursive walk over the node tree and the whitespace clean-up chain |
| `ContentScript` | extension/content.js | `isBoilerplate`, `extractTextFromElement`, the three tiers of `extractFallbackContent`, `cleanContent`, the metadata chains and the choice made in `extractArticle` |
| `SavePage` | supabase/functions/save-page/index.ts | `extractMeta`, the field chains and paragraph content of `extractArticle`, the prefetched defaults, the `saveData` rules and the request handler |
| `SaveKindle` | supabase/functions/save-kindle/index.ts | the `highlight\|\|\|title` duplicate key, the order-preserving filter, the insert loop in batches of 50 and the response counts |
| `Bookmarklet` | bookmarklet/save-page.js | `extractContent` with its appending fallback, `getMeta`, `getSiteName`, the `prefetched` record and the request payload |
| `SendDigest` | supabase/functions/send-digest/index.ts | `generateSummary`, the 200-character summary display, `buildEmailText`, the users query, the per-user skip/send loop and the response |
| `Tts` | tts/tts.py | the content filter of `get_pending_saves`, the markdown stripping and 4500-word limit of `extract_text_for_tts`, and the 20-word skip of `process_save` |

Shared modules:

- `Base`: optional values and JavaScript's `a || b` chains over strings.
- `Strs`: JavaScript and Python string operations such as `trim`, `strip`, `split` and `join`.
- `Seqs`: order-preserving filter, map and flatten.
- `Rewrite`: global regular-expression replacement.
- `Dom`: the node tree, the CSS selectors the scripts use, `querySelector(All)`, `textContent` and `innerText`.

Each regular expression is a matcher. Given a position of the original string, the
matcher says whether a match starts there, where it ends and what replaces it. One
scan engine (`Rewrite.ReplaceAll`) applies a matcher the way `String.replace` with
`/g` and Python's `re.sub` do. So multiline `^` anchors and the
leftmost-match-then-resume rule are the same as in the source.

Where the code does something imperatively, the model does too. That covers the
child loop of `processNode`, the selector loop of `extractFallbackContent`, the
paragraph pushes, the Kindle batch loop, the e-mail text builder, the digest user
loop and the pending-save filter. Each such method is proved equal to a function,
and the properties are proved about that function.

The text found by the curated selectors of the extension's fallback extraction is
boilerplate-filtered. The fallback tier calls `extractTextFromElement` at
extension/content.js:83, and that function drops boilerplate blocks at line 114.
`ContentScript.CuratedText` therefore uses the filtered blocks.

## Model

| member | source | states |
|---|---|---|
| Base.FirstTruthy | extension/content.js:257-262 | an `a \|\| b \|\| … \|\| null` chain yields the first non-empty value, and null exactly when every value is null or empty |
| Base.FirstTruthyAppend | supabase/functions/save-page/index.ts:41-44 | a value added at the end of a chain is used only when every earlier value is null or empty |
| Base.OrNull | supabase/functions/save-page/index.ts:121 | `x \|\| null` is null exactly when x is null or empty, and x otherwise |
| Base.OrElse | supabase/functions/save-page/index.ts:87-89 | `x \|\| fallback` is x when x is non-empty, else the fallback |
| Dom.GetAttribute | supabase/functions/save-page/index.ts:17 | `getAttribute` gives a value exactly when the node is an element carrying that attribute |
| Dom.SelectSound | bookmarklet/save-page.js:26 | every element `querySelectorAll` returns matches the subject of one of the selectors of the group |
| Dom.DocQueryFirstSound | extension/content.js:81 | the element `document.querySelector(sel)` finds matches the selector |
| Dom.CollectTexts | extension/content.js:112-117 | the `forEach` that pushes each element's trimmed text when it passes the test collects exactly the passing texts, in document order |
| ContentScript.BoilerplateIgnoresCase | extension/content.js:121-143 | the boilerplate test gives the same answer for a text and its lower-cased form |
| ContentScript.BoilerplateExample | extension/content.js:121-143 | "Subscribe to our newsletter" is boilerplate |
| ContentScript.ShortTextIsNotBoilerplate | extension/content.js:123-142 | no text shorter than the shortest pattern ("cookie", 6 characters) is boilerplate |
| ContentScript.CommitteeNotBoilerplate | extension/content.js:121-143 | "The committee voted yesterday" is not boilerplate |
| ContentScript.KeptBlocksExactly | extension/content.js:110-119 | a text is kept exactly when it is the trimmed `innerText` of a matched p, h1–h6, li or blockquote descendant, longer than 20 characters and not boilerplate |
| ContentScript.ExtractTextFromElement | extension/content.js:110-119 | the loop returns the kept texts in document order, joined by a blank line |
| ContentScript.FirstQualifying | extension/content.js:80-88 | the selectors are tried in list order: the one chosen has text longer than 500 characters, and every earlier selector failed (no element, or shorter text) |
| ContentScript.FallbackCuratedTier | extension/content.js:64-88 | when some curated selector qualifies, the fallback returns the text of the first that does, which is longer than 500 characters |
| ContentScript.FallbackParagraphTier | extension/content.js:91-107 | otherwise it returns the non-boilerplate paragraph texts longer than 50 characters under main, else article, else body, joined by blank lines; with none, the body text cut to at most 50000 characters |
| ContentScript.ExtractFallbackContent | extension/content.js:64-108 | the loop with its early return computes exactly the three-tier result |
| ContentScript.LabelLength | extension/content.js:153 | which of Share, Tweet, Email, Print and Save starts at a position, tried in that order; none when no label does |
| ContentScript.LineStartShape | extension/content.js:153 | removing the labels at line starts keeps a text free of tabs and double spaces |
| ContentScript.LabelLineShape | extension/content.js:154 | collapsing a label line keeps a text free of tabs and double spaces |
| ContentScript.CleanContentShape | extension/content.js:145-157 | cleaned text is trimmed and has no tab and no two spaces in a row; empty input gives "" |
| ContentScript.CleanContentExample | extension/content.js:145-157 | "Share\nHello" is cleaned to "Hello": the label at the start of a line goes with the whitespace after it |
| ContentScript.LabelsExclusive | extension/content.js:153-154 | at most one of the five labels occurs at a position, in any letter case |
| ContentScript.LabelLengthOf | extension/content.js:153-154 | the alternation finds the length of whichever label occurs |
| ContentScript.LineStartLabelDeleted | extension/content.js:153 | each label, in any letter case, at the start of a line and followed by whitespace, is deleted with the whole whitespace run after it |
| ContentScript.LineStartLabelOnlyWords | extension/content.js:153 | the line-start rule deletes only a label at the start of a line that is followed by whitespace |
| ContentScript.LabelLineDeleted | extension/content.js:154 | a line holding only a label, in any letter case, between two newlines is reduced to one newline |
| ContentScript.LabelLineOnlyWords | extension/content.js:154 | the line rule fires only at a newline followed by a label and a newline |
| ContentScript.ExtractAuthor | extension/content.js:257-263 | the author is the first non-empty of the author meta, article:author, the trimmed text of the first rel="author" element and that of the first .author, .byline or .author-name element; null when all are empty |
| ContentScript.ExtractSiteName | extension/content.js:265-269 | og:site_name, else application-name, else the hostname with its first "www." removed |
| ContentScript.ExtractPublishedTime | extension/content.js:271-279 | the `datetime` of the first `time[datetime]` when there is one, else article:published_time when non-empty, else null |
| ContentScript.ExtractMainImage | extension/content.js:281-285 | og:image, else twitter:image, else null |
| ContentScript.ExtractArticle | extension/content.js:22-62 | the Readability record is used exactly when its text is longer than 200 characters and converting its HTML does not throw on a relative link that `new URL` cannot parse (line 208, inside the `try`); its title, excerpt (else the first 300 characters + "...") and site name fall back as written; otherwise the fallback content is cleaned and the metadata chains fill the fields; success is always true; the content is normalized on the first path and trimmed and single-spaced on the second |
| HtmlRender.QuoteLinesSplit | extension/content.js:198-201 | a blockquote renders one "> " line for each line of its trimmed inner text |
| HtmlRender.RenderNodesConcat | extension/content.js:168-242 | rendering a list of children is the concatenation of their renderings |
| HtmlRender.ProcessNode | extension/content.js:168-242 | the accumulator loop over `childNodes` computes the rendering of the children |
| HtmlRender.ProcessChild | extension/content.js:172-237 | one child is rendered by the tag dispatch: blocks, headings, br, li, lists, blockquote, links, emphasis, code, pre, skipped and transparent tags |
| HtmlRender.CollapseShape | extension/content.js:247 | collapsing runs of spaces and tabs leaves no tab and no two spaces in a row |
| HtmlRender.LeadingShape | extension/content.js:248 | removing leading spaces keeps that and leaves no space after a newline |
| HtmlRender.TrailingShape | extension/content.js:249 | removing trailing spaces keeps that and leaves no space before a newline |
| HtmlRender.BlankKeepsPairs | extension/content.js:250 | collapsing newline runs keeps the spacing guarantees of the earlier steps and each rewritten suffix starts with the character it started with |
| HtmlRender.BlankNoTriple | extension/content.js:250 | after collapsing, no three newlines are in a row, and each rewritten suffix opens with the newlines of its run, at most two |
| HtmlRender.BlankShape | extension/content.js:250 | collapsing newline runs keeps all of that and leaves no three newlines in a row |
| HtmlRender.TrimShape | extension/content.js:251 | trimming such a text gives a normalized text |
| HtmlRender.CleanupNormalized | extension/content.js:246-251 | the clean-up chain always produces normalized text: trimmed, no tab, no two spaces, no space next to a newline, no three newlines in a row |
| HtmlRender.NormalizedIsFixed | extension/content.js:246-251 | the clean-up leaves a normalized text unchanged |
| HtmlRender.CleanupIdempotent | extension/content.js:246-251 | cleaning up twice is the same as cleaning up once |
| HtmlRender.ConvertedTextIsFixed | extension/content.js:160-255 | converting the text of a conversion, as a single text node, gives it back |
| HtmlRender.RenderBlock | extension/content.js:178-184 | a block or heading element, whatever its case, renders its children between two blank-line breaks |
| HtmlRender.RenderAnchor | extension/content.js:203-213 | a link with a non-empty href and text, not starting with "#" or "javascript:", renders as `[text](href)` when the href starts with "http" and as `[text](resolved href)` otherwise; any other anchor renders as its trimmed text |
| HtmlRender.AbsoluteLinkExample | extension/content.js:203-209 | `<a href="https://x.com">go</a>` renders as "[go](https://x.com)" |
| HtmlRender.FragmentLinkExample | extension/content.js:203-212 | `<a href="#top">top</a>` renders as "top" |
| HtmlRender.NothingThrows | extension/content.js:208 | when every href parses as a URL, no node's conversion throws |
| HtmlRender.UnparsableLinkThrows | extension/content.js:206-208 | a paragraph holding a link whose relative href "//a b" does not parse throws |
| HtmlRender.TwoParagraphs | extension/content.js:160-255 | `<p>A</p><p>B</p>` converts to "A\n\nB" |
| HtmlRender.HtmlToText | extension/content.js:160-255 | a null or empty input gives ""; any other output is normalized |
| SaveKindle.KeyNotInjective | supabase/functions/save-kindle/index.ts:56-67 | ("a\|\|\|b", "c") and ("a", "b\|\|\|c") are different pairs with the same key |
| SaveKindle.ExistingKeys | supabase/functions/save-kindle/index.ts:56-61 | the key set holds exactly the keys of the stored saves that have a highlight, with a null title printed as "null" |
| SaveKindle.NewHighlightsExactly | supabase/functions/save-kindle/index.ts:63-67 | an incoming highlight is kept exactly when its key is not among the stored keys |
| SaveKindle.RepeatedHighlightKept | supabase/functions/save-kindle/index.ts:64-67 | incoming highlights are not deduplicated among themselves: a new highlight sent twice is kept twice |
| SaveKindle.DuplicatesCounted | supabase/functions/save-kindle/index.ts:107 | the number skipped is the number of incoming highlights whose key is stored |
| SaveKindle.ToRow | supabase/functions/save-kindle/index.ts:82-89 | every row carries the user, the title and the highlight, site "Kindle" and source "kindle", and the author exactly when the highlight has a non-empty one |
| SaveKindle.Slice | supabase/functions/save-kindle/index.ts:96 | a batch holds at most 50 rows, and at least one while rows remain |
| SaveKindle.SliceStep | supabase/functions/save-kindle/index.ts:95-96 | each batch continues where the previous one ended, and holds 50 rows or the rest |
| SaveKindle.InsertBatches | supabase/functions/save-kindle/index.ts:91-105 | the batches are consecutive slices of at most 50 rows; on success they concatenate to all rows and the count is their number; on failure the loop stops at the first rejected batch, and the earlier batches were all accepted |
| SaveKindle.SyncHighlights | supabase/functions/save-kindle/index.ts:22-128 | 400 without a user or an array; imported 0 for an empty array; 500 when the stored saves cannot be read; "all duplicates" with the count exactly when nothing is new; otherwise the batches sent are the consecutive 50-row slices of the rows for the new highlights, success comes exactly when no batch insert fails, with imported + duplicates = incoming and the inserted rows the new highlights in order, and a 500 comes right after the first rejected batch, every earlier batch having been accepted |
| SavePage.ExtractMeta | supabase/functions/save-page/index.ts:15-18 | the `content` of the first matching meta element, or null when it is missing or empty |
| SavePage.PageTitle | supabase/functions/save-page/index.ts:26-29 | Readability title, else og:title, else the `<title>` text, else "Untitled"; never empty |
| SavePage.PageExcerpt | supabase/functions/save-page/index.ts:31-34 | Readability excerpt, else description, else og:description, else "" |
| SavePage.PageAuthor | supabase/functions/save-page/index.ts:41-44 | byline, else the author meta, else article:author, else null |
| SavePage.SiteNameOr | supabase/functions/save-page/index.ts:38-39 | og:site_name when non-empty, else the hostname with its first "www." removed |
| SavePage.ArticleParagraphsExactly | supabase/functions/save-page/index.ts:50-54 | a paragraph is kept exactly when it is the non-empty trimmed text of a `<p>` of the article HTML |
| SavePage.CollectParagraphs | supabase/functions/save-page/index.ts:50-54 | the `forEach` pushes exactly the non-empty trimmed paragraph texts, in order |
| SavePage.ExtractContent | supabase/functions/save-page/index.ts:47-60 | the content is the paragraphs joined by blank lines, or the Readability text when no paragraph is kept |
| SavePage.ExtractArticle | supabase/functions/save-page/index.ts:21-63 | the record of title, excerpt, image (og:image or null), site name, author and content; it fails only when there is neither og:site_name nor a parsable URL |
| SavePage.FromPrefetched | supabase/functions/save-page/index.ts:84-93 | non-empty prefetched title, excerpt, content and site name are passed through; empty ones get the defaults "Untitled", "", "" and the hostname without "www."; image and author are null when empty |
| SavePage.BuildSaveData | supabase/functions/save-page/index.ts:115-126 | content is null exactly for a highlight, and otherwise the first 100000 characters of the article; the highlight is null when absent; the source defaults to "api" |
| SavePage.HandleSave | supabase/functions/save-page/index.ts:71-147 | 400 without url or user before any fetch; the page is fetched exactly when nothing was prefetched; otherwise the result is 500 exactly when there is no article (failed or empty fetch, unusable page) or the insert fails, and else the saved record built from that article, the highlight and the source |
| Bookmarklet.LongTexts | bookmarklet/save-page.js:26-29 | every text collected by a scan is longer than its threshold |
| Bookmarklet.PushLongTexts | bookmarklet/save-page.js:26-37 | a `forEach` pass appends exactly the long trimmed paragraph texts, keeping what was there |
| Bookmarklet.FallbackAppends | bookmarklet/save-page.js:32-37 | with 3 or more primary fragments there is no fallback; otherwise the fallback appends paragraphs longer than 50 characters after the primary ones, which stay in place |
| Bookmarklet.RepeatedParagraph | bookmarklet/save-page.js:32-37 | when the fallback runs, a paragraph found by both scans appears twice |
| Bookmarklet.ExtractContent | bookmarklet/save-page.js:22-40 | the fragments joined by blank lines; "" when there are none |
| Bookmarklet.GetMeta | bookmarklet/save-page.js:42-45 | the `content` of the first meta element named by name, property or og:property; null when there is none or it is empty |
| Bookmarklet.GetSiteName | bookmarklet/save-page.js:53-59 | the URL's hostname without its first "www.", or the location's when the URL does not parse |
| Bookmarklet.PageTitle | bookmarklet/save-page.js:65 | the trimmed text of the first h1 when non-empty, else the document title |
| Bookmarklet.PageAuthor | bookmarklet/save-page.js:70 | the author meta, else the trimmed text of the first rel="author", .author or .byline element, else null |
| Bookmarklet.BuildPrefetched | bookmarklet/save-page.js:64-71 | the prefetched record: title, content, excerpt chain, image, site name chain and author |
| Bookmarklet.SaveFromPage | bookmarklet/save-page.js:13-84 | the highlight is the trimmed selection or null; the prefetched page is sent exactly when the selection is empty; the source is "bookmarklet" |
| SendDigest.SplitSentences | supabase/functions/send-digest/index.ts:13 | splitting on runs of ".!?" gives at least one piece, and no piece holds a sentence end |
| SendDigest.SplitSentencesKeepsText | supabase/functions/send-digest/index.ts:13 | the pieces together are the text without its ".!?" characters |
| SendDigest.SplitWithoutEnd | supabase/functions/send-digest/index.ts:13 | a text with no sentence end is one piece |
| SendDigest.SummarySource | supabase/functions/send-digest/index.ts:12 | the excerpt when non-empty, else the content, else "" |
| SendDigest.GenerateSummary | supabase/functions/send-digest/index.ts:11-15 | the summary is "" exactly when no piece has a trimmed length over 10, and otherwise ends with "." |
| SendDigest.KeptSentences | supabase/functions/send-digest/index.ts:13 | every kept piece has no sentence end and a trimmed length over 10 |
| SendDigest.SummaryOfOne | supabase/functions/send-digest/index.ts:14 | with one kept piece the summary is that piece trimmed, then "." |
| SendDigest.SummaryOfMany | supabase/functions/send-digest/index.ts:14 | with two or more kept pieces the summary is the first two joined by ". ", trimmed, then "." |
| SendDigest.OneSentenceSummary | supabase/functions/send-digest/index.ts:11-15 | an excerpt that is one long sentence without an end mark is summarized as itself, trimmed, with "." added |
| SendDigest.ShownSummary | supabase/functions/send-digest/index.ts:108 | a summary of at most 200 characters is shown unchanged; a longer one as its first 200 characters and "..." |
| SendDigest.SourceOf | supabase/functions/send-digest/index.ts:107 | the site name when non-empty, else the URL's hostname |
| SendDigest.TitleLine | supabase/functions/send-digest/index.ts:106 | the title line, "Untitled" when there is no title |
| SendDigest.SummaryLine | supabase/functions/send-digest/index.ts:108 | the summary line is omitted exactly when the summary is empty |
| SendDigest.SaveEntryShape | supabase/functions/send-digest/index.ts:105-109 | an entry starts with its title line and ends with its URL and a blank line |
| SendDigest.HighlightEntryShape | supabase/functions/send-digest/index.ts:118 | a highlight is quoted and attributed to its title, or to "Unknown Source" |
| SendDigest.EmailText | supabase/functions/send-digest/index.ts:99-123 | the text exists exactly when every save without a site name has a parsable URL |
| SendDigest.EmailSections | supabase/functions/send-digest/index.ts:100-120 | the text starts with the header; no saves gives "No new saves this week."; no highlights omits that section; saves are headed by "SAVED THIS WEEK (" |
| SendDigest.WriteSave | supabase/functions/send-digest/index.ts:105-109 | the four appends for one save produce its entry |
| SendDigest.AppendSaves | supabase/functions/send-digest/index.ts:104-110 | the loop appends the entries of all saves in order, and fails exactly when a source cannot be printed |
| SendDigest.AppendHighlights | supabase/functions/send-digest/index.ts:117-119 | the loop appends the entries of all highlights in order |
| SendDigest.BuildEmailText | supabase/functions/send-digest/index.ts:99-123 | the builder computes exactly the e-mail text |
| SendDigest.UtcDay | supabase/functions/send-digest/index.ts:144 | the UTC weekday is between 0 and 6 |
| SendDigest.UtcHour | supabase/functions/send-digest/index.ts:145 | the UTC hour is between 0 and 23 |
| SendDigest.SameSlotNextWeek | supabase/functions/send-digest/index.ts:142-170 | one week later a user falls into the same day and hour slot |
| SendDigest.DueUsersExactly | supabase/functions/send-digest/index.ts:157-172 | a user is queried exactly when enabled and either targeted or, in a scheduled run, due at the current day and hour |
| SendDigest.ChosenHighlights | supabase/functions/send-digest/index.ts:218-221 | at most 5 highlights, none when the query failed |
| SendDigest.Outcome | supabase/functions/send-digest/index.ts:188-273 | the result carries the user; "recently_sent" exactly when an untargeted run finds a digest sent within 6 days; "no_content" exactly when there are neither saves nor highlights; otherwise a failure without a message when the text cannot be built, "Resend error: " and the service's message when the e-mail is refused, and "sent" with the numbers of saves and highlights when it is accepted |
| SendDigest.ProcessUser | supabase/functions/send-digest/index.ts:189-273 | one iteration pushes that result, and stamps the user exactly when the digest was sent |
| SendDigest.ProcessUsers | supabase/functions/send-digest/index.ts:188-274 | one result per user, in order; the stamped users are the ones sent to |
| SendDigest.SendDigests | supabase/functions/send-digest/index.ts:131-294 | 500 without an API key or on a failed query; "no users due" exactly when none is due, and processed results otherwise; sent is the number of digests sent, at most the total, which is the number of due users |
| Tts.SpokenSource | tts/tts.py:94 | the content when non-empty, else the highlight, else "" |
| Tts.GetPendingSaves | tts/tts.py:61-90 | nothing when the request fails; otherwise the fetched saves with at least 100 characters to read, in order |
| Tts.PendingExactly | tts/tts.py:82-88 | a save is pending exactly when it was fetched and has at least 100 characters to read |
| Tts.HeadingMarksRemoved | tts/tts.py:101 | "# " to "###### " at a line start is removed and the heading text kept |
| Tts.LinkAt | tts/tts.py:104 | a `[text](url)` starts a link match that ends after ")" and is replaced by its text |
| Tts.LinkKeepsText | tts/tts.py:104 | a markdown link becomes its text |
| Tts.FenceRemoved | tts/tts.py:113 | a fenced code block is removed |
| Tts.InlineCodeRemoved | tts/tts.py:114 | an inline code span is removed |
| Tts.ImageWithAltReadAsLink | tts/tts.py:104-120 | because links are stripped first, an image with alt text is read as "!" and its alt text |
| Tts.ImageWithoutAltRemoved | tts/tts.py:120 | an image without alt text is not a link and is removed by the image rule |
| Tts.TagRemoved | tts/tts.py:123 | an HTML tag is removed |
| Tts.CleanedShape | tts/tts.py:126-127 | the collapsed and stripped text has no surrounding whitespace and no three newlines in a row |
| Tts.UnmarkedShape | tts/tts.py:98-127 | the body of the text to read has no surrounding whitespace and no three newlines in a row |
| Tts.FullTextShape | tts/tts.py:95-130 | the text starts with the title ("Article" when there is none), a full stop and a blank line, followed by that body |
| Tts.TextForSpeech | tts/tts.py:92-139 | a text of at most 4500 words is unchanged; a longer one is cut to its first 4500 words |
| Tts.PreviewReadsFirstWords | tts/tts.py:134-136 | the cut text reads exactly the first 4500 words, separated by single spaces, then "... End of article preview." |
| Tts.ShortTextReadInFull | tts/tts.py:130-136 | a text within the limit is read in full: title, full stop, blank line, body |
| Tts.ProcessSave | tts/tts.py:185-226 | fewer than 20 words and nothing is synthesized; otherwise the audio URL is recorded exactly when synthesis, upload and update all succeed |
| Tts.LoggedTitle | tts/tts.py:188 | the logged title is at most 50 characters of the title, and there is none (Python raises) when the title is null |
| Tts.ProcessSaveAsWritten | tts/tts.py:185-226 | a null title raises before any text is prepared; every other save is processed as `ProcessSave` does |
| Tts.NullTitleRaises | tts/tts.py:188 | a pending save with a null title has a text to read, which opens with "Article.", yet the log title raises on it |

## Left out

- HTML parsing, Mozilla Readability and linkedom's `parseHTML` are not modelled. The parsed tree and the Readability record are inputs, and a parse that fails or returns null is `None`.
- `innerText` is approximated as the text of the rendered nodes, with a line break for `<br>`. CSS layout, `display` and visibility are not modelled.
- `new URL(...)` is not modelled. A parsed hostname is an input, None when parsing throws, and so is the link resolution of `processNode`. Which hrefs parse is an input too.
- HtmlRender.HtmlToText: the conversion does not raise the exception of an unparsable relative href itself. `HtmlRender.LinksThrow` says when it would, and `ContentScript.ExtractArticle` tests that before converting, taking the fallback path as the `catch` does. The removal of the first "www." from a hostname is modelled.
- The following I/O is not modelled: `fetch`, Supabase queries, inserts and updates, the Resend e-mail call, edge_tts synthesis, storage upload, logging and the TTS daemon loop with its sleeps. Its results are parameters: which batch insert fails, what a query returns, whether the mail service accepts, whether synthesis, upload or update fails.
- Exceptions thrown by `fetch` itself, for example a network failure reaching the mail service, are not modelled. A rejected e-mail is modelled.
- `formatDate` and `toLocaleDateString` are not modelled. The date labels are opaque strings, and "now" and `last_digest_sent` are integer milliseconds. An invalid date string is not modelled.
- SendDigest.ChosenHighlights: the random shuffle is a parameter, and only the bound of at most 5 highlights is stated.
- The HTML e-mail (`buildEmailHtml`) is not modelled. It is presentation that repeats the structure of the text e-mail.
- The CORS preflight, the toast UI of the extension and the bookmarklet, the message listeners and the file-size log of the TTS worker are not modelled.
- Strings are sequences of characters. UTF-16 code units, surrogate pairs and Unicode case mapping are not modelled. `toLowerCase` maps ASCII letters only.
- The `\s` class and JavaScript's `trim` use the whitespace sets of the two languages. For Python `str.split`, `strip` and `\s` this is `str.isspace`. For JavaScript this is WhiteSpace and LineTerminator. The Unicode category Zs is listed by its code points.
- A Kindle import request whose body is not valid JSON is not modelled. There `req.json()` throws and the `catch` answers 500 (supabase/functions/save-kindle/index.ts:23). The inputs are the already-parsed `user_id` and `highlights`.
- Incoming Kindle items whose `title` or `highlight` is JSON null are not modelled: both fields of `SaveKindle.Highlight` are strings. The source would print such a value as "null" in the duplicate key.
- The saves the digest reads are already limited to 20 per user by the query. That limit, and the ordering by `created_at`, are properties of the query result, which is an input.

## Findings

| source | as written | input that shows it | evidently intended | confidence | as-written member | corrected member |
|---|---|---|---|---|---|---|
| tts/tts.py:188 | `save.get("title", "Untitled")[:50]` runs before the `try` at line 204. The default applies only to a missing key, but the query always returns `title`, so a null title raises TypeError. The exception leaves `process_save` and ends the batch in the main loop. | a pending save `{"id": "1", "title": null, "content": <100 or more characters>}` | a null title is logged as "Untitled" and the save is read like any other: `extract_text_for_tts` already reads a null title as "Article" (line 95) | not executed; medium | Tts.ProcessSaveAsWritten, with Tts.NullTitleRaises | Tts.ProcessSave |
