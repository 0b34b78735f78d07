/** The text-to-speech worker (tts/tts.py): which saves get audio, how a save's
    markdown is turned into text to be read aloud, the 4500-word limit, and the
    decision to skip texts of fewer than 20 words. Speech synthesis, storage
    upload and the database are parameters. */
module Tts {
  import opened Base
  import opened Strs
  import opened Seqs
  import opened Rewrite
  import opened HtmlRender

  /** A row of `saves` as the worker reads it. */
  datatype TtsSave = TtsSave(id: string, title: Option<string>, content: Option<string>,
                             highlight: Option<string>, siteName: Option<string>)

  /** `save.get("content") or save.get("highlight") or ""`. */
  function SpokenSource(save: TtsSave): (text: string)
    ensures Truthy(save.content) ==> text == save.content.value
    ensures !Truthy(save.content) && Truthy(save.highlight) ==> text == save.highlight.value
    ensures !Truthy(save.content) && !Truthy(save.highlight) ==> text == ""
  {
    OrElse(save.content, OrElse(save.highlight, ""))
  }

  const MinContentLength := 100

  predicate HasContent(save: TtsSave)
  {
    |SpokenSource(save)| >= MinContentLength
  }

  /** `get_pending_saves()`: `fetched` is the query result, None when the request
      did not answer 200; the saves with at least 100 characters of content are
      kept, in order. */
  method GetPendingSaves(fetched: Option<seq<TtsSave>>) returns (pending: seq<TtsSave>)
    ensures fetched.None? ==> pending == []
    ensures fetched.Some? ==> pending == Filter(fetched.value, HasContent)
  {
    if fetched.None? {
      return [];
    }
    var saves := fetched.value;
    pending := [];
    for k := 0 to |saves|
      invariant pending == Filter(saves[..k], HasContent)
    {
      FilterSnoc(saves[..k], saves[k], HasContent);
      assert saves[..k + 1] == saves[..k] + [saves[k]];
      var content := SpokenSource(saves[k]);
      if |content| < MinContentLength {
        continue;
      }
      pending := pending + [saves[k]];
    }
    assert saves[..|saves|] == saves;
  }

  /** A save is pending exactly when it was fetched and has enough content. */
  lemma PendingExactly(saves: seq<TtsSave>, save: TtsSave)
    ensures save in Filter(saves, HasContent) <==> save in saves && |SpokenSource(save)| >= 100
  {
    FilterMembership(saves, HasContent, save);
  }

  // ---------------------------------------------------------------- the markdown rules

  /** Python's multiline `^`: the start of the text or just after a newline. */
  predicate AtPyLineStart(s: string, i: nat)
  {
    i == 0 || (i <= |s| && s[i - 1] == '\n')
  }

  function Not(d: char): char -> bool
  {
    c => c != d
  }

  function Is(d: char): char -> bool
  {
    c => c == d
  }

  /** `^#{1,6}\s+` (multiline) replaced by nothing. */
  function Heading(s: string, i: nat): Option<Hit>
  {
    if i < |s| && AtPyLineStart(s, i) then
      var h := RunEnd(s, i, Is('#'));
      if i < h <= i + 6 && h < |s| && IsPySpace(s[h]) then Some(Hit(RunEnd(s, h, IsPySpace), "")) else None
    else None
  }

  /** `\[([^\]]+)\]\([^)]+\)` replaced by the bracketed text. */
  function Link(s: string, i: nat): Option<Hit>
  {
    if i < |s| && s[i] == '[' then
      var j := RunEnd(s, i + 1, Not(']'));
      if i + 1 < j && j + 1 < |s| && s[j + 1] == '(' then
        var k := RunEnd(s, j + 2, Not(')'));
        if j + 2 < k < |s| then Some(Hit(k + 1, s[i + 1..j])) else None
      else None
    else None
  }

  /** `dd([^d]+)dd` when `twice`, `d([^d]+)d` otherwise: replaced by the inner
      text when `keep`, by nothing otherwise. */
  function Wrapped(s: string, i: nat, d: char, twice: bool, keep: bool): Option<Hit>
  {
    var n := if twice then 2 else 1;
    if i + n <= |s| && s[i] == d && (!twice || s[i + 1] == d) then
      var j := RunEnd(s, i + n, Not(d));
      if i + n < j && j + n <= |s| && (!twice || s[j + 1] == d) then
        Some(Hit(j + n, if keep then s[i + n..j] else ""))
      else None
    else None
  }

  /** `\*\*([^*]+)\*\*` replaced by the inner text. */
  function Bold(s: string, i: nat): Option<Hit>
  {
    Wrapped(s, i, '*', true, true)
  }

  /** `\*([^*]+)\*` replaced by the inner text. */
  function Italic(s: string, i: nat): Option<Hit>
  {
    Wrapped(s, i, '*', false, true)
  }

  /** `__([^_]+)__` replaced by the inner text. */
  function UnderscoreBold(s: string, i: nat): Option<Hit>
  {
    Wrapped(s, i, '_', true, true)
  }

  /** `_([^_]+)_` replaced by the inner text. */
  function UnderscoreItalic(s: string, i: nat): Option<Hit>
  {
    Wrapped(s, i, '_', false, true)
  }

  /** ```` ```[\s\S]*?``` ```` replaced by nothing: the shortest fenced block. */
  function Fence(s: string, i: nat): Option<Hit>
  {
    if OccursAt(s, "```", i) then
      match IndexOfFrom(s, "```", i + 3)
      case None => None
      case Some(j) => Some(Hit(j + 3, ""))
    else None
  }

  /** `` `[^`]+` `` replaced by nothing. */
  function InlineCode(s: string, i: nat): Option<Hit>
  {
    Wrapped(s, i, '`', false, false)
  }

  /** `^---+$` (multiline) replaced by nothing; the line break stays. */
  function Rule(s: string, i: nat): Option<Hit>
  {
    if i < |s| && AtPyLineStart(s, i) then
      var e := RunEnd(s, i, Is('-'));
      if e >= i + 3 && (e == |s| || s[e] == '\n') then Some(Hit(e, "")) else None
    else None
  }

  /** `!\[[^\]]*\]\([^)]+\)` replaced by nothing. */
  function Image(s: string, i: nat): Option<Hit>
  {
    if i + 1 < |s| && s[i] == '!' && s[i + 1] == '[' then
      var j := RunEnd(s, i + 2, Not(']'));
      if j + 1 < |s| && s[j + 1] == '(' then
        var k := RunEnd(s, j + 2, Not(')'));
        if j + 2 < k < |s| then Some(Hit(k + 1, "")) else None
      else None
    else None
  }

  /** `<[^>]+>` replaced by nothing. */
  function Tag(s: string, i: nat): Option<Hit>
  {
    if i < |s| && s[i] == '<' then
      var j := RunEnd(s, i + 1, Not('>'));
      if i + 1 < j < |s| then Some(Hit(j + 1, "")) else None
    else None
  }

  // ---------------------------------------------------------------- the text to be read

  /** The markdown rewrites of `extract_text_for_tts`, in their order. */
  function Demarked(content: string): string
  {
    var t1 := ReplaceAll(content, Heading);
    var t2 := ReplaceAll(t1, Link);
    var t3 := ReplaceAll(t2, Bold);
    var t4 := ReplaceAll(t3, Italic);
    var t5 := ReplaceAll(t4, UnderscoreBold);
    var t6 := ReplaceAll(t5, UnderscoreItalic);
    var t7 := ReplaceAll(t6, Fence);
    var t8 := ReplaceAll(t7, InlineCode);
    var t9 := ReplaceAll(t8, Rule);
    var t10 := ReplaceAll(t9, Image);
    ReplaceAll(t10, Tag)
  }

  /** Then the whitespace clean-up: `\n{3,}` to two newlines, and `strip()`. */
  function Unmarked(content: string): string
  {
    Strip(ReplaceAll(Demarked(content), BlankLines))
  }

  /** `f"{title}.\n\n{text}"`, the title defaulting to "Article". */
  function FullText(save: TtsSave): string
  {
    OrElse(save.title, "Article") + ".\n\n" + Unmarked(SpokenSource(save))
  }

  const MaxWords := 4500

  const PreviewEnd := "... End of article preview."

  /** `text.split()`. */
  function Words(text: string): seq<string>
  {
    Tokens(text, IsPySpace)
  }

  /** `extract_text_for_tts(save)`. */
  function TextForSpeech(save: TtsSave): (r: string)
    ensures |Words(FullText(save))| <= MaxWords ==> r == FullText(save)
    ensures |Words(FullText(save))| > MaxWords ==>
      r == Join(Words(FullText(save))[..MaxWords], " ") + PreviewEnd
  {
    var full := FullText(save);
    var words := Words(full);
    if |words| > MaxWords then Join(words[..MaxWords], " ") + PreviewEnd else full
  }

  /** The preview reads exactly the first 4500 words of the full text, separated
      by single spaces, and then says that it is a preview. */
  lemma PreviewReadsFirstWords(save: TtsSave)
    requires |Words(FullText(save))| > MaxWords
    ensures var kept := Join(Words(FullText(save))[..MaxWords], " ");
      Words(kept) == Words(FullText(save))[..MaxWords]
      && TextForSpeech(save) == kept + PreviewEnd
  {
    var words := Words(FullText(save))[..MaxWords];
    assert forall k :: 0 <= k < |words| ==> NonBlankWord(words[k], IsPySpace);
    TokensOfJoin(words, IsPySpace);
  }

  /** Text of at most 4500 words is read in full: the title, a full stop, a blank
      line and the content with its markdown removed. */
  lemma ShortTextReadInFull(save: TtsSave)
    requires |Words(FullText(save))| <= MaxWords
    ensures var title := if Truthy(save.title) then save.title.value else "Article";
      TextForSpeech(save) == title + ".\n\n" + Unmarked(SpokenSource(save))
  {
  }

  // ---------------------------------------------------------------- the shape of the body

  /** The whitespace clean-up leaves no leading or trailing whitespace and never
      three newlines in a row, whatever it is given. */
  lemma CleanedShape(t: string)
    ensures IsTrimmed(Strip(ReplaceAll(t, BlankLines)), IsPySpace)
    ensures NoTripleNewline(Strip(ReplaceAll(t, BlankLines)))
  {
    BlankNoTriple(t, 0);
    StripKeepsNoTripleNewline(ReplaceAll(t, BlankLines));
  }

  lemma StripKeepsNoTripleNewline(t: string)
    requires NoTripleNewline(t)
    ensures NoTripleNewline(Strip(t))
  {
    var a, b := TrimSlice(t, IsPySpace);
    NoTripleNewlineSlice(t, a, b);
  }

  /** Whatever the content, the body read aloud has no leading or trailing
      whitespace and never three newlines in a row. */
  lemma UnmarkedShape(content: string)
    ensures IsTrimmed(Unmarked(content), IsPySpace)
    ensures NoTripleNewline(Unmarked(content))
  {
    CleanedShape(Demarked(content));
  }

  // ---------------------------------------------------------------- what each rule does

  predicate Lacks(s: string, c: char)
  {
    forall k :: 0 <= k < |s| ==> s[k] != c
  }

  /** A rule that fires nowhere from `i` on leaves the rest of the text as it is. */
  lemma Unfired(m: Matcher, s: string, i: nat)
    requires i <= |s|
    requires forall k: nat :: i <= k < |s| ==> !Fires(m, s, k)
    ensures ReplaceFrom(s, i, m) == s[i..]
  {
    NeutralReplace(m, s, i);
  }

  /** The pieces of `[text](url)` written at `i` of `s`. */
  lemma LinkPieces(s: string, i: nat, text: string, url: string)
    requires i + |text| + |url| + 4 <= |s|
    requires s[i..i + |text| + |url| + 4] == "[" + text + "](" + url + ")"
    ensures s[i] == '[' && s[i + 1..i + 1 + |text|] == text
    ensures s[i + 1 + |text|] == ']' && s[i + 2 + |text|] == '('
    ensures s[i + 3 + |text|..i + 3 + |text| + |url|] == url && s[i + 3 + |text| + |url|] == ')'
  {
    var n := |text| + |url| + 4;
    var x := s[i..i + n];
    assert s[i] == x[0];
    SliceOfSlice(s, i, i + n, 1, 1 + |text|);
    assert x[1..1 + |text|] == text;
    assert s[i + 1 + |text|] == x[1 + |text|];
    assert s[i + 2 + |text|] == x[2 + |text|];
    SliceOfSlice(s, i, i + n, 3 + |text|, 3 + |text| + |url|);
    assert x[3 + |text|..3 + |text| + |url|] == url;
    assert s[i + 3 + |text| + |url|] == x[3 + |text| + |url|];
  }

  lemma SliceOfSlice(s: string, a: nat, b: nat, c: nat, d: nat)
    requires a <= b <= |s| && c <= d <= b - a
    ensures s[a..b][c..d] == s[a + c..a + d]
  {
    forall k | 0 <= k < d - c
      ensures s[a..b][c..d][k] == s[a + c..a + d][k]
    {
      assert s[a..b][c..d][k] == s[a..b][c + k] == s[a + c + k];
    }
  }

  /** A run of characters other than `d` over `piece`, stopped by a `d`. */
  lemma RunOverPiece(s: string, i: nat, piece: string, d: char)
    requires i + |piece| < |s| && s[i..i + |piece|] == piece && Lacks(piece, d) && s[i + |piece|] == d
    ensures RunEnd(s, i, Not(d)) == i + |piece|
  {
    forall k | i <= k < i + |piece|
      ensures Not(d)(s[k])
    {
      assert s[k] == piece[k - i];
    }
    RunEndAt(s, i, i + |piece|, Not(d));
  }

  /** The link `[text](url)` at `i` of `s`, when `text` and `url` are as the rule
      demands, ends right after `url`'s closing parenthesis. */
  lemma LinkAt(s: string, i: nat, text: string, url: string)
    requires text != "" && Lacks(text, ']') && url != "" && Lacks(url, ')')
    requires i + |text| + |url| + 4 <= |s|
    requires s[i..i + |text| + |url| + 4] == "[" + text + "](" + url + ")"
    ensures Link(s, i) == Some(Hit(i + |text| + |url| + 4, text))
  {
    LinkPieces(s, i, text, url);
    RunOverPiece(s, i + 1, text, ']');
    RunOverPiece(s, i + 3 + |text|, url, ')');
  }

  /** `[text](url)` is read as `text`. */
  lemma LinkKeepsText(text: string, url: string)
    requires text != "" && Lacks(text, ']') && url != "" && Lacks(url, ')')
    ensures ReplaceAll("[" + text + "](" + url + ")", Link) == text
  {
    var x := "[" + text + "](" + url + ")";
    LinkAt(x, 0, text, url);
    assert x[0..|x|] == x;
    assert ReplaceFrom(x, |x|, Link) == "";
  }

  /** Links are removed before images, so an image with alternative text loses
      only its brackets and target: `![alt](src)` is read as `!alt`. */
  lemma ImageWithAltReadAsLink(alt: string, src: string)
    requires alt != "" && Lacks(alt, ']') && Lacks(alt, '[') && src != "" && Lacks(src, ')')
    ensures ReplaceAll(ReplaceAll("![" + alt + "](" + src + ")", Link), Image) == "!" + alt
  {
    var x := "![" + alt + "](" + src + ")";
    assert x[1..] == "[" + alt + "](" + src + ")";
    LinkAt(x, 1, alt, src);
    assert !Fires(Link, x, 0);
    assert ReplaceFrom(x, |x|, Link) == "";
    assert ReplaceFrom(x, 1, Link) == alt;
    assert ReplaceAll(x, Link) == "!" + alt;
    var y := "!" + alt;
    forall k: nat | k < |y|
      ensures !Fires(Image, y, k)
    {
      if k + 1 < |y| {
        assert y[k + 1] == alt[k] != '[';
      }
    }
    Unfired(Image, y, 0);
  }

  /** An image without alternative text is left alone by the link rule and
      removed by the image rule. */
  lemma ImageWithoutAltRemoved(src: string)
    requires src != "" && Lacks(src, ')') && Lacks(src, '[')
    ensures ReplaceAll("![](" + src + ")", Link) == "![](" + src + ")"
    ensures ReplaceAll("![](" + src + ")", Image) == ""
  {
    var x := "![](" + src + ")";
    forall k: nat | k < |x|
      ensures !Fires(Link, x, k)
    {
      if k == 1 {
        assert x[2] == ']';
        RunEndAt(x, 2, 2, Not(']'));
      } else if k >= 4 && k < |x| - 1 {
        assert x[k] == src[k - 4];
      }
    }
    Unfired(Link, x, 0);
    assert x[0..] == x;
    RunEndAt(x, 2, 2, Not(']'));
    forall k | 4 <= k < |x| - 1
      ensures Not(')')(x[k])
    {
      assert x[k] == src[k - 4];
    }
    RunEndAt(x, 4, |x| - 1, Not(')'));
    assert Image(x, 0) == Some(Hit(|x|, ""));
    assert ReplaceFrom(x, |x|, Image) == "";
  }

  /** An inline code span `` `code` `` is not read at all. */
  lemma InlineCodeRemoved(code: string)
    requires code != "" && Lacks(code, '`')
    ensures ReplaceAll("`" + code + "`", InlineCode) == ""
  {
    var x := "`" + code + "`";
    forall k | 1 <= k < |x| - 1
      ensures Not('`')(x[k])
    {
      assert x[k] == code[k - 1];
    }
    RunEndAt(x, 1, |x| - 1, Not('`'));
    assert InlineCode(x, 0) == Some(Hit(|x|, ""));
    assert ReplaceFrom(x, |x|, InlineCode) == "";
  }

  /** A fenced block is not read at all, whatever it holds between its fences. */
  lemma FenceRemoved(body: string)
    requires Lacks(body, '`')
    ensures ReplaceAll("```" + body + "```", Fence) == ""
  {
    var x := "```" + body + "```";
    var e := 3 + |body|;
    assert OccursAt(x, "```", 0) by {
      assert x[0..3] == "```";
    }
    assert OccursAt(x, "```", e) by {
      assert x[e..e + 3] == "```";
    }
    forall k: nat | 3 <= k < e
      ensures !OccursAt(x, "```", k)
    {
      assert x[k] == body[k - 3];
    }
    assert Fence(x, 0) == Some(Hit(|x|, ""));
    assert ReplaceFrom(x, |x|, Fence) == "";
  }

  /** An HTML tag is not read. */
  lemma TagRemoved(t: string)
    requires t != "" && Lacks(t, '>')
    ensures ReplaceAll("<" + t + ">", Tag) == ""
  {
    var x := "<" + t + ">";
    forall k | 1 <= k < |x| - 1
      ensures Not('>')(x[k])
    {
      assert x[k] == t[k - 1];
    }
    RunEndAt(x, 1, |x| - 1, Not('>'));
    assert Tag(x, 0) == Some(Hit(|x|, ""));
    assert ReplaceFrom(x, |x|, Tag) == "";
  }

  /** A heading's marks and the spaces after them are not read: `## Title` is read
      as `Title`. */
  lemma HeadingMarksRemoved(n: nat, title: string)
    requires 1 <= n <= 6
    requires title != "" && !IsPySpace(title[0]) && Lacks(title, '\n')
    ensures ReplaceAll(Repeat('#', n) + " " + title, Heading) == title
  {
    var x := Repeat('#', n) + " " + title;
    assert x[n] == ' ' && x[n + 1] == title[0];
    RunEndAt(x, 0, n, Is('#'));
    RunEndAt(x, n, n + 1, IsPySpace);
    assert Heading(x, 0) == Some(Hit(n + 1, ""));
    forall k: nat | n + 1 <= k < |x|
      ensures !Fires(Heading, x, k)
    {
      assert x[k - 1] == ' ' || x[k - 1] == title[k - n - 2];
    }
    Unfired(Heading, x, n + 1);
    assert x[n + 1..] == title;
  }

  /** The text read aloud, before the word limit: the title, a full stop, a blank
      line, then a body with no surrounding whitespace and no three newlines in a
      row. */
  lemma FullTextShape(save: TtsSave)
    ensures var head := (if Truthy(save.title) then save.title.value else "Article") + ".\n\n";
      var body := FullText(save)[|head|..];
      && StartsWith(FullText(save), head)
      && body == Unmarked(SpokenSource(save))
      && IsTrimmed(body, IsPySpace) && NoTripleNewline(body)
  {
    HeadAndBody(FullText(save), OrElse(save.title, "Article") + ".\n\n", Unmarked(SpokenSource(save)));
    UnmarkedShape(SpokenSource(save));
  }

  lemma HeadAndBody(whole: string, head: string, body: string)
    requires whole == head + body
    ensures StartsWith(whole, head) && whole[|head|..] == body
  {
    assert whole[..|head|] == head;
  }

  // ---------------------------------------------------------------- one save

  const MinWords := 20

  /** Where the uploaded audio is served: `{base}/storage/v1/object/public/audio/{id}.mp3`. */
  function AudioUrl(baseUrl: string, id: string): string
  {
    baseUrl + "/storage/v1/object/public/audio/" + id + ".mp3"
  }

  /** `process_save(save)`: the text is prepared; fewer than 20 words and nothing
      is synthesized. Otherwise the text is `spoken`, and the three steps that can
      raise (synthesis, upload, recording the URL) are given by whether they fail;
      `recorded` is the `audio_url` written to the save. */
  method ProcessSave(save: TtsSave, baseUrl: string, synthesisFails: bool, uploadFails: bool, updateFails: bool)
    returns (done: bool, spoken: Option<string>, recorded: Option<string>)
    ensures spoken.Some? <==> |Words(TextForSpeech(save))| >= MinWords
    ensures spoken.Some? ==> spoken.value == TextForSpeech(save)
    ensures done <==> spoken.Some? && !synthesisFails && !uploadFails && !updateFails
    ensures recorded.Some? <==> done
    ensures recorded.Some? ==> recorded.value == AudioUrl(baseUrl, save.id)
  {
    var text := TextForSpeech(save);
    var wordCount := |Words(text)|;
    if wordCount < MinWords {
      return false, None, None;
    }
    spoken := Some(text);
    if synthesisFails || uploadFails {
      return false, spoken, None;
    }
    var audioUrl := AudioUrl(baseUrl, save.id);
    if updateFails {
      return false, spoken, None;
    }
    done, recorded := true, Some(audioUrl);
  }

  // ---------------------------------------------------------------- the log title

  /** The title `process_save` logs, `save.get("title", "Untitled")[:50]`, with None
      for the TypeError Python raises when slicing a null title: the default
      applies only to a missing key, and the query always returns the key. */
  function LoggedTitle(save: TtsSave): (r: Option<string>)
    ensures r.None? <==> save.title.None?
    ensures r.Some? ==> |r.value| <= 50 && StartsWith(save.title.value, r.value)
  {
    if save.title.None? then None else Some(Prefix(save.title.value, 50))
  }

  /** `process_save` as written: the log title is computed before the `try`, so a
      null title raises (`raised`) before any text is prepared; every other save
      is processed as `ProcessSave` does. */
  method ProcessSaveAsWritten(save: TtsSave, baseUrl: string, synthesisFails: bool, uploadFails: bool,
                              updateFails: bool)
    returns (raised: bool, done: bool, spoken: Option<string>, recorded: Option<string>)
    ensures raised <==> save.title.None?
    ensures raised ==> !done && spoken.None? && recorded.None?
    ensures !raised ==> (spoken.Some? <==> |Words(TextForSpeech(save))| >= MinWords)
    ensures !raised && spoken.Some? ==> spoken.value == TextForSpeech(save)
    ensures !raised ==> (done <==> spoken.Some? && !synthesisFails && !uploadFails && !updateFails)
    ensures !raised ==> (recorded.Some? <==> done)
    ensures recorded.Some? ==> recorded.value == AudioUrl(baseUrl, save.id)
  {
    var title := LoggedTitle(save);
    if title.None? {
      return true, false, None, None;
    }
    raised := false;
    done, spoken, recorded := ProcessSave(save, baseUrl, synthesisFails, uploadFails, updateFails);
  }

  /** The discrepancy: a pending save whose title is null has a text to read, which
      opens with the default title "Article", yet the code as written raises on it. */
  lemma NullTitleRaises(save: TtsSave)
    requires save.title.None? && HasContent(save)
    ensures LoggedTitle(save).None?
    ensures StartsWith(FullText(save), "Article.\n\n")
    ensures FullText(save)[|"Article.\n\n"|..] == Unmarked(SpokenSource(save))
  {
    UntitledText(save);
  }

  /** Without a title, the text read aloud opens with "Article.". */
  lemma UntitledText(save: TtsSave)
    requires save.title.None?
    ensures StartsWith(FullText(save), "Article.\n\n")
    ensures FullText(save)[|"Article.\n\n"|..] == Unmarked(SpokenSource(save))
  {
    assert OrElse(save.title, "Article") == "Article";
    UntitledHead(FullText(save), Unmarked(SpokenSource(save)));
  }

  lemma UntitledHead(whole: string, body: string)
    requires whole == "Article" + ".\n\n" + body
    ensures StartsWith(whole, "Article.\n\n") && whole[|"Article.\n\n"|..] == body
  {
    assert "Article" + ".\n\n" == "Article.\n\n";
    HeadAndBody(whole, "Article.\n\n", body);
  }
}
