/** The article extraction of the browser extension's content script
    (extension/content.js): the boilerplate test, the tiered fallback extraction,
    the clean-up of fallback text, the choice between the Readability result and
    the fallback, and the metadata chains. */
module ContentScript {
  import opened Base
  import opened Strs
  import opened Seqs
  import opened Rewrite
  import opened Dom
  import opened HtmlRender

  // ---------------------------------------------------------------- isBoilerplate

  const BoilerplatePatterns: seq<string> := [
    "subscribe", "sign up for", "newsletter", "follow us", "share this",
    "related articles", "recommended", "advertisement", "sponsored", "cookie",
    "privacy policy", "terms of service", "all rights reserved", "featured video",
    "watch now", "read more", "see also"
  ]

  /** `isBoilerplate`: the lower-cased text contains one of the fixed patterns. */
  predicate IsBoilerplate(text: string)
  {
    exists k :: 0 <= k < |BoilerplatePatterns| && Contains(Lower(text), BoilerplatePatterns[k])
  }

  lemma LowerTwice(s: string)
    ensures Lower(Lower(s)) == Lower(s)
  {
  }

  /** The test ignores ASCII letter case. */
  lemma BoilerplateIgnoresCase(text: string)
    ensures IsBoilerplate(Lower(text)) <==> IsBoilerplate(text)
  {
    LowerTwice(text);
  }

  lemma BoilerplateExample()
    ensures IsBoilerplate("Subscribe to our newsletter")
  {
    var lower := Lower("Subscribe to our newsletter");
    assert lower[..9] == "subscribe";
    assert OccursAt(lower, BoilerplatePatterns[0], 0);
  }

  /** No pattern is shorter than "cookie", so shorter texts never count. */
  lemma ShortTextIsNotBoilerplate(text: string)
    requires |text| < 6
    ensures !IsBoilerplate(text)
  {
    forall k, i: nat | 0 <= k < |BoilerplatePatterns| && i <= |Lower(text)|
      ensures !OccursAt(Lower(text), BoilerplatePatterns[k], i)
    {
      assert |BoilerplatePatterns[k]| >= 6;
    }
  }

  /** A pattern holding a character that is not among `s`'s characters does not
      occur in `s`. */
  lemma AbsentChar(s: string, cs: set<char>, p: string, m: nat)
    requires forall i :: 0 <= i < |s| ==> s[i] in cs
    requires m < |p| && p[m] !in cs
    ensures !Contains(s, p)
  {
    forall i: nat | i <= |s| ensures !OccursAt(s, p, i) {
      if i + |p| <= |s| {
        assert s[i..i + |p|][m] == s[i + m] != p[m];
      }
    }
  }

  /** A pattern holding two adjacent characters that never follow each other in `s`
      does not occur in `s`. */
  lemma AbsentPair(s: string, p: string, m: nat)
    requires m + 1 < |p|
    requires forall i :: 0 <= i < |s| - 1 && s[i] == p[m] ==> s[i + 1] != p[m + 1]
    ensures !Contains(s, p)
  {
    forall i: nat | i <= |s| ensures !OccursAt(s, p, i) {
      if i + |p| <= |s| {
        assert s[i..i + |p|][m] == s[i + m];
        assert s[i..i + |p|][m + 1] == s[i + m + 1];
        assert s[i..i + |p|][m] != p[m] || s[i..i + |p|][m + 1] != p[m + 1];
      }
    }
  }

  const CommitteeText := "The committee voted yesterday"
  const CommitteeLetters := {'t', 'h', 'e', ' ', 'c', 'o', 'm', 'i', 'v', 'd', 'y', 's', 'r', 'a'}

  lemma CommitteeLettersCover()
    ensures forall i :: 0 <= i < |Lower(CommitteeText)| ==> Lower(CommitteeText)[i] in CommitteeLetters
  {
    forall i | 0 <= i < |CommitteeText| ensures LowerChar(CommitteeText[i]) in CommitteeLetters {
    }
  }

  /** In the lower-cased sentence no "s" is followed by "h" and no "r" by "e". */
  lemma CommitteePairs()
    ensures forall i :: 0 <= i < |Lower(CommitteeText)| - 1 && Lower(CommitteeText)[i] == 's' ==> Lower(CommitteeText)[i + 1] != 'h'
    ensures forall i :: 0 <= i < |Lower(CommitteeText)| - 1 && Lower(CommitteeText)[i] == 'r' ==> Lower(CommitteeText)[i + 1] != 'e'
  {
    forall i | 0 <= i < |CommitteeText| - 1 && LowerChar(CommitteeText[i]) in {'s', 'r'}
      ensures i == 22 || i == 25
    {
    }
  }

  lemma CommitteeLacksFirst()
    ensures forall k :: 0 <= k < 9 ==> !Contains(Lower(CommitteeText), BoilerplatePatterns[k])
  {
    var s := Lower(CommitteeText);
    CommitteeLettersCover();
    CommitteePairs();
    AbsentChar(s, CommitteeLetters, BoilerplatePatterns[0], 1);
    AbsentChar(s, CommitteeLetters, BoilerplatePatterns[1], 2);
    AbsentChar(s, CommitteeLetters, BoilerplatePatterns[2], 0);
    AbsentChar(s, CommitteeLetters, BoilerplatePatterns[3], 0);
    AbsentPair(s, BoilerplatePatterns[4], 0);
    AbsentChar(s, CommitteeLetters, BoilerplatePatterns[5], 2);
    AbsentChar(s, CommitteeLetters, BoilerplatePatterns[6], 7);
    AbsentChar(s, CommitteeLetters, BoilerplatePatterns[7], 11);
    AbsentChar(s, CommitteeLetters, BoilerplatePatterns[8], 1);
  }

  lemma CommitteeLacksRest()
    ensures forall k :: 9 <= k < |BoilerplatePatterns| ==> !Contains(Lower(CommitteeText), BoilerplatePatterns[k])
  {
    var s := Lower(CommitteeText);
    CommitteeLettersCover();
    CommitteePairs();
    AbsentChar(s, CommitteeLetters, BoilerplatePatterns[9], 3);
    AbsentChar(s, CommitteeLetters, BoilerplatePatterns[10], 0);
    AbsentChar(s, CommitteeLetters, BoilerplatePatterns[11], 7);
    AbsentChar(s, CommitteeLetters, BoilerplatePatterns[12], 1);
    AbsentChar(s, CommitteeLetters, BoilerplatePatterns[13], 0);
    AbsentChar(s, CommitteeLetters, BoilerplatePatterns[14], 0);
    AbsentPair(s, BoilerplatePatterns[15], 0);
    AbsentChar(s, CommitteeLetters, BoilerplatePatterns[16], 5);
  }

  /** An ordinary sentence is not boilerplate: every pattern has a letter, or a pair
      of letters, that the sentence lacks. */
  lemma CommitteeNotBoilerplate()
    ensures !IsBoilerplate(CommitteeText)
  {
    CommitteeLacksFirst();
    CommitteeLacksRest();
  }

  // ---------------------------------------------------------------- extractTextFromElement

  /** `p, h1, h2, h3, h4, h5, h6, li, blockquote`. */
  const BlockGroup: seq<Selector> := [
    TagSel("p"), TagSel("h1"), TagSel("h2"), TagSel("h3"), TagSel("h4"),
    TagSel("h5"), TagSel("h6"), TagSel("li"), TagSel("blockquote")
  ]

  predicate IsElementBlock(text: string)
  {
    text != "" && |text| > 20 && !IsBoilerplate(text)
  }

  /** The texts `extractTextFromElement` keeps, in document order. */
  function KeptBlocks(el: Node): seq<string>
  {
    Filter(Map(QueryAll(el, BlockGroup), TrimmedInnerText), IsElementBlock)
  }

  /** A text is kept iff some matched block has it as trimmed text and it is longer
      than 20 characters and not boilerplate. */
  lemma KeptBlocksExactly(el: Node, t: string)
    ensures t in KeptBlocks(el) <==> t in Map(QueryAll(el, BlockGroup), TrimmedInnerText) && |t| > 20 && !IsBoilerplate(t)
  {
    FilterMembership(Map(QueryAll(el, BlockGroup), TrimmedInnerText), IsElementBlock, t);
  }

  /** `extractTextFromElement`. */
  method ExtractTextFromElement(el: Node) returns (text: string)
    ensures text == Join(KeptBlocks(el), "\n\n")
  {
    var blocks := QueryAll(el, BlockGroup);
    var paragraphs := CollectTexts(blocks, IsElementBlock);
    text := Join(paragraphs, "\n\n");
  }

  // ---------------------------------------------------------------- extractFallbackContent

  /** The curated container selectors, in the order they are tried. */
  const CuratedSelectors: seq<Selector> := [
    TagSel("article"),
    AttrEqSel("", "role", "article"),
    ClassSel("article-body"),
    ClassSel("article-content"),
    ClassSel("post-content"),
    ClassSel("entry-content"),
    ClassSel("story-body"),
    Under(TagSel("main"), TagSel("article")),
    Under(TagSel("main"), ClassSel("content")),
    ClassSel("c-entry-content"),
    ClassSel("article__body")
  ]

  /** The text of the first element matching curated selector `j`, if there is one. */
  function CuratedText(d: Document, j: nat): Option<string>
    requires j < |CuratedSelectors|
  {
    match DocQueryFirst(d, [CuratedSelectors[j]])
    case None => None
    case Some(el) => Some(Join(KeptBlocks(el), "\n\n"))
  }

  /** Selector `j` finds an element whose text is longer than 500 characters. */
  predicate Qualifies(d: Document, j: nat)
    requires j < |CuratedSelectors|
  {
    CuratedText(d, j).Some? && |CuratedText(d, j).value| > 500
  }

  /** The first selector from `k` on that qualifies. */
  function FirstQualifying(d: Document, k: nat): (r: Option<nat>)
    requires k <= |CuratedSelectors|
    decreases |CuratedSelectors| - k
    ensures r.Some? ==> k <= r.value < |CuratedSelectors| && Qualifies(d, r.value)
    ensures r.Some? ==> forall i :: k <= i < r.value ==> !Qualifies(d, i)
    ensures r.None? ==> forall i :: k <= i < |CuratedSelectors| ==> !Qualifies(d, i)
  {
    if k == |CuratedSelectors| then None
    else if Qualifies(d, k) then Some(k)
    else FirstQualifying(d, k + 1)
  }

  /** `document.querySelector('main') || document.querySelector('article') || document.body`. */
  function MainContent(d: Document): Node
  {
    match DocQueryFirst(d, [TagSel("main")])
    case Some(m) => m
    case None =>
      match DocQueryFirst(d, [TagSel("article")])
      case Some(a) => a
      case None => d.body
  }

  predicate IsFallbackParagraph(text: string)
  {
    text != "" && |text| > 50 && !IsBoilerplate(text)
  }

  /** The paragraph texts of the second tier, in document order. */
  function FallbackParagraphs(d: Document): seq<string>
  {
    Filter(Map(QueryAll(MainContent(d), [TagSel("p")]), TrimmedInnerText), IsFallbackParagraph)
  }

  /** What `extractFallbackContent` returns. */
  function FallbackContent(d: Document): string
  {
    match FirstQualifying(d, 0)
    case Some(j) => CuratedText(d, j).value
    case None =>
      if FallbackParagraphs(d) != [] then Join(FallbackParagraphs(d), "\n\n")
      else Prefix(InnerText(d.body), 50000)
  }

  /** The three tiers: the text of the first curated selector whose text is longer
      than 500 characters; else the long, non-boilerplate paragraphs of the main
      area; else at most 50000 characters of the body text. */
  lemma FallbackCuratedTier(d: Document, j: nat)
    requires j < |CuratedSelectors| && Qualifies(d, j)
    requires forall i :: 0 <= i < j ==> !Qualifies(d, i)
    ensures FallbackContent(d) == CuratedText(d, j).value
    ensures |FallbackContent(d)| > 500
  {
    FirstQualifyingAt(d, 0, j);
  }

  /** The search from `k` stops at the first qualifying selector. */
  lemma FirstQualifyingAt(d: Document, k: nat, j: nat)
    requires k <= j < |CuratedSelectors| && Qualifies(d, j)
    requires forall i :: k <= i < j ==> !Qualifies(d, i)
    ensures FirstQualifying(d, k) == Some(j)
  {
  }

  lemma FallbackParagraphTier(d: Document)
    requires forall j :: 0 <= j < |CuratedSelectors| ==> !Qualifies(d, j)
    ensures FallbackParagraphs(d) != [] ==> FallbackContent(d) == Join(FallbackParagraphs(d), "\n\n")
    ensures FallbackParagraphs(d) == [] ==> FallbackContent(d) == Prefix(InnerText(d.body), 50000)
    ensures FallbackParagraphs(d) == [] ==> |FallbackContent(d)| <= 50000
    ensures forall k :: 0 <= k < |FallbackParagraphs(d)| ==>
      |FallbackParagraphs(d)[k]| > 50 && !IsBoilerplate(FallbackParagraphs(d)[k])
  {
    assert FirstQualifying(d, 0).None?;
  }

  /** `extractFallbackContent`: tries the curated selectors in order with an early
      return, then collects paragraphs, then cuts the body text. */
  method ExtractFallbackContent(d: Document) returns (text: string)
    ensures text == FallbackContent(d)
  {
    for k := 0 to |CuratedSelectors|
      invariant FirstQualifying(d, k) == FirstQualifying(d, 0)
    {
      var el := DocQueryFirst(d, [CuratedSelectors[k]]);
      if el.Some? {
        var t := ExtractTextFromElement(el.value);
        if |t| > 500 {
          assert Qualifies(d, k);
          return t;
        }
      }
      assert !Qualifies(d, k);
    }
    var mainContent := MainContent(d);
    var ps := QueryAll(mainContent, [TagSel("p")]);
    var paragraphs := CollectTexts(ps, IsFallbackParagraph);
    if |paragraphs| > 0 {
      return Join(paragraphs, "\n\n");
    }
    return Prefix(InnerText(d.body), 50000);
  }

  // ---------------------------------------------------------------- cleanContent

  /** The interface words removed by `cleanContent`, lower-cased. */
  const UiLabels: seq<string> := ["share", "tweet", "email", "print", "save"]

  /** `w` occurs at `i`, ignoring ASCII letter case (what the `i` flag does for
      these letters). */
  predicate LabelAt(s: string, i: nat, w: string)
  {
    i + |w| <= |s| && Lower(s[i..i + |w|]) == w
  }

  /** The length of the interface word at `i`, trying the words from `k` on. */
  function LabelLength(s: string, i: nat, k: nat): (r: Option<nat>)
    requires k <= |UiLabels|
    decreases |UiLabels| - k
    ensures r.Some? ==> exists j :: k <= j < |UiLabels| && LabelAt(s, i, UiLabels[j]) && r.value == |UiLabels[j]|
    ensures r.Some? ==> 0 < r.value && i + r.value <= |s|
    ensures r.None? ==> forall j :: k <= j < |UiLabels| ==> !LabelAt(s, i, UiLabels[j])
  {
    if k == |UiLabels| then None
    else if LabelAt(s, i, UiLabels[k]) then Some(|UiLabels[k]|)
    else LabelLength(s, i, k + 1)
  }

  /** Where a multiline `^` matches: at the start or after a line terminator. */
  predicate AtLineStart(s: string, i: nat)
  {
    i == 0 || (i <= |s| && IsLineTerminator(s[i - 1]))
  }

  /** `/^(Share|Tweet|Email|Print|Save)[\s\n]+/gim` replaced by nothing. */
  function LineStartLabel(s: string, i: nat): Option<Hit>
  {
    if i < |s| && AtLineStart(s, i) then
      match LabelLength(s, i, 0)
      case Some(n) =>
        if i + n < |s| && IsJsSpace(s[i + n]) then Some(Hit(RunEnd(s, i + n, IsJsSpace), "")) else None
      case None => None
    else None
  }

  /** `/\n(Share|Tweet|Email|Print|Save)\n/gi` replaced by a newline. */
  function LabelLine(s: string, i: nat): Option<Hit>
  {
    if i < |s| && s[i] == '\n' then
      match LabelLength(s, i + 1, 0)
      case Some(n) => if i + 1 + n < |s| && s[i + 1 + n] == '\n' then Some(Hit(i + n + 2, "\n")) else None
      case None => None
    else None
  }

  /** A word found at `i` fixes the lower-cased characters there. */
  lemma LabelChar(s: string, i: nat, w: string, m: nat)
    requires LabelAt(s, i, w) && m < |w|
    ensures LowerChar(s[i + m]) == w[m]
  {
    assert Lower(s[i..i + |w|])[m] == LowerChar(s[i..i + |w|][m]);
  }

  /** At most one of the words occurs at a position: no two share their first two
      letters. */
  lemma LabelsExclusive(s: string, i: nat, j1: nat, j2: nat)
    requires j1 < j2 < |UiLabels|
    ensures !(LabelAt(s, i, UiLabels[j1]) && LabelAt(s, i, UiLabels[j2]))
  {
    if LabelAt(s, i, UiLabels[j1]) {
      assert UiLabels[j1][0] != UiLabels[j2][0] || UiLabels[j1][1] != UiLabels[j2][1];
      LabelDiffers(s, i, UiLabels[j1], UiLabels[j2]);
    }
  }

  /** Words that differ in one of their first two letters do not occur at the same
      position. */
  lemma LabelDiffers(s: string, i: nat, w1: string, w2: string)
    requires LabelAt(s, i, w1) && |w1| >= 2 && |w2| >= 2
    requires w1[0] != w2[0] || w1[1] != w2[1]
    ensures !LabelAt(s, i, w2)
  {
    LabelChar(s, i, w1, 0);
    LabelChar(s, i, w1, 1);
    if i + |w2| <= |s| {
      assert Lower(s[i..i + |w2|])[0] == LowerChar(s[i]);
      assert Lower(s[i..i + |w2|])[1] == LowerChar(s[i + 1]);
    }
  }

  /** The alternation finds the word that occurs, whichever it is. */
  lemma {:induction false} LabelLengthOf(s: string, i: nat, j: nat, k: nat)
    requires k <= j < |UiLabels| && LabelAt(s, i, UiLabels[j])
    decreases j - k
    ensures LabelLength(s, i, k) == Some(|UiLabels[j]|)
  {
    if k < j {
      LabelsExclusive(s, i, k, j);
      assert !LabelAt(s, i, UiLabels[k]);
      LabelLengthOf(s, i, j, k + 1);
    }
  }

  /** The line-start rule for each word in any letter case: at the start of a line,
      the word and the whitespace run after it are deleted. */
  lemma LineStartLabelDeleted(s: string, i: nat, j: nat)
    requires j < |UiLabels| && i < |s| && AtLineStart(s, i) && LabelAt(s, i, UiLabels[j])
    requires i + |UiLabels[j]| < |s| && IsJsSpace(s[i + |UiLabels[j]|])
    ensures ReplaceFrom(s, i, LineStartLabel) == ReplaceFrom(s, RunEnd(s, i + |UiLabels[j]|, IsJsSpace), LineStartLabel)
  {
    LabelLengthOf(s, i, j, 0);
    LineStartHit(s, i, j);
  }

  lemma LineStartHit(s: string, i: nat, j: nat)
    requires j < |UiLabels| && i < |s| && AtLineStart(s, i) && LabelLength(s, i, 0) == Some(|UiLabels[j]|)
    requires i + |UiLabels[j]| < |s| && IsJsSpace(s[i + |UiLabels[j]|])
    ensures ReplaceFrom(s, i, LineStartLabel) == ReplaceFrom(s, RunEnd(s, i + |UiLabels[j]|, IsJsSpace), LineStartLabel)
  {
    var e := RunEnd(s, i + |UiLabels[j]|, IsJsSpace);
    var h := LineStartLabel(s, i);
    assert h.Some? && h.value.end == e && h.value.replacement == "";
    ReplaceStep(s, i, LineStartLabel, e, "");
  }

  /** Only a word at the start of a line, followed by whitespace, is deleted. */
  lemma LineStartLabelOnlyWords(s: string, i: nat)
    requires Fires(LineStartLabel, s, i)
    ensures AtLineStart(s, i)
    ensures exists j :: (0 <= j < |UiLabels| && LabelAt(s, i, UiLabels[j])
      && i + |UiLabels[j]| < |s| && IsJsSpace(s[i + |UiLabels[j]|]))
  {
  }

  /** The line rule for each word in any letter case: a line holding only the word
      is reduced to the newline before it. */
  lemma LabelLineDeleted(s: string, i: nat, j: nat)
    requires j < |UiLabels| && i < |s| && s[i] == '\n' && LabelAt(s, i + 1, UiLabels[j])
    requires i + 1 + |UiLabels[j]| < |s| && s[i + 1 + |UiLabels[j]|] == '\n'
    ensures ReplaceFrom(s, i, LabelLine) == "\n" + ReplaceFrom(s, i + |UiLabels[j]| + 2, LabelLine)
  {
    LabelLengthOf(s, i + 1, j, 0);
    LabelLineHit(s, i, j);
  }

  lemma LabelLineHit(s: string, i: nat, j: nat)
    requires j < |UiLabels| && i < |s| && s[i] == '\n' && LabelLength(s, i + 1, 0) == Some(|UiLabels[j]|)
    requires i + 1 + |UiLabels[j]| < |s| && s[i + 1 + |UiLabels[j]|] == '\n'
    ensures ReplaceFrom(s, i, LabelLine) == "\n" + ReplaceFrom(s, i + |UiLabels[j]| + 2, LabelLine)
  {
    var e := i + |UiLabels[j]| + 2;
    var h := LabelLine(s, i);
    assert h.Some? && h.value.end == e && h.value.replacement == "\n";
    ReplaceStep(s, i, LabelLine, e, "\n");
  }

  /** Only a newline, a word and a newline are reduced. */
  lemma LabelLineOnlyWords(s: string, i: nat)
    requires Fires(LabelLine, s, i)
    ensures s[i] == '\n'
    ensures exists j :: (0 <= j < |UiLabels| && LabelAt(s, i + 1, UiLabels[j])
      && i + 1 + |UiLabels[j]| < |s| && s[i + 1 + |UiLabels[j]|] == '\n')
  {
    var r := LabelLength(s, i + 1, 0);
    assert r.Some? && i + 1 + r.value < |s| && s[i + 1 + r.value] == '\n';
    var j :| 0 <= j < |UiLabels| && LabelAt(s, i + 1, UiLabels[j]) && r.value == |UiLabels[j]|;
    assert s[i + 1 + |UiLabels[j]|] == '\n';
  }

  /** `cleanContent`. */
  function CleanContent(text: string): string
  {
    if text == "" then ""
    else
      var s1 := ReplaceAll(text, BlankLines);
      var s2 := ReplaceAll(s1, CollapseSpaces);
      var s3 := ReplaceAll(s2, LineStartLabel);
      var s4 := ReplaceAll(s3, LabelLine);
      Trim(s4)
  }

  /** No tab and no two spaces or tabs in a row. */
  predicate SingleSpaced(s: string)
  {
    NoTab(s) && NoBadPair(s, TwoSpaces)
  }

  lemma SingleSpacedAppend(x: string, o: string)
    requires SingleSpaced(x) && SingleSpaced(o)
    requires x != [] && o != [] ==> !TwoSpaces(x[|x| - 1], o[0])
    ensures SingleSpaced(x + o)
  {
    PairsAppend(x, o, TwoSpaces);
    var s := x + o;
    forall i | 0 <= i < |s| ensures s[i] != '\t' {
      if i >= |x| {
        assert s[i] == o[i - |x|];
      }
    }
  }

  lemma SingleSpacedSlice(s: string, a: nat, b: nat)
    requires a <= b <= |s| && SingleSpaced(s)
    ensures SingleSpaced(s[a..b])
  {
    PairsSlice(s, a, b, TwoSpaces);
  }

  /** Removing, by a pattern that never matches right after a space or tab, keeps
      text single-spaced; where nothing is removed, the character is copied. */
  lemma {:induction false} DeletionShape(s: string, i: nat, m: Matcher)
    requires i <= |s| && SingleSpaced(s)
    requires forall k: nat :: k < |s| && Fires(m, s, k) ==> m(s, k).value.replacement == ""
    requires forall k: nat :: k + 1 < |s| && IsHSpace(s[k]) ==> !Fires(m, s, k + 1)
    decreases |s| - i
    ensures SingleSpaced(ReplaceFrom(s, i, m))
    ensures i < |s| && !Fires(m, s, i) ==> ReplaceFrom(s, i, m) != [] && ReplaceFrom(s, i, m)[0] == s[i]
  {
    if i < |s| {
      if Fires(m, s, i) {
        var e := m(s, i).value.end;
        DeletionShape(s, e, m);
        assert ReplaceFrom(s, i, m) == "" + ReplaceFrom(s, e, m);
      } else {
        DeletionShape(s, i + 1, m);
        var rest := ReplaceFrom(s, i + 1, m);
        assert ReplaceFrom(s, i, m) == [s[i]] + rest;
        if i + 1 < |s| && IsHSpace(s[i]) {
          assert !TwoSpaces(s[i], s[i + 1]);
        }
        assert s[i] != '\t';
        SingleSpacedAppend([s[i]], rest);
      }
    }
  }

  /** Removing interface words at line starts keeps text single-spaced: a space or
      tab never ends a line. */
  lemma LineStartShape(s: string)
    requires SingleSpaced(s)
    ensures SingleSpaced(ReplaceAll(s, LineStartLabel))
  {
    forall k: nat | k + 1 < |s| && IsHSpace(s[k]) ensures !Fires(LineStartLabel, s, k + 1) {
      assert !AtLineStart(s, k + 1);
    }
    DeletionShape(s, 0, LineStartLabel);
  }

  /** Replacing, by a line break, a pattern that only matches at a line break keeps
      text single-spaced; the output starts with the input's first character. */
  lemma {:induction false} NewlineShape(s: string, i: nat, m: Matcher)
    requires i <= |s| && SingleSpaced(s)
    requires forall k: nat :: k < |s| && Fires(m, s, k) ==> s[k] == '\n' && m(s, k).value.replacement == "\n"
    decreases |s| - i
    ensures SingleSpaced(ReplaceFrom(s, i, m))
    ensures i < |s| ==> ReplaceFrom(s, i, m) != [] && ReplaceFrom(s, i, m)[0] == s[i]
  {
    if i < |s| {
      if Fires(m, s, i) {
        var e := m(s, i).value.end;
        NewlineShape(s, e, m);
        var rest := ReplaceFrom(s, e, m);
        assert ReplaceFrom(s, i, m) == "\n" + rest;
        SingleSpacedAppend("\n", rest);
      } else {
        NewlineShape(s, i + 1, m);
        var rest := ReplaceFrom(s, i + 1, m);
        assert ReplaceFrom(s, i, m) == [s[i]] + rest;
        if i + 1 < |s| {
          assert !TwoSpaces(s[i], s[i + 1]);
        }
        SingleSpacedAppend([s[i]], rest);
      }
    }
  }

  /** Replacing a line holding only an interface word by its line break keeps text
      single-spaced; the output starts with the input's first character. */
  lemma LabelLineShape(s: string, i: nat)
    requires i <= |s| && SingleSpaced(s)
    ensures SingleSpaced(ReplaceFrom(s, i, LabelLine))
    ensures i < |s| ==> ReplaceFrom(s, i, LabelLine) != [] && ReplaceFrom(s, i, LabelLine)[0] == s[i]
  {
    NewlineShape(s, i, LabelLine);
  }

  /** `cleanContent` output is trimmed and single-spaced, and empty for empty input. */
  lemma CleanContentShape(text: string)
    ensures IsTrimmed(CleanContent(text), IsJsSpace)
    ensures SingleSpaced(CleanContent(text))
    ensures text == "" ==> CleanContent(text) == ""
  {
    if text != "" {
      var s1 := ReplaceAll(text, BlankLines);
      var s2 := ReplaceAll(s1, CollapseSpaces);
      CollapseShape(s1, 0);
      var s3 := ReplaceAll(s2, LineStartLabel);
      LineStartShape(s2);
      var s4 := ReplaceAll(s3, LabelLine);
      LabelLineShape(s3, 0);
      TrimSingleSpaced(s4);
    }
  }

  lemma TrimSingleSpaced(t: string)
    requires SingleSpaced(t)
    ensures SingleSpaced(Trim(t))
  {
    var a, b := TrimSlice(t, IsJsSpace);
    SingleSpacedSlice(t, a, b);
  }

  lemma ExampleSpacing(s: string)
    requires s == "Share\nHello"
    ensures ReplaceAll(ReplaceAll(s, BlankLines), CollapseSpaces) == s
  {
    forall k: nat | k < |s| ensures !Fires(BlankLines, s, k) {
      if RunEnd(s, k, IsNewline) > k {
        assert s[k] == '\n' && k == 5;
        assert RunEnd(s, k, IsNewline) == RunEnd(s, k + 1, IsNewline);
      }
    }
    NeutralReplace(BlankLines, s, 0);
    forall k: nat | k < |s| ensures !Fires(CollapseSpaces, s, k) {
      assert s[k] in {'S', 'h', 'a', 'r', 'e', '\n', 'H', 'l', 'o'};
    }
    NeutralReplace(CollapseSpaces, s, 0);
  }

  lemma ExampleNoLabel(s: string)
    requires s == "Share\nHello"
    ensures LabelLength(s, 6, 0).None?
  {
    assert LowerChar(s[6]) == 'h';
    forall j | 0 <= j < |UiLabels| ensures !LabelAt(s, 6, UiLabels[j]) {
      var w := UiLabels[j];
      assert w[0] != 'h';
      if 6 + |w| <= |s| {
        assert Lower(s[6..6 + |w|])[0] == LowerChar(s[6]);
      }
    }
  }

  lemma ExampleLabel(s: string)
    requires s == "Share\nHello"
    ensures LineStartLabel(s, 0) == Some(Hit(6, ""))
  {
    assert Lower(s[0..5]) == "share";
    assert LabelLength(s, 0, 0) == Some(5);
    assert RunEnd(s, 5, IsJsSpace) == 6;
  }

  /** After the label, nothing more is removed. */
  lemma ExampleRestKept(s: string)
    requires s == "Share\nHello"
    ensures ReplaceFrom(s, 6, LineStartLabel) == s[6..]
  {
    ExampleNoLabel(s);
    forall k: nat | 6 <= k < |s| ensures !Fires(LineStartLabel, s, k) {
      if k > 6 {
        assert s[k - 1] in {'H', 'e', 'l'};
      }
    }
    NeutralReplace(LineStartLabel, s, 6);
  }

  lemma ExampleLabelRemoved(s: string)
    requires s == "Share\nHello"
    ensures ReplaceAll(s, LineStartLabel) == "Hello"
  {
    ExampleLabel(s);
    assert ReplaceAll(s, LineStartLabel) == "" + ReplaceFrom(s, 6, LineStartLabel);
    ExampleRestKept(s);
    assert s[6..] == "Hello";
  }

  /** A text without line breaks has no line holding only an interface word. */
  lemma NoLabelLineWithoutNewline(t: string)
    requires forall k :: 0 <= k < |t| ==> t[k] != '\n'
    ensures ReplaceAll(t, LabelLine) == t
  {
    forall k: nat | k < |t| ensures !Fires(LabelLine, t, k) {
    }
    NeutralReplace(LabelLine, t, 0);
  }

  lemma ExampleFinish(t: string)
    requires t == "Hello"
    ensures Trim(ReplaceAll(t, LabelLine)) == t
  {
    assert forall k :: 0 <= k < |t| ==> t[k] in {'H', 'e', 'l', 'o'};
    NoLabelLineWithoutNewline(t);
    assert IsTrimmed(t, IsJsSpace);
    TrimmedIsFixed(t, IsJsSpace);
  }

  /** A line starting with an interface word loses the word and the whitespace after it. */
  lemma CleanContentExample()
    ensures CleanContent("Share\nHello") == "Hello"
  {
    ExampleSpacing("Share\nHello");
    ExampleLabelRemoved("Share\nHello");
    ExampleFinish("Hello");
  }

  // ---------------------------------------------------------------- metadata

  function AuthorChain(d: Document): seq<Option<string>>
  {
    [ MetaContent(d, "name", "author"),
      MetaContent(d, "property", "article:author"),
      QueryTrimmedText(d, [AttrEqSel("", "rel", "author")]),
      QueryTrimmedText(d, [ClassSel("author"), ClassSel("byline"), ClassSel("author-name")]) ]
  }

  /** `extractAuthor`: author meta, then article:author meta, then the trimmed text
      of the first `[rel="author"]`, then of the first `.author, .byline,
      .author-name`, then null. */
  function ExtractAuthor(d: Document): (r: Option<string>)
    ensures forall i :: 0 <= i < 4 && Truthy(AuthorChain(d)[i]) && (forall j :: 0 <= j < i ==> !Truthy(AuthorChain(d)[j])) ==>
      r == AuthorChain(d)[i]
    ensures r.None? <==> forall i :: 0 <= i < 4 ==> !Truthy(AuthorChain(d)[i])
    ensures r.Some? ==> r.value != ""
  {
    FirstTruthy(AuthorChain(d))
  }

  /** `extractSiteName`, with `window.location.hostname` as `hostname`. */
  function ExtractSiteName(d: Document, hostname: string): (r: string)
    ensures Truthy(MetaContent(d, "property", "og:site_name")) ==> r == MetaContent(d, "property", "og:site_name").value
    ensures !Truthy(MetaContent(d, "property", "og:site_name")) && Truthy(MetaContent(d, "name", "application-name"))
      ==> r == MetaContent(d, "name", "application-name").value
    ensures !Truthy(MetaContent(d, "property", "og:site_name")) && !Truthy(MetaContent(d, "name", "application-name"))
      ==> r == DropWww(hostname)
  {
    var chain := [MetaContent(d, "property", "og:site_name"), MetaContent(d, "name", "application-name")];
    assert chain[0] == MetaContent(d, "property", "og:site_name");
    assert chain[1] == MetaContent(d, "name", "application-name");
    OrElse(FirstTruthy(chain), DropWww(hostname))
  }

  /** `time[datetime]`. */
  const TimeSelector: Selector := Selector(None, Compound(Some("time"), None, Some(Present("datetime"))))

  /** `extractPublishedTime`: the `datetime` of the first `time[datetime]` (even when
      empty), else a non-empty article:published_time meta, else null. */
  function ExtractPublishedTime(d: Document): (r: Option<string>)
    ensures DocQueryFirst(d, [TimeSelector]).Some? ==>
      r.Some? && r == GetAttribute(DocQueryFirst(d, [TimeSelector]).value, "datetime")
    ensures DocQueryFirst(d, [TimeSelector]).None? ==> r == OrNull(MetaContent(d, "property", "article:published_time"))
  {
    match DocQueryFirst(d, [TimeSelector])
    case Some(timeEl) =>
      DocQueryFirstSound(d, TimeSelector);
      GetAttribute(timeEl, "datetime")
    case None =>
      var metaTime := MetaContent(d, "property", "article:published_time");
      if Truthy(metaTime) then metaTime else None
  }

  /** `extractMainImage`: og:image, then twitter:image, then null. */
  function ExtractMainImage(d: Document): (r: Option<string>)
    ensures Truthy(MetaContent(d, "property", "og:image")) ==> r == MetaContent(d, "property", "og:image")
    ensures !Truthy(MetaContent(d, "property", "og:image")) ==> r == OrNull(MetaContent(d, "name", "twitter:image"))
  {
    var chain := [MetaContent(d, "property", "og:image"), MetaContent(d, "name", "twitter:image")];
    assert chain[0] == MetaContent(d, "property", "og:image");
    assert chain[1] == MetaContent(d, "name", "twitter:image");
    FirstTruthy(chain)
  }

  // ---------------------------------------------------------------- extractArticle

  /** The object `extractArticle` resolves to. */
  datatype ArticleData = ArticleData(
    success: bool,
    title: string,
    content: string,
    excerpt: string,
    siteName: string,
    author: Option<string>,
    publishedTime: Option<string>,
    imageUrl: Option<string>)

  /** The Readability result is used only when its text is longer than 200 characters. */
  predicate Accepted(article: Option<Readable>)
  {
    article.Some? && Truthy(article.value.textContent) && |article.value.textContent.value| > 200
  }

  /** Whether `htmlToText` on the accepted result's HTML throws, because a link in it
      has a relative href `new URL` cannot parse. */
  predicate ConversionThrows(article: Option<Readable>, parse: string -> seq<Node>, resolve: string -> string,
                             parses: string -> bool)
  {
    article.Some? && Truthy(article.value.content) && LinksThrow(parse(article.value.content.value), resolve, parses)
  }

  /** The Readability result is returned when it is accepted and converting its HTML
      does not throw; a throw inside the `try` leads to the fallback. */
  predicate ReadabilityUsed(article: Option<Readable>, parse: string -> seq<Node>, resolve: string -> string,
                            parses: string -> bool)
  {
    Accepted(article) && !ConversionThrows(article, parse, resolve, parses)
  }

  /** The record built from an accepted Readability result `r`. */
  function ReadabilityArticle(d: Document, r: Readable, hostname: string,
                              parse: string -> seq<Node>, resolve: string -> string): ArticleData
    requires Truthy(r.textContent)
  {
    ArticleData(true, OrElse(r.title, d.title), TextOfHtml(r.content, parse, resolve),
                OrElse(r.excerpt, Prefix(r.textContent.value, 300) + "..."),
                OrElse(r.siteName, ExtractSiteName(d, hostname)), r.byline,
                ExtractPublishedTime(d), ExtractMainImage(d))
  }

  /** The record of the fallback path: the page title, the cleaned fallback text,
      the description or the first 300 characters of the uncleaned text, and the
      metadata chains. */
  function FallbackArticle(d: Document, hostname: string): ArticleData
  {
    ArticleData(true, d.title, CleanContent(FallbackContent(d)),
                OrElse(MetaContent(d, "name", "description"), Prefix(FallbackContent(d), 300) + "..."),
                ExtractSiteName(d, hostname), ExtractAuthor(d), ExtractPublishedTime(d), ExtractMainImage(d))
  }

  /** The value of `extractArticle()`. */
  function ArticleOf(d: Document, article: Option<Readable>, hostname: string,
                     parse: string -> seq<Node>, resolve: string -> string, parses: string -> bool): ArticleData
  {
    if ReadabilityUsed(article, parse, resolve, parses) then ReadabilityArticle(d, article.value, hostname, parse, resolve)
    else FallbackArticle(d, hostname)
  }

  /** `extractArticle`: the Readability result when it is accepted and its HTML
      converts without throwing, else the fallback extraction, cleaned. `hostname` is
      `window.location.hostname`; `parse` and `resolve` are the browser's HTML parser
      and URL resolution, and `parses` says which relative hrefs `new URL` accepts.
      Either way the content is in a normal form. */
  method ExtractArticle(d: Document, article: Option<Readable>, hostname: string,
                        parse: string -> seq<Node>, resolve: string -> string, parses: string -> bool)
    returns (a: ArticleData)
    ensures a == ArticleOf(d, article, hostname, parse, resolve, parses)
    ensures a.success
    ensures ReadabilityUsed(article, parse, resolve, parses) ==> Normalized(a.content)
    ensures !ReadabilityUsed(article, parse, resolve, parses) ==> IsTrimmed(a.content, IsJsSpace) && SingleSpaced(a.content)
  {
    if article.Some? && Truthy(article.value.textContent) && |article.value.textContent.value| > 200
       && !ConversionThrows(article, parse, resolve, parses) {
      a := ReadabilityBranch(d, article.value, hostname, parse, resolve);
    } else {
      a := FallbackBranch(d, hostname);
    }
  }

  /** The `return` inside the `try` of `extractArticle`. */
  method ReadabilityBranch(d: Document, r: Readable, hostname: string,
                           parse: string -> seq<Node>, resolve: string -> string) returns (a: ArticleData)
    requires Truthy(r.textContent)
    ensures a == ReadabilityArticle(d, r, hostname, parse, resolve)
    ensures Normalized(a.content)
  {
    var content := HtmlToText(r.content, parse, resolve);
    var excerpt := if Truthy(r.excerpt) then r.excerpt.value else Prefix(r.textContent.value, 300) + "...";
    var siteName := if Truthy(r.siteName) then r.siteName.value else ExtractSiteName(d, hostname);
    return ArticleData(true, OrElse(r.title, d.title), content, excerpt, siteName, r.byline,
                       ExtractPublishedTime(d), ExtractMainImage(d));
  }

  /** The fallback `return` of `extractArticle`. */
  method FallbackBranch(d: Document, hostname: string) returns (a: ArticleData)
    ensures a == FallbackArticle(d, hostname)
    ensures IsTrimmed(a.content, IsJsSpace) && SingleSpaced(a.content)
  {
    var content := ExtractFallbackContent(d);
    var description := MetaContent(d, "name", "description");
    var excerpt := if Truthy(description) then description.value else Prefix(content, 300) + "...";
    CleanContentShape(content);
    return ArticleData(true, d.title, CleanContent(content), excerpt, ExtractSiteName(d, hostname),
                       ExtractAuthor(d), ExtractPublishedTime(d), ExtractMainImage(d));
  }


}
