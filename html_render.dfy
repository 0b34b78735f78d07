/** `htmlToText` of the browser extension's content script (extension/content.js):
    a recursive walk that renders a node tree as markdown-flavoured plain text,
    followed by a fixed chain of whitespace clean-ups. */
module HtmlRender {
  import opened Base
  import opened Strs
  import opened Seqs
  import opened Rewrite
  import opened Dom

  // ---------------------------------------------------------------- rendering rules

  predicate IsBlockTag(t: string)
  {
    t in {"p", "div", "article", "section", "header", "footer", "main"}
  }

  predicate IsHeadingTag(t: string)
  {
    t in {"h1", "h2", "h3", "h4", "h5", "h6"}
  }

  /** Elements whose subtree contributes nothing. */
  predicate IsSkippedTag(t: string)
  {
    t in {"script", "style", "noscript", "iframe"}
  }

  function QuoteLine(line: string): string
  {
    "> " + line
  }

  /** A blockquote's rendered content, trimmed, with "> " before each of its lines. */
  function QuoteLines(inner: string): string
  {
    Join(Map(Split(Trim(inner), '\n'), QuoteLine), "\n")
  }

  /** The lines of a rendered blockquote are exactly the lines of its trimmed
      content, each prefixed with "> ". */
  lemma QuoteLinesSplit(inner: string)
    ensures Split(QuoteLines(inner), '\n') == Map(Split(Trim(inner), '\n'), QuoteLine)
  {
    var lines := Map(Split(Trim(inner), '\n'), QuoteLine);
    forall k | 0 <= k < |lines|
      ensures '\n' !in lines[k]
    {
      assert '\n' !in Split(Trim(inner), '\n')[k];
    }
    assert "\n" == ['\n'];
    SplitJoin(lines, '\n');
  }

  /** An anchor becomes a markdown link only with a non-empty href that is neither a
      fragment nor a script URL, and non-empty (trimmed) text. */
  predicate IsMarkdownLink(href: Option<string>, text: string)
  {
    Truthy(href) && text != "" && !StartsWith(href.value, "#") && !StartsWith(href.value, "javascript:")
  }

  /** Hrefs starting with "http" are kept; others are resolved against the page origin
      by `resolve` (the URL parser, not modelled). */
  function LinkTarget(href: string, resolve: string -> string): string
  {
    if StartsWith(href, "http") then href else resolve(href)
  }

  function RenderLink(href: Option<string>, text: string, resolve: string -> string): string
  {
    if IsMarkdownLink(href, text) then "[" + text + "](" + LinkTarget(href.value, resolve) + ")" else text
  }

  /** The output for an element with lower-cased tag `t`, given the rendering `inner`
      of its children. */
  function RenderTag(t: string, href: Option<string>, inner: string, resolve: string -> string): string
  {
    if IsBlockTag(t) || IsHeadingTag(t) then "\n\n" + inner + "\n\n"
    else if t == "br" then "\n"
    else if t == "li" then "\n\U{2022} " + inner
    else if t == "ul" || t == "ol" then "\n" + inner + "\n"
    else if t == "blockquote" then "\n\n" + QuoteLines(inner) + "\n\n"
    else if t == "a" then RenderLink(href, Trim(inner), resolve)
    else if t == "strong" || t == "b" then "**" + inner + "**"
    else if t == "em" || t == "i" then "*" + inner + "*"
    else if t == "code" then "`" + inner + "`"
    else if t == "pre" then "\n\n```\n" + inner + "\n```\n\n"
    else if IsSkippedTag(t) then ""
    else inner
  }

  /** What `processNode` appends for one child node. */
  function RenderNode(n: Node, resolve: string -> string): string
    decreases n, 1
  {
    match n
    case Text(s) => s
    case Comment(_) => ""
    case Element(tag, _, kids) => RenderTag(Lower(tag), GetAttribute(n, "href"), RenderNodes(kids, resolve), resolve)
  }

  /** What `processNode` returns for a node with these children. */
  function RenderNodes(kids: seq<Node>, resolve: string -> string): string
    decreases kids, 0
  {
    if kids == [] then "" else RenderNode(kids[0], resolve) + RenderNodes(kids[1..], resolve)
  }

  /** A link `processNode` turns into markdown whose relative href `new URL(href,
      origin)` cannot parse: the call throws. `parses` says which hrefs parse. */
  predicate LinkThrows(href: Option<string>, text: string, parses: string -> bool)
  {
    IsMarkdownLink(href, text) && !StartsWith(href.value, "http") && !parses(href.value)
  }

  /** Whether rendering `n` throws: it reaches such a link. A `<br>` and the skipped
      elements are not descended into, so nothing below them throws. */
  predicate Throws(n: Node, resolve: string -> string, parses: string -> bool)
    decreases n, 1
  {
    match n
    case Text(_) => false
    case Comment(_) => false
    case Element(tag, _, kids) =>
      && Lower(tag) != "br" && !IsSkippedTag(Lower(tag))
      && (|| LinksThrow(kids, resolve, parses)
          || (Lower(tag) == "a" && LinkThrows(GetAttribute(n, "href"), Trim(RenderNodes(kids, resolve)), parses)))
  }

  /** Whether rendering one of `kids` throws. */
  predicate LinksThrow(kids: seq<Node>, resolve: string -> string, parses: string -> bool)
    decreases kids, 0
  {
    kids != [] && (Throws(kids[0], resolve, parses) || LinksThrow(kids[1..], resolve, parses))
  }

  /** Rendering never throws when every href parses. */
  lemma {:induction false} NothingThrows(n: Node, resolve: string -> string, parses: string -> bool)
    requires forall h :: parses(h)
    decreases n, 1
    ensures !Throws(n, resolve, parses)
  {
    if n.Element? {
      NothingThrowsBelow(n.children, resolve, parses);
    }
  }

  lemma {:induction false} NothingThrowsBelow(kids: seq<Node>, resolve: string -> string, parses: string -> bool)
    requires forall h :: parses(h)
    decreases kids, 0
    ensures !LinksThrow(kids, resolve, parses)
  {
    if kids != [] {
      NothingThrows(kids[0], resolve, parses);
      NothingThrowsBelow(kids[1..], resolve, parses);
    }
  }

  /** A relative link whose href does not parse throws, even inside a paragraph. */
  lemma UnparsableLinkThrows(resolve: string -> string, parses: string -> bool)
    requires !parses("//a b")
    ensures LinksThrow([Element("p", map[], [Element("a", map["href" := "//a b"], [Text("x")])])], resolve, parses)
  {
    var a := Element("a", map["href" := "//a b"], [Text("x")]);
    assert RenderNodes([Text("x")], resolve) == "x";
    TrimmedIsFixed("x", IsJsSpace);
    assert Lower("a") == "a" && Lower("p") == "p";
    assert GetAttribute(a, "href") == Some("//a b");
    FirstCharDiffers("//a b", "http");
    FirstCharDiffers("//a b", "#");
    FirstCharDiffers("//a b", "javascript:");
    assert LinkThrows(GetAttribute(a, "href"), Trim(RenderNodes([Text("x")], resolve)), parses);
    assert Throws(a, resolve, parses);
    assert LinksThrow([a], resolve, parses);
  }

  /** Rendering a sequence of siblings is rendering each one in turn. */
  lemma {:induction false} RenderNodesConcat(a: seq<Node>, b: seq<Node>, resolve: string -> string)
    ensures RenderNodes(a + b, resolve) == RenderNodes(a, resolve) + RenderNodes(b, resolve)
  {
    if a == [] {
      assert a + b == b;
    } else {
      assert (a + b)[0] == a[0];
      assert (a + b)[1..] == a[1..] + b;
      RenderNodesConcat(a[1..], b, resolve);
    }
  }

  function Children(n: Node): seq<Node>
  {
    if n.Element? then n.children else []
  }

  /** `processNode`: loops over the child nodes, appending each one's rendering. */
  method ProcessNode(node: Node, resolve: string -> string) returns (result: string)
    decreases node, 1
    ensures result == RenderNodes(Children(node), resolve)
  {
    var kids := Children(node);
    result := "";
    var k := 0;
    while k < |kids|
      invariant 0 <= k <= |kids|
      invariant result == RenderNodes(kids[..k], resolve)
    {
      var child := kids[k];
      assert kids[..k + 1] == kids[..k] + [child];
      RenderNodesConcat(kids[..k], [child], resolve);
      assert RenderNodes([child], resolve) == RenderNode(child, resolve);
      assert child in node.children;
      var piece := ProcessChild(child, resolve);
      result := result + piece;
      k := k + 1;
    }
    assert kids[..k] == kids;
  }

  /** The body of `processNode`'s loop: what one child node contributes. */
  method ProcessChild(child: Node, resolve: string -> string) returns (piece: string)
    decreases child, 2
    ensures piece == RenderNode(child, resolve)
  {
    piece := "";
    match child {
      case Text(s) =>
        piece := s;
      case Comment(_) =>
      case Element(tag, _, _) =>
        var t := Lower(tag);
        if IsBlockTag(t) {
          var inner := ProcessNode(child, resolve);
          piece := "\n\n" + inner + "\n\n";
        } else if IsHeadingTag(t) {
          var inner := ProcessNode(child, resolve);
          piece := "\n\n" + inner + "\n\n";
        } else if t == "br" {
          piece := "\n";
        } else if t == "li" {
          var inner := ProcessNode(child, resolve);
          piece := "\n\U{2022} " + inner;
        } else if t == "ul" || t == "ol" {
          var inner := ProcessNode(child, resolve);
          piece := "\n" + inner + "\n";
        } else if t == "blockquote" {
          var inner := ProcessNode(child, resolve);
          var text := Join(Map(Split(Trim(inner), '\n'), QuoteLine), "\n");
          piece := "\n\n" + text + "\n\n";
        } else if t == "a" {
          var href := GetAttribute(child, "href");
          var inner := ProcessNode(child, resolve);
          var text := Trim(inner);
          if Truthy(href) && text != "" && !StartsWith(href.value, "#") && !StartsWith(href.value, "javascript:") {
            var absoluteUrl := if StartsWith(href.value, "http") then href.value else resolve(href.value);
            piece := "[" + text + "](" + absoluteUrl + ")";
          } else {
            piece := text;
          }
        } else if t == "strong" || t == "b" {
          var inner := ProcessNode(child, resolve);
          piece := "**" + inner + "**";
        } else if t == "em" || t == "i" {
          var inner := ProcessNode(child, resolve);
          piece := "*" + inner + "*";
        } else if t == "code" {
          var inner := ProcessNode(child, resolve);
          piece := "`" + inner + "`";
        } else if t == "pre" {
          var inner := ProcessNode(child, resolve);
          piece := "\n\n```\n" + inner + "\n```\n\n";
        } else if IsSkippedTag(t) {
          // skipped with its whole subtree
        } else {
          piece := ProcessNode(child, resolve);
        }
    }
  }

  // ---------------------------------------------------------------- the clean-up chain

  predicate IsNewline(c: char)
  {
    c == '\n'
  }

  /** `/[ \t]+/g` replaced by one space. */
  function CollapseSpaces(s: string, i: nat): Option<Hit>
  {
    if i < |s| && IsHSpace(s[i]) then Some(Hit(RunEnd(s, i, IsHSpace), " ")) else None
  }

  /** `/\n[ \t]+/g` replaced by a newline. */
  function LeadingSpaces(s: string, i: nat): Option<Hit>
  {
    if i + 1 < |s| && s[i] == '\n' && IsHSpace(s[i + 1]) then Some(Hit(RunEnd(s, i + 1, IsHSpace), "\n")) else None
  }

  /** `/[ \t]+\n/g` replaced by a newline. */
  function TrailingSpaces(s: string, i: nat): Option<Hit>
  {
    if i < |s| && IsHSpace(s[i]) && RunEnd(s, i, IsHSpace) < |s| && s[RunEnd(s, i, IsHSpace)] == '\n'
    then Some(Hit(RunEnd(s, i, IsHSpace) + 1, "\n"))
    else None
  }

  /** `/\n{3,}/g` replaced by two newlines. */
  function BlankLines(s: string, i: nat): Option<Hit>
  {
    if i <= |s| && RunEnd(s, i, IsNewline) >= i + 3 then Some(Hit(RunEnd(s, i, IsNewline), "\n\n")) else None
  }

  /** The clean-up applied once to the whole rendering. */
  function Cleanup(s: string): string
  {
    var s1 := ReplaceAll(s, CollapseSpaces);
    var s2 := ReplaceAll(s1, LeadingSpaces);
    var s3 := ReplaceAll(s2, TrailingSpaces);
    var s4 := ReplaceAll(s3, BlankLines);
    Trim(s4)
  }

  /** The text `htmlToText` produces for a parsed fragment. */
  function Converted(fragment: seq<Node>, resolve: string -> string): string
  {
    Cleanup(RenderNodes(fragment, resolve))
  }

  // ---------------------------------------------------------------- the normal form

  predicate NoBadPair(s: string, bad: (char, char) -> bool)
  {
    forall i :: 0 <= i < |s| - 1 ==> !bad(s[i], s[i + 1])
  }

  predicate TwoSpaces(a: char, b: char)
  {
    IsHSpace(a) && IsHSpace(b)
  }

  predicate SpaceAfterNewline(a: char, b: char)
  {
    a == '\n' && IsHSpace(b)
  }

  predicate SpaceBeforeNewline(a: char, b: char)
  {
    IsHSpace(a) && b == '\n'
  }

  predicate NoTab(s: string)
  {
    forall i :: 0 <= i < |s| ==> s[i] != '\t'
  }

  predicate NoTripleNewline(s: string)
  {
    forall i :: 0 <= i < |s| - 2 ==> !(s[i] == '\n' && s[i + 1] == '\n' && s[i + 2] == '\n')
  }

  /** No tab, no two consecutive spaces/tabs, no space or tab beside a newline,
      no three newlines in a row. */
  predicate Tidy(s: string)
  {
    && NoTab(s)
    && NoBadPair(s, TwoSpaces)
    && NoBadPair(s, SpaceAfterNewline)
    && NoBadPair(s, SpaceBeforeNewline)
    && NoTripleNewline(s)
  }

  /** The shape of `htmlToText` output: tidy and trimmed. */
  predicate Normalized(s: string)
  {
    IsTrimmed(s, IsJsSpace) && Tidy(s)
  }

  lemma PairsAppend(x: string, o: string, bad: (char, char) -> bool)
    requires NoBadPair(x, bad) && NoBadPair(o, bad)
    requires x != [] && o != [] ==> !bad(x[|x| - 1], o[0])
    ensures NoBadPair(x + o, bad)
  {
    var s := x + o;
    forall i | 0 <= i < |s| - 1
      ensures !bad(s[i], s[i + 1])
    {
      if i < |x| - 1 {
        assert s[i] == x[i] && s[i + 1] == x[i + 1];
      } else if i == |x| - 1 {
        assert s[i] == x[|x| - 1] && s[i + 1] == o[0];
      } else {
        assert s[i] == o[i - |x|] && s[i + 1] == o[i - |x| + 1];
      }
    }
  }

  lemma PairsSlice(s: string, a: nat, b: nat, bad: (char, char) -> bool)
    requires a <= b <= |s|
    requires NoBadPair(s, bad)
    ensures NoBadPair(s[a..b], bad)
  {
    var t := s[a..b];
    forall i | 0 <= i < |t| - 1
      ensures !bad(t[i], t[i + 1])
    {
      assert t[i] == s[a + i] && t[i + 1] == s[a + i + 1];
    }
  }

  /** Step 1 leaves no tab and no two consecutive spaces; its output starts with a
      space exactly where the input starts with a space or tab. */
  lemma {:induction false} CollapseShape(s: string, i: nat)
    requires i <= |s|
    decreases |s| - i
    ensures NoTab(ReplaceFrom(s, i, CollapseSpaces))
    ensures NoBadPair(ReplaceFrom(s, i, CollapseSpaces), TwoSpaces)
    ensures i < |s| ==> (ReplaceFrom(s, i, CollapseSpaces) != []
      && ReplaceFrom(s, i, CollapseSpaces)[0] == (if IsHSpace(s[i]) then ' ' else s[i]))
  {
    if i < |s| {
      var o := ReplaceFrom(s, i, CollapseSpaces);
      if IsHSpace(s[i]) {
        var e := RunEnd(s, i, IsHSpace);
        assert Fires(CollapseSpaces, s, i);
        CollapseShape(s, e);
        var rest := ReplaceFrom(s, e, CollapseSpaces);
        assert o == " " + rest;
        PairsAppend(" ", rest, TwoSpaces);
      } else {
        assert !Fires(CollapseSpaces, s, i);
        CollapseShape(s, i + 1);
        var rest := ReplaceFrom(s, i + 1, CollapseSpaces);
        assert o == [s[i]] + rest;
        PairsAppend([s[i]], rest, TwoSpaces);
      }
    }
  }

  /** Step 2 keeps step 1's guarantees and leaves no space after a newline. */
  lemma {:induction false} LeadingShape(s: string, i: nat)
    requires i <= |s|
    requires NoTab(s) && NoBadPair(s, TwoSpaces)
    decreases |s| - i
    ensures NoTab(ReplaceFrom(s, i, LeadingSpaces))
    ensures NoBadPair(ReplaceFrom(s, i, LeadingSpaces), TwoSpaces)
    ensures NoBadPair(ReplaceFrom(s, i, LeadingSpaces), SpaceAfterNewline)
    ensures i < |s| ==> ReplaceFrom(s, i, LeadingSpaces) != [] && ReplaceFrom(s, i, LeadingSpaces)[0] == s[i]
  {
    if i < |s| {
      var o := ReplaceFrom(s, i, LeadingSpaces);
      if Fires(LeadingSpaces, s, i) {
        var e := RunEnd(s, i + 1, IsHSpace);
        LeadingShape(s, e);
        var rest := ReplaceFrom(s, e, LeadingSpaces);
        assert o == "\n" + rest;
        PairsAppend("\n", rest, TwoSpaces);
        PairsAppend("\n", rest, SpaceAfterNewline);
      } else {
        LeadingShape(s, i + 1);
        var rest := ReplaceFrom(s, i + 1, LeadingSpaces);
        assert o == [s[i]] + rest;
        PairsAppend([s[i]], rest, TwoSpaces);
        PairsAppend([s[i]], rest, SpaceAfterNewline);
      }
    }
  }

  /** The guarantees of steps 1 to 3: no tab, no two spaces or tabs in a row, none
      beside a newline. */
  predicate Spaced(s: string)
  {
    NoTab(s) && NoBadPair(s, TwoSpaces) && NoBadPair(s, SpaceAfterNewline) && NoBadPair(s, SpaceBeforeNewline)
  }

  predicate Joinable(a: char, b: char)
  {
    !TwoSpaces(a, b) && !SpaceAfterNewline(a, b) && !SpaceBeforeNewline(a, b)
  }

  lemma SpacedAppend(x: string, o: string)
    requires Spaced(x) && Spaced(o)
    requires x != [] && o != [] ==> Joinable(x[|x| - 1], o[0])
    ensures Spaced(x + o)
  {
    PairsAppend(x, o, TwoSpaces);
    PairsAppend(x, o, SpaceAfterNewline);
    PairsAppend(x, o, SpaceBeforeNewline);
    forall k | 0 <= k < |x + o|
      ensures (x + o)[k] != '\t'
    {
      if k < |x| {
        assert (x + o)[k] == x[k];
      } else {
        assert (x + o)[k] == o[k - |x|];
      }
    }
  }

  lemma PrependNewlines(rest: string)
    requires Spaced(rest) && (rest != [] ==> !IsHSpace(rest[0]))
    ensures Spaced("\n\n" + rest)
  {
    SpacedAppend("\n\n", rest);
  }

  lemma PrependChar(c: char, rest: string)
    requires c != '\t' && Spaced(rest) && (rest != [] ==> Joinable(c, rest[0]))
    ensures Spaced([c] + rest)
  {
    SpacedAppend([c], rest);
  }

  /** Step 3 keeps the earlier guarantees and leaves no space before a newline. */
  lemma {:induction false} TrailingShape(s: string, i: nat)
    requires i <= |s|
    requires NoTab(s) && NoBadPair(s, TwoSpaces) && NoBadPair(s, SpaceAfterNewline)
    decreases |s| - i
    ensures NoTab(ReplaceFrom(s, i, TrailingSpaces))
    ensures NoBadPair(ReplaceFrom(s, i, TrailingSpaces), TwoSpaces)
    ensures NoBadPair(ReplaceFrom(s, i, TrailingSpaces), SpaceAfterNewline)
    ensures NoBadPair(ReplaceFrom(s, i, TrailingSpaces), SpaceBeforeNewline)
    ensures i < |s| ==> ReplaceFrom(s, i, TrailingSpaces) != []
    ensures i < |s| && !IsHSpace(s[i]) ==> ReplaceFrom(s, i, TrailingSpaces)[0] == s[i]
    ensures i < |s| && IsHSpace(s[i]) ==> ReplaceFrom(s, i, TrailingSpaces)[0] in {s[i], '\n'}
  {
    if i < |s| {
      var o := ReplaceFrom(s, i, TrailingSpaces);
      if Fires(TrailingSpaces, s, i) {
        var e := RunEnd(s, i, IsHSpace);
        if i + 1 < |s| {
          assert !TwoSpaces(s[i], s[i + 1]);
        }
        assert e == i + 1;
        TrailingShape(s, e + 1);
        var rest := ReplaceFrom(s, e + 1, TrailingSpaces);
        assert o == "\n" + rest;
        if e + 1 < |s| {
          assert !SpaceAfterNewline(s[e], s[e + 1]);
        }
        PrependChar('\n', rest);
      } else {
        TrailingShape(s, i + 1);
        var rest := ReplaceFrom(s, i + 1, TrailingSpaces);
        assert o == [s[i]] + rest;
        if i + 1 < |s| {
          assert !TwoSpaces(s[i], s[i + 1]);
          assert !SpaceAfterNewline(s[i], s[i + 1]);
          if IsHSpace(s[i]) {
            assert RunEnd(s, i, IsHSpace) == i + 1 by {
              assert RunEnd(s, i, IsHSpace) == RunEnd(s, i + 1, IsHSpace);
            }
          }
        }
        PrependChar(s[i], rest);
      }
    }
  }

  /** The leading newlines of `o`: `n` of them, then something else or the end. */
  predicate LeadingNewlines(o: string, n: nat)
  {
    n <= |o| && (forall k :: 0 <= k < n ==> o[k] == '\n') && (n == |o| || o[n] != '\n')
  }

  /** Replacing, by two newlines, a pattern that matches only a span beginning and
      ending with a newline keeps the guarantees of steps 1 to 3; the output starts
      with the input's first character. */
  lemma {:induction false} DoubleNewlineShape(s: string, i: nat, m: Matcher)
    requires i <= |s| && Spaced(s)
    requires forall k: nat :: k < |s| && Fires(m, s, k) ==>
      s[k] == '\n' && s[m(s, k).value.end - 1] == '\n' && m(s, k).value.replacement == "\n\n"
    decreases |s| - i
    ensures Spaced(ReplaceFrom(s, i, m))
    ensures i < |s| ==> ReplaceFrom(s, i, m) != [] && ReplaceFrom(s, i, m)[0] == s[i]
  {
    if i < |s| {
      if Fires(m, s, i) {
        var e := m(s, i).value.end;
        DoubleNewlineShape(s, e, m);
        var rest := ReplaceFrom(s, e, m);
        assert ReplaceFrom(s, i, m) == "\n\n" + rest;
        if e < |s| {
          assert !SpaceAfterNewline(s[e - 1], s[e]);
        }
        PrependNewlines(rest);
      } else {
        DoubleNewlineShape(s, i + 1, m);
        var rest := ReplaceFrom(s, i + 1, m);
        assert ReplaceFrom(s, i, m) == [s[i]] + rest;
        if i + 1 < |s| {
          assert Joinable(s[i], s[i + 1]);
        }
        PrependChar(s[i], rest);
      }
    }
  }

  /** Step 4 keeps the earlier guarantees and starts with the character it is given. */
  lemma BlankKeepsPairs(s: string, i: nat)
    requires i <= |s| && Spaced(s)
    ensures Spaced(ReplaceFrom(s, i, BlankLines))
    ensures i < |s| ==> ReplaceFrom(s, i, BlankLines) != [] && ReplaceFrom(s, i, BlankLines)[0] == s[i]
  {
    forall k: nat | k < |s| && Fires(BlankLines, s, k)
      ensures s[k] == '\n' && s[BlankLines(s, k).value.end - 1] == '\n'
    {
    }
    DoubleNewlineShape(s, i, BlankLines);
  }

  /** Step 4 leaves no three newlines in a row, and starts with as many newlines as
      the input's run at `i`, at most two. */
  lemma {:induction false} BlankNoTriple(s: string, i: nat)
    requires i <= |s|
    decreases |s| - i
    ensures NoTripleNewline(ReplaceFrom(s, i, BlankLines))
    ensures var r := RunEnd(s, i, IsNewline) - i;
      LeadingNewlines(ReplaceFrom(s, i, BlankLines), if r >= 3 then 2 else r)
  {
    if i < |s| {
      var o := ReplaceFrom(s, i, BlankLines);
      if Fires(BlankLines, s, i) {
        var e := RunEnd(s, i, IsNewline);
        BlankNoTriple(s, e);
        var rest := ReplaceFrom(s, e, BlankLines);
        assert o == "\n\n" + rest;
        assert RunEnd(s, e, IsNewline) == e;
        NoTripleAfterPair(rest);
      } else {
        BlankNoTriple(s, i + 1);
        var rest := ReplaceFrom(s, i + 1, BlankLines);
        assert o == [s[i]] + rest;
        if s[i] == '\n' {
          assert RunEnd(s, i, IsNewline) == RunEnd(s, i + 1, IsNewline);
        }
        NoTripleAfterOne(s[i], rest, RunEnd(s, i + 1, IsNewline) - (i + 1));
      }
    }
  }

  /** Two newlines before a text that does not start with one. */
  lemma NoTripleAfterPair(rest: string)
    requires NoTripleNewline(rest) && LeadingNewlines(rest, 0)
    ensures NoTripleNewline("\n\n" + rest) && LeadingNewlines("\n\n" + rest, 2)
  {
    var o := "\n\n" + rest;
    forall k | 0 <= k < |o| - 2
      ensures !(o[k] == '\n' && o[k + 1] == '\n' && o[k + 2] == '\n')
    {
      if k >= 2 {
        assert o[k] == rest[k - 2] && o[k + 1] == rest[k - 1] && o[k + 2] == rest[k];
      }
    }
  }

  /** One character before a text that, when `c` is a newline, starts with `m`
      newlines, at most one. */
  lemma NoTripleAfterOne(c: char, rest: string, m: nat)
    requires NoTripleNewline(rest)
    requires c == '\n' ==> m <= 1 && LeadingNewlines(rest, m)
    ensures NoTripleNewline([c] + rest)
    ensures LeadingNewlines([c] + rest, if c == '\n' then m + 1 else 0)
  {
    var o := [c] + rest;
    forall k | 0 <= k < |o| - 2
      ensures !(o[k] == '\n' && o[k + 1] == '\n' && o[k + 2] == '\n')
    {
      if k >= 1 {
        assert o[k] == rest[k - 1] && o[k + 1] == rest[k] && o[k + 2] == rest[k + 1];
      }
    }
    if c == '\n' {
      forall k | 0 <= k < m + 1
        ensures o[k] == '\n'
      {
        if k >= 1 {
          assert o[k] == rest[k - 1];
        }
      }
    }
  }

  /** Step 4 keeps the earlier guarantees, leaves no three newlines in a row, and
      starts with as many newlines as the input's run at `i`, at most two. */
  lemma BlankShape(s: string, i: nat)
    requires i <= |s|
    requires NoTab(s) && NoBadPair(s, TwoSpaces) && NoBadPair(s, SpaceAfterNewline) && NoBadPair(s, SpaceBeforeNewline)
    ensures NoTab(ReplaceFrom(s, i, BlankLines))
    ensures NoBadPair(ReplaceFrom(s, i, BlankLines), TwoSpaces)
    ensures NoBadPair(ReplaceFrom(s, i, BlankLines), SpaceAfterNewline)
    ensures NoBadPair(ReplaceFrom(s, i, BlankLines), SpaceBeforeNewline)
    ensures NoTripleNewline(ReplaceFrom(s, i, BlankLines))
    ensures i < |s| ==> ReplaceFrom(s, i, BlankLines) != [] && ReplaceFrom(s, i, BlankLines)[0] == s[i]
    ensures var r := RunEnd(s, i, IsNewline) - i;
      LeadingNewlines(ReplaceFrom(s, i, BlankLines), if r >= 3 then 2 else r)
  {
    BlankKeepsPairs(s, i);
    BlankNoTriple(s, i);
  }

  lemma NoTripleNewlineSlice(s: string, a: nat, b: nat)
    requires a <= b <= |s| && NoTripleNewline(s)
    ensures NoTripleNewline(s[a..b])
  {
    var t := s[a..b];
    forall i | 0 <= i < |t| - 2
      ensures !(t[i] == '\n' && t[i + 1] == '\n' && t[i + 2] == '\n')
    {
      assert t[i] == s[a + i] && t[i + 1] == s[a + i + 1] && t[i + 2] == s[a + i + 2];
    }
  }

  lemma TidySlice(s: string, a: nat, b: nat)
    requires a <= b <= |s| && Tidy(s)
    ensures Tidy(s[a..b])
  {
    var t := s[a..b];
    PairsSlice(s, a, b, TwoSpaces);
    PairsSlice(s, a, b, SpaceAfterNewline);
    PairsSlice(s, a, b, SpaceBeforeNewline);
    NoTripleNewlineSlice(s, a, b);
    forall i | 0 <= i < |t|
      ensures t[i] != '\t'
    {
      assert t[i] == s[a + i];
    }
  }

  /** Trimming a tidy string gives the normal form. */
  lemma TrimShape(s: string)
    requires Tidy(s)
    ensures Normalized(Trim(s))
  {
    var a, b := TrimSlice(s, IsJsSpace);
    TidySlice(s, a, b);
  }

  /** Whatever the input, the clean-up chain produces the normal form. */
  lemma CleanupNormalized(s: string)
    ensures Normalized(Cleanup(s))
  {
    var s1 := ReplaceAll(s, CollapseSpaces);
    CollapseShape(s, 0);
    var s2 := ReplaceAll(s1, LeadingSpaces);
    LeadingShape(s1, 0);
    var s3 := ReplaceAll(s2, TrailingSpaces);
    TrailingShape(s2, 0);
    var s4 := ReplaceAll(s3, BlankLines);
    BlankShape(s3, 0);
    TrimShape(s4);
  }

  /** Text already in the normal form passes through the clean-up unchanged. */
  lemma NormalizedIsFixed(t: string)
    requires Normalized(t)
    ensures Cleanup(t) == t
  {
    forall k: nat | k < |t| && Fires(CollapseSpaces, t, k)
      ensures CollapseSpaces(t, k).value.replacement == t[k..CollapseSpaces(t, k).value.end]
    {
      assert t[k] == ' ';
      assert RunEnd(t, k, IsHSpace) == k + 1 by {
        if k + 1 < |t| {
          assert !TwoSpaces(t[k], t[k + 1]);
        }
        assert RunEnd(t, k, IsHSpace) == RunEnd(t, k + 1, IsHSpace);
      }
    }
    NeutralReplace(CollapseSpaces, t, 0);
    assert ReplaceAll(t, CollapseSpaces) == t;
    forall k: nat | k < |t| ensures !Fires(LeadingSpaces, t, k) {
      if k + 1 < |t| {
        assert !SpaceAfterNewline(t[k], t[k + 1]);
      }
    }
    NeutralReplace(LeadingSpaces, t, 0);
    assert ReplaceAll(t, LeadingSpaces) == t;
    forall k: nat | k < |t| ensures !Fires(TrailingSpaces, t, k) {
      if k < |t| && IsHSpace(t[k]) {
        if k + 1 < |t| {
          assert !TwoSpaces(t[k], t[k + 1]) && !SpaceBeforeNewline(t[k], t[k + 1]);
        }
        assert RunEnd(t, k, IsHSpace) == RunEnd(t, k + 1, IsHSpace);
      }
    }
    NeutralReplace(TrailingSpaces, t, 0);
    assert ReplaceAll(t, TrailingSpaces) == t;
    forall k: nat | k < |t| ensures !Fires(BlankLines, t, k) {
      if k + 2 < |t| {
        assert !(t[k] == '\n' && t[k + 1] == '\n' && t[k + 2] == '\n');
      }
    }
    NeutralReplace(BlankLines, t, 0);
    assert ReplaceAll(t, BlankLines) == t;
    TrimmedIsFixed(t, IsJsSpace);
  }

  /** The clean-up chain is idempotent. */
  lemma CleanupIdempotent(s: string)
    ensures Cleanup(Cleanup(s)) == Cleanup(s)
  {
    CleanupNormalized(s);
    NormalizedIsFixed(Cleanup(s));
  }

  /** Converting plain text that `htmlToText` itself produced gives it back. */
  lemma ConvertedTextIsFixed(fragment: seq<Node>, resolve: string -> string)
    ensures Converted([Text(Converted(fragment, resolve))], resolve) == Converted(fragment, resolve)
  {
    var t := Converted(fragment, resolve);
    assert RenderNodes([Text(t)], resolve) == t;
    CleanupIdempotent(RenderNodes(fragment, resolve));
  }

  /** A block element or heading, whatever its attributes, renders as its content
      between blank lines. */
  lemma RenderBlock(t: string, attrs: map<string, string>, kids: seq<Node>, resolve: string -> string)
    requires IsBlockTag(Lower(t)) || IsHeadingTag(Lower(t))
    ensures RenderNode(Element(t, attrs, kids), resolve) == "\n\n" + RenderNodes(kids, resolve) + "\n\n"
  {
  }

  lemma RenderParagraph(c: char, resolve: string -> string)
    ensures RenderNode(Element("p", map[], [Text([c])]), resolve) == "\n\n" + [c] + "\n\n"
  {
    assert Lower("p") == "p";
    RenderBlock("p", map[], [Text([c])], resolve);
    assert RenderNodes([Text([c])], resolve) == [c];
  }

  /** The link rule: an anchor whose href and trimmed text pass the test becomes
      `[text](target)`, an "http" href kept as it is and any other resolved against
      the page origin; any other anchor becomes its trimmed text. */
  lemma RenderAnchor(t: string, attrs: map<string, string>, kids: seq<Node>, resolve: string -> string)
    requires Lower(t) == "a"
    ensures var n := Element(t, attrs, kids);
            var href, text := GetAttribute(n, "href"), Trim(RenderNodes(kids, resolve));
      && (IsMarkdownLink(href, text) && StartsWith(href.value, "http") ==>
            RenderNode(n, resolve) == "[" + text + "](" + href.value + ")")
      && (IsMarkdownLink(href, text) && !StartsWith(href.value, "http") ==>
            RenderNode(n, resolve) == "[" + text + "](" + resolve(href.value) + ")")
      && (!IsMarkdownLink(href, text) ==> RenderNode(n, resolve) == text)
  {
    AnchorTag(GetAttribute(Element(t, attrs, kids), "href"), RenderNodes(kids, resolve), resolve);
  }

  lemma AnchorTag(href: Option<string>, inner: string, resolve: string -> string)
    ensures RenderTag("a", href, inner, resolve) == RenderLink(href, Trim(inner), resolve)
  {
    assert !IsBlockTag("a") && !IsHeadingTag("a");
  }

  /** `<a href="https://x.com">go</a>` becomes `[go](https://x.com)`. */
  lemma AbsoluteLinkExample(resolve: string -> string)
    ensures RenderNode(Element("a", map["href" := "https://x.com"], [Text("go")]), resolve) == "[go](https://x.com)"
  {
    var n := Element("a", map["href" := "https://x.com"], [Text("go")]);
    assert Lower("a") == "a";
    assert RenderNodes([Text("go")], resolve) == "go";
    TrimmedIsFixed("go", IsJsSpace);
    assert GetAttribute(n, "href") == Some("https://x.com");
    HttpsIsHttp();
    FirstCharDiffers("https://x.com", "#");
    FirstCharDiffers("https://x.com", "javascript:");
    RenderAnchor("a", map["href" := "https://x.com"], [Text("go")], resolve);
    LinkJoined();
  }

  lemma HttpsIsHttp()
    ensures StartsWith("https://x.com", "http")
  {
    assert "https://x.com"[..4] == "http";
  }

  lemma LinkJoined()
    ensures "[" + "go" + "](" + "https://x.com" + ")" == "[go](https://x.com)"
  {
  }

  /** `<a href="#top">top</a>`, a fragment link, becomes its text. */
  lemma FragmentLinkExample(resolve: string -> string)
    ensures RenderNode(Element("a", map["href" := "#top"], [Text("top")]), resolve) == "top"
  {
    var n := Element("a", map["href" := "#top"], [Text("top")]);
    assert Lower("a") == "a";
    assert RenderNodes([Text("top")], resolve) == "top";
    TrimmedIsFixed("top", IsJsSpace);
    assert GetAttribute(n, "href") == Some("#top");
    assert StartsWith("#top", "#");
    RenderAnchor("a", map["href" := "#top"], [Text("top")], resolve);
  }

  /** A text with neither tabs nor spaces passes the first three steps unchanged. */
  lemma NoSpaceSteps(s: string)
    requires forall k :: 0 <= k < |s| ==> !IsHSpace(s[k])
    ensures ReplaceAll(ReplaceAll(ReplaceAll(s, CollapseSpaces), LeadingSpaces), TrailingSpaces) == s
  {
    NeutralReplace(CollapseSpaces, s, 0);
    NeutralReplace(LeadingSpaces, s, 0);
    NeutralReplace(TrailingSpaces, s, 0);
  }

  lemma BlankLinesOfSecondParagraph()
    ensures ReplaceFrom("\n\nA\n\n\n\nB\n\n", 7, BlankLines) == "B\n\n"
  {
    var s := "\n\nA\n\n\n\nB\n\n";
    assert ReplaceFrom(s, 9, BlankLines) == "\n";
    assert ReplaceFrom(s, 8, BlankLines) == "\n\n";
  }

  lemma BlankLinesBetweenParagraphs()
    ensures ReplaceFrom("\n\nA\n\n\n\nB\n\n", 3, BlankLines) == "\n\nB\n\n"
  {
    var s := "\n\nA\n\n\n\nB\n\n";
    BlankLinesOfSecondParagraph();
    assert RunEnd(s, 3, IsNewline) == 7;
  }

  lemma BlankLinesOfTwoParagraphs()
    ensures ReplaceAll("\n\nA\n\n\n\nB\n\n", BlankLines) == "\n\nA\n\nB\n\n"
  {
    var s := "\n\nA\n\n\n\nB\n\n";
    BlankLinesBetweenParagraphs();
    CopiedBeforeNewline(s, 2);
    TwoNewlinesCopied(s, 0);
    ParagraphsJoined();
  }

  lemma ParagraphsJoined()
    ensures "\n\n" + ("A" + "\n\nB\n\n") == "\n\nA\n\nB\n\n"
  {
  }

  /** BlankLines copies a character that is not a newline. */
  lemma CopiedBeforeNewline(s: string, i: nat)
    requires i < |s| && s[i] != '\n'
    ensures ReplaceFrom(s, i, BlankLines) == [s[i]] + ReplaceFrom(s, i + 1, BlankLines)
  {
    assert RunEnd(s, i, IsNewline) == i;
  }

  /** BlankLines copies a run of exactly two newlines. */
  lemma TwoNewlinesCopied(s: string, i: nat)
    requires i + 2 <= |s| && s[i] == '\n' && s[i + 1] == '\n'
    requires i + 2 == |s| || s[i + 2] != '\n'
    ensures ReplaceFrom(s, i, BlankLines) == "\n\n" + ReplaceFrom(s, i + 2, BlankLines)
  {
    RunEndAt(s, i, i + 2, IsNewline);
    RunEndAt(s, i + 1, i + 2, IsNewline);
    assert ReplaceFrom(s, i, BlankLines) == [s[i]] + ([s[i + 1]] + ReplaceFrom(s, i + 2, BlankLines));
  }

  lemma TrimOfTwoParagraphs()
    ensures Trim("\n\nA\n\nB\n\n") == "A\n\nB"
  {
    assert "\n\nA\n\nB\n\n" == "\n\n" + "A\n\nB" + "\n\n";
    TrimAround("\n\n", "A\n\nB", "\n\n", IsJsSpace);
  }

  lemma CleanupOfTwoParagraphs()
    ensures Cleanup("\n\nA\n\n\n\nB\n\n") == "A\n\nB"
  {
    var s := "\n\nA\n\n\n\nB\n\n";
    forall k | 0 <= k < |s| ensures !IsHSpace(s[k]) {
      assert s[k] in {'\n', 'A', 'B'};
    }
    NoSpaceSteps(s);
    BlankLinesOfTwoParagraphs();
    TrimOfTwoParagraphs();
  }

  /** Two paragraphs become two lines separated by one blank line. */
  lemma TwoParagraphs(resolve: string -> string)
    ensures Converted([Element("p", map[], [Text("A")]), Element("p", map[], [Text("B")])], resolve) == "A\n\nB"
  {
    var frag := [Element("p", map[], [Text("A")]), Element("p", map[], [Text("B")])];
    RenderParagraph('A', resolve);
    RenderParagraph('B', resolve);
    assert RenderNodes(frag[1..], resolve) == "\n\nB\n\n";
    assert RenderNodes(frag, resolve) == "\n\nA\n\n\n\nB\n\n";
    CleanupOfTwoParagraphs();
  }

  // ---------------------------------------------------------------- htmlToText

  /** The value of `htmlToText(html)`. */
  function TextOfHtml(html: Option<string>, parse: string -> seq<Node>, resolve: string -> string): string
  {
    if Truthy(html) then Converted(parse(html.value), resolve) else ""
  }

  /** `htmlToText(html)`: a missing or empty HTML string gives ""; otherwise the
      string is parsed by the host (`parse`) into a wrapper element's children,
      rendered, and cleaned up. */
  method HtmlToText(html: Option<string>, parse: string -> seq<Node>, resolve: string -> string) returns (text: string)
    ensures text == TextOfHtml(html, parse, resolve)
    ensures !Truthy(html) ==> text == ""
    ensures Normalized(text)
  {
    if !Truthy(html) {
      return "";
    }
    var temp := Element("div", map[], parse(html.value));
    text := ProcessNode(temp, resolve);
    text := ReplaceAll(text, CollapseSpaces);
    text := ReplaceAll(text, LeadingSpaces);
    text := ReplaceAll(text, TrailingSpaces);
    text := ReplaceAll(text, BlankLines);
    text := Trim(text);
    CleanupNormalized(RenderNodes(parse(html.value), resolve));
  }
}
