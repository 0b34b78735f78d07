/** The document tree the scripts read: nodes, the few CSS selectors they use,
    `querySelector`/`querySelectorAll` in document order, attribute access,
    `textContent` and an approximation of `innerText`. Parsing HTML into this tree
    is done by the host (browser or HTML library) and is not modelled. */
module Dom {
  import opened Base
  import opened Strs
  import opened Seqs

  datatype Node =
    | Text(data: string)
    | Element(tag: string, attrs: map<string, string>, children: seq<Node>)
      /** comments and the other node kinds that carry no rendered text */
    | Comment(data: string)

  /** A parsed page: `document.head`, `document.body` and `document.title`. */
  datatype Document = Document(head: Node, body: Node, title: string)

  /** The `<html>` element holding head and body. */
  function Root(d: Document): Node
  {
    Element("html", map[], [d.head, d.body])
  }

  /** `el.getAttribute(name)`, with null as None. */
  function GetAttribute(n: Node, name: string): (r: Option<string>)
    ensures r.Some? <==> n.Element? && name in n.attrs
  {
    if n.Element? && name in n.attrs then Some(n.attrs[name]) else None
  }

  // ---------------------------------------------------------------- selectors

  datatype AttrTest = Present(name: string) | Equals(name: string, value: string)

  /** A compound selector such as `meta[name="author"]`, `.post-content`, `time[datetime]`. */
  datatype Compound = Compound(tag: Option<string>, cls: Option<string>, attr: Option<AttrTest>)

  /** A compound selector, optionally under a descendant combinator (`main article`). */
  datatype Selector = Selector(context: Option<Compound>, subject: Compound)

  function TagSel(t: string): Selector
  {
    Selector(None, Compound(Some(t), None, None))
  }

  function ClassSel(c: string): Selector
  {
    Selector(None, Compound(None, Some(c), None))
  }

  /** `tag[name="value"]`, or `[name="value"]` when the tag is "". */
  function AttrEqSel(t: string, name: string, value: string): Selector
  {
    Selector(None, Compound(if t == "" then None else Some(t), None, Some(Equals(name, value))))
  }

  /** `outer inner` for two tag or class selectors. */
  function Under(outer: Selector, inner: Selector): Selector
  {
    Selector(Some(outer.subject), inner.subject)
  }

  function ClassList(n: Node): seq<string>
  {
    match GetAttribute(n, "class")
    case None => []
    case Some(v) => Tokens(v, IsHtmlSpace)
  }

  predicate MatchesAttr(t: AttrTest, n: Node)
  {
    match t
    case Present(name) => GetAttribute(n, name).Some?
    case Equals(name, value) => GetAttribute(n, name) == Some(value)
  }

  /** HTML tag names match case-insensitively. */
  predicate MatchesCompound(c: Compound, n: Node)
  {
    && n.Element?
    && (c.tag.None? || Lower(n.tag) == c.tag.value)
    && (c.cls.None? || c.cls.value in ClassList(n))
    && (c.attr.None? || MatchesAttr(c.attr.value, n))
  }

  /** `ancestors` lists the elements enclosing `n`, outermost first. */
  predicate Matches(sel: Selector, ancestors: seq<Node>, n: Node)
  {
    && MatchesCompound(sel.subject, n)
    && (sel.context.None? || exists k :: 0 <= k < |ancestors| && MatchesCompound(sel.context.value, ancestors[k]))
  }

  /** A selector list `a, b, c` matches when one of its members does. */
  predicate MatchesAny(group: seq<Selector>, ancestors: seq<Node>, n: Node)
  {
    exists g :: 0 <= g < |group| && Matches(group[g], ancestors, n)
  }

  /** The matching elements of a forest in document order (pre-order), each once. */
  function Select(nodes: seq<Node>, ancestors: seq<Node>, group: seq<Selector>): (r: seq<Node>)
    decreases nodes
    ensures forall k :: 0 <= k < |r| ==> r[k].Element?
  {
    if nodes == [] then []
    else
      var n := nodes[0];
      (if MatchesAny(group, ancestors, n) then [n] else [])
      + (if n.Element? then Select(n.children, ancestors + [n], group) else [])
      + Select(nodes[1..], ancestors, group)
  }

  /** Every selected element matches the subject of a selector of the group. */
  lemma {:induction false} SelectSound(nodes: seq<Node>, ancestors: seq<Node>, group: seq<Selector>, n: Node)
    requires n in Select(nodes, ancestors, group)
    decreases nodes
    ensures exists g :: 0 <= g < |group| && MatchesCompound(group[g].subject, n)
  {
    var m := nodes[0];
    var here := if MatchesAny(group, ancestors, m) then [m] else [];
    var below := if m.Element? then Select(m.children, ancestors + [m], group) else [];
    assert Select(nodes, ancestors, group) == here + below + Select(nodes[1..], ancestors, group);
    if n in here {
    } else if n in below {
      SelectSound(m.children, ancestors + [m], group, n);
    } else {
      SelectSound(nodes[1..], ancestors, group, n);
    }
  }

  /** The element `document.querySelector(sel)` finds matches `sel`'s subject. */
  lemma DocQueryFirstSound(d: Document, sel: Selector)
    requires DocQueryFirst(d, [sel]).Some?
    ensures MatchesCompound(sel.subject, DocQueryFirst(d, [sel]).value)
  {
    SelectSound([Root(d)], [], [sel], DocQueryFirst(d, [sel]).value);
  }

  /** `scope.querySelectorAll(group)`: descendants of `scope`, not `scope` itself.
      Only `scope` is known as an enclosing element, which suffices for the plain
      selectors the scripts pass to element-scoped queries. */
  function QueryAll(scope: Node, group: seq<Selector>): seq<Node>
  {
    if scope.Element? then Select(scope.children, [scope], group) else []
  }

  function First(ns: seq<Node>): (r: Option<Node>)
    ensures r.Some? <==> ns != []
    ensures r.Some? ==> r.value == ns[0]
  {
    if ns == [] then None else Some(ns[0])
  }

  /** `scope.querySelector(group)`. */
  function QueryFirst(scope: Node, group: seq<Selector>): Option<Node>
  {
    First(QueryAll(scope, group))
  }

  /** `document.querySelectorAll(group)`. */
  function DocQueryAll(d: Document, group: seq<Selector>): seq<Node>
  {
    Select([Root(d)], [], group)
  }

  /** `document.querySelector(group)`. */
  function DocQueryFirst(d: Document, group: seq<Selector>): Option<Node>
  {
    First(DocQueryAll(d, group))
  }

  // ---------------------------------------------------------------- text

  /** `node.textContent`: all text-node data below it, in document order. */
  function TextContent(n: Node): string
    decreases n, 1
  {
    match n
    case Text(s) => s
    case Comment(s) => s
    case Element(_, _, kids) => TextOfChildren(kids)
  }

  function TextOfChildren(kids: seq<Node>): string
    decreases kids, 0
  {
    if kids == [] then ""
    else (if kids[0].Comment? then "" else TextContent(kids[0])) + TextOfChildren(kids[1..])
  }

  /** Elements whose content is never rendered. */
  predicate Hidden(tag: string)
  {
    tag in {"script", "style", "noscript", "template", "head", "title"}
  }

  /** `element.innerText`, approximated as the rendered text: text nodes in document
      order, nothing from hidden elements, a line break for `<br>`. */
  function InnerText(n: Node): string
    decreases n, 1
  {
    match n
    case Text(s) => s
    case Comment(_) => ""
    case Element(tag, _, kids) =>
      if Hidden(Lower(tag)) then ""
      else if Lower(tag) == "br" then "\n"
      else InnerTextOfChildren(kids)
  }

  function InnerTextOfChildren(kids: seq<Node>): string
    decreases kids, 0
  {
    if kids == [] then "" else InnerText(kids[0]) + InnerTextOfChildren(kids[1..])
  }

  /** `el.innerText?.trim()`. */
  function TrimmedInnerText(n: Node): string
  {
    Trim(InnerText(n))
  }

  /** The `forEach` over matched elements that pushes each trimmed text passing
      `keep`. */
  method CollectTexts(nodes: seq<Node>, keep: string -> bool) returns (texts: seq<string>)
    ensures texts == Filter(Map(nodes, TrimmedInnerText), keep)
  {
    texts := [];
    for k := 0 to |nodes|
      invariant texts == Filter(Map(nodes[..k], TrimmedInnerText), keep)
    {
      var t := TrimmedInnerText(nodes[k]);
      FilterMapStep(nodes, k, TrimmedInnerText, keep);
      if keep(t) {
        texts := texts + [t];
      }
    }
    assert nodes[..|nodes|] == nodes;
  }

  /** `document.querySelector(group)?.innerText?.trim()`. */
  function QueryTrimmedText(d: Document, group: seq<Selector>): Option<string>
  {
    match DocQueryFirst(d, group)
    case None => None
    case Some(el) => Some(TrimmedInnerText(el))
  }

  /** The `content` attribute of the first `<meta attr="value">` of the page: what
      `document.querySelector('meta[attr="value"]')?.content` reads. */
  function MetaContent(d: Document, attr: string, value: string): Option<string>
  {
    match DocQueryFirst(d, [AttrEqSel("meta", attr, value)])
    case None => None
    case Some(el) => GetAttribute(el, "content")
  }

  /** The fields of a Readability parse of a document that the scripts read; a
      parse that returned null or threw is represented by `None`. */
  datatype Readable = Readable(
    title: Option<string>,
    content: Option<string>,
    textContent: Option<string>,
    excerpt: Option<string>,
    siteName: Option<string>,
    byline: Option<string>)
}
