/** String operations of JavaScript and Python as the scripts use them.
    A string is a sequence of Unicode scalar values; lengths count those. */
module Strs {
  import opened Base

  // ---------------------------------------------------------------- characters

  /** JavaScript's WhiteSpace and LineTerminator: what `\s` matches and `trim()` removes. */
  predicate IsJsSpace(c: char)
  {
    ('\t' <= c <= '\r') || c == ' ' || c == '\U{00A0}' || c == '\U{1680}'
    || ('\U{2000}' <= c <= '\U{200A}') || c == '\U{2028}' || c == '\U{2029}'
    || c == '\U{202F}' || c == '\U{205F}' || c == '\U{3000}' || c == '\U{FEFF}'
  }

  /** JavaScript's LineTerminator: where a multiline `^` may match. */
  predicate IsLineTerminator(c: char)
  {
    c == '\n' || c == '\r' || c == '\U{2028}' || c == '\U{2029}'
  }

  /** Python's `str.isspace()`: what `\s`, `split()` and `strip()` use on text. */
  predicate IsPySpace(c: char)
  {
    ('\t' <= c <= '\r') || ('\U{001C}' <= c <= '\U{001F}') || c == ' ' || c == '\U{0085}'
    || c == '\U{00A0}' || c == '\U{1680}' || ('\U{2000}' <= c <= '\U{200A}')
    || c == '\U{2028}' || c == '\U{2029}' || c == '\U{202F}' || c == '\U{205F}' || c == '\U{3000}'
  }

  /** The character class `[ \t]`. */
  predicate IsHSpace(c: char)
  {
    c == ' ' || c == '\t'
  }

  /** ASCII whitespace as HTML uses it to separate class names. */
  predicate IsHtmlSpace(c: char)
  {
    c == ' ' || c == '\t' || c == '\n' || c == '\U{000C}' || c == '\r'
  }

  function LowerChar(c: char): char
  {
    if 'A' <= c <= 'Z' then (c as int + 32) as char else c
  }

  /** `toLowerCase()` restricted to ASCII letters. */
  function Lower(s: string): (r: string)
    ensures |r| == |s|
    ensures forall i :: 0 <= i < |s| ==> r[i] == LowerChar(s[i])
  {
    seq(|s|, i requires 0 <= i < |s| => LowerChar(s[i]))
  }

  // ---------------------------------------------------------------- prefixes and search

  predicate StartsWith(s: string, p: string)
  {
    |p| <= |s| && s[..|p|] == p
  }

  /** A string does not start with a prefix whose first character differs from its own. */
  lemma FirstCharDiffers(s: string, p: string)
    requires s != [] && p != [] && s[0] != p[0]
    ensures !StartsWith(s, p)
  {
    if |p| <= |s| {
      assert s[..|p|][0] == s[0];
    }
  }

  predicate EndsWith(s: string, t: string)
  {
    |t| <= |s| && s[|s| - |t|..] == t
  }

  /** JavaScript `s.substring(0, n)`. */
  function Prefix(s: string, n: nat): (r: string)
    ensures |r| == if |s| <= n then |s| else n
    ensures r == s[..|r|]
  {
    if |s| <= n then s else s[..n]
  }

  predicate OccursAt(s: string, p: string, i: nat)
  {
    i + |p| <= |s| && s[i..i + |p|] == p
  }

  /** `s.includes(p)`. */
  predicate Contains(s: string, p: string)
  {
    exists i: nat :: i <= |s| && OccursAt(s, p, i)
  }

  /** The first position at which `p` occurs in `s`, searching from `from`. */
  function IndexOfFrom(s: string, p: string, from: nat): (r: Option<nat>)
    decreases |s| - from
    ensures r.Some? ==> from <= r.value && OccursAt(s, p, r.value)
    ensures r.Some? ==> forall k: nat :: from <= k < r.value ==> !OccursAt(s, p, k)
    ensures r.None? ==> forall k: nat :: from <= k ==> !OccursAt(s, p, k)
  {
    if from + |p| > |s| then None
    else if OccursAt(s, p, from) then Some(from)
    else IndexOfFrom(s, p, from + 1)
  }

  /** `s.indexOf(p)` with -1 as None. */
  function IndexOf(s: string, p: string): (r: Option<nat>)
    ensures r.Some? <==> Contains(s, p)
    ensures r.Some? ==> OccursAt(s, p, r.value) && forall k: nat :: k < r.value ==> !OccursAt(s, p, k)
  {
    IndexOfFrom(s, p, 0)
  }

  /** JavaScript `s.replace(p, rep)` with a string pattern: only the first occurrence is replaced. */
  function ReplaceFirst(s: string, p: string, rep: string): (r: string)
  {
    match IndexOf(s, p)
    case None => s
    case Some(i) => s[..i] + rep + s[i + |p|..]
  }

  /** The "www." removal applied to host names: the first occurrence goes, wherever it is. */
  function DropWww(host: string): (r: string)
    ensures StartsWith(host, "www.") ==> r == host[4..]
    ensures !Contains(host, "www.") ==> r == host
    ensures Contains(host, "www.") ==> |r| == |host| - 4
  {
    if StartsWith(host, "www.") then
      assert OccursAt(host, "www.", 0);
      ReplaceFirst(host, "www.", "")
    else
      ReplaceFirst(host, "www.", "")
  }

  // ---------------------------------------------------------------- trimming

  /** Drops the leading characters that satisfy `sp`. */
  function TrimLeft(s: string, sp: char -> bool): (r: string)
    ensures |r| <= |s| && r == s[|s| - |r|..]
    ensures forall k :: 0 <= k < |s| - |r| ==> sp(s[k])
    ensures r == [] || !sp(r[0])
  {
    if s != [] && sp(s[0]) then TrimLeft(s[1..], sp) else s
  }

  /** Drops the trailing characters that satisfy `sp`. */
  function TrimRight(s: string, sp: char -> bool): (r: string)
    ensures |r| <= |s| && r == s[..|r|]
    ensures forall k :: |r| <= k < |s| ==> sp(s[k])
    ensures r == [] || !sp(r[|r| - 1])
  {
    if s != [] && sp(s[|s| - 1]) then TrimRight(s[..|s| - 1], sp) else s
  }

  predicate IsTrimmed(s: string, sp: char -> bool)
  {
    s == [] || (!sp(s[0]) && !sp(s[|s| - 1]))
  }

  /** Both ends trimmed: the slice of `s` from its first to its last character
      that does not satisfy `sp` (TrimLeft and TrimRight give the slice bounds). */
  function TrimWith(s: string, sp: char -> bool): (r: string)
    ensures IsTrimmed(r, sp)
    ensures |r| <= |s|
  {
    TrimRight(TrimLeft(s, sp), sp)
  }

  /** JavaScript `s.trim()`. */
  function Trim(s: string): (r: string)
    ensures IsTrimmed(r, IsJsSpace) && |r| <= |s|
  {
    TrimWith(s, IsJsSpace)
  }

  /** Python `s.strip()`. */
  function Strip(s: string): (r: string)
    ensures IsTrimmed(r, IsPySpace) && |r| <= |s|
  {
    TrimWith(s, IsPySpace)
  }

  lemma {:induction false} TrimLeftOfTrimmed(s: string, sp: char -> bool)
    requires s == [] || !sp(s[0])
    ensures TrimLeft(s, sp) == s
  {
  }

  lemma {:induction false} TrimRightOfTrimmed(s: string, sp: char -> bool)
    requires s == [] || !sp(s[|s| - 1])
    ensures TrimRight(s, sp) == s
  {
  }

  /** The trimmed string is a slice of the original, between the returned bounds. */
  lemma TrimSlice(s: string, sp: char -> bool) returns (a: nat, b: nat)
    ensures a <= b <= |s| && TrimWith(s, sp) == s[a..b]
  {
    var left := TrimLeft(s, sp);
    a := |s| - |left|;
    b := a + |TrimRight(left, sp)|;
  }

  lemma {:induction false} TrimLeftSkips(pre: string, rest: string, sp: char -> bool)
    requires forall k :: 0 <= k < |pre| ==> sp(pre[k])
    ensures TrimLeft(pre + rest, sp) == TrimLeft(rest, sp)
  {
    if pre == [] {
      assert pre + rest == rest;
    } else {
      assert (pre + rest)[1..] == pre[1..] + rest;
      TrimLeftSkips(pre[1..], rest, sp);
    }
  }

  lemma {:induction false} TrimRightSkips(rest: string, post: string, sp: char -> bool)
    requires forall k :: 0 <= k < |post| ==> sp(post[k])
    ensures TrimRight(rest + post, sp) == TrimRight(rest, sp)
  {
    if post == [] {
      assert rest + post == rest;
    } else {
      assert (rest + post)[..|rest + post| - 1] == rest + post[..|post| - 1];
      TrimRightSkips(rest, post[..|post| - 1], sp);
    }
  }

  /** Trimming removes exactly the surrounding characters that satisfy `sp`. */
  lemma TrimAround(pre: string, mid: string, post: string, sp: char -> bool)
    requires forall k :: 0 <= k < |pre| ==> sp(pre[k])
    requires forall k :: 0 <= k < |post| ==> sp(post[k])
    requires mid != [] && !sp(mid[0]) && !sp(mid[|mid| - 1])
    ensures TrimWith(pre + mid + post, sp) == mid
  {
    assert pre + mid + post == pre + (mid + post);
    TrimLeftSkips(pre, mid + post, sp);
    TrimLeftOfTrimmed(mid + post, sp);
    TrimRightSkips(mid, post, sp);
    TrimRightOfTrimmed(mid, sp);
  }

  /** Trimming is idempotent: a trimmed string is its own trim. */
  lemma TrimmedIsFixed(s: string, sp: char -> bool)
    requires IsTrimmed(s, sp)
    ensures TrimWith(s, sp) == s
  {
    TrimLeftOfTrimmed(s, sp);
    TrimRightOfTrimmed(s, sp);
  }

  // ---------------------------------------------------------------- joining and splitting

  /** `parts.join(sep)`. */
  function Join(parts: seq<string>, sep: string): (r: string)
    ensures parts == [] ==> r == ""
    ensures |parts| == 1 ==> r == parts[0]
  {
    if parts == [] then ""
    else if |parts| == 1 then parts[0]
    else parts[0] + sep + Join(parts[1..], sep)
  }

  lemma {:induction false} JoinAppend(parts: seq<string>, last: string, sep: string)
    requires parts != []
    ensures Join(parts + [last], sep) == Join(parts, sep) + sep + last
  {
    if |parts| > 1 {
      assert (parts + [last])[1..] == parts[1..] + [last];
      JoinAppend(parts[1..], last, sep);
    }
  }

  /** The first position of character `c` in `s`. */
  function IndexOfChar(s: string, c: char): (r: Option<nat>)
    ensures r.Some? ==> r.value < |s| && s[r.value] == c && c !in s[..r.value]
    ensures r.None? ==> c !in s
  {
    if s == [] then None
    else if s[0] == c then Some(0)
    else
      match IndexOfChar(s[1..], c)
      case None => None
      case Some(i) => assert s[..i + 1] == [s[0]] + s[1..][..i]; Some(i + 1)
  }

  /** JavaScript `s.split(c)` for a one-character separator: the pieces between the
      occurrences of `c`, so there is always one more piece than occurrences. */
  function Split(s: string, c: char): (r: seq<string>)
    decreases |s|
    ensures |r| >= 1
    ensures forall k :: 0 <= k < |r| ==> c !in r[k]
  {
    match IndexOfChar(s, c)
    case None => [s]
    case Some(i) => [s[..i]] + Split(s[i + 1..], c)
  }

  /** Splitting and re-joining on the same character gives back the string. */
  lemma {:induction false} JoinSplit(s: string, c: char)
    decreases |s|
    ensures Join(Split(s, c), [c]) == s
  {
    match IndexOfChar(s, c)
    case None =>
    case Some(i) =>
      var rest := Split(s[i + 1..], c);
      JoinSplit(s[i + 1..], c);
      assert Split(s, c) == [s[..i]] + rest;
      assert s == s[..i] + [c] + s[i + 1..];
  }

  /** Joining pieces free of `c` with `c` and splitting again gives the pieces back. */
  lemma {:induction false} SplitJoin(parts: seq<string>, c: char)
    requires parts != []
    requires forall k :: 0 <= k < |parts| ==> c !in parts[k]
    ensures Split(Join(parts, [c]), c) == parts
  {
    if |parts| == 1 {
      assert IndexOfChar(parts[0], c).None?;
      assert parts == [parts[0]];
    } else {
      var rest := Join(parts[1..], [c]);
      assert Join(parts, [c]) == parts[0] + [c] + rest;
      SplitAfterPiece(parts[0], c, rest);
      SplitJoin(parts[1..], c);
      assert parts == [parts[0]] + parts[1..];
    }
  }

  /** Splitting at the first `c` after a piece free of `c`. */
  lemma SplitAfterPiece(p: string, c: char, rest: string)
    requires c !in p
    ensures Split(p + [c] + rest, c) == [p] + Split(rest, c)
  {
    var s := p + [c] + rest;
    IndexOfCharAfter(p, c, rest);
    assert s[..|p|] == p;
    assert s[|p| + 1..] == rest;
  }

  lemma {:induction false} IndexOfCharAfter(p: string, c: char, rest: string)
    requires c !in p
    ensures IndexOfChar(p + [c] + rest, c) == Some(|p|)
  {
    if p != [] {
      assert (p + [c] + rest)[1..] == p[1..] + [c] + rest;
      IndexOfCharAfter(p[1..], c, rest);
    }
  }

  /** The length of the run of characters at the start of `s` that are not separators. */
  function WordLength(s: string, isSep: char -> bool): (n: nat)
    ensures n <= |s|
    ensures forall k :: 0 <= k < n ==> !isSep(s[k])
    ensures n < |s| ==> isSep(s[n])
  {
    if s == [] || isSep(s[0]) then 0 else 1 + WordLength(s[1..], isSep)
  }

  /** The maximal runs of non-separator characters, in order: Python's `s.split()`
      when `isSep` is `IsPySpace`, an element's class list when it is `IsHtmlSpace`. */
  function Tokens(s: string, isSep: char -> bool): (r: seq<string>)
    decreases |s|
    ensures forall k :: 0 <= k < |r| ==> NonBlankWord(r[k], isSep)
  {
    if s == [] then []
    else if isSep(s[0]) then Tokens(s[1..], isSep)
    else
      var n := WordLength(s, isSep);
      [s[..n]] + Tokens(s[n..], isSep)
  }

  /** A non-empty run of non-separator characters. */
  predicate NonBlankWord(w: string, isSep: char -> bool)
  {
    w != [] && forall k :: 0 <= k < |w| ==> !isSep(w[k])
  }

  lemma {:induction false} WordLengthOfWord(w: string, t: string, isSep: char -> bool)
    requires forall k :: 0 <= k < |w| ==> !isSep(w[k])
    ensures WordLength(w + t, isSep) == |w| + WordLength(t, isSep)
  {
    if w != [] {
      assert (w + t)[0] == w[0];
      assert (w + t)[1..] == w[1..] + t;
      WordLengthOfWord(w[1..], t, isSep);
    } else {
      assert w + t == t;
    }
  }

  /** Splitting a single-space join of words gives the words back. */
  lemma {:induction false} TokensOfJoin(ws: seq<string>, isSep: char -> bool)
    requires isSep(' ')
    requires forall k :: 0 <= k < |ws| ==> NonBlankWord(ws[k], isSep)
    ensures Tokens(Join(ws, " "), isSep) == ws
  {
    if ws == [] {
    } else if |ws| == 1 {
      WordLengthOfWord(ws[0], [], isSep);
      assert ws[0] + [] == ws[0];
      assert ws[0][|ws[0]|..] == [];
    } else {
      var w, rest := ws[0], Join(ws[1..], " ");
      var s := w + " " + rest;
      assert Join(ws, " ") == s;
      WordLengthOfWord(w, " " + rest, isSep);
      assert s == w + (" " + rest);
      assert s[..|w|] == w;
      assert s[|w|..] == " " + rest;
      assert (" " + rest)[1..] == rest;
      TokensOfJoin(ws[1..], isSep);
    }
  }

  // ---------------------------------------------------------------- numbers and repetition

  function Digit(d: nat): char
    requires d < 10
  {
    "0123456789"[d]
  }

  /** The decimal digits of `n`, as a template string prints a non-negative integer. */
  function NatToString(n: nat): (r: string)
    ensures r != []
    ensures forall k :: 0 <= k < |r| ==> '0' <= r[k] <= '9'
  {
    if n < 10 then [Digit(n)] else NatToString(n / 10) + [Digit(n % 10)]
  }

  /** `c.repeat(n)` for a one-character string. */
  function Repeat(c: char, n: nat): (r: string)
    ensures |r| == n && forall k :: 0 <= k < n ==> r[k] == c
  {
    seq(n, _ => c)
  }
}
