/** Order-preserving filtering and flattening of sequences: the model of
    `Array.prototype.filter`, of loops that push the items passing a test,
    and of the concatenation of consecutive batches. */
module Seqs {

  /** The items of `s` that satisfy `p`, in their original order. */
  function Filter<T>(s: seq<T>, p: T -> bool): (r: seq<T>)
    ensures |r| <= |s|
    ensures forall k :: 0 <= k < |r| ==> p(r[k])
  {
    if s == [] then [] else (if p(s[0]) then [s[0]] else []) + Filter(s[1..], p)
  }

  /** Filtering distributes over concatenation: it never reorders items. */
  lemma {:induction false} FilterConcat<T>(a: seq<T>, b: seq<T>, p: T -> bool)
    ensures Filter(a + b, p) == Filter(a, p) + Filter(b, p)
  {
    if a == [] {
      assert a + b == b;
    } else {
      assert (a + b)[0] == a[0];
      assert (a + b)[1..] == a[1..] + b;
      FilterConcat(a[1..], b, p);
    }
  }

  /** One more item: the loop step of "for each item, push it if it passes". */
  lemma FilterSnoc<T>(s: seq<T>, x: T, p: T -> bool)
    ensures Filter(s + [x], p) == Filter(s, p) + (if p(x) then [x] else [])
  {
    FilterConcat(s, [x], p);
    assert Filter([x], p) == (if p(x) then [x] else []) + Filter([x][1..], p);
  }

  /** An item is kept iff it occurs in the input and passes the test. */
  lemma {:induction false} FilterMembership<T>(s: seq<T>, p: T -> bool, x: T)
    ensures x in Filter(s, p) <==> x in s && p(x)
  {
    if s != [] {
      FilterMembership(s[1..], p, x);
      assert s == [s[0]] + s[1..];
    }
  }

  /** What passes and what fails together account for every item. */
  lemma {:induction false} FilterPartition<T>(s: seq<T>, p: T -> bool, q: T -> bool)
    requires forall x :: q(x) == !p(x)
    ensures |Filter(s, p)| + |Filter(s, q)| == |s|
  {
    if s != [] {
      FilterPartition(s[1..], p, q);
    }
  }

  /** A test every item passes keeps everything. */
  lemma {:induction false} FilterAll<T>(s: seq<T>, p: T -> bool)
    requires forall k :: 0 <= k < |s| ==> p(s[k])
    ensures Filter(s, p) == s
  {
    if s != [] {
      FilterAll(s[1..], p);
    }
  }

  /** A test no item passes keeps nothing. */
  lemma {:induction false} FilterNone<T>(s: seq<T>, p: T -> bool)
    requires forall k :: 0 <= k < |s| ==> !p(s[k])
    ensures Filter(s, p) == []
  {
    if s != [] {
      FilterNone(s[1..], p);
    }
  }

  /** `s.map(f)`. */
  function Map<T, U>(s: seq<T>, f: T -> U): (r: seq<U>)
    ensures |r| == |s| && forall k :: 0 <= k < |s| ==> r[k] == f(s[k])
  {
    seq(|s|, k requires 0 <= k < |s| => f(s[k]))
  }

  lemma MapSnoc<T, U>(s: seq<T>, x: T, f: T -> U)
    ensures Map(s + [x], f) == Map(s, f) + [f(x)]
  {
  }

  /** The loop step of "for each item, compute a value and push it if it passes". */
  lemma FilterMapSnoc<T, U>(s: seq<T>, x: T, f: T -> U, p: U -> bool)
    ensures Filter(Map(s + [x], f), p) == Filter(Map(s, f), p) + (if p(f(x)) then [f(x)] else [])
  {
    MapSnoc(s, x, f);
    FilterSnoc(Map(s, f), f(x), p);
  }

  /** `FilterMapSnoc` for the prefixes a loop over `s` has visited. */
  lemma FilterMapStep<T, U>(s: seq<T>, k: nat, f: T -> U, p: U -> bool)
    requires k < |s|
    ensures Filter(Map(s[..k + 1], f), p) == Filter(Map(s[..k], f), p) + (if p(f(s[k])) then [f(s[k])] else [])
  {
    assert s[..k + 1] == s[..k] + [s[k]];
    FilterMapSnoc(s[..k], s[k], f, p);
  }

  /** The concatenation of a sequence of sequences. */
  function Flatten<T>(ss: seq<seq<T>>): (r: seq<T>)
  {
    if ss == [] then [] else ss[0] + Flatten(ss[1..])
  }

  lemma {:induction false} FlattenSnoc<T>(ss: seq<seq<T>>, x: seq<T>)
    ensures Flatten(ss + [x]) == Flatten(ss) + x
  {
    if ss == [] {
      assert [] + [x] == [x];
    } else {
      assert (ss + [x])[1..] == ss[1..] + [x];
      FlattenSnoc(ss[1..], x);
    }
  }

  /** Regrouping a concatenation, stated once so that proofs about long rendered
      pieces need not rediscover it. */
  lemma ConcatAssoc<T>(a: seq<T>, b: seq<T>, c: seq<T>)
    ensures (a + b) + c == a + (b + c)
  {
  }

  /** The loop step of "for each item, append its rendering". */
  lemma FlattenMapStep<T, U>(s: seq<T>, k: nat, f: T -> seq<U>)
    requires k < |s|
    ensures Flatten(Map(s[..k + 1], f)) == Flatten(Map(s[..k], f)) + f(s[k])
  {
    assert s[..k + 1] == s[..k] + [s[k]];
    MapSnoc(s[..k], s[k], f);
    FlattenSnoc(Map(s[..k], f), f(s[k]));
  }
}
