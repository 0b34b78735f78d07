/** Values shared by every module: an optional value, and JavaScript's
    "first truthy operand" reading of `a || b || ...` on optional strings,
    where null, undefined and "" all count as absent. */
module Base {

  datatype Option<+T> = None | Some(value: T)

  /** A string-or-null value is truthy in JavaScript iff it is present and non-empty. */
  predicate Truthy(o: Option<string>)
  {
    o.Some? && o.value != ""
  }

  /** `o || null`: the empty string collapses to absent. */
  function OrNull(o: Option<string>): (r: Option<string>)
    ensures r.Some? <==> Truthy(o)
    ensures Truthy(o) ==> r == o
  {
    if Truthy(o) then o else None
  }

  /** `o || fallback` for a fallback that is a plain string. */
  function OrElse(o: Option<string>, fallback: string): (r: string)
    ensures Truthy(o) ==> r == o.value
    ensures !Truthy(o) ==> r == fallback
  {
    if Truthy(o) then o.value else fallback
  }

  /** The value of `c[0] || c[1] || ... || null`: the first truthy entry, if any. */
  function FirstTruthy(chain: seq<Option<string>>): (r: Option<string>)
    ensures r.Some? <==> exists i :: 0 <= i < |chain| && Truthy(chain[i])
    ensures r.Some? ==> r.value != ""
    ensures forall i :: 0 <= i < |chain| && Truthy(chain[i]) && (forall j :: 0 <= j < i ==> !Truthy(chain[j])) ==> r == chain[i]
  {
    if chain == [] then None
    else if Truthy(chain[0]) then chain[0]
    else
      var rest := FirstTruthy(chain[1..]);
      SkipFalsy(chain, rest);
      rest
  }

  /** What holds of the first truthy entry of `chain[1..]` holds of that of `chain`
      when `chain[0]` is not truthy. */
  lemma SkipFalsy(chain: seq<Option<string>>, r: Option<string>)
    requires chain != [] && !Truthy(chain[0])
    requires r.Some? <==> exists i :: 0 <= i < |chain[1..]| && Truthy(chain[1..][i])
    requires forall i :: 0 <= i < |chain[1..]| && Truthy(chain[1..][i]) && (forall j :: 0 <= j < i ==> !Truthy(chain[1..][j])) ==> r == chain[1..][i]
    ensures r.Some? <==> exists i :: 0 <= i < |chain| && Truthy(chain[i])
    ensures forall i :: 0 <= i < |chain| && Truthy(chain[i]) && (forall j :: 0 <= j < i ==> !Truthy(chain[j])) ==> r == chain[i]
  {
    var tail := chain[1..];
    forall i | 0 <= i < |chain| && Truthy(chain[i]) && (forall j :: 0 <= j < i ==> !Truthy(chain[j]))
      ensures r == chain[i]
    {
      assert i != 0;
      assert tail[i - 1] == chain[i];
      forall j | 0 <= j < i - 1 ensures !Truthy(tail[j]) {
        assert tail[j] == chain[j + 1];
      }
    }
    if r.Some? {
      var i :| 0 <= i < |tail| && Truthy(tail[i]);
      assert chain[i + 1] == tail[i];
    } else {
      forall i | 0 <= i < |chain| ensures !Truthy(chain[i]) {
        if i > 0 {
          assert chain[i] == tail[i - 1];
        }
      }
    }
  }

  /** Adding a fallback after a chain only matters when no earlier entry is truthy. */
  lemma {:induction false} FirstTruthyAppend(chain: seq<Option<string>>, last: Option<string>)
    ensures FirstTruthy(chain + [last]) == if FirstTruthy(chain).Some? then FirstTruthy(chain) else OrNull(last)
  {
    if chain != [] {
      if !Truthy(chain[0]) {
        assert (chain + [last])[1..] == chain[1..] + [last];
        FirstTruthyAppend(chain[1..], last);
      }
    }
  }
}
