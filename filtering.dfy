/** Order-preserving selection of the elements of a sequence that pass a test. */
module Filtering {

  /** The elements of `s` that pass `keep`, in their order in `s`. */
  function Filter<T>(s: seq<T>, keep: T -> bool): seq<T>
    decreases |s|
  {
    if s == [] then []
    else Filter(s[..|s| - 1], keep) + (if keep(s[|s| - 1]) then [s[|s| - 1]] else [])
  }

  /** Filtering one more element appends it when it passes. */
  lemma FilterSnoc<T>(s: seq<T>, x: T, keep: T -> bool)
    ensures Filter(s + [x], keep) == Filter(s, keep) + if keep(x) then [x] else []
  {
    assert (s + [x])[..|s|] == s;
  }

  /** Filtering one more element of a prefix. */
  lemma FilterTake<T>(s: seq<T>, i: nat, keep: T -> bool)
    requires i < |s|
    ensures Filter(s[..i + 1], keep) == Filter(s[..i], keep) + if keep(s[i]) then [s[i]] else []
  {
    assert s[..i + 1] == s[..i] + [s[i]];
    FilterSnoc(s[..i], s[i], keep);
  }

  /**
   * The result is a subsequence of `s`, picked at the increasing positions
   * `idx`, and those are exactly the positions whose element passes.
   */
  lemma {:induction false} FilterPositions<T>(s: seq<T>, keep: T -> bool) returns (idx: seq<nat>)
    ensures |idx| == |Filter(s, keep)|
    ensures forall k :: 0 <= k < |idx| ==> idx[k] < |s| && s[idx[k]] == Filter(s, keep)[k]
    ensures forall k, l :: 0 <= k < l < |idx| ==> idx[k] < idx[l]
    ensures forall j :: 0 <= j < |s| ==> (j in idx <==> keep(s[j]))
    decreases |s|
  {
    if s == [] {
      return [];
    }
    var n := |s| - 1;
    var prev := FilterPositions(s[..n], keep);
    FilterTake(s, n, keep);
    assert s[..n + 1] == s;
    idx := if keep(s[n]) then prev + [n] else prev;
    PositionsStep(s, keep, prev, Filter(s[..n], keep), Filter(s, keep));
  }

  /** The positions of the passing elements of `s[..|s| - 1]`, extended by the last one when it passes. */
  lemma PositionsStep<T>(s: seq<T>, keep: T -> bool, prev: seq<nat>, r0: seq<T>, r: seq<T>)
    requires s != []
    requires r == r0 + if keep(s[|s| - 1]) then [s[|s| - 1]] else []
    requires |prev| == |r0|
    requires forall k :: 0 <= k < |prev| ==> prev[k] < |s| - 1 && s[..|s| - 1][prev[k]] == r0[k]
    requires forall k, l :: 0 <= k < l < |prev| ==> prev[k] < prev[l]
    requires forall j :: 0 <= j < |s| - 1 ==> (j in prev <==> keep(s[..|s| - 1][j]))
    ensures var idx := if keep(s[|s| - 1]) then prev + [|s| - 1] else prev;
            && |idx| == |r|
            && (forall k :: 0 <= k < |idx| ==> idx[k] < |s| && s[idx[k]] == r[k])
            && (forall k, l :: 0 <= k < l < |idx| ==> idx[k] < idx[l])
            && (forall j :: 0 <= j < |s| ==> (j in idx <==> keep(s[j])))
  {
    var n := |s| - 1;
    assert forall j :: 0 <= j < n ==> s[..n][j] == s[j];
    assert n !in prev;
  }

  /** An element is in the result exactly when it is in `s` and passes. */
  lemma FilterMembers<T>(s: seq<T>, keep: T -> bool, x: T)
    ensures x in Filter(s, keep) <==> x in s && keep(x)
  {
    var r := Filter(s, keep);
    var idx := FilterPositions(s, keep);
    if x in r {
      var k :| 0 <= k < |r| && r[k] == x;
      assert s[idx[k]] == x;
    }
    if x in s && keep(x) {
      var j :| 0 <= j < |s| && s[j] == x;
      assert j in idx;
      var k :| 0 <= k < |idx| && idx[k] == j;
      assert r[k] == x;
    }
  }
}
