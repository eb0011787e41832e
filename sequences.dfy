/**
 * Searching a sequence for the first occurrence of a delimiter: newlines in
 * spooled files and in request bodies, commas in the dev-random field list.
 */
module Sequences {

  /** The index of the first `x` at or after `from`, or the length when the rest of `s` has none. */
  function IndexFrom<T(==)>(s: seq<T>, x: T, from: nat): (i: nat)
    requires from <= |s|
    ensures from <= i <= |s|
    ensures i < |s| ==> s[i] == x
    ensures forall k | from <= k < i :: s[k] != x
    decreases |s| - from
  {
    if from == |s| || s[from] == x then from else IndexFrom(s, x, from + 1)
  }

  /** The search stops right after a run free of `x` that is followed by `x` or by the end. */
  lemma {:induction false} IndexFromAfter<T>(s: seq<T>, x: T, from: nat, run: seq<T>)
    requires from + |run| <= |s| && s[from..from + |run|] == run && x !in run
    requires from + |run| == |s| || s[from + |run|] == x
    ensures IndexFrom(s, x, from) == from + |run|
    decreases |run|
  {
    if run != [] {
      assert s[from] == run[0];
      assert s[from + 1..from + |run|] == run[1..];
      IndexFromAfter(s, x, from + 1, run[1..]);
    }
  }
}
