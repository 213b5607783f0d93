/** Order-preserving filtering of sequences (`Iterator::filter` followed by `collect`). */
module Seqs {

  function Filter<T>(s: seq<T>, keep: T -> bool): (r: seq<T>)
    ensures |r| <= |s|
    ensures forall k :: 0 <= k < |r| ==> keep(r[k])
    ensures forall k :: 0 <= k < |r| ==> r[k] in s
    ensures forall k :: 0 <= k < |s| && keep(s[k]) ==> s[k] in r
    decreases |s|
  {
    if s == [] then []
    else (if keep(s[0]) then [s[0]] else []) + Filter(s[1..], keep)
  }

  /** The complement of a predicate. */
  function Not<T>(keep: T -> bool): T -> bool {
    x => !keep(x)
  }

  /** Filtering commutes with concatenation: the kept elements stay in their relative order. */
  lemma {:induction false} FilterAppend<T>(a: seq<T>, b: seq<T>, keep: T -> bool)
    ensures Filter(a + b, keep) == Filter(a, keep) + Filter(b, keep)
    decreases |a|
  {
    if a == [] {
      assert a + b == b;
    } else {
      assert (a + b)[0] == a[0];
      assert (a + b)[1..] == a[1..] + b;
      FilterAppend(a[1..], b, keep);
    }
  }

  /** Every element is either kept or dropped, so the two filters together account for the whole input. */
  lemma {:induction false} FilterPartition<T>(s: seq<T>, keep: T -> bool)
    ensures |Filter(s, keep)| + |Filter(s, Not(keep))| == |s|
    decreases |s|
  {
    if s != [] {
      FilterPartition(s[1..], keep);
    }
  }
}
