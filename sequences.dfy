/** Generic facts about sequences: first match of a query, order-preserving subsequences. */
module Sequences {
  import opened Wrappers

  /** `a` is `b` with some elements dropped and the rest kept in their original order. */
  ghost predicate IsSubsequence<T>(a: seq<T>, b: seq<T>)
  {
    if a == [] then true
    else if b == [] then false
    else if a[0] == b[0] then IsSubsequence(a[1..], b[1..])
    else IsSubsequence(a, b[1..])
  }

  /** Every sequence is a subsequence of itself. */
  lemma {:induction false} SubsequenceReflexive<T>(s: seq<T>)
    ensures IsSubsequence(s, s)
  {
    if s != [] {
      SubsequenceReflexive(s[1..]);
    }
  }

  /** The index of the first element satisfying `p`, if any: a `findOne` over a collection
      kept in its natural order. */
  function FirstWhere<T>(s: seq<T>, p: T -> bool): (r: Option<nat>)
    ensures r.Some? ==> r.value < |s| && p(s[r.value])
    ensures r.Some? ==> forall j :: 0 <= j < r.value ==> !p(s[j])
    ensures r.None? <==> forall j :: 0 <= j < |s| ==> !p(s[j])
  {
    if s == [] then None
    else if p(s[0]) then Some(0)
    else
      match FirstWhere(s[1..], p)
      case None => None
      case Some(k) => Some(k + 1)
  }

  /** Appending an element changes the first match only when there was none before. */
  lemma {:induction false} FirstWhereAppend<T>(s: seq<T>, x: T, p: T -> bool)
    ensures FirstWhere(s + [x], p) ==
              if FirstWhere(s, p).Some? then FirstWhere(s, p)
              else if p(x) then Some(|s|)
              else None
  {
    if s != [] && !p(s[0]) {
      assert (s + [x])[1..] == s[1..] + [x];
      FirstWhereAppend(s[1..], x, p);
    }
  }
}
