/** Sequences without repetition. */
module Sequences {
  ghost predicate Distinct<X>(s: seq<X>) {
    forall i, k :: 0 <= i < k < |s| ==> s[i] != s[k]
  }

  ghost predicate Disjoint<X>(a: seq<X>, b: seq<X>) {
    forall i, k :: 0 <= i < |a| && 0 <= k < |b| ==> a[i] != b[k]
  }

  function Remove<X>(s: seq<X>, i: nat): seq<X>
    requires i < |s|
  {
    s[..i] + s[i + 1..]
  }

  lemma DistinctConcat<X>(a: seq<X>, b: seq<X>)
    requires Distinct(a) && Distinct(b) && Disjoint(a, b)
    ensures Distinct(a + b)
  {
  }

  lemma Without<X>(s: seq<X>, i: nat)
    requires Distinct(s) && i < |s|
    ensures Distinct(Remove(s, i)) && s[i] !in Remove(s, i)
    ensures forall x :: x in Remove(s, i) ==> x in s
    ensures forall k :: 0 <= k < |s| - 1 ==> Remove(s, i)[k] == if k < i then s[k] else s[k + 1]
  {
  }
}
