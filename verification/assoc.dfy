/** Association lists: an insertion-ordered dictionary is a sequence of
    key/value pairs, iterated front to back. */
module Assoc {
  import opened Base

  /** The set of keys bound in `c`. */
  function Keys<K, V>(c: seq<(K, V)>): set<K>
  {
    if c == [] then {} else {c[0].0} + Keys(c[1..])
  }

  /** The keys of `c` in iteration (insertion) order. */
  function KeySeq<K, V>(c: seq<(K, V)>): seq<K>
  {
    if c == [] then [] else [c[0].0] + KeySeq(c[1..])
  }

  /** No key occurs twice, as in a dictionary. */
  predicate Distinct<K(==), V>(c: seq<(K, V)>)
  {
    c == [] || (c[0].0 !in Keys(c[1..]) && Distinct(c[1..]))
  }

  /** Dictionary lookup: the value bound to `k`, if any. */
  function Get<K(==), V>(c: seq<(K, V)>, k: K): Option<V>
  {
    if c == [] then None
    else if c[0].0 == k then Some(c[0].1)
    else Get(c[1..], k)
  }

  /** A key is found exactly when it is bound. */
  lemma {:induction false} GetBound<K, V>(c: seq<(K, V)>, k: K)
    ensures Get(c, k).Some? <==> k in Keys(c)
  {
    if c != [] && c[0].0 != k {
      GetBound(c[1..], k);
    }
  }

  /** Every pair of a list is a key of it, and a distinct list finds it. */
  lemma {:induction false} EntryBound<K, V>(c: seq<(K, V)>, i: nat)
    requires i < |c|
    ensures c[i].0 in Keys(c)
    ensures Distinct(c) ==> Get(c, c[i].0) == Some(c[i].1)
  {
    if i > 0 {
      EntryBound(c[1..], i - 1);
      if Distinct(c) {
        assert c[0].0 != c[i].0;
      }
    }
  }
}
