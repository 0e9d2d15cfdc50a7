/** Total orders given as a function, and searching a sorted sequence with one. */
module Ordering {

  ghost predicate TotalOrder<K(!new)>(less: (K, K) -> bool) {
    && (forall x :: !less(x, x))
    && (forall x, y :: less(x, y) || x == y || less(y, x))
    && (forall x, y, z {:trigger less(x, y), less(y, z)} :: less(x, y) && less(y, z) ==> less(x, z))
  }

  ghost predicate Ascending<K(!new)>(less: (K, K) -> bool, s: seq<K>) {
    forall i, j :: 0 <= i < j < |s| ==> less(s[i], s[j])
  }

  /** Index of the first element not below `key` (std::lower_bound). */
  function LowerBound<K(!new)>(less: (K, K) -> bool, s: seq<K>, key: K): (n: nat)
    ensures n <= |s|
    ensures forall i :: 0 <= i < n ==> less(s[i], key)
    ensures n < |s| ==> !less(s[n], key)
  {
    if s == [] || !less(s[0], key) then 0
    else
      var n := LowerBound(less, s[1..], key);
      assert forall i :: 1 <= i < n + 1 ==> s[i] == s[1..][i - 1];
      n + 1
  }

  /** Index of the first element above `key` (std::upper_bound). */
  function UpperBound<K(!new)>(less: (K, K) -> bool, s: seq<K>, key: K): (n: nat)
    ensures n <= |s|
    ensures forall i :: 0 <= i < n ==> !less(key, s[i])
    ensures n < |s| ==> less(key, s[n])
  {
    if s == [] || less(key, s[0]) then 0
    else
      var n := UpperBound(less, s[1..], key);
      assert forall i :: 1 <= i < n + 1 ==> s[i] == s[1..][i - 1];
      n + 1
  }

  lemma LowerBoundSplits<K(!new)>(less: (K, K) -> bool, s: seq<K>, key: K)
    requires TotalOrder(less) && Ascending(less, s)
    ensures var n := LowerBound(less, s, key);
      forall i :: n <= i < |s| ==> s[i] == key || less(key, s[i])
    ensures var n := LowerBound(less, s, key);
      forall i :: n < i < |s| ==> less(key, s[i])
  {
  }

  lemma UpperBoundSplits<K(!new)>(less: (K, K) -> bool, s: seq<K>, key: K)
    requires TotalOrder(less) && Ascending(less, s)
    ensures var n := UpperBound(less, s, key);
      forall i :: n <= i < |s| ==> less(key, s[i])
  {
  }

  lemma InsertAscending<K(!new)>(less: (K, K) -> bool, s: seq<K>, n: nat, key: K)
    requires Ascending(less, s) && n <= |s|
    requires forall i :: 0 <= i < n ==> less(s[i], key)
    requires forall i :: n <= i < |s| ==> less(key, s[i])
    ensures Ascending(less, s[..n] + [key] + s[n..])
  {
  }
}
