/** Searching a B+ tree with a value that is not of the key type (src/native_index.cpp:23-32,
    128-134, as called from src/native_joins.cpp:696): the search only compares stored keys with it,
    and works because those comparisons are monotone in the key order. */
module BPlusTreeProbe {
  import opened Wrappers
  import opened Ordering
  import opened RowIds
  import opened BPlusTree
  import opened BPlusTreeIndex

  /** How each key compares with the probe: ascending with the keys, and zero on at most one. */
  ghost predicate Probes<K(!new)>(less: (K, K) -> bool, order: K -> int) {
    && (forall a, b :: less(a, b) && order(b) <= 0 ==> order(a) < 0)
    && (forall a, b :: less(a, b) && order(a) >= 0 ==> order(b) > 0)
  }

  /** Index of the first key not below the probe. */
  function ProbeLower<K>(order: K -> int, s: seq<K>): (n: nat)
    ensures n <= |s|
    ensures forall i :: 0 <= i < n ==> order(s[i]) < 0
    ensures n < |s| ==> order(s[n]) >= 0
  {
    if s == [] || order(s[0]) >= 0 then 0
    else
      var n := ProbeLower(order, s[1..]);
      assert forall i :: 1 <= i < n + 1 ==> s[i] == s[1..][i - 1];
      n + 1
  }

  /** Index of the first key above the probe. */
  function ProbeUpper<K>(order: K -> int, s: seq<K>): (n: nat)
    ensures n <= |s|
    ensures forall i :: 0 <= i < n ==> order(s[i]) <= 0
    ensures n < |s| ==> order(s[n]) > 0
  {
    if s == [] || order(s[0]) > 0 then 0
    else
      var n := ProbeUpper(order, s[1..]);
      assert forall i :: 1 <= i < n + 1 ==> s[i] == s[1..][i - 1];
      n + 1
  }

  function Probe<K>(order: K -> int, t: Tree<K>): Option<RowId>
    requires WellShaped(t)
  {
    match t
    case Leaf(_, keys, rows, _) =>
      var n := ProbeLower(order, keys);
      if n < |keys| && order(keys[n]) == 0 then Some(rows[n]) else None
    case Inner(keys, children) => Probe(order, children[ProbeUpper(order, keys)])
  }

  /** If a key equals the probe, the search goes the way it would go for that key. */
  lemma {:induction false} ProbeIsFind<K(!new)>(less: (K, K) -> bool, order: K -> int, t: Tree<K>, key: K)
    requires TotalOrder(less) && Probes(less, order) && order(key) == 0 && WellShaped(t)
    ensures Probe(order, t) == Find(less, t, key)
  {
    forall x ensures (order(x) < 0 <==> less(x, key)) && (order(x) > 0 <==> less(key, x)) && (order(x) == 0 <==> x == key) {
      assert less(x, key) || x == key || less(key, x);
    }
    match t
    case Leaf(_, keys, rows, _) =>
      var n, l := ProbeLower(order, keys), LowerBound(less, keys, key);
      assert n == l;
    case Inner(keys, children) =>
      var n, u := ProbeUpper(order, keys), UpperBound(less, keys, key);
      assert n == u;
      ProbeIsFind(less, order, children[n], key);
  }

  /** What it finds equals the probe. */
  lemma {:induction false} ProbeFound<K(!new)>(order: K -> int, t: Tree<K>) returns (key: K)
    requires WellShaped(t) && Probe(order, t).Some?
    ensures order(key) == 0
  {
    match t
    case Leaf(_, keys, rows, _) => key := keys[ProbeLower(order, keys)];
    case Inner(keys, children) => key := ProbeFound(order, children[ProbeUpper(order, keys)]);
  }

  /** The row whose key equals the probe, if any does. */
  ghost predicate Found<K(!new)>(contents: map<K, RowId>, order: K -> int, row: Option<RowId>) {
    match row
    case None => forall k :: k in contents ==> order(k) != 0
    case Some(id) => exists k :: k in contents && order(k) == 0 && contents[k] == id
  }

  /** BPlusTree::find for such a value. */
  method FindEqual<K(!new, ==)>(tree: Index<K>, order: K -> int) returns (row: Option<RowId>)
    requires tree.Valid() && Probes(tree.less, order)
    ensures Found(tree.contents, order, row)
  {
    var node := tree.root;
    while node.Inner?
      invariant WellShaped(node) && Probe(order, node) == Probe(order, tree.root)
      decreases node
    {
      node := node.children[ProbeUpper(order, node.keys)];
    }
    var position := ProbeLower(order, node.keys);
    row := if position < |node.keys| && order(node.keys[position]) == 0 then Some(node.rows[position]) else None;
    ProbeIsFound(tree, order);
  }

  lemma OnlyZero<K(!new)>(less: (K, K) -> bool, order: K -> int, a: K, b: K)
    requires TotalOrder(less) && Probes(less, order) && order(a) == 0 && order(b) == 0
    ensures a == b
  {
    assert less(a, b) || less(b, a) || a == b;
  }

  lemma ProbeIsFound<K(!new)>(tree: Index<K>, order: K -> int)
    requires tree.Valid() && Probes(tree.less, order)
    ensures Found(tree.contents, order, Probe(order, tree.root))
  {
    if key :| order(key) == 0 {
      var d: nat :| ValidRoot(tree.less, tree.maxKeys, tree.root, d);
      ProbeIsFind(tree.less, order, tree.root, key);
      FindCorrect(tree.less, tree.maxKeys, tree.root, d, None, None, key);
      HasKeyIsStored(Entries(tree.root), tree.contents, key);
      forall k | order(k) == 0 ensures k == key {
        OnlyZero(tree.less, order, k, key);
      }
    } else if Probe(order, tree.root).Some? {
      var k := ProbeFound(order, tree.root);
    }
  }
}
