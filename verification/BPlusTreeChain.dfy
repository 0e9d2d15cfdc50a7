/** The leaf chain: following `next` from any leaf visits the leaves to its right in order,
    and inserting splices a new leaf into the chain exactly where it splits an old one. */
module BPlusTreeChain {
  import opened Wrappers
  import opened Ordering
  import opened RowIds
  import opened BPlusTree

  datatype LeafNode<K> = LeafNode(id: nat, keys: seq<K>, rows: seq<RowId>, next: Option<nat>)

  /** The leaves of a subtree from left to right. */
  function Leaves<K>(t: Tree<K>): seq<LeafNode<K>>
    decreases t, 0
  {
    match t
    case Leaf(id, keys, rows, next) => [LeafNode(id, keys, rows, next)]
    case Inner(_, children) => AllLeaves(children)
  }

  function AllLeaves<K>(ts: seq<Tree<K>>): seq<LeafNode<K>>
    decreases ts, |ts|
  {
    if ts == [] then [] else Leaves(ts[0]) + AllLeaves(ts[1..])
  }

  lemma AllLeavesCons<K>(t: Tree<K>, ts: seq<Tree<K>>)
    ensures AllLeaves([t] + ts) == Leaves(t) + AllLeaves(ts)
  {
    assert ([t] + ts)[1..] == ts;
  }

  lemma {:induction false} AllLeavesConcat<K>(a: seq<Tree<K>>, b: seq<Tree<K>>)
    ensures AllLeaves(a + b) == AllLeaves(a) + AllLeaves(b)
  {
    if a == [] {
      assert a + b == b;
    } else {
      AllLeavesConcat(a[1..], b);
      AllLeavesCons(a[0], a[1..] + b);
      assert a + b == [a[0]] + (a[1..] + b);
    }
  }

  lemma AllLeavesTwo<K>(left: Tree<K>, right: Tree<K>)
    ensures AllLeaves([left, right]) == Leaves(left) + Leaves(right)
  {
    AllLeavesCons(right, []);
    AllLeavesCons(left, [right]);
    assert [left] + [right] == [left, right] && [right] + [] == [right];
  }

  lemma AllLeavesAround<K>(ts: seq<Tree<K>>, c: nat)
    requires c < |ts|
    ensures AllLeaves(ts) == AllLeaves(ts[..c]) + Leaves(ts[c]) + AllLeaves(ts[c + 1..])
  {
    assert ts == ts[..c] + ts[c..];
    AllLeavesConcat(ts[..c], ts[c..]);
    assert ts[c..][1..] == ts[c + 1..];
  }

  /** A list of leaves read through its next pointers. */
  ghost predicate Chained<K(!new)>(ls: seq<LeafNode<K>>, exit: Option<nat>) {
    && (forall i, j :: 0 <= i < j < |ls| && j == i + 1 ==> ls[i].next == Some(ls[j].id))
    && (ls != [] ==> ls[|ls| - 1].next == exit)
  }

  ghost predicate DistinctIds<K(!new)>(ls: seq<LeafNode<K>>, limit: nat) {
    && (forall i :: 0 <= i < |ls| ==> ls[i].id < limit)
    && (forall i, j :: 0 <= i < j < |ls| ==> ls[i].id != ls[j].id)
  }

  function GrownLeaves<K>(g: Grown<K>): seq<LeafNode<K>> {
    match g
    case Whole(t) => Leaves(t)
    case Split(left, _, right) => Leaves(left) + Leaves(right)
  }

  /** One leaf gets new contents and keeps its address and next pointer. */
  ghost predicate Rewrites<K(!new)>(before: seq<LeafNode<K>>, k: nat, leaf: LeafNode<K>,
                                    after: seq<LeafNode<K>>) {
    && k < |before| && after == before[..k] + [leaf] + before[k + 1..]
    && leaf.id == before[k].id && leaf.next == before[k].next
  }

  /** One leaf is split: a new right neighbour takes over its next pointer. */
  ghost predicate Splices<K(!new)>(before: seq<LeafNode<K>>, k: nat, left: LeafNode<K>, right: LeafNode<K>,
                                   newId: nat, after: seq<LeafNode<K>>) {
    && k < |before| && after == before[..k] + [left, right] + before[k + 1..]
    && left.id == before[k].id && left.next == Some(newId)
    && right.id == newId && right.next == before[k].next
  }

  ghost predicate EditsLeaf<K(!new)>(before: seq<LeafNode<K>>, newId: nat, after: seq<LeafNode<K>>) {
    || (exists k, leaf :: Rewrites(before, k, leaf, after))
    || (exists k, left, right :: Splices(before, k, left, right, newId, after))
  }

  lemma SpliceKeepsChain<K(!new)>(before: seq<LeafNode<K>>, k: nat, left: LeafNode<K>, right: LeafNode<K>,
                                  newId: nat, after: seq<LeafNode<K>>, exit: Option<nat>)
    requires Splices(before, k, left, right, newId, after)
    requires Chained(before, exit) && DistinctIds(before, newId)
    ensures Chained(after, exit) && DistinctIds(after, newId + 1)
  {
    forall i | 0 <= i < |after|
      ensures after[i] == if i < k then before[i] else if i == k then left
                          else if i == k + 1 then right else before[i - 1]
    {
    }
    forall i, j | 0 <= i < j < |after| && j == i + 1
      ensures after[i].next == Some(after[j].id)
    {
      if j < k { assert before[i].next == Some(before[j].id); }
      if i > k + 1 { assert before[i - 1].next == Some(before[j - 1].id); }
      if j == k { assert before[i].next == Some(before[k].id); }
      if i == k + 1 { assert before[k].next == Some(before[j - 1].id); }
    }
  }

  lemma RewriteKeepsChain<K(!new)>(before: seq<LeafNode<K>>, k: nat, leaf: LeafNode<K>,
                                   after: seq<LeafNode<K>>, newId: nat, exit: Option<nat>)
    requires Rewrites(before, k, leaf, after)
    requires Chained(before, exit) && DistinctIds(before, newId)
    ensures Chained(after, exit) && DistinctIds(after, newId + 1)
  {
    assert after == before[k := leaf];
    assert forall i :: 0 <= i < |after| ==> after[i].id == before[i].id && after[i].next == before[i].next;
  }

  lemma EditKeepsChain<K(!new)>(before: seq<LeafNode<K>>, newId: nat, after: seq<LeafNode<K>>, exit: Option<nat>)
    requires Chained(before, exit) && DistinctIds(before, newId) && EditsLeaf(before, newId, after)
    ensures Chained(after, exit) && DistinctIds(after, newId + 1)
  {
    if k: nat, leaf :| Rewrites(before, k, leaf, after) {
      RewriteKeepsChain(before, k, leaf, after, newId, exit);
    } else {
      var k: nat, left, right :| Splices(before, k, left, right, newId, after);
      SpliceKeepsChain(before, k, left, right, newId, after, exit);
    }
  }

  lemma Around<X>(a: seq<X>, before: seq<X>, b: seq<X>, k: nat, middle: seq<X>)
    requires k < |before|
    ensures var whole := a + before + b;
      a + (before[..k] + middle + before[k + 1..]) + b
        == whole[..|a| + k] + middle + whole[|a| + k + 1..]
  {
    var whole := a + before + b;
    assert whole[..|a| + k] == a + before[..k];
    assert whole[|a| + k + 1..] == before[k + 1..] + b;
  }

  lemma EditInside<K(!new)>(a: seq<LeafNode<K>>, before: seq<LeafNode<K>>, b: seq<LeafNode<K>>,
                            newId: nat, after: seq<LeafNode<K>>)
    requires EditsLeaf(before, newId, after)
    ensures EditsLeaf(a + before + b, newId, a + after + b)
  {
    if k: nat, leaf :| Rewrites(before, k, leaf, after) {
      Around(a, before, b, k, [leaf]);
      assert Rewrites(a + before + b, |a| + k, leaf, a + after + b);
    } else {
      var k: nat, left, right :| Splices(before, k, left, right, newId, after);
      Around(a, before, b, k, [left, right]);
      assert Splices(a + before + b, |a| + k, left, right, newId, a + after + b);
    }
  }

  lemma InnerOfLeaves<K(!new)>(m: nat, keys: seq<K>, children: seq<Tree<K>>)
    requires |children| == |keys| + 1
    ensures GrownLeaves(InnerOf(m, keys, children)) == AllLeaves(children)
  {
    if |keys| > m {
      var middle := |keys| / 2;
      assert children == children[..middle + 1] + children[middle + 1..];
      AllLeavesConcat(children[..middle + 1], children[middle + 1..]);
    }
  }

  lemma GrowChildLeaves<K(!new)>(m: nat, keys: seq<K>, children: seq<Tree<K>>, c: nat, grown: Grown<K>)
    requires |children| == |keys| + 1 && c < |children|
    ensures GrownLeaves(GrowChild(m, keys, children, c, grown))
         == AllLeaves(children[..c]) + GrownLeaves(grown) + AllLeaves(children[c + 1..])
  {
    match grown
    case Whole(child) =>
      AllLeavesAround(children[c := child], c);
      assert children[c := child][..c] == children[..c];
      assert children[c := child][c + 1..] == children[c + 1..];
    case Split(left, separator, right) =>
      var cs := InsertAt(children[c := left], c + 1, right);
      assert cs == children[..c] + [left, right] + children[c + 1..];
      AllLeavesConcat(children[..c] + [left, right], children[c + 1..]);
      AllLeavesConcat(children[..c], [left, right]);
      AllLeavesTwo(left, right);
      InnerOfLeaves(m, InsertAt(keys, c, separator), cs);
  }

  lemma LeafOfEdits<K(!new)>(m: nat, newId: nat, id: nat, keys: seq<K>, rows: seq<RowId>,
                             next: Option<nat>, grown: Grown<K>)
    requires exists ks, rs :: |ks| == |rs| && grown == LeafOf(m, newId, id, ks, rs, next)
    ensures EditsLeaf([LeafNode(id, keys, rows, next)], newId, GrownLeaves(grown))
  {
    var before := [LeafNode(id, keys, rows, next)];
    var after := GrownLeaves(grown);
    if grown.Whole? {
      assert Rewrites(before, 0, after[0], after);
    } else {
      assert Splices(before, 0, after[0], after[1], newId, after);
    }
  }

  /** Insertion edits exactly one leaf of the chain. */
  lemma {:induction false} InsertEditsLeaf<K(!new)>(less: (K, K) -> bool, m: nat, newId: nat,
                                                    t: Tree<K>, key: K, row: RowId)
    requires WellShaped(t)
    ensures var r := Insert(less, m, newId, t, key, row);
      r.Ok? ==> EditsLeaf(Leaves(t), newId, GrownLeaves(r.value))
  {
    match t
    case Leaf(id, keys, rows, next) =>
      var r := Insert(less, m, newId, t, key, row);
      var n := LowerBound(less, keys, key);
      if r.Ok? {
        assert r.value == LeafOf(m, newId, id, InsertAt(keys, n, key), InsertAt(rows, n, row), next);
        LeafOfEdits(m, newId, id, keys, rows, next, r.value);
      }
    case Inner(keys, children) =>
      var c := UpperBound(less, keys, key);
      InsertEditsLeaf(less, m, newId, children[c], key, row);
      var r := Insert(less, m, newId, children[c], key, row);
      if r.Ok? {
        AllLeavesAround(children, c);
        GrowChildLeaves(m, keys, children, c, r.value);
        EditInside(AllLeaves(children[..c]), Leaves(children[c]), AllLeaves(children[c + 1..]),
                   newId, GrownLeaves(r.value));
      }
  }

  /** Inserting into the root keeps the chain whole and every leaf address distinct. */
  lemma InsertRootKeepsChain<K(!new)>(less: (K, K) -> bool, m: nat, newId: nat, t: Tree<K>,
                                      key: K, row: RowId)
    requires WellShaped(t) && Chained(Leaves(t), None) && DistinctIds(Leaves(t), newId)
    ensures match InsertRoot(less, m, newId, t, key, row)
      case Err(_) => true
      case Ok(t') => Chained(Leaves(t'), None) && DistinctIds(Leaves(t'), newId + 1)
  {
    InsertEditsLeaf(less, m, newId, t, key, row);
    match Insert(less, m, newId, t, key, row)
    case Err(_) =>
    case Ok(grown) =>
      EditKeepsChain(Leaves(t), newId, GrownLeaves(grown), None);
      if grown.Split? { AllLeavesTwo(grown.left, grown.right); }
  }

  // ---------------------------------------------------------------- entries by leaf

  ghost predicate Paired<K(!new)>(ls: seq<LeafNode<K>>) {
    forall i :: 0 <= i < |ls| ==> |ls[i].keys| == |ls[i].rows|
  }

  ghost function LeafEntries<K(!new)>(ls: seq<LeafNode<K>>): seq<Entry<K>>
    requires Paired(ls)
  {
    if ls == [] then [] else Zip(ls[0].keys, ls[0].rows) + LeafEntries(ls[1..])
  }

  lemma LeafEntriesCons<K(!new)>(leaf: LeafNode<K>, ls: seq<LeafNode<K>>)
    requires |leaf.keys| == |leaf.rows| && Paired(ls)
    ensures Paired([leaf] + ls)
    ensures LeafEntries([leaf] + ls) == Zip(leaf.keys, leaf.rows) + LeafEntries(ls)
  {
    assert ([leaf] + ls)[1..] == ls;
  }

  lemma {:induction false} LeafEntriesConcat<K(!new)>(a: seq<LeafNode<K>>, b: seq<LeafNode<K>>)
    requires Paired(a) && Paired(b)
    ensures LeafEntries(a + b) == LeafEntries(a) + LeafEntries(b)
  {
    if a == [] {
      assert a + b == b;
    } else {
      LeafEntriesConcat(a[1..], b);
      LeafEntriesCons(a[0], a[1..] + b);
      assert a + b == [a[0]] + (a[1..] + b);
    }
  }

  /** The entries of a tree are those of its leaves, left to right. */
  lemma {:induction false} LeavesHoldEntries<K(!new)>(t: Tree<K>)
    requires WellShaped(t)
    ensures Paired(Leaves(t)) && LeafEntries(Leaves(t)) == Entries(t)
    decreases t, 0
  {
    match t
    case Leaf(_, keys, rows, _) =>
      assert LeafEntries(Leaves(t)) == Zip(keys, rows) + LeafEntries(Leaves(t)[1..]);
    case Inner(_, children) => AllLeavesHoldEntries(children);
  }

  lemma {:induction false} AllLeavesHoldEntries<K(!new)>(ts: seq<Tree<K>>)
    requires forall i :: 0 <= i < |ts| ==> WellShaped(ts[i])
    ensures Paired(AllLeaves(ts)) && LeafEntries(AllLeaves(ts)) == AllEntries(ts)
    decreases ts, |ts|
  {
    if ts != [] {
      LeavesHoldEntries(ts[0]);
      AllLeavesHoldEntries(ts[1..]);
      LeafEntriesConcat(Leaves(ts[0]), AllLeaves(ts[1..]));
    }
  }
}
