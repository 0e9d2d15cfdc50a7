/** The BPlusTree object of src/native_index.cpp: a sorted map from keys to row ids. */
module BPlusTreeIndex {
  import opened Wrappers
  import opened Ordering
  import opened RowIds
  import opened BPlusTree
  import opened BPlusTreeChain

  class Index<K(!new, ==)> {
    const less: (K, K) -> bool
    const maxKeys: nat
    var root: Tree<K>
    var size: nat
    var nextId: nat  // the address the next new leaf gets
    ghost var contents: map<K, RowId>

    ghost predicate Valid()
      reads this
    {
      && TotalOrder(less) && maxKeys >= 3
      && WellShaped(root)
      && (exists d :: ValidRoot(less, maxKeys, root, d))
      && Chained(Leaves(root), None) && DistinctIds(Leaves(root), nextId)
      && size == |Entries(root)|
      && Represents(Entries(root), contents)
    }

    constructor (less: (K, K) -> bool, maxKeys: nat)
      requires TotalOrder(less)
      ensures Valid() && contents == map[] && size == 0
      ensures this.less == less && this.maxKeys == if maxKeys < 3 then 3 else maxKeys
    {
      this.less := less;
      this.maxKeys := if maxKeys < 3 then 3 else maxKeys;
      root := Leaf(0, [], [], None);
      size, nextId := 0, 1;
      contents := map[];
      new;
      assert ValidRoot(less, this.maxKeys, root, 1);
    }

    method Insert(key: K, row: RowId) returns (r: Result<(), Duplicate>)
      requires Valid()
      modifies this
      ensures Valid()
      ensures r.Err? <==> key in old(contents)
      ensures r.Err? ==> unchanged(this)
      ensures r.Ok? ==> contents == old(contents)[key := row] && size == old(size) + 1
    {
      ghost var before := Entries(root);
      ghost var d: nat :| ValidRoot(less, maxKeys, root, d);
      InsertRootValid(less, maxKeys, nextId, root, d, key, row);
      InsertRootKeepsChain(less, maxKeys, nextId, root, key, row);
      HasKeyIsStored(before, contents, key);
      match BPlusTree.InsertRoot(less, maxKeys, nextId, root, key, row) {
        case Err(e) => r := Err(e);
        case Ok(t) =>
          InsertsRepresents(before, contents, Entry(key, row), Entries(t));
          root, size, nextId := t, size + 1, nextId + 1;
          contents := contents[key := row];
          r := Ok(());
      }
    }

    method Clear()
      requires Valid()
      modifies this
      ensures Valid() && contents == map[] && size == 0
    {
      root := Leaf(nextId, [], [], None);
      size, nextId := 0, nextId + 1;
      contents := map[];
      assert ValidRoot(less, maxKeys, root, 1);
    }

    method FindLeaf(key: K) returns (leaf: LeafNode<K>)
      requires Valid()
      ensures leaf == LeafFor(less, root, key)
    {
      var node := root;
      while node.Inner?
        invariant WellShaped(node)
        invariant LeafFor(less, node, key) == LeafFor(less, root, key)
        decreases node
      {
        node := node.children[UpperBound(less, node.keys, key)];
      }
      leaf := LeafNode(node.id, node.keys, node.rows, node.next);
    }

    method Find(key: K) returns (row: Option<RowId>)
      requires Valid()
      ensures row == if key in contents then Some(contents[key]) else None
    {
      var leaf := FindLeaf(key);
      ghost var d: nat :| ValidRoot(less, maxKeys, root, d);
      FindCorrect(less, maxKeys, root, d, None, None, key);
      FindIsLeafLookup(less, root, key);
      HasKeyIsStored(Entries(root), contents, key);
      var position := LowerBound(less, leaf.keys, key);
      if position >= |leaf.keys| || leaf.keys[position] != key { return None; }
      return Some(leaf.rows[position]);
    }

    method Height() returns (h: nat)
      requires Valid()
      ensures ValidRoot(less, maxKeys, root, h)
      ensures h >= 2 ==> size >= 2 * ((maxKeys + 1) / 2 * Power(maxKeys / 2 + 1, h - 2))
    {
      ghost var d: nat :| ValidRoot(less, maxKeys, root, d);
      h := 1;
      var node := root;
      ghost var lo: Option<K>, hi: Option<K> := None, None;
      while node.Inner?
        invariant h <= d && BPlusTree.Valid(less, maxKeys, node, d - h + 1, lo, hi)
        decreases node
      {
        lo, hi := Lo(node.keys, lo, 0), Hi(node.keys, hi, 0);
        node := node.children[0];
        h := h + 1;
      }
      if h >= 2 { RootSize(less, maxKeys, root, h); }
    }

    /** Follows the leaf chain from the leaf of the lower bound. The ghost result lists the
        keys of the rows: all stored keys between the bounds, ascending, each once. */
    method Range(lower: Option<K>, upper: Option<K>) returns (rows: seq<RowId>, ghost keys: seq<K>)
      requires Valid()
      ensures Ascending(less, keys) && |rows| == |keys|
      ensures forall i :: 0 <= i < |keys| ==> keys[i] in contents && rows[i] == contents[keys[i]]
      ensures forall k :: k in keys <==> k in contents && Between(less, lower, k, upper)
    {
      var leaf, start, i := RangeStart(lower);
      ghost var p, q;
      rows, p, q := Collect(leaf, start, lower, upper, i, Entries(root), Leaves(root));
      keys := FoundAtRoot(lower, upper, p, q, rows);
    }

    lemma FoundAtRoot(lower: Option<K>, upper: Option<K>, p: nat, q: nat, rows: seq<RowId>) returns (keys: seq<K>)
      requires Valid() && p <= q <= |Entries(root)| && rows == RowsOf(Entries(root)[p..q])
      requires Stops(less, Entries(root), p, q, upper) && StartsAt(less, Entries(root), p, lower)
      ensures Ascending(less, keys) && |rows| == |keys|
      ensures forall i :: 0 <= i < |keys| ==> keys[i] in contents && rows[i] == contents[keys[i]]
      ensures forall k :: k in keys <==> k in contents && Between(less, lower, k, upper)
    {
      keys := KeysOf(Entries(root)[p..q]);
      InOrderAtRoot();
      RangeFound(less, Entries(root), contents, lower, upper, p, q, keys);
    }

    /** The loop of the range scan, from position `start` of leaf i on. */
    method Collect(first: LeafNode<K>, from: nat, lower: Option<K>, upper: Option<K>, ghost at: nat,
                   ghost es: seq<Entry<K>>, ghost ls: seq<LeafNode<K>>)
      returns (rows: seq<RowId>, ghost p: nat, ghost q: nat)
      requires ls == Leaves(root) && Chained(ls, None) && DistinctIds(ls, nextId)
      requires Begins(less, ls, es, at, from, lower) && ls[at] == first
      ensures p <= q <= |es| && rows == RowsOf(es[p..q])
      ensures StartsAt(less, es, p, lower) && Stops(less, es, p, q, upper)
    {
      p := |LeafEntries(ls[..at])| + from;
      ScanBegins(less, ls, es, at, from, p, lower, upper);
      var leaf, start: nat := first, from;
      ghost var i := at;
      rows, q := [], p;
      while true
        invariant Scanning(less, ls, es, i, start, p, q, rows, upper) && ls[i] == leaf
        decreases |ls| - i
      {
        var stop;
        stop, rows, q := TakeLeaf(leaf, start, upper, rows, i, p, q, es, ls);
        if stop < |leaf.keys| || leaf.next == None {
          ScanEnds(less, ls, es, i, stop, p, q, rows, upper);
          return;
        }
        leaf := Dereference(ls, leaf.next.value, i);
        ScanNext(less, ls, es, i, p, q, rows, upper);
        i, start := i + 1, 0;
      }
    }

    lemma InOrderAtRoot()
      requires Valid()
      ensures InOrder(less, Entries(root), None, None)
    {
      var d: nat :| ValidRoot(less, maxKeys, root, d);
      EntriesInOrder(less, maxKeys, root, d, None, None);
    }

    /** The leaf and the position in it where a range begins. */
    method RangeStart(lower: Option<K>) returns (leaf: LeafNode<K>, start: nat, ghost i: nat)
      requires Valid()
      ensures Begins(less, Leaves(root), Entries(root), i, start, lower) && Leaves(root)[i] == leaf
    {
      if lower.Some? {
        leaf := FindLeaf(lower.value);
        start := LowerBound(less, leaf.keys, lower.value);
        i := PositionAtRoot(lower.value);
      } else {
        leaf, start, i := Leftmost(root), 0, 0;
        LeftmostBegins(less, root);
      }
    }

    lemma PositionAtRoot(key: K) returns (i: nat)
      requires Valid()
      ensures i < |Leaves(root)| && Leaves(root)[i] == LeafFor(less, root, key)
      ensures Begins(less, Leaves(root), Entries(root), i,
                     LowerBound(less, LeafFor(less, root, key).keys, key), Some(key))
    {
      var d: nat :| ValidRoot(less, maxKeys, root, d);
      i := LeafPosition(less, maxKeys, root, d, None, None, key);
      LeavesHoldEntries(root);
      SeparatedBegins(less, Leaves(root), i, key);
    }

    /** Appends the rows of one leaf, from position `start` up to the bound. */
    method TakeLeaf(leaf: LeafNode<K>, start: nat, upper: Option<K>, rows: seq<RowId>, ghost i: nat, ghost p: nat,
                    ghost q: nat, ghost es: seq<Entry<K>>, ghost ls: seq<LeafNode<K>>)
      returns (stop: nat, more: seq<RowId>, ghost q': nat)
      requires Scanning(less, ls, es, i, start, p, q, rows, upper) && ls[i] == leaf
      ensures Scanning(less, ls, es, i, stop, p, q', more, upper)
      ensures stop < |leaf.keys| ==> !UpTo(less, leaf.keys[stop], upper)
    {
      stop := ScanLeaf(leaf, start, upper);
      more, q' := rows + leaf.rows[start..stop], q + (stop - start);
      ScanWithin(less, ls, es, i, start, stop, p, q, rows, more, upper);
    }

    /** How far a leaf's keys from `start` on stay within the upper bound. */
    method ScanLeaf(leaf: LeafNode<K>, start: nat, upper: Option<K>) returns (stop: nat)
      requires start <= |leaf.keys|
      ensures start <= stop <= |leaf.keys|
      ensures forall j :: start <= j < stop ==> UpTo(less, leaf.keys[j], upper)
      ensures stop < |leaf.keys| ==> !UpTo(less, leaf.keys[stop], upper)
    {
      stop := start;
      while stop < |leaf.keys|
        invariant start <= stop <= |leaf.keys|
        invariant forall j :: start <= j < stop ==> UpTo(less, leaf.keys[j], upper)
      {
        if upper.Some? && less(upper.value, leaf.keys[stop]) { return; }
        stop := stop + 1;
      }
    }

    /** The leaf at an address, which the caller holds as the next pointer of leaf i. */
    method Dereference(ghost ls: seq<LeafNode<K>>, id: nat, ghost i: nat) returns (leaf: LeafNode<K>)
      requires ls == Leaves(root) && Chained(ls, None) && DistinctIds(ls, nextId)
      requires i < |ls| && ls[i].next == Some(id)
      ensures i + 1 < |ls| && leaf == ls[i + 1]
    {
      var all := Leaves(root);
      assert i + 1 < |all| && all[i + 1].id == id;
      var n := 0;
      while all[n].id != id
        invariant n <= i + 1
        decreases |all| - n
      {
        n := n + 1;
      }
      leaf := all[n];
    }
  }

  // ------------------------------------------------------------- descending

  function LeafFor<K(!new, ==)>(less: (K, K) -> bool, t: Tree<K>, key: K): LeafNode<K>
    requires WellShaped(t)
  {
    match t
    case Leaf(id, keys, rows, next) => LeafNode(id, keys, rows, next)
    case Inner(keys, children) => LeafFor(less, children[UpperBound(less, keys, key)], key)
  }

  lemma {:induction false} FindIsLeafLookup<K(!new)>(less: (K, K) -> bool, t: Tree<K>, key: K)
    requires WellShaped(t)
    ensures var leaf := LeafFor(less, t, key);
      && |leaf.keys| == |leaf.rows|
      && BPlusTree.Find(less, t, key) ==
           var n := LowerBound(less, leaf.keys, key);
           if n < |leaf.keys| && leaf.keys[n] == key then Some(leaf.rows[n]) else None
  {
    if t.Inner? { FindIsLeafLookup(less, t.children[UpperBound(less, t.keys, key)], key); }
  }

  function Leftmost<K>(t: Tree<K>): LeafNode<K>
    requires WellShaped(t)
  {
    match t
    case Leaf(id, keys, rows, next) => LeafNode(id, keys, rows, next)
    case Inner(_, children) => Leftmost(children[0])
  }

  lemma {:induction false} LeftmostIsFirst<K>(t: Tree<K>)
    requires WellShaped(t)
    ensures |Leaves(t)| > 0 && Leaves(t)[0] == Leftmost(t)
  {
    if t.Inner? {
      LeftmostIsFirst(t.children[0]);
      AllLeavesAround(t.children, 0);
    }
  }

  /** Where the leaf for a key is in the chain; everything before it is smaller. */
  lemma {:induction false} LeafPosition<K(!new)>(less: (K, K) -> bool, m: nat, t: Tree<K>, d: nat,
                                                 lo: Option<K>, hi: Option<K>, key: K) returns (i: nat)
    requires TotalOrder(less) && Valid(less, m, t, d, lo, hi) && WellShaped(t)
    ensures Separates(less, Leaves(t), i, key)
    ensures Leaves(t)[i] == LeafFor(less, t, key)
    decreases d
  {
    match t
    case Leaf(_, _, _, _) => i := 0;
    case Inner(keys, children) =>
      var c := UpperBound(less, keys, key);
      var before, after := AllLeaves(children[..c]), AllLeaves(children[c + 1..]);
      var inside := LeafPosition(less, m, children[c], d - 1, Lo(keys, lo, c), Hi(keys, hi, c), key);
      i := |before| + inside;
      LeavesHoldEntries(children[c]);
      AllLeavesHoldEntries(children[..c]);
      AllLeavesHoldEntries(children[c + 1..]);
      SiblingsApart(less, m, keys, children, d - 1, lo, hi, key);
      AllLeavesAround(children, c);
      PositionInside(less, before, Leaves(children[c]), after, inside, key);
  }

  ghost predicate AllWithin<K(!new)>(less: (K, K) -> bool, lo: Option<K>, es: seq<Entry<K>>, hi: Option<K>) {
    forall i :: 0 <= i < |es| ==> Within(less, lo, es[i].key, hi)
  }

  /** The leaf at i separates the entries below the key from those not below it. */
  ghost predicate Separates<K(!new)>(less: (K, K) -> bool, ls: seq<LeafNode<K>>, i: nat, key: K) {
    && i < |ls| && Paired(ls[..i]) && Paired(ls[i + 1..])
    && AllWithin(less, None, LeafEntries(ls[..i]), Some(key))
    && AllWithin(less, Some(key), LeafEntries(ls[i + 1..]), None)
  }

  lemma PositionInside<K(!new)>(less: (K, K) -> bool, before: seq<LeafNode<K>>, ls: seq<LeafNode<K>>,
                                after: seq<LeafNode<K>>, i: nat, key: K)
    requires Separates(less, ls, i, key) && Paired(before) && Paired(after)
    requires AllWithin(less, None, LeafEntries(before), Some(key))
    requires AllWithin(less, Some(key), LeafEntries(after), None)
    ensures Separates(less, before + ls + after, |before| + i, key)
  {
    WithinBoth(less, None, before, ls[..i], Some(key));
    WithinBoth(less, Some(key), ls[i + 1..], after, None);
    AroundPosition(before, ls, after, i);
  }

  lemma AroundPosition<X>(before: seq<X>, s: seq<X>, after: seq<X>, i: nat)
    requires i < |s|
    ensures (before + s + after)[..|before| + i] == before + s[..i]
    ensures (before + s + after)[|before| + i + 1..] == s[i + 1..] + after
  {
  }

  lemma WithinBoth<K(!new)>(less: (K, K) -> bool, lo: Option<K>, a: seq<LeafNode<K>>, b: seq<LeafNode<K>>,
                            hi: Option<K>)
    requires Paired(a) && Paired(b)
    requires AllWithin(less, lo, LeafEntries(a), hi) && AllWithin(less, lo, LeafEntries(b), hi)
    ensures Paired(a + b) && AllWithin(less, lo, LeafEntries(a + b), hi)
  {
    LeafEntriesConcat(a, b);
  }

  lemma SiblingsApart<K(!new)>(less: (K, K) -> bool, m: nat, keys: seq<K>, children: seq<Tree<K>>,
                               d: nat, lo: Option<K>, hi: Option<K>, key: K)
    requires TotalOrder(less) && ValidChildren(less, m, keys, children, d, lo, hi)
    requires forall i :: 0 <= i < |children| ==> WellShaped(children[i])
    ensures AllWithin(less, None, AllEntries(children[..UpperBound(less, keys, key)]), Some(key))
    ensures AllWithin(less, Some(key), AllEntries(children[UpperBound(less, keys, key) + 1..]), None)
  {
    var c := UpperBound(less, keys, key);
    UpperBoundSplits(less, keys, key);
    if c > 0 {
      ChildEntriesInOrder(less, m, keys, children, d, lo, hi, 0, c);
      assert children[0..c] == children[..c];
      TightenUpper(less, AllEntries(children[..c]), lo, keys[c - 1], key);
    }
    if c < |keys| {
      ChildEntriesInOrder(less, m, keys, children, d, lo, hi, c + 1, |children|);
      assert children[c + 1..|children|] == children[c + 1..];
      TightenLower(less, AllEntries(children[c + 1..]), keys[c], hi, key);
    }
  }

  lemma TightenUpper<K(!new)>(less: (K, K) -> bool, es: seq<Entry<K>>, lo: Option<K>, separator: K, key: K)
    requires TotalOrder(less) && InOrder(less, es, lo, Some(separator)) && !less(key, separator)
    ensures AllWithin(less, None, es, Some(key))
  {
  }

  lemma TightenLower<K(!new)>(less: (K, K) -> bool, es: seq<Entry<K>>, separator: K, hi: Option<K>, key: K)
    requires TotalOrder(less) && InOrder(less, es, Some(separator), hi) && less(key, separator)
    ensures AllWithin(less, Some(key), es, None)
  {
  }

  // ---------------------------------------------------------------- ranges

  ghost predicate UpTo<K(!new)>(less: (K, K) -> bool, key: K, upper: Option<K>) {
    upper.Some? ==> !less(upper.value, key)
  }

  ghost predicate Between<K(!new)>(less: (K, K) -> bool, lower: Option<K>, key: K, upper: Option<K>) {
    (lower.Some? ==> !less(key, lower.value)) && UpTo(less, key, upper)
  }

  ghost function RowsOf<K>(es: seq<Entry<K>>): (rows: seq<RowId>)
    ensures |rows| == |es| && forall i :: 0 <= i < |es| ==> rows[i] == es[i].row
  {
    seq(|es|, i requires 0 <= i < |es| => es[i].row)
  }

  ghost function KeysOf<K>(es: seq<Entry<K>>): (keys: seq<K>)
    ensures |keys| == |es| && forall i :: 0 <= i < |es| ==> keys[i] == es[i].key
  {
    seq(|es|, i requires 0 <= i < |es| => es[i].key)
  }

  lemma LeafSlice<K(!new)>(ls: seq<LeafNode<K>>, i: nat)
    requires Paired(ls) && i < |ls|
    ensures LeafEntries(ls) == LeafEntries(ls[..i]) + Zip(ls[i].keys, ls[i].rows) + LeafEntries(ls[i + 1..])
  {
    assert ls == ls[..i] + ls[i..];
    LeafEntriesConcat(ls[..i], ls[i..]);
    LeafEntriesFrom(ls, i);
  }

  lemma LeafEntriesFrom<K(!new)>(ls: seq<LeafNode<K>>, i: nat)
    requires Paired(ls) && i < |ls|
    ensures LeafEntries(ls[i..]) == Zip(ls[i].keys, ls[i].rows) + LeafEntries(ls[i + 1..])
  {
    assert ls[i..] == [ls[i]] + ls[i + 1..];
    LeafEntriesCons(ls[i], ls[i + 1..]);
  }

  lemma LeafEntriesUpTo<K(!new)>(ls: seq<LeafNode<K>>, i: nat)
    requires Paired(ls) && i < |ls|
    ensures LeafEntries(ls[..i + 1]) == LeafEntries(ls[..i]) + Zip(ls[i].keys, ls[i].rows)
  {
    assert ls[..i + 1] == ls[..i] + [ls[i]];
    LeafEntriesConcat(ls[..i], [ls[i]]);
    LeafEntriesCons(ls[i], []);
    assert [ls[i]] + [] == [ls[i]];
  }

  /** The scan stands before position `start` of leaf i and has collected the entries p..q. */
  ghost predicate Scanning<K(!new)>(less: (K, K) -> bool, ls: seq<LeafNode<K>>, es: seq<Entry<K>>, i: nat,
                                    start: nat, p: nat, q: nat, rows: seq<RowId>, upper: Option<K>) {
    && Paired(ls) && es == LeafEntries(ls) && i < |ls| && start <= |ls[i].keys|
    && p <= q <= |es| && q == |LeafEntries(ls[..i])| + start
    && rows == RowsOf(es[p..q])
    && (forall n :: p <= n < q ==> UpTo(less, es[n].key, upper))
  }

  lemma ScanBegins<K(!new)>(less: (K, K) -> bool, ls: seq<LeafNode<K>>, es: seq<Entry<K>>, i: nat,
                            start: nat, p: nat, lower: Option<K>, upper: Option<K>)
    requires Begins(less, ls, es, i, start, lower) && p == |LeafEntries(ls[..i])| + start
    ensures Scanning(less, ls, es, i, start, p, p, [], upper)
  {
  }

  lemma ScanWithin<K(!new)>(less: (K, K) -> bool, ls: seq<LeafNode<K>>, es: seq<Entry<K>>, i: nat,
                            start: nat, stop: nat, p: nat, q: nat, before: seq<RowId>, rows: seq<RowId>,
                            upper: Option<K>)
    requires Scanning(less, ls, es, i, start, p, q, before, upper)
    requires start <= stop <= |ls[i].keys| && rows == before + ls[i].rows[start..stop]
    requires forall j :: start <= j < stop ==> UpTo(less, ls[i].keys[j], upper)
    ensures Scanning(less, ls, es, i, stop, p, q + (stop - start), rows, upper)
  {
    LeafSlice(ls, i);
    ScannedSlice(LeafEntries(ls[..i]), ls[i].keys, ls[i].rows, LeafEntries(ls[i + 1..]), start, stop, p);
    ScannedKeys(less, LeafEntries(ls[..i]), ls[i].keys, ls[i].rows, LeafEntries(ls[i + 1..]),
                start, stop, upper);
  }

  lemma ScannedSlice<K(!new)>(before: seq<Entry<K>>, keys: seq<K>, rows: seq<RowId>,
                              after: seq<Entry<K>>, start: nat, stop: nat, p: nat)
    requires |keys| == |rows| && start <= stop <= |keys| && p <= |before| + start
    ensures var es := before + Zip(keys, rows) + after;
      RowsOf(es[p..|before| + stop]) == RowsOf(es[p..|before| + start]) + rows[start..stop]
  {
  }

  lemma ScannedKeys<K(!new)>(less: (K, K) -> bool, before: seq<Entry<K>>, keys: seq<K>, rows: seq<RowId>,
                             after: seq<Entry<K>>, start: nat, stop: nat, upper: Option<K>)
    requires |keys| == |rows| && start <= stop <= |keys|
    requires forall j :: start <= j < stop ==> UpTo(less, keys[j], upper)
    ensures var es := before + Zip(keys, rows) + after;
      forall n :: |before| + start <= n < |before| + stop ==> UpTo(less, es[n].key, upper)
  {
    var es := before + Zip(keys, rows) + after;
    forall n | |before| + start <= n < |before| + stop ensures es[n].key == keys[n - |before|] {
    }
  }

  lemma ScanNext<K(!new)>(less: (K, K) -> bool, ls: seq<LeafNode<K>>, es: seq<Entry<K>>, i: nat,
                          p: nat, q: nat, rows: seq<RowId>, upper: Option<K>)
    requires i + 1 < |ls| && Scanning(less, ls, es, i, |ls[i].keys|, p, q, rows, upper)
    ensures Scanning(less, ls, es, i + 1, 0, p, q, rows, upper)
  {
    LeafEntriesUpTo(ls, i);
  }

  /** A scan that stops at a key above the bound, or at the end of the last leaf, is complete. */
  lemma ScanEnds<K(!new)>(less: (K, K) -> bool, ls: seq<LeafNode<K>>, es: seq<Entry<K>>, i: nat,
                          stop: nat, p: nat, q: nat, rows: seq<RowId>, upper: Option<K>)
    requires Scanning(less, ls, es, i, stop, p, q, rows, upper) && Chained(ls, None)
    requires stop < |ls[i].keys| || ls[i].next == None
    requires stop < |ls[i].keys| ==> !UpTo(less, ls[i].keys[stop], upper)
    ensures p <= q <= |es| && Stops(less, es, p, q, upper)
  {
    if stop < |ls[i].keys| {
      LeafSlice(ls, i);
      EntryInMiddle(LeafEntries(ls[..i]), ls[i].keys, ls[i].rows, LeafEntries(ls[i + 1..]), stop);
    } else {
      LastLeaf(ls, i);
    }
  }

  lemma EntryInMiddle<K(!new)>(before: seq<Entry<K>>, keys: seq<K>, rows: seq<RowId>, after: seq<Entry<K>>, n: nat)
    requires n < |keys| == |rows|
    ensures (before + Zip(keys, rows) + after)[|before| + n].key == keys[n]
  {
  }

  lemma ChainStep<K(!new)>(ls: seq<LeafNode<K>>, i: nat)
    requires Chained(ls, None) && i + 1 < |ls|
    ensures ls[i].next == Some(ls[i + 1].id)
  {
  }

  lemma LastLeaf<K(!new)>(ls: seq<LeafNode<K>>, i: nat)
    requires Paired(ls) && Chained(ls, None) && i < |ls| && ls[i].next == None
    ensures |LeafEntries(ls[..i])| + |ls[i].keys| == |LeafEntries(ls)|
  {
    if i + 1 < |ls| { ChainStep(ls, i); }
    LeafSlice(ls, i);
    assert ls[i + 1..] == [];
  }

  /** Nothing before the starting position reaches the lower bound. */
  ghost predicate StartsAt<K(!new)>(less: (K, K) -> bool, es: seq<Entry<K>>, p: nat, lower: Option<K>) {
    && p <= |es|
    && (lower.Some? ==> (forall n :: 0 <= n < p ==> less(es[n].key, lower.value))
                        && (p < |es| ==> !less(es[p].key, lower.value)))
    && (lower.None? ==> p == 0)
  }

  ghost predicate Begins<K(!new)>(less: (K, K) -> bool, ls: seq<LeafNode<K>>, es: seq<Entry<K>>, i: nat,
                                  start: nat, lower: Option<K>) {
    && Paired(ls) && es == LeafEntries(ls) && i < |ls| && start <= |ls[i].keys|
    && StartsAt(less, es, |LeafEntries(ls[..i])| + start, lower)
  }

  lemma LeftmostBegins<K(!new)>(less: (K, K) -> bool, t: Tree<K>)
    requires WellShaped(t)
    ensures Begins(less, Leaves(t), Entries(t), 0, 0, None) && Leaves(t)[0] == Leftmost(t)
  {
    LeavesHoldEntries(t);
    LeftmostIsFirst(t);
  }

  lemma SeparatedBegins<K(!new)>(less: (K, K) -> bool, ls: seq<LeafNode<K>>, i: nat, key: K)
    requires TotalOrder(less) && Paired(ls) && Separates(less, ls, i, key)
    ensures Begins(less, ls, LeafEntries(ls), i, LowerBound(less, ls[i].keys, key), Some(key))
  {
    LeafSlice(ls, i);
    SeparatedStart(less, LeafEntries(ls[..i]), ls[i].keys, ls[i].rows, LeafEntries(ls[i + 1..]), key);
  }

  lemma SeparatedStart<K(!new)>(less: (K, K) -> bool, before: seq<Entry<K>>, keys: seq<K>, rows: seq<RowId>,
                                after: seq<Entry<K>>, key: K)
    requires TotalOrder(less) && |keys| == |rows|
    requires AllWithin(less, None, before, Some(key)) && AllWithin(less, Some(key), after, None)
    ensures StartsAt(less, before + Zip(keys, rows) + after, |before| + LowerBound(less, keys, key), Some(key))
  {
    var es, start := before + Zip(keys, rows) + after, LowerBound(less, keys, key);
    forall n | 0 <= n < |before| + start ensures less(es[n].key, key) {
      if n >= |before| { assert es[n].key == keys[n - |before|]; }
    }
    if |before| + start < |es| && start == |keys| {
      assert es[|before| + start] == after[0];
    }
  }

  /** Everything from p up to q is within the upper bound, and q is not. */
  ghost predicate Stops<K(!new)>(less: (K, K) -> bool, es: seq<Entry<K>>, p: nat, q: nat, upper: Option<K>)
    requires q <= |es|
  {
    && (forall n :: p <= n < q ==> UpTo(less, es[n].key, upper))
    && (q < |es| ==> !UpTo(less, es[q].key, upper))
  }

  lemma OrderStep<K(!new)>(less: (K, K) -> bool, es: seq<Entry<K>>, i: nat, j: nat)
    requires InOrder(less, es, None, None) && i < j < |es|
    ensures less(es[i].key, es[j].key)
  {
  }

  lemma RangeFound<K(!new)>(less: (K, K) -> bool, es: seq<Entry<K>>, contents: map<K, RowId>,
                            lower: Option<K>, upper: Option<K>, p: nat, q: nat, keys: seq<K>)
    requires TotalOrder(less) && InOrder(less, es, None, None) && Represents(es, contents)
    requires p <= q <= |es| && keys == KeysOf(es[p..q])
    requires StartsAt(less, es, p, lower) && Stops(less, es, p, q, upper)
    ensures Ascending(less, keys)
    ensures forall i :: 0 <= i < |keys| ==> keys[i] in contents && RowsOf(es[p..q])[i] == contents[keys[i]]
    ensures forall k :: k in keys <==> k in contents && Between(less, lower, k, upper)
  {
    forall i | 0 <= i < |keys|
      ensures keys[i] in contents && RowsOf(es[p..q])[i] == contents[keys[i]]
      ensures Between(less, lower, keys[i], upper)
    {
      assert es[p + i] in es && es[p..q][i] == es[p + i];
      if lower.Some? && i > 0 { assert less(es[p].key, es[p + i].key); }
    }
    forall k | k in contents && Between(less, lower, k, upper)
      ensures k in keys
    {
      var n: nat :| n < |es| && es[n] == Entry(k, contents[k]);
      if n > q { OrderStep(less, es, q, n); }
      assert p <= n < q;
      assert keys[n - p] == k;
    }
  }
}
