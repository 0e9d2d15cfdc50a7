/** The nodes of the B+ tree of src/native_index.cpp: what an insertion makes of a tree and
    what every tree built by insertions satisfies. A node owns its children, so a subtree is
    a value; the raw pointer from a leaf to its right neighbour is an address (`id`, `next`).
    Module BPlusTreeIndex is the object whose methods run on these nodes. */
module BPlusTree {
  import opened Wrappers
  import opened Ordering
  import opened RowIds

  datatype Tree<K> =
    | Leaf(id: nat, keys: seq<K>, rows: seq<RowId>, next: Option<nat>)
    | Inner(keys: seq<K>, children: seq<Tree<K>>)

  datatype Entry<K> = Entry(key: K, row: RowId)

  datatype Grown<K> =
    | Whole(tree: Tree<K>)
    | Split(left: Tree<K>, separator: K, right: Tree<K>)

  datatype Duplicate = Duplicate

  // -------------------------------------------------------------- operations

  /** `node.keys.insert(begin + n, x)` for any vector. */
  function InsertAt<T>(s: seq<T>, n: nat, x: T): seq<T>
    requires n <= |s|
  {
    s[..n] + [x] + s[n..]
  }

  /** A leaf with these contents, split off to a new right neighbour when overfull. */
  function LeafOf<K>(m: nat, newId: nat, id: nat, keys: seq<K>, rows: seq<RowId>, next: Option<nat>): Grown<K>
    requires |keys| == |rows|
  {
    if |keys| <= m then Whole(Leaf(id, keys, rows, next))
    else
      var middle := |keys| / 2;
      Split(Leaf(id, keys[..middle], rows[..middle], Some(newId)), keys[middle],
            Leaf(newId, keys[middle..], rows[middle..], next))
  }

  function InnerOf<K>(m: nat, keys: seq<K>, children: seq<Tree<K>>): Grown<K>
    requires |children| == |keys| + 1
  {
    if |keys| <= m then Whole(Inner(keys, children))
    else
      var middle := |keys| / 2;
      Split(Inner(keys[..middle], children[..middle + 1]), keys[middle],
            Inner(keys[middle + 1..], children[middle + 1..]))
  }

  predicate WellShaped<K>(t: Tree<K>) {
    match t
    case Leaf(_, keys, rows, _) => |keys| == |rows|
    case Inner(keys, children) =>
      |children| == |keys| + 1 && forall i :: 0 <= i < |children| ==> WellShaped(children[i])
  }

  function Insert<K(!new, ==)>(less: (K, K) -> bool, m: nat, newId: nat, t: Tree<K>, key: K, row: RowId)
    : Result<Grown<K>, Duplicate>
    requires WellShaped(t)
  {
    match t
    case Leaf(id, keys, rows, next) =>
      var n := LowerBound(less, keys, key);
      if n < |keys| && keys[n] == key then Err(Duplicate)
      else Ok(LeafOf(m, newId, id, InsertAt(keys, n, key), InsertAt(rows, n, row), next))
    case Inner(keys, children) =>
      var c := UpperBound(less, keys, key);
      Regrow(m, keys, children, c, Insert(less, m, newId, children[c], key, row))
  }

  function Regrow<K>(m: nat, keys: seq<K>, children: seq<Tree<K>>, c: nat,
                     r: Result<Grown<K>, Duplicate>): Result<Grown<K>, Duplicate>
    requires |children| == |keys| + 1 && c < |children|
  {
    match r
    case Err(e) => Err(e)
    case Ok(grown) => Ok(GrowChild(m, keys, children, c, grown))
  }

  /** Puts what child c became back into its parent. */
  function GrowChild<K>(m: nat, keys: seq<K>, children: seq<Tree<K>>, c: nat, grown: Grown<K>): Grown<K>
    requires |children| == |keys| + 1 && c < |children|
  {
    match grown
    case Whole(child) => Whole(Inner(keys, children[c := child]))
    case Split(left, separator, right) =>
      InnerOf(m, InsertAt(keys, c, separator), InsertAt(children[c := left], c + 1, right))
  }

  function InsertRoot<K(!new, ==)>(less: (K, K) -> bool, m: nat, newId: nat, t: Tree<K>, key: K, row: RowId)
    : Result<Tree<K>, Duplicate>
    requires WellShaped(t)
  {
    match Insert(less, m, newId, t, key, row)
    case Err(e) => Err(e)
    case Ok(Whole(tree)) => Ok(tree)
    case Ok(Split(left, separator, right)) => Ok(Inner([separator], [left, right]))
  }

  function Find<K(!new, ==)>(less: (K, K) -> bool, t: Tree<K>, key: K): Option<RowId>
    requires WellShaped(t)
  {
    match t
    case Leaf(_, keys, rows, _) =>
      var n := LowerBound(less, keys, key);
      if n < |keys| && keys[n] == key then Some(rows[n]) else None
    case Inner(keys, children) => Find(less, children[UpperBound(less, keys, key)], key)
  }

  // ------------------------------------------------------------ abstraction

  function Entries<K>(t: Tree<K>): (es: seq<Entry<K>>)
    requires WellShaped(t)
    decreases t, 0
  {
    match t
    case Leaf(_, keys, rows, _) => Zip(keys, rows)
    case Inner(_, children) => AllEntries(children)
  }

  function Zip<K>(keys: seq<K>, rows: seq<RowId>): (es: seq<Entry<K>>)
    requires |keys| == |rows|
    ensures |es| == |keys| && forall i :: 0 <= i < |es| ==> es[i] == Entry(keys[i], rows[i])
  {
    seq(|keys|, i requires 0 <= i < |keys| => Entry(keys[i], rows[i]))
  }

  function AllEntries<K>(ts: seq<Tree<K>>): seq<Entry<K>>
    requires forall i :: 0 <= i < |ts| ==> WellShaped(ts[i])
    decreases ts, |ts|
  {
    if ts == [] then [] else Entries(ts[0]) + AllEntries(ts[1..])
  }

  lemma {:induction false} AllEntriesConcat<K>(a: seq<Tree<K>>, b: seq<Tree<K>>)
    requires forall i :: 0 <= i < |a| ==> WellShaped(a[i])
    requires forall i :: 0 <= i < |b| ==> WellShaped(b[i])
    ensures AllEntries(a + b) == AllEntries(a) + AllEntries(b)
  {
    if a == [] {
      assert a + b == b;
    } else {
      AllEntriesConcat(a[1..], b);
      assert (a + b)[1..] == a[1..] + b;
    }
  }

  /** A child in its place among the entries of its siblings. */
  lemma AllEntriesAround<K>(ts: seq<Tree<K>>, c: nat)
    requires forall i :: 0 <= i < |ts| ==> WellShaped(ts[i])
    requires c < |ts|
    ensures AllEntries(ts) == AllEntries(ts[..c]) + Entries(ts[c]) + AllEntries(ts[c + 1..])
  {
    assert ts == ts[..c] + ts[c..];
    AllEntriesConcat(ts[..c], ts[c..]);
    assert ts[c..][1..] == ts[c + 1..];
  }

  ghost predicate HasKey<K(!new)>(es: seq<Entry<K>>, key: K) {
    exists i :: 0 <= i < |es| && es[i].key == key
  }

  lemma HasKeyInMiddle<K(!new)>(a: seq<Entry<K>>, b: seq<Entry<K>>, c: seq<Entry<K>>, key: K)
    requires !HasKey(a, key) && !HasKey(c, key)
    ensures HasKey(a + b + c, key) <==> HasKey(b, key)
  {
    if i :| 0 <= i < |b| && b[i].key == key {
      assert (a + b + c)[|a| + i].key == key;
    }
  }

  // --------------------------------------------------------------- validity

  ghost predicate Within<K(!new)>(less: (K, K) -> bool, lo: Option<K>, key: K, hi: Option<K>) {
    && (lo.Some? ==> !less(key, lo.value))
    && (hi.Some? ==> less(key, hi.value))
  }

  /** As Within, but a separator also lies strictly above the lower bound. */
  ghost predicate Inside<K(!new)>(less: (K, K) -> bool, lo: Option<K>, key: K, hi: Option<K>) {
    && (lo.Some? ==> less(lo.value, key))
    && (hi.Some? ==> less(key, hi.value))
  }

  /** The separators bounding child i. */
  function Lo<K>(keys: seq<K>, lo: Option<K>, i: nat): Option<K>
    requires i <= |keys|
  {
    if i == 0 then lo else Some(keys[i - 1])
  }

  function Hi<K>(keys: seq<K>, hi: Option<K>, i: nat): Option<K>
    requires i <= |keys|
  {
    if i == |keys| then hi else Some(keys[i])
  }

  ghost predicate ValidLeaf<K(!new)>(less: (K, K) -> bool, keys: seq<K>, rows: seq<RowId>,
                                     lo: Option<K>, hi: Option<K>)
  {
    && |keys| == |rows|
    && Ascending(less, keys)
    && forall i :: 0 <= i < |keys| ==> Within(less, lo, keys[i], hi)
  }

  /** An ordered tree of height d with at most m keys a node, all keys in [lo, hi) and every
      child between its separators. */
  ghost predicate Valid<K(!new)>(less: (K, K) -> bool, m: nat, t: Tree<K>, d: nat,
                                 lo: Option<K>, hi: Option<K>)
    decreases d, 0
  {
    match t
    case Leaf(_, keys, rows, _) => d == 1 && |keys| <= m && ValidLeaf(less, keys, rows, lo, hi)
    case Inner(keys, children) =>
      d > 1 && 1 <= |keys| <= m && ValidChildren(less, m, keys, children, d - 1, lo, hi)
  }

  ghost predicate ValidChildren<K(!new)>(less: (K, K) -> bool, m: nat, keys: seq<K>,
                                         children: seq<Tree<K>>, d: nat, lo: Option<K>, hi: Option<K>)
    decreases d, 1
  {
    && |children| == |keys| + 1
    && Ascending(less, keys)
    && (forall i :: 0 <= i < |keys| ==> Inside(less, lo, keys[i], hi))
    && (forall i :: 0 <= i < |children| ==>
          Valid(less, m, children[i], d, Lo(keys, lo, i), Hi(keys, hi, i)))
  }

  ghost predicate ValidGrown<K(!new)>(less: (K, K) -> bool, m: nat, g: Grown<K>, d: nat,
                                      lo: Option<K>, hi: Option<K>)
  {
    match g
    case Whole(t) => Valid(less, m, t, d, lo, hi)
    case Split(left, separator, right) =>
      && Inside(less, lo, separator, hi)
      && Valid(less, m, left, d, lo, Some(separator))
      && Valid(less, m, right, d, Some(separator), hi)
  }

  /** Nodes below the root are at least about half full. */
  ghost predicate Filled<K(!new)>(m: nat, t: Tree<K>) {
    match t
    case Leaf(_, keys, _, _) => |keys| >= (m + 1) / 2
    case Inner(keys, children) =>
      |keys| >= m / 2 && forall i :: 0 <= i < |children| ==> Filled(m, children[i])
  }

  ghost predicate FilledGrown<K(!new)>(m: nat, g: Grown<K>) {
    match g
    case Whole(t) => Filled(m, t)
    case Split(left, _, right) => Filled(m, left) && Filled(m, right)
  }

  /** What holds of the tree a BPlusTree object keeps. */
  ghost predicate ValidRoot<K(!new)>(less: (K, K) -> bool, m: nat, t: Tree<K>, d: nat) {
    && Valid(less, m, t, d, None, None)
    && (t.Inner? ==> forall i :: 0 <= i < |t.children| ==> Filled(m, t.children[i]))
  }

  lemma {:induction false} ValidIsWellShaped<K(!new)>(less: (K, K) -> bool, m: nat, t: Tree<K>, d: nat,
                                                      lo: Option<K>, hi: Option<K>)
    requires Valid(less, m, t, d, lo, hi)
    ensures WellShaped(t)
    decreases d
  {
    if t.Inner? {
      forall i | 0 <= i < |t.children| ensures WellShaped(t.children[i]) {
        ValidIsWellShaped(less, m, t.children[i], d - 1, Lo(t.keys, lo, i), Hi(t.keys, hi, i));
      }
    }
  }

  // ------------------------------------------------------ splitting keeps validity

  lemma LeafOfValid<K(!new)>(less: (K, K) -> bool, m: nat, newId: nat, id: nat,
                             next: Option<nat>, keys: seq<K>, rows: seq<RowId>,
                             lo: Option<K>, hi: Option<K>)
    requires TotalOrder(less) && m >= 3 && 1 <= |keys| <= m + 1
    requires ValidLeaf(less, keys, rows, lo, hi)
    ensures ValidGrown(less, m, LeafOf(m, newId, id, keys, rows, next), 1, lo, hi)
    ensures LeafOf(m, newId, id, keys, rows, next).Split? ==> FilledGrown(m, LeafOf(m, newId, id, keys, rows, next))
  {
    if |keys| > m {
      assert less(keys[0], keys[|keys| / 2]) && Within(less, lo, keys[0], hi);
    }
  }

  lemma InnerOfValid<K(!new)>(less: (K, K) -> bool, m: nat, keys: seq<K>, children: seq<Tree<K>>,
                              d: nat, lo: Option<K>, hi: Option<K>)
    requires TotalOrder(less) && m >= 3 && 1 <= |keys| <= m + 1 && d >= 1
    requires ValidChildren(less, m, keys, children, d, lo, hi)
    ensures ValidGrown(less, m, InnerOf(m, keys, children), d + 1, lo, hi)
  {
    if |keys| > m {
      ChildrenBefore(less, m, keys, children, d, lo, hi, |keys| / 2);
      ChildrenAfter(less, m, keys, children, d, lo, hi, |keys| / 2);
    }
  }

  lemma ChildrenBefore<K(!new)>(less: (K, K) -> bool, m: nat, keys: seq<K>, children: seq<Tree<K>>,
                                d: nat, lo: Option<K>, hi: Option<K>, n: nat)
    requires ValidChildren(less, m, keys, children, d, lo, hi) && n < |keys|
    ensures ValidChildren(less, m, keys[..n], children[..n + 1], d, lo, Some(keys[n]))
  {
    forall i | 0 <= i < n + 1
      ensures Valid(less, m, children[i], d, Lo(keys[..n], lo, i), Hi(keys[..n], Some(keys[n]), i))
    {
      assert Lo(keys[..n], lo, i) == Lo(keys, lo, i) && Hi(keys[..n], Some(keys[n]), i) == Hi(keys, hi, i);
    }
  }

  lemma ChildrenAfter<K(!new)>(less: (K, K) -> bool, m: nat, keys: seq<K>, children: seq<Tree<K>>,
                               d: nat, lo: Option<K>, hi: Option<K>, n: nat)
    requires ValidChildren(less, m, keys, children, d, lo, hi) && n < |keys|
    ensures ValidChildren(less, m, keys[n + 1..], children[n + 1..], d, Some(keys[n]), hi)
  {
    var b := keys[n + 1..];
    forall i | 0 <= i < |children[n + 1..]|
      ensures Valid(less, m, children[n + 1..][i], d, Lo(b, Some(keys[n]), i), Hi(b, hi, i))
    {
      assert children[n + 1..][i] == children[n + 1 + i];
      assert Lo(b, Some(keys[n]), i) == Lo(keys, lo, n + 1 + i) && Hi(b, hi, i) == Hi(keys, hi, n + 1 + i);
    }
  }

  lemma InnerOfFilled<K(!new)>(m: nat, keys: seq<K>, children: seq<Tree<K>>)
    requires m >= 3 && |children| == |keys| + 1 && |keys| == m + 1
    requires forall i :: 0 <= i < |children| ==> Filled(m, children[i])
    ensures InnerOf(m, keys, children).Split? && FilledGrown(m, InnerOf(m, keys, children))
  {
  }

  /** Replacing child c by the two halves of its split. */
  lemma SpliceChildren<K(!new)>(less: (K, K) -> bool, m: nat, keys: seq<K>, children: seq<Tree<K>>,
                                d: nat, lo: Option<K>, hi: Option<K>,
                                c: nat, left: Tree<K>, separator: K, right: Tree<K>)
    requires TotalOrder(less)
    requires ValidChildren(less, m, keys, children, d, lo, hi)
    requires c < |children|
    requires ValidGrown(less, m, Split(left, separator, right), d, Lo(keys, lo, c), Hi(keys, hi, c))
    ensures ValidChildren(less, m, InsertAt(keys, c, separator),
                          InsertAt(children[c := left], c + 1, right), d, lo, hi)
  {
    var ks := InsertAt(keys, c, separator);
    var cs := InsertAt(children[c := left], c + 1, right);
    SpliceKeys(less, keys, lo, hi, c, separator);
    forall i | 0 <= i < |cs|
      ensures Valid(less, m, cs[i], d, Lo(ks, lo, i), Hi(ks, hi, i))
    {
      if i < c {
        assert cs[i] == children[i] && Lo(ks, lo, i) == Lo(keys, lo, i) && Hi(ks, hi, i) == Hi(keys, hi, i);
      } else if i > c + 1 {
        assert cs[i] == children[i - 1];
        assert Lo(ks, lo, i) == Lo(keys, lo, i - 1) && Hi(ks, hi, i) == Hi(keys, hi, i - 1);
      }
    }
  }

  lemma SpliceKeys<K(!new)>(less: (K, K) -> bool, keys: seq<K>, lo: Option<K>, hi: Option<K>,
                            c: nat, separator: K)
    requires TotalOrder(less) && Ascending(less, keys) && c <= |keys|
    requires forall i :: 0 <= i < |keys| ==> Inside(less, lo, keys[i], hi)
    requires Inside(less, Lo(keys, lo, c), separator, Hi(keys, hi, c))
    ensures Ascending(less, InsertAt(keys, c, separator))
    ensures forall i :: 0 <= i <= |keys| ==> Inside(less, lo, InsertAt(keys, c, separator)[i], hi)
  {
    forall i | 0 <= i < c ensures less(keys[i], separator) {
      if i < c - 1 { assert less(keys[i], keys[c - 1]); }
    }
    forall i | c <= i < |keys| ensures less(separator, keys[i]) {
      if i > c { assert less(keys[c], keys[i]); }
    }
    InsertAscending(less, keys, c, separator);
    SeparatorInside(less, keys, lo, hi, c, separator);
  }

  lemma SeparatorInside<K(!new)>(less: (K, K) -> bool, keys: seq<K>, lo: Option<K>, hi: Option<K>,
                                 c: nat, separator: K)
    requires TotalOrder(less) && c <= |keys|
    requires forall i :: 0 <= i < |keys| ==> Inside(less, lo, keys[i], hi)
    requires Inside(less, Lo(keys, lo, c), separator, Hi(keys, hi, c))
    ensures Inside(less, lo, separator, hi)
  {
    if c > 0 && lo.Some? { assert Inside(less, lo, keys[c - 1], hi); }
    if c < |keys| && hi.Some? { assert Inside(less, lo, keys[c], hi); }
  }

  // ---------------------------------------------------------- what insertion does

  ghost predicate WellShapedGrown<K>(g: Grown<K>) {
    match g
    case Whole(t) => WellShaped(t)
    case Split(left, _, right) => WellShaped(left) && WellShaped(right)
  }

  function GrownEntries<K>(g: Grown<K>): seq<Entry<K>>
    requires WellShapedGrown(g)
  {
    match g
    case Whole(t) => Entries(t)
    case Split(left, _, right) => Entries(left) + Entries(right)
  }

  /** `after` is `before` with e put in somewhere; the order invariant says where. */
  ghost predicate Inserts<K>(before: seq<Entry<K>>, e: Entry<K>, after: seq<Entry<K>>) {
    exists n :: 0 <= n <= |before| && after == InsertAt(before, n, e)
  }

  lemma InsertsInside<K>(a: seq<Entry<K>>, before: seq<Entry<K>>, b: seq<Entry<K>>,
                         e: Entry<K>, after: seq<Entry<K>>, whole: seq<Entry<K>>, whole': seq<Entry<K>>)
    requires Inserts(before, e, after)
    requires whole == a + before + b && whole' == a + after + b
    ensures Inserts(whole, e, whole')
  {
    var n :| 0 <= n <= |before| && after == InsertAt(before, n, e);
    assert whole' == InsertAt(whole, |a| + n, e);
  }

  lemma LeafOfEntries<K>(m: nat, newId: nat, id: nat, next: Option<nat>, keys: seq<K>, rows: seq<RowId>)
    requires |keys| == |rows|
    ensures WellShapedGrown(LeafOf(m, newId, id, keys, rows, next))
    ensures GrownEntries(LeafOf(m, newId, id, keys, rows, next)) == Zip(keys, rows)
  {
  }

  lemma InnerOfEntries<K>(m: nat, keys: seq<K>, children: seq<Tree<K>>)
    requires |children| == |keys| + 1
    requires forall i :: 0 <= i < |children| ==> WellShaped(children[i])
    ensures WellShapedGrown(InnerOf(m, keys, children))
    ensures GrownEntries(InnerOf(m, keys, children)) == AllEntries(children)
  {
    if |keys| > m {
      var middle := |keys| / 2;
      assert children == children[..middle + 1] + children[middle + 1..];
      AllEntriesConcat(children[..middle + 1], children[middle + 1..]);
    }
  }

  lemma SpliceEntries<K>(children: seq<Tree<K>>, c: nat, left: Tree<K>, right: Tree<K>)
    requires forall i :: 0 <= i < |children| ==> WellShaped(children[i])
    requires c < |children| && WellShaped(left) && WellShaped(right)
    ensures AllEntries(InsertAt(children[c := left], c + 1, right))
         == AllEntries(children[..c]) + (Entries(left) + Entries(right)) + AllEntries(children[c + 1..])
  {
    var rest := children[c + 1..];
    assert InsertAt(children[c := left], c + 1, right) == children[..c] + [left, right] + rest;
    AllEntriesConcat(children[..c] + [left, right], rest);
    AllEntriesConcat(children[..c], [left, right]);
    AllEntriesTwo(left, right);
  }

  lemma AllEntriesTwo<K>(left: Tree<K>, right: Tree<K>)
    requires WellShaped(left) && WellShaped(right)
    ensures AllEntries([left, right]) == Entries(left) + Entries(right)
  {
    assert [left, right][1..] == [right];
    AllEntriesCons(right, []);
    assert [right] + [] == [right];
  }

  lemma AllEntriesCons<K>(t: Tree<K>, ts: seq<Tree<K>>)
    requires WellShaped(t) && forall i :: 0 <= i < |ts| ==> WellShaped(ts[i])
    ensures AllEntries([t] + ts) == Entries(t) + AllEntries(ts)
  {
    assert ([t] + ts)[1..] == ts;
  }

  /** Insertion fails exactly on a key that is present; otherwise the tree keeps its order,
      depth and node sizes, and its entries gain exactly the new one. */
  ghost predicate Inserted<K(!new)>(less: (K, K) -> bool, m: nat, before: seq<Entry<K>>, d: nat,
                                    lo: Option<K>, hi: Option<K>, e: Entry<K>,
                                    r: Result<Grown<K>, Duplicate>)
  {
    && (r.Err? <==> HasKey(before, e.key))
    && (r.Ok? ==>
          && ValidGrown(less, m, r.value, d, lo, hi)
          && WellShapedGrown(r.value)
          && Inserts(before, e, GrownEntries(r.value)))
  }

  lemma {:induction false} InsertCorrect<K(!new)>(
      less: (K, K) -> bool, m: nat, newId: nat, t: Tree<K>, d: nat, lo: Option<K>, hi: Option<K>, key: K, row: RowId)
    requires TotalOrder(less) && m >= 3
    requires Valid(less, m, t, d, lo, hi) && WellShaped(t)
    requires Within(less, lo, key, hi)
    ensures Inserted(less, m, Entries(t), d, lo, hi, Entry(key, row), Insert(less, m, newId, t, key, row))
    decreases d, 0
  {
    match t
    case Leaf(id, keys, rows, next) => InsertLeafCorrect(less, m, newId, id, next, keys, rows, lo, hi, key, row);
    case Inner(keys, children) => InsertChildCorrect(less, m, newId, keys, children, d - 1, lo, hi, key, row);
  }

  lemma {:induction false} InsertChildCorrect<K(!new)>(
      less: (K, K) -> bool, m: nat, newId: nat, keys: seq<K>, children: seq<Tree<K>>, d: nat,
      lo: Option<K>, hi: Option<K>, key: K, row: RowId)
    requires TotalOrder(less) && m >= 3 && 1 <= |keys| <= m && d >= 1
    requires ValidChildren(less, m, keys, children, d, lo, hi)
    requires forall i :: 0 <= i < |children| ==> WellShaped(children[i])
    requires Within(less, lo, key, hi)
    ensures var c := UpperBound(less, keys, key);
      Inserted(less, m, AllEntries(children), d + 1, lo, hi, Entry(key, row),
               Regrow(m, keys, children, c, Insert(less, m, newId, children[c], key, row)))
    decreases d, 1
  {
    var c := UpperBound(less, keys, key);
    UpperBoundSplits(less, keys, key);
    InsertCorrect(less, m, newId, children[c], d, Lo(keys, lo, c), Hi(keys, hi, c), key, row);
    InsertInnerCorrect(less, m, keys, children, d, lo, hi, Entry(key, row),
                       Insert(less, m, newId, children[c], key, row));
  }

  lemma InsertInnerCorrect<K(!new)>(
      less: (K, K) -> bool, m: nat, keys: seq<K>, children: seq<Tree<K>>, d: nat,
      lo: Option<K>, hi: Option<K>, e: Entry<K>, r: Result<Grown<K>, Duplicate>)
    requires TotalOrder(less) && m >= 3 && 1 <= |keys| <= m && d >= 1
    requires ValidChildren(less, m, keys, children, d, lo, hi)
    requires forall i :: 0 <= i < |children| ==> WellShaped(children[i])
    requires var c := UpperBound(less, keys, e.key);
      Inserted(less, m, Entries(children[c]), d, Lo(keys, lo, c), Hi(keys, hi, c), e, r)
    ensures Inserted(less, m, AllEntries(children), d + 1, lo, hi, e,
                     Regrow(m, keys, children, UpperBound(less, keys, e.key), r))
  {
    var c := UpperBound(less, keys, e.key);
    KeyOnlyInChild(less, m, keys, children, d, lo, hi, e.key);
    if r.Ok? {
      GrowChildValid(less, m, keys, children, d, lo, hi, c, r.value);
      GrowChildEntries(m, keys, children, c, r.value, e);
    }
  }

  lemma GrowChildValid<K(!new)>(less: (K, K) -> bool, m: nat, keys: seq<K>, children: seq<Tree<K>>,
                                d: nat, lo: Option<K>, hi: Option<K>, c: nat, grown: Grown<K>)
    requires TotalOrder(less) && m >= 3 && 1 <= |keys| <= m && d >= 1
    requires ValidChildren(less, m, keys, children, d, lo, hi) && c < |children|
    requires ValidGrown(less, m, grown, d, Lo(keys, lo, c), Hi(keys, hi, c))
    ensures ValidGrown(less, m, GrowChild(m, keys, children, c, grown), d + 1, lo, hi)
  {
    if grown.Split? {
      SpliceChildren(less, m, keys, children, d, lo, hi, c, grown.left, grown.separator, grown.right);
      InnerOfValid(less, m, InsertAt(keys, c, grown.separator),
                   InsertAt(children[c := grown.left], c + 1, grown.right), d, lo, hi);
    }
  }

  lemma GrowChildEntries<K>(m: nat, keys: seq<K>, children: seq<Tree<K>>, c: nat,
                            grown: Grown<K>, e: Entry<K>)
    requires |children| == |keys| + 1 && c < |children|
    requires forall i :: 0 <= i < |children| ==> WellShaped(children[i])
    requires WellShapedGrown(grown) && Inserts(Entries(children[c]), e, GrownEntries(grown))
    ensures WellShapedGrown(GrowChild(m, keys, children, c, grown))
    ensures Inserts(AllEntries(children), e, GrownEntries(GrowChild(m, keys, children, c, grown)))
  {
    AllEntriesAround(children, c);
    GrowChildPlace(m, keys, children, c, grown);
    InsertsInside(AllEntries(children[..c]), Entries(children[c]), AllEntries(children[c + 1..]),
                  e, GrownEntries(grown), AllEntries(children),
                  GrownEntries(GrowChild(m, keys, children, c, grown)));
  }

  lemma GrowChildPlace<K>(m: nat, keys: seq<K>, children: seq<Tree<K>>, c: nat, grown: Grown<K>)
    requires |children| == |keys| + 1 && c < |children|
    requires forall i :: 0 <= i < |children| ==> WellShaped(children[i])
    requires WellShapedGrown(grown)
    ensures WellShapedGrown(GrowChild(m, keys, children, c, grown))
    ensures GrownEntries(GrowChild(m, keys, children, c, grown))
         == AllEntries(children[..c]) + GrownEntries(grown) + AllEntries(children[c + 1..])
  {
    match grown
    case Whole(child) => ReplaceChild(keys, children, c, child);
    case Split(left, separator, right) =>
      SpliceEntries(children, c, left, right);
      InnerOfEntries(m, InsertAt(keys, c, separator), InsertAt(children[c := left], c + 1, right));
  }

  lemma InsertLeafCorrect<K(!new)>(less: (K, K) -> bool, m: nat, newId: nat, id: nat,
                                   next: Option<nat>, keys: seq<K>, rows: seq<RowId>,
                                   lo: Option<K>, hi: Option<K>, key: K, row: RowId)
    requires TotalOrder(less) && m >= 3 && |keys| <= m
    requires ValidLeaf(less, keys, rows, lo, hi) && Within(less, lo, key, hi)
    ensures Inserted(less, m, Zip(keys, rows), 1, lo, hi, Entry(key, row),
                     Insert(less, m, newId, Leaf(id, keys, rows, next), key, row))
  {
    var n := LowerBound(less, keys, key);
    LowerBoundSplits(less, keys, key);
    if n < |keys| && keys[n] == key {
      assert Zip(keys, rows)[n].key == key;
    } else {
      InsertValidLeaf(less, keys, rows, lo, hi, n, key, row);
      LeafOfValid(less, m, newId, id, next, InsertAt(keys, n, key), InsertAt(rows, n, row), lo, hi);
      InsertLeafEntries(m, newId, id, next, keys, rows, n, key, row);
    }
  }

  lemma InsertLeafEntries<K>(m: nat, newId: nat, id: nat, next: Option<nat>, keys: seq<K>, rows: seq<RowId>, n: nat, key: K, row: RowId)
    requires |keys| == |rows| && n <= |keys|
    ensures var g := LeafOf(m, newId, id, InsertAt(keys, n, key), InsertAt(rows, n, row), next);
      WellShapedGrown(g) && Inserts(Zip(keys, rows), Entry(key, row), GrownEntries(g))
  {
    var ks, rs := InsertAt(keys, n, key), InsertAt(rows, n, row);
    LeafOfEntries(m, newId, id, next, ks, rs);
    ZipInsert(keys, rows, n, key, row);
  }

  lemma ZipInsert<K>(keys: seq<K>, rows: seq<RowId>, n: nat, key: K, row: RowId)
    requires |keys| == |rows| && n <= |keys|
    ensures Zip(InsertAt(keys, n, key), InsertAt(rows, n, row))
         == InsertAt(Zip(keys, rows), n, Entry(key, row))
  {
    var z := Zip(InsertAt(keys, n, key), InsertAt(rows, n, row));
    var w := InsertAt(Zip(keys, rows), n, Entry(key, row));
    forall i | 0 <= i < |z| ensures z[i] == w[i] {
    }
  }

  lemma InsertValidLeaf<K(!new)>(less: (K, K) -> bool, keys: seq<K>, rows: seq<RowId>,
                                 lo: Option<K>, hi: Option<K>, n: nat, key: K, row: RowId)
    requires ValidLeaf(less, keys, rows, lo, hi) && Within(less, lo, key, hi) && n <= |keys|
    requires forall i :: 0 <= i < n ==> less(keys[i], key)
    requires forall i :: n <= i < |keys| ==> less(key, keys[i])
    ensures ValidLeaf(less, InsertAt(keys, n, key), InsertAt(rows, n, row), lo, hi)
  {
    InsertAscending(less, keys, n, key);
  }

  lemma ReplaceChild<K>(keys: seq<K>, children: seq<Tree<K>>, c: nat, child: Tree<K>)
    requires |children| == |keys| + 1 && c < |children| && WellShaped(child)
    requires forall i :: 0 <= i < |children| ==> WellShaped(children[i])
    ensures WellShaped(Inner(keys, children[c := child]))
    ensures AllEntries(children[c := child])
         == AllEntries(children[..c]) + Entries(child) + AllEntries(children[c + 1..])
  {
    AllEntriesAround(children[c := child], c);
    assert children[c := child][..c] == children[..c];
    assert children[c := child][c + 1..] == children[c + 1..];
  }

  // -------------------------------------------------------------- ordered entries

  /** In strictly ascending key order and within the bounds. */
  ghost predicate InOrder<K(!new)>(less: (K, K) -> bool, es: seq<Entry<K>>, lo: Option<K>, hi: Option<K>) {
    && (forall i :: 0 <= i < |es| ==> Within(less, lo, es[i].key, hi))
    && (forall i, j :: 0 <= i < j < |es| ==> less(es[i].key, es[j].key))
  }

  lemma {:induction false} EntriesInOrder<K(!new)>(less: (K, K) -> bool, m: nat, t: Tree<K>, d: nat,
                                                   lo: Option<K>, hi: Option<K>)
    requires TotalOrder(less) && Valid(less, m, t, d, lo, hi) && WellShaped(t)
    ensures InOrder(less, Entries(t), lo, hi)
    decreases d, 0
  {
    if t.Inner? {
      ChildEntriesInOrder(less, m, t.keys, t.children, d - 1, lo, hi, 0, |t.children|);
      assert t.children[0..|t.children|] == t.children;
    }
  }

  /** The entries of children a up to b are in order between the separators around them. */
  lemma {:induction false} ChildEntriesInOrder<K(!new)>(
      less: (K, K) -> bool, m: nat, keys: seq<K>, children: seq<Tree<K>>, d: nat,
      lo: Option<K>, hi: Option<K>, a: nat, b: nat)
    requires TotalOrder(less) && ValidChildren(less, m, keys, children, d, lo, hi)
    requires forall i :: 0 <= i < |children| ==> WellShaped(children[i])
    requires a < b <= |children|
    ensures InOrder(less, AllEntries(children[a..b]), Lo(keys, lo, a), Hi(keys, hi, b - 1))
    decreases d, 1, b
  {
    EntriesInOrder(less, m, children[b - 1], d, Lo(keys, lo, b - 1), Hi(keys, hi, b - 1));
    AllEntriesSnoc(children, a, b);
    if a < b - 1 {
      ChildEntriesInOrder(less, m, keys, children, d, lo, hi, a, b - 1);
      BoundsAround(less, keys, lo, hi, a, b - 1);
      JoinEntries(less, AllEntries(children[a..b - 1]), keys[b - 2], Entries(children[b - 1]),
                  Lo(keys, lo, a), Hi(keys, hi, b - 1));
    }
  }

  lemma AllEntriesSnoc<K>(ts: seq<Tree<K>>, a: nat, b: nat)
    requires a < b <= |ts| && forall i :: 0 <= i < |ts| ==> WellShaped(ts[i])
    ensures AllEntries(ts[a..b]) == AllEntries(ts[a..b - 1]) + Entries(ts[b - 1])
    ensures a == b - 1 ==> AllEntries(ts[a..b]) == Entries(ts[b - 1])
  {
    assert ts[a..b] == ts[a..b - 1] + [ts[b - 1]];
    AllEntriesConcat(ts[a..b - 1], [ts[b - 1]]);
    AllEntriesCons(ts[b - 1], []);
  }

  lemma BoundsAround<K(!new)>(less: (K, K) -> bool, keys: seq<K>, lo: Option<K>, hi: Option<K>,
                              a: nat, b: nat)
    requires TotalOrder(less) && Ascending(less, keys) && a < b <= |keys|
    requires forall i :: 0 <= i < |keys| ==> Inside(less, lo, keys[i], hi)
    ensures Inside(less, Lo(keys, lo, a), keys[b - 1], Hi(keys, hi, b))
  {
    assert Inside(less, lo, keys[b - 1], hi);
  }

  lemma JoinEntries<K(!new)>(less: (K, K) -> bool, left: seq<Entry<K>>, separator: K,
                             right: seq<Entry<K>>, lo: Option<K>, hi: Option<K>)
    requires TotalOrder(less)
    requires Inside(less, lo, separator, hi)
    requires InOrder(less, left, lo, Some(separator)) && InOrder(less, right, Some(separator), hi)
    ensures InOrder(less, left + right, lo, hi)
  {
  }

  lemma ChildEntriesAvoid<K(!new)>(less: (K, K) -> bool, m: nat, keys: seq<K>, children: seq<Tree<K>>,
                                   d: nat, lo: Option<K>, hi: Option<K>, key: K, a: nat, b: nat)
    requires TotalOrder(less) && ValidChildren(less, m, keys, children, d, lo, hi)
    requires forall i :: 0 <= i < |children| ==> WellShaped(children[i])
    requires a < b <= |children|
    requires !Within(less, Lo(keys, lo, a), key, Hi(keys, hi, b - 1))
    ensures !HasKey(AllEntries(children[a..b]), key)
  {
    ChildEntriesInOrder(less, m, keys, children, d, lo, hi, a, b);
  }

  /** Descending by upper bound leaves no occurrence of the key behind. */
  lemma KeyOnlyInChild<K(!new)>(less: (K, K) -> bool, m: nat, keys: seq<K>, children: seq<Tree<K>>,
                                d: nat, lo: Option<K>, hi: Option<K>, key: K)
    requires TotalOrder(less) && ValidChildren(less, m, keys, children, d, lo, hi)
    requires forall i :: 0 <= i < |children| ==> WellShaped(children[i])
    ensures HasKey(AllEntries(children), key)
       <==> HasKey(Entries(children[UpperBound(less, keys, key)]), key)
  {
    var c := UpperBound(less, keys, key);
    UpperBoundSplits(less, keys, key);
    if c > 0 {
      ChildEntriesAvoid(less, m, keys, children, d, lo, hi, key, 0, c);
      assert children[0..c] == children[..c];
    }
    if c < |keys| {
      ChildEntriesAvoid(less, m, keys, children, d, lo, hi, key, c + 1, |children|);
      assert children[c + 1..|children|] == children[c + 1..];
    }
    AllEntriesAround(children, c);
    HasKeyInMiddle(AllEntries(children[..c]), Entries(children[c]), AllEntries(children[c + 1..]), key);
  }

  /** find returns exactly the row stored under the key. */
  lemma {:induction false} FindCorrect<K(!new)>(less: (K, K) -> bool, m: nat, t: Tree<K>, d: nat,
                                                lo: Option<K>, hi: Option<K>, key: K)
    requires TotalOrder(less) && Valid(less, m, t, d, lo, hi) && WellShaped(t)
    ensures match Find(less, t, key)
      case Some(row) => Entry(key, row) in Entries(t)
      case None => !HasKey(Entries(t), key)
    decreases d
  {
    match t
    case Leaf(_, keys, rows, _) =>
      var n := LowerBound(less, keys, key);
      LowerBoundSplits(less, keys, key);
      if n < |keys| && keys[n] == key {
        assert Zip(keys, rows)[n] == Entry(key, rows[n]);
      }
    case Inner(keys, children) =>
      var c := UpperBound(less, keys, key);
      KeyOnlyInChild(less, m, keys, children, d - 1, lo, hi, key);
      AllEntriesAround(children, c);
      FindCorrect(less, m, children[c], d - 1, Lo(keys, lo, c), Hi(keys, hi, c), key);
  }

  // ------------------------------------------------------------------ node fill

  /** Every node under t's root is filled; t's own root may be small. */
  ghost predicate FilledBelow<K(!new)>(m: nat, t: Tree<K>) {
    t.Inner? ==> forall i :: 0 <= i < |t.children| ==> Filled(m, t.children[i])
  }

  /** A node that splits leaves two filled halves, and a filled node stays filled. */
  lemma {:induction false} InsertFilled<K(!new)>(
      less: (K, K) -> bool, m: nat, newId: nat, t: Tree<K>, d: nat, lo: Option<K>, hi: Option<K>, key: K, row: RowId)
    requires m >= 3 && WellShaped(t) && Valid(less, m, t, d, lo, hi) && FilledBelow(m, t)
    ensures match Insert(less, m, newId, t, key, row)
      case Err(_) => true
      case Ok(Whole(t')) => FilledBelow(m, t') && (Filled(m, t) ==> Filled(m, t'))
      case Ok(Split(left, _, right)) => Filled(m, left) && Filled(m, right)
    decreases d
  {
    if t.Inner? {
      var c := UpperBound(less, t.keys, key);
      var child := t.children[c];
      InsertFilled(less, m, newId, child, d - 1, Lo(t.keys, lo, c), Hi(t.keys, hi, c), key, row);
      match Insert(less, m, newId, child, key, row)
      case Err(_) =>
      case Ok(Whole(child')) =>
      case Ok(Split(left, separator, right)) =>
        SpliceFilled(m, t.keys, t.children, c, left, separator, right);
    }
  }

  lemma SpliceFilled<K(!new)>(m: nat, keys: seq<K>, children: seq<Tree<K>>, c: nat,
                              left: Tree<K>, separator: K, right: Tree<K>)
    requires m >= 3 && |children| == |keys| + 1 && |keys| <= m && c < |children|
    requires forall i :: 0 <= i < |children| ==> Filled(m, children[i])
    requires Filled(m, left) && Filled(m, right)
    ensures match InnerOf(m, InsertAt(keys, c, separator), InsertAt(children[c := left], c + 1, right))
      case Whole(t) => FilledBelow(m, t) && (|keys| >= m / 2 ==> Filled(m, t))
      case Split(l, _, r) => Filled(m, l) && Filled(m, r)
  {
    var ks := InsertAt(keys, c, separator);
    var cs := InsertAt(children[c := left], c + 1, right);
    assert forall i :: 0 <= i < |cs| ==> Filled(m, cs[i]);
    if |ks| > m { InnerOfFilled(m, ks, cs); }
  }

  function Power(b: nat, e: nat): (p: nat)
    ensures b > 0 ==> p > 0
  {
    if e == 0 then 1 else b * Power(b, e - 1)
  }

  lemma {:induction false} SumAtLeast<K(!new)>(ts: seq<Tree<K>>, x: nat)
    requires forall i :: 0 <= i < |ts| ==> WellShaped(ts[i]) && |Entries(ts[i])| >= x
    ensures |AllEntries(ts)| >= |ts| * x
  {
    if ts != [] {
      SumAtLeast(ts[1..], x);
      assert |ts| * x == x + |ts[1..]| * x;
    }
  }

  /** The fewest entries a filled tree of height d can have. */
  function LeastSize(m: nat, d: nat): nat {
    if d <= 1 then (m + 1) / 2 else (m / 2 + 1) * LeastSize(m, d - 1)
  }

  lemma {:induction false} FilledSize<K(!new)>(less: (K, K) -> bool, m: nat, t: Tree<K>, d: nat,
                                               lo: Option<K>, hi: Option<K>)
    requires Valid(less, m, t, d, lo, hi) && WellShaped(t) && Filled(m, t)
    ensures |Entries(t)| >= LeastSize(m, d)
    decreases d, 0
  {
    if t.Inner? {
      ChildrenSize(less, m, t.keys, t.children, d - 1, lo, hi);
      Scale(|t.children|, m / 2 + 1, LeastSize(m, d - 1));
    }
  }

  lemma {:induction false} ChildrenSize<K(!new)>(less: (K, K) -> bool, m: nat, keys: seq<K>,
                                                 children: seq<Tree<K>>, d: nat,
                                                 lo: Option<K>, hi: Option<K>)
    requires ValidChildren(less, m, keys, children, d, lo, hi)
    requires forall i :: 0 <= i < |children| ==> WellShaped(children[i]) && Filled(m, children[i])
    ensures |AllEntries(children)| >= |children| * LeastSize(m, d)
    decreases d, 1
  {
    forall i | 0 <= i < |children| ensures |Entries(children[i])| >= LeastSize(m, d) {
      FilledSize(less, m, children[i], d, Lo(keys, lo, i), Hi(keys, hi, i));
    }
    SumAtLeast(children, LeastSize(m, d));
  }

  lemma Scale(a: nat, b: nat, x: nat)
    requires a >= b
    ensures a * x >= b * x
  {
    assert a * x == b * x + (a - b) * x;
  }

  lemma {:induction false} LeastSizeClosedForm(m: nat, d: nat)
    requires d >= 1
    ensures LeastSize(m, d) == (m + 1) / 2 * Power(m / 2 + 1, d - 1)
  {
    if d > 1 {
      LeastSizeClosedForm(m, d - 1);
      Exchange(m / 2 + 1, (m + 1) / 2, Power(m / 2 + 1, d - 2));
    }
  }

  lemma Exchange(a: nat, b: nat, c: nat)
    ensures a * (b * c) == b * (a * c)
  {
  }

  /** The height is logarithmic in the size: a tree of height d >= 2 has at least
      2 * ((m+1)/2) * (m/2+1)^(d-2) entries. */
  lemma RootSize<K(!new)>(less: (K, K) -> bool, m: nat, t: Tree<K>, d: nat)
    requires ValidRoot(less, m, t, d) && WellShaped(t) && d >= 2
    ensures |Entries(t)| >= 2 * ((m + 1) / 2 * Power(m / 2 + 1, d - 2))
  {
    ChildrenSize(less, m, t.keys, t.children, d - 1, None, None);
    Scale(|t.children|, 2, LeastSize(m, d - 1));
    LeastSizeClosedForm(m, d - 1);
  }

  // ------------------------------------------------------------- at the root

  /** One insertion into the root keeps every property of the tree. */
  lemma InsertRootValid<K(!new)>(less: (K, K) -> bool, m: nat, newId: nat, t: Tree<K>, d: nat,
                                 key: K, row: RowId)
    requires TotalOrder(less) && m >= 3 && WellShaped(t) && ValidRoot(less, m, t, d)
    ensures match InsertRoot(less, m, newId, t, key, row)
      case Err(_) => HasKey(Entries(t), key)
      case Ok(t') =>
        && !HasKey(Entries(t), key)
        && WellShaped(t')
        && (ValidRoot(less, m, t', d) || ValidRoot(less, m, t', d + 1))
        && Inserts(Entries(t), Entry(key, row), Entries(t'))
  {
    InsertCorrect(less, m, newId, t, d, None, None, key, row);
    InsertFilled(less, m, newId, t, d, None, None, key, row);
    match Insert(less, m, newId, t, key, row)
    case Err(_) =>
    case Ok(Whole(t')) =>
    case Ok(Split(left, separator, right)) =>
      assert InsertRoot(less, m, newId, t, key, row) == Ok(Inner([separator], [left, right]));
      NewRoot(less, m, d, left, separator, right);
  }

  lemma NewRoot<K(!new)>(less: (K, K) -> bool, m: nat, d: nat, left: Tree<K>, separator: K, right: Tree<K>)
    requires m >= 3 && WellShaped(left) && WellShaped(right)
    requires ValidGrown(less, m, Split(left, separator, right), d, None, None)
    requires Filled(m, left) && Filled(m, right)
    ensures ValidRoot(less, m, Inner([separator], [left, right]), d + 1)
    ensures Entries(Inner([separator], [left, right])) == Entries(left) + Entries(right)
  {
    AllEntriesTwo(left, right);
    assert ValidChildren(less, m, [separator], [left, right], d, None, None);
  }

  /** A sorted list of entries stands for this map. */
  ghost predicate Represents<K(!new)>(es: seq<Entry<K>>, stored: map<K, RowId>) {
    && (forall e :: e in es ==> e.key in stored && stored[e.key] == e.row)
    && (forall k :: k in stored ==> Entry(k, stored[k]) in es)
  }

  lemma InsertsRepresents<K(!new)>(before: seq<Entry<K>>, stored: map<K, RowId>, e: Entry<K>,
                                   after: seq<Entry<K>>)
    requires Represents(before, stored) && e.key !in stored && Inserts(before, e, after)
    ensures Represents(after, stored[e.key := e.row])
  {
    var n :| 0 <= n <= |before| && after == InsertAt(before, n, e);
    forall x ensures x in after <==> x in before || x == e {
      assert before == before[..n] + before[n..];
    }
  }

  lemma HasKeyIsStored<K(!new)>(es: seq<Entry<K>>, stored: map<K, RowId>, key: K)
    requires Represents(es, stored)
    ensures HasKey(es, key) <==> key in stored
  {
    if key in stored {
      var i :| 0 <= i < |es| && es[i] == Entry(key, stored[key]);
    }
    if i :| 0 <= i < |es| && es[i].key == key {
      assert es[i] in es;
    }
  }
}
