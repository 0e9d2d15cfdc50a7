/** The primary-key index as the B+ tree it is (src/native_engine.cpp:1685-1706): ordered by
    Value::compare, which is a total order on the keys of one column type, the tree built from a
    scan holds what the engine's model of the index holds. */
module PrimaryTree {
  import opened Wrappers
  import opened RowIds
  import opened Values
  import opened Tables
  import opened Changes
  import opened PrimaryIndex
  import opened Ordering
  import opened ColumnPredicates
  import BPlusTreeIndex
  import BPlusTreeProbe

  // ------------------------------------------------------------- keys of one type

  type IntegerKey = v: Value | v.Integer? witness Integer(0)
  type RealKey = v: Value | v.Real? witness Real(0.0)
  type TextKey = v: Value | v.Text? witness Text([])
  type BlobKey = v: Value | v.Blob? witness Blob([])

  function IntegerLess(): (IntegerKey, IntegerKey) -> bool {
    (a: IntegerKey, b: IntegerKey) => Compare(a, b) < 0
  }

  function RealLess(): (RealKey, RealKey) -> bool {
    (a: RealKey, b: RealKey) => Compare(a, b) < 0
  }

  function TextLess(): (TextKey, TextKey) -> bool {
    (a: TextKey, b: TextKey) => Compare(a, b) < 0
  }

  function BlobLess(): (BlobKey, BlobKey) -> bool {
    (a: BlobKey, b: BlobKey) => Compare(a, b) < 0
  }

  lemma CompareIsOrder(tag: nat, a: Value, b: Value, c: Value)
    requires InColumn(tag, a) && InColumn(tag, b) && InColumn(tag, c)
    ensures !(Compare(a, a) < 0)
    ensures Compare(a, b) < 0 && Compare(b, c) < 0 ==> Compare(a, c) < 0
    ensures a != b ==> Compare(a, b) < 0 || Compare(b, a) < 0
  {
    ColumnOrder(tag, a, b, c);
    ColumnOrder(tag, a, a, a);
    ColumnOrder(tag, b, a, c);
  }

  lemma IntegerOrdered()
    ensures TotalOrder(IntegerLess())
  {
    forall a: IntegerKey, b: IntegerKey, c: IntegerKey
      ensures !IntegerLess()(a, a) && (IntegerLess()(a, b) || a == b || IntegerLess()(b, a))
      ensures IntegerLess()(a, b) && IntegerLess()(b, c) ==> IntegerLess()(a, c)
    {
      CompareIsOrder(1, a, b, c);
    }
  }

  lemma RealOrdered()
    ensures TotalOrder(RealLess())
  {
    forall a: RealKey, b: RealKey, c: RealKey
      ensures !RealLess()(a, a) && (RealLess()(a, b) || a == b || RealLess()(b, a))
      ensures RealLess()(a, b) && RealLess()(b, c) ==> RealLess()(a, c)
    {
      CompareIsOrder(2, a, b, c);
    }
  }

  lemma TextOrdered()
    ensures TotalOrder(TextLess())
  {
    forall a: TextKey, b: TextKey, c: TextKey
      ensures !TextLess()(a, a) && (TextLess()(a, b) || a == b || TextLess()(b, a))
      ensures TextLess()(a, b) && TextLess()(b, c) ==> TextLess()(a, c)
    {
      CompareIsOrder(3, a, b, c);
    }
  }

  lemma BlobOrdered()
    ensures TotalOrder(BlobLess())
  {
    forall a: BlobKey, b: BlobKey, c: BlobKey
      ensures !BlobLess()(a, a) && (BlobLess()(a, b) || a == b || BlobLess()(b, a))
      ensures BlobLess()(a, b) && BlobLess()(b, c) ==> BlobLess()(a, c)
    {
      CompareIsOrder(5, a, b, c);
    }
  }

  // ---------------------------------------------------------------- building a tree

  /** Inserts the keys of a scan into an empty tree. */
  method Fill<K(!new, ==)>(tree: BPlusTreeIndex.Index<K>, keys: seq<K>, ids: seq<RowId>)
    requires tree.Valid() && tree.contents == map[] && |keys| == |ids|
    requires forall i, j :: 0 <= i < j < |keys| ==> keys[i] != keys[j]
    modifies tree
    ensures tree.Valid() && Pairs(tree.contents, keys, ids, |keys|)
  {
    for k := 0 to |keys|
      invariant tree.Valid() && Pairs(tree.contents, keys, ids, k)
    {
      var r := tree.Insert(keys[k], ids[k]);
    }
  }

  /** The first n keys with their rows and nothing else. */
  ghost predicate Pairs<K>(m: map<K, RowId>, keys: seq<K>, ids: seq<RowId>, n: nat)
    requires n <= |keys| == |ids|
  {
    && (forall i :: 0 <= i < n ==> keys[i] in m && m[keys[i]] == ids[i])
    && (forall k :: k in m ==> exists i :: 0 <= i < n && keys[i] == k)
  }

  /** What the engine requires of the table: keys that are there and differ. */
  ghost predicate Keyed(heap: Heap, column: nat, tag: nat) {
    && (forall id :: id in heap ==> column < |heap[id]| && InColumn(tag, heap[id][column]))
    && forall a, b :: a in heap && b in heap && a != b ==> heap[a][column] != heap[b][column]
  }

  lemma TableKeyed(table: Table, heap: Heap, column: nat)
    requires RowsOk(table, heap) && KeysUnique(table, heap) && column < |table| && table[column].primaryKey
    ensures Keyed(heap, column, TagOf(table[column].ctype))
  {
    forall id | id in heap ensures column < |heap[id]| && InColumn(TagOf(table[column].ctype), heap[id][column]) {
      assert RowOk(table, heap[id]) && CellOk(table[column], heap[id][column]);
    }
    forall a, b | a in heap && b in heap && a != b ensures heap[a][column] != heap[b][column] {
      DistinctKeys(table, heap, column, a, b);
    }
  }

  lemma PairsAreIndex(heap: Heap, column: nat, tag: nat, m: map<Value, RowId>, keys: seq<Value>, ids: seq<RowId>)
    requires Keyed(heap, column, tag) && Scanned(ids, heap) && |keys| == |ids|
    requires forall i :: 0 <= i < |ids| ==> keys[i] == heap[ids[i]][column]
    requires Pairs(m, keys, ids, |keys|)
    ensures IsIndex(heap, heap.Keys, column, m)
  {
    forall id | id in heap ensures IndexedAs(m, heap[id][column], id) {
      var i :| 0 <= i < |ids| && ids[i] == id;
      assert keys[i] in m;
    }
    forall k | k in m ensures m[k] in heap && column < |heap[m[k]]| && heap[m[k]][column] == k {
      var i :| 0 <= i < |keys| && keys[i] == k;
      assert m[keys[i]] == ids[i];
    }
  }

  method IntegerTree(heap: Heap, column: nat, ids: seq<RowId>, maxKeys: nat) returns (tree: BPlusTreeIndex.Index<IntegerKey>)
    requires Keyed(heap, column, 1) && Scanned(ids, heap)
    ensures fresh(tree) && tree.Valid() && tree.less == IntegerLess() && IsIndex(heap, heap.Keys, column, tree.contents)
  {
    IntegerOrdered();
    tree := new BPlusTreeIndex.Index(IntegerLess(), maxKeys);
    var keys: seq<IntegerKey> := seq(|ids|, i requires 0 <= i < |ids| => heap[ids[i]][column]);
    assert forall i, j :: 0 <= i < j < |keys| ==> keys[i] != keys[j];
    Fill(tree, keys, ids);
    PairsAreIndex(heap, column, 1, tree.contents, keys, ids);
  }

  method RealTree(heap: Heap, column: nat, ids: seq<RowId>, maxKeys: nat) returns (tree: BPlusTreeIndex.Index<RealKey>)
    requires Keyed(heap, column, 2) && Scanned(ids, heap)
    ensures fresh(tree) && tree.Valid() && tree.less == RealLess() && IsIndex(heap, heap.Keys, column, tree.contents)
  {
    RealOrdered();
    tree := new BPlusTreeIndex.Index(RealLess(), maxKeys);
    var keys: seq<RealKey> := seq(|ids|, i requires 0 <= i < |ids| => heap[ids[i]][column]);
    assert forall i, j :: 0 <= i < j < |keys| ==> keys[i] != keys[j];
    Fill(tree, keys, ids);
    PairsAreIndex(heap, column, 2, tree.contents, keys, ids);
  }

  method TextTree(heap: Heap, column: nat, ids: seq<RowId>, maxKeys: nat) returns (tree: BPlusTreeIndex.Index<TextKey>)
    requires Keyed(heap, column, 3) && Scanned(ids, heap)
    ensures fresh(tree) && tree.Valid() && tree.less == TextLess() && IsIndex(heap, heap.Keys, column, tree.contents)
  {
    TextOrdered();
    tree := new BPlusTreeIndex.Index(TextLess(), maxKeys);
    var keys: seq<TextKey> := seq(|ids|, i requires 0 <= i < |ids| => heap[ids[i]][column]);
    assert forall i, j :: 0 <= i < j < |keys| ==> keys[i] != keys[j];
    Fill(tree, keys, ids);
    PairsAreIndex(heap, column, 3, tree.contents, keys, ids);
  }

  method BlobTree(heap: Heap, column: nat, ids: seq<RowId>, maxKeys: nat) returns (tree: BPlusTreeIndex.Index<BlobKey>)
    requires Keyed(heap, column, 5) && Scanned(ids, heap)
    ensures fresh(tree) && tree.Valid() && tree.less == BlobLess() && IsIndex(heap, heap.Keys, column, tree.contents)
  {
    BlobOrdered();
    tree := new BPlusTreeIndex.Index(BlobLess(), maxKeys);
    var keys: seq<BlobKey> := seq(|ids|, i requires 0 <= i < |ids| => heap[ids[i]][column]);
    assert forall i, j :: 0 <= i < j < |keys| ==> keys[i] != keys[j];
    Fill(tree, keys, ids);
    PairsAreIndex(heap, column, 5, tree.contents, keys, ids);
  }

  // ------------------------------------------------------------------ any column

  datatype ColumnTree =
    | IntegerTree(integers: BPlusTreeIndex.Index<IntegerKey>)
    | RealTree(reals: BPlusTreeIndex.Index<RealKey>)
    | TextTree(texts: BPlusTreeIndex.Index<TextKey>)
    | BlobTree(blobs: BPlusTreeIndex.Index<BlobKey>)

  ghost predicate ValidTree(t: ColumnTree)
    reads match t case IntegerTree(x) => {x as object} case RealTree(x) => {x} case TextTree(x) => {x} case BlobTree(x) => {x}
  {
    match t
    case IntegerTree(x) => x.Valid() && x.less == IntegerLess()
    case RealTree(x) => x.Valid() && x.less == RealLess()
    case TextTree(x) => x.Valid() && x.less == TextLess()
    case BlobTree(x) => x.Valid() && x.less == BlobLess()
  }

  /** The map that the engine's model of the index is. */
  ghost function Contents(t: ColumnTree): KeyIndex
    reads match t case IntegerTree(x) => {x as object} case RealTree(x) => {x} case TextTree(x) => {x} case BlobTree(x) => {x}
  {
    match t
    case IntegerTree(x) => x.contents
    case RealTree(x) => x.contents
    case TextTree(x) => x.contents
    case BlobTree(x) => x.contents
  }

  predicate OfTag(t: ColumnTree, tag: nat) {
    match t
    case IntegerTree(_) => tag == 1
    case RealTree(_) => tag == 2
    case TextTree(_) => tag == 3
    case BlobTree(_) => tag == 5
  }

  /** primaryIndex: the tree a scan of the table builds is what the engine keeps. */
  method PrimaryIndexTree(table: Table, heap: Heap, column: nat, ids: seq<RowId>, maxKeys: nat) returns (t: ColumnTree)
    requires RowsOk(table, heap) && KeysUnique(table, heap) && column < |table| && table[column].primaryKey && Scanned(ids, heap)
    ensures ValidTree(t) && OfTag(t, TagOf(table[column].ctype)) && IsIndex(heap, heap.Keys, column, Contents(t))
  {
    TableKeyed(table, heap, column);
    match table[column].ctype
    case IntegerType => var x := IntegerTree(heap, column, ids, maxKeys); t := ColumnTree.IntegerTree(x);
    case RealType => var x := RealTree(heap, column, ids, maxKeys); t := ColumnTree.RealTree(x);
    case TextType => var x := TextTree(heap, column, ids, maxKeys); t := ColumnTree.TextTree(x);
    case BlobType => var x := BlobTree(heap, column, ids, maxKeys); t := ColumnTree.BlobTree(x);
  }

  /** Finding a key of the column's type in the tree is finding it in the map. */
  method FindInTree(t: ColumnTree, tag: nat, key: Value) returns (row: Option<RowId>)
    requires ValidTree(t) && OfTag(t, tag) && (key.Null? || InColumn(tag, key))
    ensures row == if !key.Null? && key in Contents(t) then Some(Contents(t)[key]) else None
  {
    if key.Null? { return None; }
    match t
    case IntegerTree(x) => row := x.Find(key);
    case RealTree(x) => row := x.Find(key);
    case TextTree(x) => row := x.Find(key);
    case BlobTree(x) => row := x.Find(key);
  }

  /** Inserting a key: refused if it is there, as the model of the index has it. */
  method InsertInTree(t: ColumnTree, tag: nat, key: Value, row: RowId) returns (ok: bool)
    requires ValidTree(t) && OfTag(t, tag) && InColumn(tag, key)
    modifies match t case IntegerTree(x) => {x as object} case RealTree(x) => {x} case TextTree(x) => {x} case BlobTree(x) => {x}
    ensures ValidTree(t) && ok == (key !in old(Contents(t)))
    ensures Contents(t) == if ok then old(Contents(t))[key := row] else old(Contents(t))
  {
    match t
    case IntegerTree(x) => var r := x.Insert(key, row); ok := r.Ok?;
    case RealTree(x) => var r := x.Insert(key, row); ok := r.Ok?;
    case TextTree(x) => var r := x.Insert(key, row); ok := r.Ok?;
    case BlobTree(x) => var r := x.Insert(key, row); ok := r.Ok?;
  }

  // ------------------------------------------------------- keys of another type

  /** Comparing a key of any type with those of one column goes up with them. */
  lemma CompareProbes(tag: nat, a: Value, b: Value, key: Value)
    requires InColumn(tag, a) && InColumn(tag, b) && !key.Null? && Compare(a, b) < 0
    ensures Compare(b, key) <= 0 ==> Compare(a, key) < 0
    ensures Compare(a, key) >= 0 ==> Compare(b, key) > 0
  {
    LiteralMonotone(tag, a, b, key);
    if Compare(a, key) == 0 && Compare(b, key) == 0 {
      CompareEqual(a, key);
      CompareEqual(b, key);
      EqualTransitive(a, key, b);
      ColumnOrder(tag, a, b, b);
    }
  }

  lemma IntegerProbes(key: Value)
    requires !key.Null?
    ensures BPlusTreeProbe.Probes(IntegerLess(), (k: IntegerKey) => Compare(k, key))
  {
    forall a: IntegerKey, b: IntegerKey | IntegerLess()(a, b)
      ensures Compare(b, key) <= 0 ==> Compare(a, key) < 0
      ensures Compare(a, key) >= 0 ==> Compare(b, key) > 0
    {
      CompareProbes(1, a, b, key);
    }
  }

  lemma RealProbes(key: Value)
    requires !key.Null?
    ensures BPlusTreeProbe.Probes(RealLess(), (k: RealKey) => Compare(k, key))
  {
    forall a: RealKey, b: RealKey | RealLess()(a, b)
      ensures Compare(b, key) <= 0 ==> Compare(a, key) < 0
      ensures Compare(a, key) >= 0 ==> Compare(b, key) > 0
    {
      CompareProbes(2, a, b, key);
    }
  }

  lemma TextProbes(key: Value)
    requires !key.Null?
    ensures BPlusTreeProbe.Probes(TextLess(), (k: TextKey) => Compare(k, key))
  {
    forall a: TextKey, b: TextKey | TextLess()(a, b)
      ensures Compare(b, key) <= 0 ==> Compare(a, key) < 0
      ensures Compare(a, key) >= 0 ==> Compare(b, key) > 0
    {
      CompareProbes(3, a, b, key);
    }
  }

  lemma BlobProbes(key: Value)
    requires !key.Null?
    ensures BPlusTreeProbe.Probes(BlobLess(), (k: BlobKey) => Compare(k, key))
  {
    forall a: BlobKey, b: BlobKey | BlobLess()(a, b)
      ensures Compare(b, key) <= 0 ==> Compare(a, key) < 0
      ensures Compare(a, key) >= 0 ==> Compare(b, key) > 0
    {
      CompareProbes(5, a, b, key);
    }
  }

  /** Finding a value of whatever type in the tree, as joins look keys up: the row under the key
      that equals it, as searching the map finds it. */
  method FindAny(t: ColumnTree, tag: nat, key: Value) returns (row: Option<RowId>)
    requires ValidTree(t) && OfTag(t, tag)
    ensures EqualFound(Contents(t), key, row)
  {
    if key.Null? { return None; }
    match t
    case IntegerTree(x) =>
      IntegerProbes(key);
      row := BPlusTreeProbe.FindEqual(x, (k: IntegerKey) => Compare(k, key));
      FoundIsEqual(x.contents, key, row);
    case RealTree(x) =>
      RealProbes(key);
      row := BPlusTreeProbe.FindEqual(x, (k: RealKey) => Compare(k, key));
      FoundIsEqual(x.contents, key, row);
    case TextTree(x) =>
      TextProbes(key);
      row := BPlusTreeProbe.FindEqual(x, (k: TextKey) => Compare(k, key));
      FoundIsEqual(x.contents, key, row);
    case BlobTree(x) =>
      BlobProbes(key);
      row := BPlusTreeProbe.FindEqual(x, (k: BlobKey) => Compare(k, key));
      FoundIsEqual(x.contents, key, row);
  }

  lemma FoundIsEqual(contents: KeyIndex, key: Value, row: Option<RowId>)
    requires !key.Null?
    requires match row
             case None => forall k :: k in contents ==> Compare(k, key) != 0
             case Some(id) => exists k :: k in contents && Compare(k, key) == 0 && contents[k] == id
    requires forall k :: k in contents ==> !k.Null?
    ensures EqualFound(contents, key, row)
  {
    forall k | k in contents ensures Compare(k, key) == 0 <==> Equal(k, key) {
      CompareEqual(k, key);
    }
  }
}
