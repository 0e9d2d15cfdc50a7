/** The cached primary-key index of a table, as a map from keys to row ids, and point lookups
    (src/native_engine.cpp:1663-1706, 1821-1858, src/native_fast_paths.cpp:104-140). That the
    B+ tree is such a map is the subject of BPlusTreeIndex. */
module PrimaryIndex {
  import opened Wrappers
  import opened RowIds
  import opened Values
  import opened Tables

  type KeyIndex = map<Value, RowId>

  function PrimaryColumn(table: Table): (n: nat)
    ensures n <= |table| && (n < |table| ==> table[n].primaryKey)
    ensures forall c :: 0 <= c < n ==> !table[c].primaryKey
  {
    PrimaryFrom(table, 0)
  }

  function PrimaryFrom(table: Table, k: nat): (n: nat)
    requires k <= |table|
    ensures k <= n <= |table| && (n < |table| ==> table[n].primaryKey)
    ensures forall c :: k <= c < n ==> !table[c].primaryKey
    decreases |table| - k
  {
    if k == |table| || table[k].primaryKey then k else PrimaryFrom(table, k + 1)
  }

  /** What an index over these rows, built by a fresh scan, would hold. */
  ghost predicate IsIndex(heap: Heap, ids: set<RowId>, column: nat, index: KeyIndex) {
    && (forall id :: id in ids ==> id in heap && column < |heap[id]| && IndexedAs(index, heap[id][column], id))
    && (forall k :: k in index ==> index[k] in ids && index[k] in heap && column < |heap[index[k]]| && heap[index[k]][column] == k)
  }

  predicate IndexedAs(index: KeyIndex, k: Value, id: RowId) {
    k in index && index[k] == id
  }

  /** Keys are unique and non-NULL, of one type. */
  lemma DistinctKeys(table: Table, heap: Heap, column: nat, a: RowId, b: RowId)
    requires RowsOk(table, heap) && KeysUnique(table, heap) && column < |table| && table[column].primaryKey
    requires a in heap && b in heap && a != b
    ensures column < |heap[a]| && column < |heap[b]| && heap[a][column] != heap[b][column]
  {
    assert RowOk(table, heap[a]) && RowOk(table, heap[b]);
    assert KeysDiffer(heap[a], heap[b], column);
  }

  method BuildIndex(table: Table, heap: Heap, column: nat) returns (index: KeyIndex)
    requires RowsOk(table, heap) && KeysUnique(table, heap) && column < |table| && table[column].primaryKey
    ensures IsIndex(heap, heap.Keys, column, index)
  {
    index := map[];
    var rest := heap.Keys;
    ghost var done: set<RowId> := {};
    while rest != {}
      invariant done + rest == heap.Keys && done !! rest && IsIndex(heap, done, column, index)
      decreases rest
    {
      var id :| id in rest;
      IndexOneMore(table, heap, done, column, index, id);
      index := index[heap[id][column] := id];
      rest, done := rest - {id}, done + {id};
    }
    assert done == heap.Keys;
  }

  lemma IndexOneMore(table: Table, heap: Heap, ids: set<RowId>, column: nat, index: KeyIndex, id: RowId)
    requires RowsOk(table, heap) && KeysUnique(table, heap) && column < |table| && table[column].primaryKey
    requires ids <= heap.Keys && id in heap && id !in ids && IsIndex(heap, ids, column, index)
    ensures column < |heap[id]| && IsIndex(heap, ids + {id}, column, index[heap[id][column] := id])
  {
    assert RowOk(table, heap[id]);
    forall x | x in ids ensures heap[x][column] != heap[id][column] {
      DistinctKeys(table, heap, column, x, id);
    }
  }

  /** Inserting a row with a fresh key keeps the index what a scan would build. */
  lemma IndexAfterInsert(table: Table, heap: Heap, column: nat, index: KeyIndex, id: RowId, row: Row)
    requires RowsOk(table, heap) && RowOk(table, row) && column < |table| && table[column].primaryKey
    requires IsIndex(heap, heap.Keys, column, index) && id !in heap && FreshKey(table, heap, row, None)
    ensures IsIndex(heap[id := row], heap[id := row].Keys, column, index[row[column] := id])
  {
    forall x | x in heap ensures heap[x][column] != row[column] {
      assert KeysDiffer(heap[x], row, column);
    }
  }

  /** The key check of an insert, which asks the index, is the check against all rows. */
  lemma IndexFindsDuplicate(table: Table, heap: Heap, column: nat, index: KeyIndex, row: Row)
    requires RowsOk(table, heap) && RowOk(table, row) && column == PrimaryColumn(table) < |table|
    requires forall c, d :: 0 <= c < d < |table| ==> !(table[c].primaryKey && table[d].primaryKey)
    requires IsIndex(heap, heap.Keys, column, index)
    ensures row[column] in index <==> !FreshKey(table, heap, row, None)
  {
    if row[column] in index {
      assert !KeysDiffer(heap[index[row[column]]], row, column);
    } else {
      forall id, c | id in heap && 0 <= c < |table| && table[c].primaryKey ensures KeysDiffer(heap[id], row, c) {
        assert c == column && RowOk(table, heap[id]) && IndexedAs(index, heap[id][column], id);
        KeyEquality(table[column], heap[id][column], row[column]);
      }
    }
  }

  lemma KeyEquality(column: Column, a: Value, b: Value)
    requires Typed(column, a) && Typed(column, b) && !a.Null?
    ensures Equal(a, b) <==> a == b
  {
    if !b.Null? { ColumnOrder(TagOf(column.ctype), a, b, b); }
  }

  // ------------------------------------------------------------ point lookups

  /** A filtered scan with `column = literal` keeps this value. */
  predicate Selected(v: Value, literal: Value) {
    !v.Null? && !literal.Null? && Equal(v, literal)
  }

  method Find(index: KeyIndex, key: Value) returns (id: Option<RowId>)
    ensures id == if key in index then Some(index[key]) else None
  {
    if key in index { return Some(index[key]); }
    return None;
  }

  /** What looking up a value of whatever type has to find: the row under a key equal to it. */
  ghost predicate EqualFound(index: KeyIndex, key: Value, found: Option<RowId>) {
    match found
    case None => forall k :: k in index ==> key.Null? || !Equal(k, key)
    case Some(id) => !key.Null? && exists k :: k in index && Equal(k, key) && index[k] == id
  }

  method FindEqual(index: KeyIndex, key: Value) returns (found: Option<RowId>)
    ensures EqualFound(index, key, found)
  {
    if k :| k in index && !key.Null? && Equal(k, key) { return Some(index[k]); }
    return None;
  }

  /** Looking up a key finds the row a filtered scan would find, and nothing if it finds none. */
  lemma LookupIsScan(table: Table, heap: Heap, column: nat, index: KeyIndex, key: Value, id: RowId)
    requires RowsOk(table, heap) && column < |table| && table[column].primaryKey
    requires IsIndex(heap, heap.Keys, column, index) && Typed(table[column], key)
    ensures IndexedAs(index, key, id) <==> id in heap && column < |heap[id]| && Selected(heap[id][column], key)
  {
    if IndexedAs(index, key, id) {
      assert RowOk(table, heap[id]) && CellOk(table[column], heap[id][column]);
      KeyEquality(table[column], key, key);
    }
    if id in heap && column < |heap[id]| && Selected(heap[id][column], key) {
      assert RowOk(table, heap[id]) && IndexedAs(index, heap[id][column], id);
      KeyEquality(table[column], heap[id][column], key);
    }
  }

  /** A literal is coerced before the lookup. The lookup answers like the scan, on every heap,
      exactly if coercion gives an equal value or the literal is NULL. */
  lemma CoercedLookup(column: Column, literal: Value, key: Value)
    requires Coerce(column, literal) == Ok(key) && column.primaryKey
    ensures (forall v :: CellOk(column, v) ==> (Selected(v, key) <==> Selected(v, literal)))
       <==> literal.Null? || Equal(key, literal)
  {
    CoerceTyped(column, literal);
    if !literal.Null? {
      assert CellOk(column, key);
      assert Equal(key, key) by { if IsNumeric(key) { assert AsReal(key) == AsReal(key); } }
      if Equal(key, literal) {
        forall v | CellOk(column, v) ensures Selected(v, key) <==> Selected(v, literal) {
          if Equal(v, key) { EqualTransitive(v, key, literal); }
          if Equal(v, literal) { EqualTransitive(key, literal, key); EqualTransitive(v, literal, key); }
        }
      } else {
        assert Selected(key, key) && !Selected(key, literal);
      }
    }
  }

  /** Such as 1.5 looked up in an INTEGER key, which finds 1. */
  lemma FractionFindsInteger(column: Column)
    requires column.ctype == IntegerType
    ensures Coerce(column, Real(1.5)) == Ok(Integer(1)) && !Equal(Integer(1), Real(1.5))
  {
    assert (1.5).Floor == 1;
  }
}
