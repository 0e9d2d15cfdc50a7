/** The tables of the engine are the decoded rows of their heap files: what a statement does to
    the files is what the engine's model of it allows, and keeps the database consistent, whatever
    places the files choose (src/native_engine.cpp:738-913, src/native_storage.cpp:825-980). */
module StoredTables {
  import opened Wrappers
  import opened RowIds
  import V = Values
  import opened Tables
  import opened Changes
  import C = TupleCodec
  import HeapScan
  import opened TableFiles

  /** The double with these bits, and the bits of a double. */
  const DoubleOf: nat -> real
  const BitsOf: real -> nat

  function ValueOf(f: C.Field): V.Value {
    match f
    case Null => V.Null
    case Integer(i) => V.Integer(i)
    case Real(bits) => V.Real(DoubleOf(bits))
    case Text(s) => V.Text(s)
    case Boolean(b) => V.Boolean(b)
    case Blob(s) => V.Blob(s)
  }

  function FieldOf(v: V.Value): C.Field {
    match v
    case Null => C.Null
    case Integer(i) => C.Integer(i)
    case Real(r) => C.Real(BitsOf(r))
    case Text(s) => C.Text(s)
    case Boolean(b) => C.Boolean(b)
    case Blob(s) => C.Blob(s)
  }

  /** A value of the machine's types. */
  predicate Exact(v: V.Value) {
    C.Representable(FieldOf(v)) && (v.Real? ==> DoubleOf(BitsOf(v.r)) == v.r)
  }

  function AsRow(t: C.Tuple): (row: V.Row)
    ensures |row| == |t| && forall i :: 0 <= i < |t| ==> row[i] == ValueOf(t[i])
  {
    seq(|t|, i requires 0 <= i < |t| => ValueOf(t[i]))
  }

  function AsTuple(row: V.Row): (t: C.Tuple)
    ensures |t| == |row| && forall i :: 0 <= i < |row| ==> t[i] == FieldOf(row[i])
  {
    seq(|row|, i requires 0 <= i < |row| => FieldOf(row[i]))
  }

  /** What a heap file can hold of the engine's rows. */
  predicate RowFits(row: V.Row) {
    (forall i :: 0 <= i < |row| ==> Exact(row[i])) && Fits(AsTuple(row))
  }

  lemma RowBack(row: V.Row)
    requires forall i :: 0 <= i < |row| ==> Exact(row[i])
    ensures AsRow(AsTuple(row)) == row
  {
  }

  function AsHeap(rows: Rows): (heap: Heap)
    ensures forall id :: id in heap <==> id in rows
    ensures forall id :: id in rows ==> heap[id] == AsRow(rows[id])
  {
    map id | id in rows :: AsRow(rows[id])
  }

  /** The heap files hold the engine's tables. */
  ghost predicate Serves(tables: map<string, Rows>, heaps: Heaps, path: Name -> string) {
    forall name :: name in heaps ==> path(name) in tables && AsHeap(tables[path(name)]) == heaps[name]
  }

  /** The heap that a listing of the file stands for. */
  function HeapOf(list: seq<HeapScan.StoredRow>): Heap {
    if list == [] then map[] else HeapOf(list[..|list| - 1])[list[|list| - 1].id := AsRow(list[|list| - 1].values)]
  }

  lemma {:induction false} HeapOfPart(list: seq<HeapScan.StoredRow>, rows: Rows)
    requires forall i :: 0 <= i < |list| ==> list[i].id in rows && list[i].values == rows[list[i].id]
    ensures forall id :: id in HeapOf(list) ==> id in rows && HeapOf(list)[id] == AsRow(rows[id])
    ensures forall i :: 0 <= i < |list| ==> list[i].id in HeapOf(list)
  {
    if list != [] { HeapOfPart(list[..|list| - 1], rows); }
  }

  lemma ListingIsHeap(list: seq<HeapScan.StoredRow>, rows: Rows)
    requires Listing(list, rows)
    ensures HeapOf(list) == AsHeap(rows)
  {
    var page :| HeapScan.Lists(list, rows, page, 0);
    forall i | 0 <= i < |list| ensures list[i].id in rows && list[i].values == rows[list[i].id] {
      assert HeapScan.ListedRow(list[i], rows, page, 0);
    }
    HeapOfPart(list, rows);
    forall id | id in rows ensures id in HeapOf(list) {
      assert HeapScan.StoredRow(id, rows[id]) in list;
    }
  }

  // --------------------------------------------------------------- single effects

  lemma PutIsStored(rows: Rows, row: V.Row, id: RowId, after: Rows)
    requires RowFits(row) && Effect(rows, Put(AsTuple(row)), id, after)
    ensures id !in AsHeap(rows) && AsHeap(after) == AsHeap(rows)[id := row]
  {
    RowBack(row);
  }

  lemma RemoveIsStored(rows: Rows, x: RowId, id: RowId, after: Rows)
    requires Effect(rows, Remove(x), id, after)
    ensures AsHeap(after) == AsHeap(rows) - {x}
  {
  }

  lemma ReplaceIsStored(rows: Rows, x: RowId, row: V.Row, id: RowId, after: Rows)
    requires RowFits(row) && Effect(rows, Replace(x, AsTuple(row)), id, after)
    ensures x in AsHeap(rows) && id !in AsHeap(rows) - {x}
    ensures AsHeap(after) == Tables.Replaced(AsHeap(rows), Some(x), id, row)
  {
    RowBack(row);
  }

  lemma AppliedLast(rows: Rows, ops: seq<Operation>, ids: seq<RowId>, after: Rows) returns (mid: Rows)
    requires ops != [] && Applied(rows, ops, ids, after)
    ensures |ids| == |ops| && Applied(rows, ops[..|ops| - 1], ids[..|ops| - 1], mid)
    ensures Effect(mid, ops[|ops| - 1], ids[|ops| - 1], after)
  {
    mid :| AppliedBefore(rows, ops, ids, mid) && Effect(mid, ops[|ops| - 1], ids[|ops| - 1], after);
  }

  // -------------------------------------------------------------------- INSERT

  function RowsFor(table: Table, columns: seq<Name>, valueRows: seq<V.Row>): (rows: seq<V.Row>)
    ensures |rows| == |valueRows|
    ensures forall k :: 0 <= k < |rows| ==>
      rows[k] == if RowFor(table, columns, valueRows[k]).Ok? then RowFor(table, columns, valueRows[k]).value else []
  {
    seq(|valueRows|, k requires 0 <= k < |valueRows| =>
      if RowFor(table, columns, valueRows[k]).Ok? then RowFor(table, columns, valueRows[k]).value else [])
  }

  function PutsOf(rows: seq<V.Row>): (ops: seq<Operation>)
    ensures |ops| == |rows| && forall k :: 0 <= k < |rows| ==> ops[k] == Put(AsTuple(rows[k]))
  {
    seq(|rows|, k requires 0 <= k < |rows| => Put(AsTuple(rows[k])))
  }

  /** The statement's rows, each of which may be inserted. */
  ghost predicate Admitted(catalog: Catalog, heaps: Heaps, name: Name, columns: seq<Name>, valueRows: seq<V.Row>, rows: seq<V.Row>) {
    && Consistent(catalog, heaps) && name in catalog && name in heaps && |rows| == |valueRows|
    && forall k :: 0 <= k < |rows| ==>
         RowFor(catalog[name], columns, valueRows[k]) == Ok(rows[k]) && InsertableAt(RowFits, catalog, heaps, name, columns, valueRows, k)
  }

  /** The rows put into the file one after the other pass the checks one after the other. */
  lemma {:induction false} InsertsThrough(catalog: Catalog, heaps: Heaps, name: Name, columns: seq<Name>, valueRows: seq<V.Row>,
                                          rows: seq<V.Row>, before: Rows, n: nat, ids: seq<RowId>, after: Rows)
    requires Admitted(catalog, heaps, name, columns, valueRows, rows) && heaps[name] == AsHeap(before) && n <= |rows|
    requires Applied(before, PutsOf(rows)[..n], ids, after)
    ensures InsertReached(RowFits, catalog, heaps, name, columns, valueRows, n, AsHeap(after), ids, rows[..n])
    ensures Consistent(catalog, heaps[name := AsHeap(after)])
  {
    if n == 0 {
      InsertBegins(catalog, heaps, name, columns, valueRows, before, ids, after);
    } else {
      var mid := AppliedLast(before, PutsOf(rows)[..n], ids, after);
      Prefixes(rows, n, ids);
      InsertsThrough(catalog, heaps, name, columns, valueRows, rows, before, n - 1, ids[..n - 1], mid);
      InsertThroughNext(catalog, heaps, name, columns, valueRows, rows, n - 1, ids[..n - 1], mid, ids[n - 1], after);
    }
  }

  lemma InsertThroughNext(catalog: Catalog, heaps: Heaps, name: Name, columns: seq<Name>, valueRows: seq<V.Row>,
                          rows: seq<V.Row>, k: nat, ids: seq<RowId>, mid: Rows, id: RowId, after: Rows)
    requires Admitted(catalog, heaps, name, columns, valueRows, rows) && k < |rows|
    requires InsertReached(RowFits, catalog, heaps, name, columns, valueRows, k, AsHeap(mid), ids, rows[..k])
    requires Consistent(catalog, heaps[name := AsHeap(mid)]) && Effect(mid, Put(AsTuple(rows[k])), id, after)
    ensures InsertReached(RowFits, catalog, heaps, name, columns, valueRows, k + 1, AsHeap(after), ids + [id], rows[..k] + [rows[k]])
    ensures Consistent(catalog, heaps[name := AsHeap(after)])
  {
    PutIsStored(mid, rows[k], id, after);
    InsertOneStored(catalog, heaps, name, columns, valueRows, k, AsHeap(mid), ids, rows[..k], id, rows[k]);
  }

  lemma Prefixes(rows: seq<V.Row>, n: nat, ids: seq<RowId>)
    requires 0 < n <= |rows| && |ids| == n
    ensures PutsOf(rows)[..n][..n - 1] == PutsOf(rows)[..n - 1] && PutsOf(rows)[..n][n - 1] == Put(AsTuple(rows[n - 1]))
    ensures rows[..n] == rows[..n - 1] + [rows[n - 1]] && ids == ids[..n - 1] + [ids[n - 1]]
  {
  }

  lemma InsertBegins(catalog: Catalog, heaps: Heaps, name: Name, columns: seq<Name>, valueRows: seq<V.Row>,
                     before: Rows, ids: seq<RowId>, after: Rows)
    requires Consistent(catalog, heaps) && name in catalog && name in heaps && heaps[name] == AsHeap(before)
    requires Applied(before, [], ids, after)
    ensures InsertReached(RowFits, catalog, heaps, name, columns, valueRows, 0, AsHeap(after), ids, [])
    ensures Consistent(catalog, heaps[name := AsHeap(after)])
  {
    assert heaps[name := AsHeap(after)] == heaps;
    assert valueRows[..0] == [];
  }

  lemma InsertOneStored(catalog: Catalog, heaps: Heaps, name: Name, columns: seq<Name>, valueRows: seq<V.Row>, k: nat,
                        heap: Heap, ids: seq<RowId>, rows: seq<V.Row>, id: RowId, row: V.Row)
    requires name in catalog && name in heaps && k < |valueRows| && id !in heap
    requires Consistent(catalog, heaps) && Consistent(catalog, heaps[name := heap])
    requires InsertReached(RowFits, catalog, heaps, name, columns, valueRows, k, heap, ids, rows)
    requires InsertableAt(RowFits, catalog, heaps, name, columns, valueRows, k) && RowFor(catalog[name], columns, valueRows[k]) == Ok(row)
    ensures InsertReached(RowFits, catalog, heaps, name, columns, valueRows, k + 1, heap[id := row], ids + [id], rows + [row])
    ensures Consistent(catalog, heaps[name := heap[id := row]])
  {
    assert TableOk(catalog, heaps, name);
    InsertableStep(RowFits, catalog, heaps, name, columns, valueRows, k, heap, ids, rows);
    InsertAdvances(RowFits, catalog, heaps, name, columns, valueRows, k, heap, ids, rows, id, row);
    PutConsistent(catalog, heaps[name := heap], name, None, id, row);
    assert Tables.Replaced(heap, None, id, row) == heap[id := row];
    SetTwice(heaps, name, heap, heap[id := row]);
  }

  lemma SetTwice(heaps: Heaps, name: Name, a: Heap, b: Heap)
    ensures heaps[name := a][name := b] == heaps[name := b]
  {
  }

  lemma RowsAdmitted(catalog: Catalog, heaps: Heaps, name: Name, columns: seq<Name>, valueRows: seq<V.Row>)
    requires Consistent(catalog, heaps) && name in catalog && name in heaps && Insertable(RowFits, catalog, heaps, name, columns, valueRows)
    ensures Admitted(catalog, heaps, name, columns, valueRows, RowsFor(catalog[name], columns, valueRows))
  {
    forall k | 0 <= k < |valueRows| ensures RowFor(catalog[name], columns, valueRows[k]).Ok? {
      assert InsertableAt(RowFits, catalog, heaps, name, columns, valueRows, k);
    }
  }

  lemma FittingStorable(rows: seq<V.Row>)
    requires forall k :: 0 <= k < |rows| ==> RowFits(rows[k])
    ensures Storable(PutsOf(rows)) && forall k :: 0 <= k < |rows| ==> Fits(PutsOf(rows)[k].tuple)
  {
  }

  lemma NeverStuck(rows: Rows, ops: seq<Operation>)
    requires forall k :: 0 <= k < |ops| ==> ops[k].Put? && Fits(ops[k].tuple)
    ensures !Stuck(rows, ops)
  {
  }

  /** An INSERT that passes its checks, on the files: it succeeds, adds exactly the converted rows
      at free places, and leaves the database consistent. */
  method InsertStored(store: TableFiles, file: string, ghost catalog: Catalog, ghost heaps: Heaps, table: Table, name: Name,
                      columns: seq<Name>, valueRows: seq<V.Row>)
    returns (ids: seq<RowId>, ghost rows: seq<V.Row>)
    requires store.Valid() && file in store.tables && Consistent(catalog, heaps) && name in catalog && name in heaps
    requires catalog[name] == table && heaps[name] == AsHeap(store.tables[file])
    requires Insertable(RowFits, catalog, heaps, name, columns, valueRows)
    modifies store, store.pool
    ensures store.Valid() && file in store.tables && store.tables == old(store.tables)[file := store.tables[file]]
    ensures Converted(table, columns, valueRows, rows) && AddedRows(heaps[name], AsHeap(store.tables[file]), ids, rows)
    ensures Consistent(catalog, heaps[name := AsHeap(store.tables[file])])
  {
    var converted := RowsFor(table, columns, valueRows);
    rows := converted;
    ghost var before := store.tables[file];
    RowsAdmitted(catalog, heaps, name, columns, valueRows);
    FittingStorable(converted);
    NeverStuck(before, PutsOf(converted));
    var r, logged := store.Change(file, PutsOf(converted), true);
    assert PutsOf(rows)[..|rows|] == PutsOf(rows) && rows[..|rows|] == rows;
    InsertsThrough(catalog, heaps, name, columns, valueRows, rows, before, |rows|, r.value, store.tables[file]);
    InsertFinished(RowFits, catalog, heaps, name, columns, valueRows, AsHeap(store.tables[file]), r.value, rows);
    return r.value, rows;
  }

  // -------------------------------------------------------------------- DELETE

  /** One operation for each matching row of the first k of a scan. */
  function OpsFor(heap: Heap, where: Predicate, op: (RowId, V.Row) -> Operation, scan: seq<RowId>, k: nat): seq<Operation>
    requires k <= |scan|
  {
    if k == 0 then []
    else
      var id := scan[k - 1];
      OpsFor(heap, where, op, scan, k - 1)
      + if id in heap && Matching(where, heap[id]) then [op(id, heap[id])] else []
  }

  function Removal(): (RowId, V.Row) -> Operation {
    (id: RowId, row: V.Row) => Remove(id)
  }

  /** The operations up to a row, from those before it. */
  lemma OpsNext(heap: Heap, where: Predicate, op: (RowId, V.Row) -> Operation, scan: seq<RowId>, k: nat)
    requires k < |scan| && scan[k] in heap
    ensures OpsFor(heap, where, op, scan, k + 1)
         == if Matching(where, heap[scan[k]]) then OpsFor(heap, where, op, scan, k) + [op(scan[k], heap[scan[k]])]
            else OpsFor(heap, where, op, scan, k)
  {
  }

  /** What the first k rows of a scan have led to. */
  ghost predicate Led(before: Rows, heap: Heap, where: Predicate, op: (RowId, V.Row) -> Operation, scan: seq<RowId>, k: nat,
                      ids: seq<RowId>, after: Rows)
    requires k <= |scan|
  {
    Applied(before, OpsFor(heap, where, op, scan, k), ids, after)
  }

  lemma LedSkip(before: Rows, heap: Heap, where: Predicate, op: (RowId, V.Row) -> Operation, scan: seq<RowId>, k: nat,
                ids: seq<RowId>, after: Rows)
    requires k < |scan| && scan[k] in heap && !Matching(where, heap[scan[k]]) && Led(before, heap, where, op, scan, k + 1, ids, after)
    ensures Led(before, heap, where, op, scan, k, ids, after)
  {
    OpsNext(heap, where, op, scan, k);
  }

  lemma LedNext(before: Rows, heap: Heap, where: Predicate, op: (RowId, V.Row) -> Operation, scan: seq<RowId>, k: nat,
                ids: seq<RowId>, after: Rows) returns (mid: Rows, last: RowId)
    requires k < |scan| && scan[k] in heap && Matching(where, heap[scan[k]]) && Led(before, heap, where, op, scan, k + 1, ids, after)
    ensures ids != [] && last == ids[|ids| - 1] && Led(before, heap, where, op, scan, k, ids[..|ids| - 1], mid)
    ensures Effect(mid, op(scan[k], heap[scan[k]]), last, after)
  {
    OpsNext(heap, where, op, scan, k);
    mid := LastOp(before, OpsFor(heap, where, op, scan, k), op(scan[k], heap[scan[k]]), ids, after);
    last := ids[|ids| - 1];
  }

  lemma LastOp(rows: Rows, ops: seq<Operation>, op: Operation, ids: seq<RowId>, after: Rows) returns (mid: Rows)
    requires Applied(rows, ops + [op], ids, after)
    ensures |ids| == |ops| + 1 && Applied(rows, ops, ids[..|ops|], mid) && Effect(mid, op, ids[|ops|], after)
  {
    var all := ops + [op];
    mid := AppliedLast(rows, all, ids, after);
    assert all[..|ops|] == ops;
  }

  /** The statement's condition and its scan. */
  ghost predicate Deleting(catalog: Catalog, heaps: Heaps, name: Name, where: Predicate, scan: seq<RowId>) {
    && Consistent(catalog, heaps) && name in catalog && name in heaps
    && Deletable(catalog, heaps, name, where) && Scanned(scan, heaps[name])
  }

  lemma {:induction false} DeletesThrough(catalog: Catalog, heaps: Heaps, name: Name, where: Predicate, scan: seq<RowId>,
                                          before: Rows, k: nat, ids: seq<RowId>, after: Rows)
    requires Deleting(catalog, heaps, name, where, scan) && heaps[name] == AsHeap(before) && k <= |scan|
    requires Led(before, heaps[name], where, Removal(), scan, k, ids, after)
    ensures DeleteReached(catalog, heaps, name, where, AsHeap(after), Visited(scan, k))
    ensures Consistent(catalog, heaps[name := AsHeap(after)])
  {
    if k == 0 {
      assert heaps[name := AsHeap(after)] == heaps;
    } else if Matching(where, heaps[name][scan[k - 1]]) {
      var mid, last := LedNext(before, heaps[name], where, Removal(), scan, k - 1, ids, after);
      DeletesThrough(catalog, heaps, name, where, scan, before, k - 1, ids[..|ids| - 1], mid);
      DeleteThroughNext(catalog, heaps, name, where, scan, k - 1, mid, last, after);
    } else {
      LedSkip(before, heaps[name], where, Removal(), scan, k - 1, ids, after);
      DeletesThrough(catalog, heaps, name, where, scan, before, k - 1, ids, after);
      DeleteThroughSkip(catalog, heaps, name, where, scan, k - 1, AsHeap(after));
    }
  }

  lemma DeleteThroughNext(catalog: Catalog, heaps: Heaps, name: Name, where: Predicate, scan: seq<RowId>, k: nat,
                          mid: Rows, id: RowId, after: Rows)
    requires Deleting(catalog, heaps, name, where, scan) && k < |scan| && Matching(where, heaps[name][scan[k]])
    requires DeleteReached(catalog, heaps, name, where, AsHeap(mid), Visited(scan, k))
    requires Consistent(catalog, heaps[name := AsHeap(mid)]) && Effect(mid, Remove(scan[k]), id, after)
    ensures DeleteReached(catalog, heaps, name, where, AsHeap(after), Visited(scan, k + 1))
    ensures Consistent(catalog, heaps[name := AsHeap(after)])
  {
    var heap := AsHeap(mid);
    RemoveIsStored(mid, scan[k], id, after);
    DeleteOneStored(catalog, heaps, name, where, scan, k, heap);
    SetTwice(heaps, name, heap, heap - {scan[k]});
  }

  lemma DeleteOneStored(catalog: Catalog, heaps: Heaps, name: Name, where: Predicate, scan: seq<RowId>, k: nat, heap: Heap)
    requires Deleting(catalog, heaps, name, where, scan) && k < |scan| && Matching(where, heaps[name][scan[k]])
    requires DeleteReached(catalog, heaps, name, where, heap, Visited(scan, k)) && Consistent(catalog, heaps[name := heap])
    ensures DeleteReached(catalog, heaps, name, where, heap - {scan[k]}, Visited(scan, k + 1))
    ensures Consistent(catalog, heaps[name := heap][name := heap - {scan[k]}])
  {
    var row := heaps[name][scan[k]];
    assert TableOk(catalog, heaps, name) && DeletableRow(catalog, heaps, name, where, row);
    UnreferencedElsewhere(catalog, heaps, name, heap, row, None);
    VisitedNext(scan, k, heaps[name]);
    DeleteAdvances(catalog, heaps, name, where, heap, Visited(scan, k), scan[k]);
    RemoveConsistent(catalog, heaps[name := heap], name, scan[k]);
  }

  lemma DeleteThroughSkip(catalog: Catalog, heaps: Heaps, name: Name, where: Predicate, scan: seq<RowId>, k: nat, heap: Heap)
    requires Deleting(catalog, heaps, name, where, scan) && k < |scan| && !Matching(where, heaps[name][scan[k]])
    requires DeleteReached(catalog, heaps, name, where, heap, Visited(scan, k))
    ensures DeleteReached(catalog, heaps, name, where, heap, Visited(scan, k + 1))
  {
    assert TableOk(catalog, heaps, name) && DeletableRow(catalog, heaps, name, where, heaps[name][scan[k]]);
    VisitedNext(scan, k, heaps[name]);
    DeleteAdvances(catalog, heaps, name, where, heap, Visited(scan, k), scan[k]);
  }

  lemma {:induction false} RemovalsStorable(heap: Heap, where: Predicate, scan: seq<RowId>, k: nat)
    requires k <= |scan|
    ensures forall i :: 0 <= i < |OpsFor(heap, where, Removal(), scan, k)| ==> OpsFor(heap, where, Removal(), scan, k)[i].Remove?
  {
    if k > 0 { RemovalsStorable(heap, where, scan, k - 1); }
  }

  /** A DELETE that passes its checks, on the files: exactly the matching rows go. */
  method DeleteStored(store: TableFiles, file: string, ghost catalog: Catalog, ghost heaps: Heaps, heap: Heap, name: Name,
                      where: Predicate, scan: seq<RowId>)
    returns (ids: seq<RowId>)
    requires store.Valid() && file in store.tables && Deleting(catalog, heaps, name, where, scan)
    requires heaps[name] == heap == AsHeap(store.tables[file])
    modifies store, store.pool
    ensures store.Valid() && file in store.tables && store.tables == old(store.tables)[file := store.tables[file]]
    ensures DeletedSoFar(where, heap, AsHeap(store.tables[file]), heap.Keys)
    ensures Consistent(catalog, heaps[name := AsHeap(store.tables[file])])
  {
    ghost var before := store.tables[file];
    var ops := OpsFor(heap, where, Removal(), scan, |scan|);
    RemovalsStorable(heap, where, scan, |scan|);
    var r, logged := store.Change(file, ops, true);
    DeletesThrough(catalog, heaps, name, where, scan, before, |scan|, r.value, store.tables[file]);
    AllVisited(scan, heap);
    return r.value;
  }

  // -------------------------------------------------------------------- UPDATE

  function Replacement(table: Table, assign: Assignment): (RowId, V.Row) -> Operation {
    (id: RowId, row: V.Row) =>
      Operation.Replace(id, AsTuple(if Updated(table, assign, row).Ok? then Updated(table, assign, row).value else []))
  }

  ghost predicate Updating(catalog: Catalog, heaps: Heaps, name: Name, where: Predicate, assign: Assignment, scan: seq<RowId>) {
    && Consistent(catalog, heaps) && name in catalog && name in heaps && Scanned(scan, heaps[name])
    && Updatable(RowFits, catalog, heaps, name, where, assign, scan)
  }

  lemma {:induction false} UpdatesThrough(catalog: Catalog, heaps: Heaps, name: Name, where: Predicate, assign: Assignment,
                                          scan: seq<RowId>, before: Rows, k: nat, ids: seq<RowId>, after: Rows)
    returns (moved: map<RowId, RowId>)
    requires Updating(catalog, heaps, name, where, assign, scan) && heaps[name] == AsHeap(before) && k <= |scan|
    requires Led(before, heaps[name], where, Replacement(catalog[name], assign), scan, k, ids, after)
    ensures UpdateReached(RowFits, catalog, heaps, name, where, assign, scan, k, AsHeap(after), moved)
    ensures Consistent(catalog, heaps[name := AsHeap(after)])
  {
    if k == 0 {
      UpdateThroughStart(catalog, heaps, name, where, assign, scan, before, ids, after);
      moved := map[];
    } else if Matching(where, heaps[name][scan[k - 1]]) {
      var mid, last := LedNext(before, heaps[name], where, Replacement(catalog[name], assign), scan, k - 1, ids, after);
      moved := UpdatesThrough(catalog, heaps, name, where, assign, scan, before, k - 1, ids[..|ids| - 1], mid);
      UpdateThroughNext(catalog, heaps, name, where, assign, scan, k - 1, moved, mid, last, after);
      moved := moved[scan[k - 1] := last];
    } else {
      LedSkip(before, heaps[name], where, Replacement(catalog[name], assign), scan, k - 1, ids, after);
      moved := UpdatesThrough(catalog, heaps, name, where, assign, scan, before, k - 1, ids, after);
      UpdateThroughSkip(catalog, heaps, name, where, assign, scan, k - 1, AsHeap(after), moved);
    }
  }

  lemma UpdateThroughSkip(catalog: Catalog, heaps: Heaps, name: Name, where: Predicate, assign: Assignment, scan: seq<RowId>, k: nat,
                          heap: Heap, moved: map<RowId, RowId>)
    requires Updating(catalog, heaps, name, where, assign, scan) && k < |scan| && !Matching(where, heaps[name][scan[k]])
    requires UpdateReached(RowFits, catalog, heaps, name, where, assign, scan, k, heap, moved)
    ensures UpdateReached(RowFits, catalog, heaps, name, where, assign, scan, k + 1, heap, moved)
  {
    assert UpdatableAt(RowFits, catalog, heaps, name, where, assign, scan, k);
    UpdateSkips(RowFits, catalog, heaps, name, where, assign, scan, k, heap, moved);
  }

  lemma UpdateThroughStart(catalog: Catalog, heaps: Heaps, name: Name, where: Predicate, assign: Assignment, scan: seq<RowId>,
                           before: Rows, ids: seq<RowId>, after: Rows)
    requires Updating(catalog, heaps, name, where, assign, scan) && heaps[name] == AsHeap(before)
    requires Led(before, heaps[name], where, Replacement(catalog[name], assign), scan, 0, ids, after)
    ensures UpdateReached(RowFits, catalog, heaps, name, where, assign, scan, 0, AsHeap(after), map[])
    ensures Consistent(catalog, heaps[name := AsHeap(after)])
  {
    assert heaps[name := AsHeap(after)] == heaps;
  }

  lemma UpdateThroughNext(catalog: Catalog, heaps: Heaps, name: Name, where: Predicate, assign: Assignment, scan: seq<RowId>, k: nat,
                          moved: map<RowId, RowId>, mid: Rows, id: RowId, after: Rows)
    requires Updating(catalog, heaps, name, where, assign, scan) && k < |scan| && Matching(where, heaps[name][scan[k]])
    requires UpdateReached(RowFits, catalog, heaps, name, where, assign, scan, k, AsHeap(mid), moved)
    requires Consistent(catalog, heaps[name := AsHeap(mid)])
    requires Effect(mid, Replacement(catalog[name], assign)(scan[k], heaps[name][scan[k]]), id, after)
    ensures UpdateReached(RowFits, catalog, heaps, name, where, assign, scan, k + 1, AsHeap(after), moved[scan[k] := id])
    ensures Consistent(catalog, heaps[name := AsHeap(after)])
  {
    assert UpdatableAt(RowFits, catalog, heaps, name, where, assign, scan, k);
    var heap, row := AsHeap(mid), Updated(catalog[name], assign, heaps[name][scan[k]]).value;
    ReplaceIsStored(mid, scan[k], row, id, after);
    UpdateOneStored(catalog, heaps, name, where, assign, scan, k, moved, heap, id, row);
    SetTwice(heaps, name, heap, AsHeap(after));
  }

  lemma UpdateOneStored(catalog: Catalog, heaps: Heaps, name: Name, where: Predicate, assign: Assignment, scan: seq<RowId>, k: nat,
                        moved: map<RowId, RowId>, heap: Heap, id: RowId, row: V.Row)
    requires Updating(catalog, heaps, name, where, assign, scan) && k < |scan| && Matching(where, heaps[name][scan[k]])
    requires UpdateReached(RowFits, catalog, heaps, name, where, assign, scan, k, heap, moved)
    requires Consistent(catalog, heaps[name := heap]) && Updated(catalog[name], assign, heaps[name][scan[k]]) == Ok(row)
    requires scan[k] in heap && id !in heap - {scan[k]}
    ensures UpdateReached(RowFits, catalog, heaps, name, where, assign, scan, k + 1, Tables.Replaced(heap, Some(scan[k]), id, row),
                          moved[scan[k] := id])
    ensures Consistent(catalog, heaps[name := heap][name := Tables.Replaced(heap, Some(scan[k]), id, row)])
  {
    assert TableOk(catalog, heaps, name) && UpdatableAt(RowFits, catalog, heaps, name, where, assign, scan, k);
    UpdateReaches(RowFits, catalog, heaps, name, where, assign, scan, k, heap, moved);
    UpdatableStep(RowFits, catalog, heaps, name, where, assign, scan, k, heap, Visited(scan, k), moved);
    UpdateAdvances(RowFits, catalog, heaps, name, where, assign, scan, k, heap, moved, id, row);
    PutConsistent(catalog, heaps[name := heap], name, Some(scan[k]), id, row);
  }

  /** Operation i stems from a matching row, after the operations of the rows before it. */
  lemma {:induction false} OpSource(heap: Heap, where: Predicate, op: (RowId, V.Row) -> Operation, scan: seq<RowId>, n: nat, i: nat)
    returns (k: nat)
    requires n <= |scan| && i < |OpsFor(heap, where, op, scan, n)|
    ensures k < n && scan[k] in heap && Matching(where, heap[scan[k]]) && OpsFor(heap, where, op, scan, n)[i] == op(scan[k], heap[scan[k]])
    ensures OpsFor(heap, where, op, scan, n)[..i] == OpsFor(heap, where, op, scan, k)
  {
    var earlier := OpsFor(heap, where, op, scan, n - 1);
    if i < |earlier| {
      k := OpSource(heap, where, op, scan, n - 1, i);
      assert OpsFor(heap, where, op, scan, n)[..i] == earlier[..i];
    } else {
      k := n - 1;
      assert OpsFor(heap, where, op, scan, n)[..i] == earlier;
    }
  }

  lemma ReplacementsStorable(catalog: Catalog, heaps: Heaps, name: Name, where: Predicate, assign: Assignment, scan: seq<RowId>)
    requires Updating(catalog, heaps, name, where, assign, scan)
    ensures var ops := OpsFor(heaps[name], where, Replacement(catalog[name], assign), scan, |scan|);
      Storable(ops) && forall i :: 0 <= i < |ops| ==> ops[i].Replace? && Fits(ops[i].tuple)
  {
    var ops := OpsFor(heaps[name], where, Replacement(catalog[name], assign), scan, |scan|);
    forall i | 0 <= i < |ops|
      ensures ops[i].Replace? && Fits(ops[i].tuple) && forall j :: 0 <= j < |ops[i].tuple| ==> C.Representable(ops[i].tuple[j])
    {
      var k := OpSource(heaps[name], where, Replacement(catalog[name], assign), scan, |scan|, i);
      assert UpdatableAt(RowFits, catalog, heaps, name, where, assign, scan, k);
    }
  }

  lemma UpdateNotStuck(catalog: Catalog, heaps: Heaps, name: Name, where: Predicate, assign: Assignment, scan: seq<RowId>, before: Rows)
    requires Updating(catalog, heaps, name, where, assign, scan) && heaps[name] == AsHeap(before)
    ensures !Stuck(before, OpsFor(heaps[name], where, Replacement(catalog[name], assign), scan, |scan|))
  {
    var ops := OpsFor(heaps[name], where, Replacement(catalog[name], assign), scan, |scan|);
    ReplacementsStorable(catalog, heaps, name, where, assign, scan);
    forall i: nat, ids, mid | i < |ops| && Applied(before, ops[..i], ids, mid) ensures Doable(mid, ops[i]) {
      var k := OpSource(heaps[name], where, Replacement(catalog[name], assign), scan, |scan|, i);
      var moved := UpdatesThrough(catalog, heaps, name, where, assign, scan, before, k, ids, mid);
      UpdateReaches(RowFits, catalog, heaps, name, where, assign, scan, k, AsHeap(mid), moved);
    }
  }

  /** An UPDATE that passes its checks, on the files: each matching row is replaced, at its place
      or another, and every other row stays. */
  method UpdateStored(store: TableFiles, file: string, ghost catalog: Catalog, ghost heaps: Heaps, table: Table, heap: Heap, name: Name,
                      where: Predicate, assign: Assignment, scan: seq<RowId>)
    returns (ids: seq<RowId>, ghost moved: map<RowId, RowId>)
    requires store.Valid() && file in store.tables && Updating(catalog, heaps, name, where, assign, scan)
    requires catalog[name] == table && heaps[name] == heap == AsHeap(store.tables[file])
    modifies store, store.pool
    ensures store.Valid() && file in store.tables && store.tables == old(store.tables)[file := store.tables[file]]
    ensures UpdatedSoFar(table, where, assign, heap, AsHeap(store.tables[file]), heap.Keys, moved)
    ensures Consistent(catalog, heaps[name := AsHeap(store.tables[file])])
  {
    ghost var before := store.tables[file];
    var ops := OpsFor(heap, where, Replacement(table, assign), scan, |scan|);
    ReplacementsStorable(catalog, heaps, name, where, assign, scan);
    UpdateNotStuck(catalog, heaps, name, where, assign, scan, before);
    var r, logged := store.Change(file, ops, true);
    moved := UpdatesThrough(catalog, heaps, name, where, assign, scan, before, |scan|, r.value, store.tables[file]);
    UpdateFinished(RowFits, catalog, heaps, name, where, assign, scan, AsHeap(store.tables[file]), moved);
    return r.value, moved;
  }

  // ------------------------------------------------------------------- failures

  /** A statement that fails at some check, after any operations: the tables stay as they were. */
  method AbandonStored(store: TableFiles, file: string, ops: seq<Operation>)
    requires store.Valid() && file in store.tables && Storable(ops)
    modifies store, store.pool
    ensures store.Valid() && store.tables == old(store.tables)
  {
    var r, logged := store.Change(file, ops, false);
  }
}
