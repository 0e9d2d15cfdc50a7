/** What the statements that change a table do to its rows, and exactly when they succeed
    (src/native_engine.cpp:738-913, 2273-2387). A row is checked in the middle of a statement, when
    some rows are already changed; what that amounts to is stated of the rows at its start. */
module Changes {
  import opened Wrappers
  import opened RowIds
  import opened Values
  import opened Tables

  type Predicate = Row -> Result<bool, StatementError>

  type Assignment = Row -> Result<Row, StatementError>

  // --------------------------------------------------------- statement inputs

  /** What one VALUES row puts into the columns; a column list may leave some out. */
  function Arrange(table: Table, columns: seq<Name>, values: Row): Result<Row, StatementError> {
    if columns == [] then (if |values| != |table| then Err(WrongWidth) else Ok(values))
    else if |values| != |columns| then Err(WrongWidth)
    else ArrangeUpTo(table, columns, values, |columns|)
  }

  function ArrangeUpTo(table: Table, columns: seq<Name>, values: Row, n: nat): (r: Result<Row, StatementError>)
    requires n <= |columns| == |values|
    ensures r.Ok? ==> |r.value| == |table|
  {
    if n == 0 then Ok(seq(|table|, _ => Null))
    else match ArrangeUpTo(table, columns, values, n - 1)
      case Err(e) => Err(e)
      case Ok(row) =>
        var c := ColumnIndex(table, columns[n - 1]);
        if c == |table| then Err(UnknownColumn) else Ok(row[c := values[n - 1]])
  }

  /** One VALUES row, arranged and coerced. */
  function RowFor(table: Table, columns: seq<Name>, values: Row): Result<Row, StatementError> {
    match Arrange(table, columns, values)
    case Err(e) => Err(e)
    case Ok(tuple) => CoerceRow(table, tuple)
  }

  // ----------------------------------------------------------- effects of INSERT

  /** The heap has exactly the old rows and, at new places, these. */
  ghost predicate AddedRows(before: Heap, after: Heap, ids: seq<RowId>, rows: seq<Row>) {
    && |ids| == |rows|
    && (forall i, j :: 0 <= i < j < |ids| ==> ids[i] != ids[j])
    && (forall i :: 0 <= i < |ids| ==> ids[i] !in before && ids[i] in after && after[ids[i]] == rows[i])
    && (forall id :: id in before ==> id in after && after[id] == before[id])
    && (forall id :: id in after ==> id in before || id in ids)
  }

  lemma AddedOneMore(before: Heap, heap: Heap, ids: seq<RowId>, rows: seq<Row>, id: RowId, row: Row)
    requires AddedRows(before, heap, ids, rows) && id !in heap
    ensures AddedRows(before, heap[id := row], ids + [id], rows + [row])
  {
    assert (ids + [id])[|ids|] == id;
    forall x | x in heap[id := row] ensures x in before || x in ids + [id] {
      if x != id { assert x in before || x in ids; }
    }
  }

  /** The rows a VALUES list stands for, arranged and coerced. */
  ghost predicate Converted(table: Table, columns: seq<Name>, valueRows: seq<Row>, rows: seq<Row>) {
    |rows| == |valueRows| && forall i :: 0 <= i < |rows| ==> ConvertedRow(table, columns, valueRows[i], rows[i])
  }

  predicate ConvertedRow(table: Table, columns: seq<Name>, values: Row, row: Row) {
    RowFor(table, columns, values) == Ok(row)
  }

  ghost predicate AddedSoFar(table: Table, columns: seq<Name>, valueRows: seq<Row>, k: nat, before: Heap, after: Heap,
                             ids: seq<RowId>, rows: seq<Row>)
    requires k <= |valueRows|
  {
    Converted(table, columns, valueRows[..k], rows) && AddedRows(before, after, ids, rows)
  }

  lemma SoFarOneMore(table: Table, columns: seq<Name>, valueRows: seq<Row>, k: nat, before: Heap, heap: Heap,
                     ids: seq<RowId>, rows: seq<Row>, id: RowId, row: Row)
    requires k < |valueRows| && AddedSoFar(table, columns, valueRows, k, before, heap, ids, rows)
    requires id !in heap && ConvertedRow(table, columns, valueRows[k], row)
    ensures AddedSoFar(table, columns, valueRows, k + 1, before, heap[id := row], ids + [id], rows + [row])
  {
    AddedOneMore(before, heap, ids, rows, id, row);
    ConvertedOneMore(table, columns, valueRows, k, rows, row);
  }

  lemma ConvertedOneMore(table: Table, columns: seq<Name>, valueRows: seq<Row>, k: nat, rows: seq<Row>, row: Row)
    requires k < |valueRows| && Converted(table, columns, valueRows[..k], rows)
    requires ConvertedRow(table, columns, valueRows[k], row)
    ensures Converted(table, columns, valueRows[..k + 1], rows + [row])
  {
    forall i | 0 <= i < k ensures ConvertedRow(table, columns, valueRows[..k + 1][i], rows[i]) {
      assert valueRows[..k][i] == valueRows[..k + 1][i];
    }
  }

  // ------------------------------------------------ effects of DELETE and UPDATE

  /** Of the rows visited so far exactly the matching ones are gone. */
  ghost predicate DeletedSoFar(where: Predicate, before: Heap, heap: Heap, done: set<RowId>) {
    && (forall id :: id in heap <==> id in before && (id in done ==> where(before[id]) == Ok(false)))
    && (forall id :: id in heap ==> heap[id] == before[id])
  }

  lemma DeletedOneMore(where: Predicate, before: Heap, heap: Heap, done: set<RowId>, id: RowId)
    requires DeletedSoFar(where, before, heap, done) && id in before && id !in done && where(before[id]).Ok?
    ensures id in heap && heap[id] == before[id]
    ensures DeletedSoFar(where, before, if where(before[id]).value then heap - {id} else heap, done + {id})
  {
  }

  /** What an UPDATE makes of a row. */
  function Updated(table: Table, assign: Assignment, row: Row): Result<Row, StatementError> {
    match assign(row)
    case Err(e) => Err(e)
    case Ok(tuple) => CoerceRow(table, tuple)
  }

  /** The matching rows visited so far. */
  ghost predicate MovedExactly(where: Predicate, before: Heap, done: set<RowId>,
                               moved: map<RowId, RowId>) {
    forall id :: id in moved <==> id in before && id in done && where(before[id]) == Ok(true)
  }

  /** Each has its new contents at a place of its own. */
  ghost predicate MovedRows(table: Table, assign: Assignment, before: Heap, heap: Heap,
                            moved: map<RowId, RowId>) {
    && (forall id :: id in moved ==> id in before && moved[id] in heap
                                     && Updated(table, assign, before[id]) == Ok(heap[moved[id]]))
    && (forall a, b :: a in moved && b in moved && a != b ==> moved[a] != moved[b])
  }

  /** Every other row is as it was, and there is nothing else. */
  ghost predicate OthersStay(before: Heap, heap: Heap, moved: map<RowId, RowId>) {
    && (forall id :: id in before && id !in moved ==> id in heap && heap[id] == before[id] && id !in moved.Values)
    && (forall x :: x in heap ==> (x in before && x !in moved) || x in moved.Values)
  }

  /** The rows visited so far that match are replaced; all other rows are as they were. */
  ghost predicate UpdatedSoFar(table: Table, where: Predicate,
                               assign: Assignment, before: Heap, heap: Heap,
                               done: set<RowId>, moved: map<RowId, RowId>) {
    MovedExactly(where, before, done, moved) && MovedRows(table, assign, before, heap, moved) && OthersStay(before, heap, moved)
  }

  lemma StillThere(table: Table, where: Predicate,
                   assign: Assignment, before: Heap, heap: Heap,
                   done: set<RowId>, moved: map<RowId, RowId>, id: RowId)
    requires UpdatedSoFar(table, where, assign, before, heap, done, moved) && id in before && id !in done
    ensures id in heap && heap[id] == before[id] && id !in moved && id !in moved.Values
  {
  }

  lemma SkippedOneMore(table: Table, where: Predicate,
                       assign: Assignment, before: Heap, heap: Heap,
                       done: set<RowId>, moved: map<RowId, RowId>, id: RowId)
    requires UpdatedSoFar(table, where, assign, before, heap, done, moved) && id in before && id !in done
    requires where(before[id]) == Ok(false)
    ensures UpdatedSoFar(table, where, assign, before, heap, done + {id}, moved)
  {
  }

  lemma MovedOneMore(table: Table, assign: Assignment, before: Heap, heap: Heap,
                     moved: map<RowId, RowId>, id: RowId, id': RowId, row: Row)
    requires MovedRows(table, assign, before, heap, moved) && id in before && id !in moved && id !in moved.Values
    requires Updated(table, assign, before[id]) == Ok(row) && id' !in heap - {id}
    ensures MovedRows(table, assign, before, Replaced(heap, Some(id), id', row), moved[id := id'])
  {
    forall a | a in moved ensures moved[a] != id && moved[a] != id' {
      assert moved[a] in moved.Values;
    }
  }

  lemma OthersStayOneMore(before: Heap, heap: Heap, moved: map<RowId, RowId>, id: RowId, id': RowId, row: Row)
    requires OthersStay(before, heap, moved) && id in before && id !in moved && id !in moved.Values
    requires id' !in heap - {id}
    ensures OthersStay(before, Replaced(heap, Some(id), id', row), moved[id := id'])
  {
    var heap', moved' := Replaced(heap, Some(id), id', row), moved[id := id'];
    forall x ensures x in moved'.Values <==> x in moved.Values || x == id' {
      ValuesOneMore(moved, id, id', x);
    }
  }

  lemma ValuesOneMore(moved: map<RowId, RowId>, id: RowId, id': RowId, x: RowId)
    requires id !in moved
    ensures x in moved[id := id'].Values <==> x in moved.Values || x == id'
  {
    if x in moved.Values {
      var a :| a in moved && moved[a] == x;
      assert moved[id := id'][a] == x;
    }
    assert moved[id := id'][id] == id';
  }

  lemma UpdatedOneMore(table: Table, where: Predicate,
                       assign: Assignment, before: Heap, heap: Heap,
                       done: set<RowId>, moved: map<RowId, RowId>, id: RowId, id': RowId, row: Row)
    requires UpdatedSoFar(table, where, assign, before, heap, done, moved) && id in before && id !in done
    requires where(before[id]) == Ok(true) && Updated(table, assign, before[id]) == Ok(row) && id' !in heap - {id}
    ensures UpdatedSoFar(table, where, assign, before, Replaced(heap, Some(id), id', row), done + {id}, moved[id := id'])
  {
    StillThere(table, where, assign, before, heap, done, moved, id);
    MovedOneMore(table, assign, before, heap, moved, id, id', row);
    OthersStayOneMore(before, heap, moved, id, id', row);
  }

  // ------------------------------------------------------ when the checks succeed

  /** The primary keys differ. */
  predicate Apart(table: Table, a: Row, b: Row) {
    forall c :: 0 <= c < |table| && table[c].primaryKey ==> KeysDiffer(a, b, c)
  }

  lemma FreshIsApart(table: Table, heap: Heap, row: Row, replaced: Option<RowId>)
    ensures FreshKey(table, heap, row, replaced) <==> forall id :: id in heap && Some(id) != replaced ==> Apart(table, heap[id], row)
  {
    if forall id :: id in heap && Some(id) != replaced ==> Apart(table, heap[id], row) {
      forall id, c | id in heap && Some(id) != replaced && 0 <= c < |table| && table[c].primaryKey
        ensures KeysDiffer(heap[id], row, c)
      {
        assert Apart(table, heap[id], row);
      }
    }
  }

  /** References lead to other tables, so they do not see the statement's own changes. */
  lemma ReferencesElsewhere(catalog: Catalog, heaps: Heaps, name: Name, heap: Heap, row: Row)
    requires name in catalog && name in heaps && SchemaOk(catalog, name, catalog[name]) && |row| == |catalog[name]|
    ensures ReferencesOk(catalog, heaps[name := heap], catalog[name], row) <==> ReferencesOk(catalog, heaps, catalog[name], row)
  {
    var heaps' := heaps[name := heap];
    if ReferencesOk(catalog, heaps, catalog[name], row) { OwnReference(catalog, heaps, heaps', name, row); }
    if ReferencesOk(catalog, heaps', catalog[name], row) { OwnReference(catalog, heaps', heaps, name, row); }
  }

  lemma UnreferencedElsewhere(catalog: Catalog, heaps: Heaps, name: Name, heap: Heap, row: Row, replacement: Option<Row>)
    requires name in catalog && name in heaps && SchemaOk(catalog, name, catalog[name])
    ensures Unreferenced(catalog, heaps[name := heap], name, row, replacement) <==> Unreferenced(catalog, heaps, name, row, replacement)
  {
    var heaps' := heaps[name := heap];
    forall c, v | 0 <= c < |catalog[name]| ensures NotNeeded(catalog[name], name, catalog[name][c], v, row, replacement) {
      assert ColumnSchemaOk(catalog, name, catalog[name][c]);
    }
    if Unreferenced(catalog, heaps, name, row, replacement) {
      forall t, id, c | t in catalog && t in heaps' && id in heaps'[t] && 0 <= c < |catalog[t]| && c < |heaps'[t][id]|
        ensures NotNeeded(catalog[name], name, catalog[t][c], heaps'[t][id][c], row, replacement)
      {
        if t != name { assert heaps'[t] == heaps[t]; }
      }
    }
    if Unreferenced(catalog, heaps', name, row, replacement) {
      forall t, id, c | t in catalog && t in heaps && id in heaps[t] && 0 <= c < |catalog[t]| && c < |heaps[t][id]|
        ensures NotNeeded(catalog[name], name, catalog[t][c], heaps[t][id][c], row, replacement)
      {
        if t != name { assert heaps'[t] == heaps[t]; }
      }
    }
  }

  // -------------------------------------------------------------------- INSERT

  /** What the statement asks of one VALUES row in the state it has reached. */
  predicate AcceptsValues(fits: Row -> bool, catalog: Catalog, heaps: Heaps, name: Name, columns: seq<Name>, values: Row)
    requires name in catalog && name in heaps
  {
    var tuple := Arrange(catalog[name], columns, values);
    tuple.Ok? && Validate(catalog, heaps, name, tuple.value, None).Ok? && fits(Validate(catalog, heaps, name, tuple.value, None).value)
  }

  /** Row k has the right form and fits a page, finds what it refers to, and its key is new among
      the table's rows and the statement's earlier ones. */
  predicate InsertableAt(fits: Row -> bool, catalog: Catalog, heaps: Heaps, name: Name, columns: seq<Name>,
                         valueRows: seq<Row>, k: nat)
    requires name in catalog && name in heaps && k < |valueRows|
  {
    var row := RowFor(catalog[name], columns, valueRows[k]);
    && row.Ok? && fits(row.value) && ReferencesOk(catalog, heaps, catalog[name], row.value)
    && FreshKey(catalog[name], heaps[name], row.value, None)
    && forall i :: 0 <= i < k ==> ApartFrom(catalog[name], RowFor(catalog[name], columns, valueRows[i]), row.value)
  }

  predicate ApartFrom(table: Table, earlier: Result<Row, StatementError>, row: Row) {
    earlier.Ok? ==> Apart(table, earlier.value, row)
  }

  predicate Insertable(fits: Row -> bool, catalog: Catalog, heaps: Heaps, name: Name, columns: seq<Name>, valueRows: seq<Row>)
    requires name in catalog && name in heaps
  {
    forall k :: 0 <= k < |valueRows| ==> InsertableAt(fits, catalog, heaps, name, columns, valueRows, k)
  }

  lemma FreshAmongAdded(table: Table, before: Heap, heap: Heap, ids: seq<RowId>, rows: seq<Row>, row: Row)
    requires AddedRows(before, heap, ids, rows)
    ensures FreshKey(table, heap, row, None)
       <==> FreshKey(table, before, row, None) && forall i :: 0 <= i < |rows| ==> Apart(table, rows[i], row)
  {
    FreshIsApart(table, heap, row, None);
    FreshIsApart(table, before, row, None);
    if FreshKey(table, heap, row, None) {
      forall i | 0 <= i < |rows| ensures Apart(table, rows[i], row) {
        assert Apart(table, heap[ids[i]], row);
      }
      forall id | id in before ensures Apart(table, before[id], row) {
        assert Apart(table, heap[id], row);
      }
    }
    if (forall i :: 0 <= i < |rows| ==> Apart(table, rows[i], row)) && FreshKey(table, before, row, None) {
      forall id | id in heap ensures Apart(table, heap[id], row) {
        if id in ids {
          var i :| 0 <= i < |ids| && ids[i] == id;
          assert Apart(table, rows[i], row);
        } else {
          assert Apart(table, before[id], row);
        }
      }
    }
  }

  /** The check in the middle of the statement decides as the condition at its start. */
  lemma InsertableStep(fits: Row -> bool, catalog: Catalog, heaps: Heaps, name: Name, columns: seq<Name>, valueRows: seq<Row>,
                       k: nat, heap: Heap, ids: seq<RowId>, rows: seq<Row>)
    requires name in catalog && name in heaps && SchemaOk(catalog, name, catalog[name]) && k < |valueRows|
    requires AddedSoFar(catalog[name], columns, valueRows, k, heaps[name], heap, ids, rows)
    ensures AcceptsValues(fits, catalog, heaps[name := heap], name, columns, valueRows[k])
       <==> InsertableAt(fits, catalog, heaps, name, columns, valueRows, k)
  {
    var table, row := catalog[name], RowFor(catalog[name], columns, valueRows[k]);
    if row.Ok? {
      ReferencesElsewhere(catalog, heaps, name, heap, row.value);
      FreshAmongAdded(table, heaps[name], heap, ids, rows, row.value);
      EarlierRows(table, columns, valueRows, k, rows, row.value);
    }
  }

  lemma EarlierRows(table: Table, columns: seq<Name>, valueRows: seq<Row>, k: nat, rows: seq<Row>, row: Row)
    requires k <= |valueRows| && Converted(table, columns, valueRows[..k], rows)
    ensures (forall i :: 0 <= i < |rows| ==> Apart(table, rows[i], row))
       <==> (forall i :: 0 <= i < k ==> ApartFrom(table, RowFor(table, columns, valueRows[i]), row))
  {
    forall i | 0 <= i < k ensures RowFor(table, columns, valueRows[i]) == Ok(rows[i]) {
      assert ConvertedRow(table, columns, valueRows[..k][i], rows[i]) && valueRows[..k][i] == valueRows[i];
    }
    if forall i :: 0 <= i < k ==> ApartFrom(table, RowFor(table, columns, valueRows[i]), row) {
      forall i | 0 <= i < |rows| ensures Apart(table, rows[i], row) {
        assert ApartFrom(table, RowFor(table, columns, valueRows[i]), row);
      }
    }
  }

  /** An INSERT has stored its first k rows. */
  ghost predicate InsertReached(fits: Row -> bool, catalog: Catalog, heaps: Heaps, name: Name, columns: seq<Name>,
                                valueRows: seq<Row>, k: nat, heap: Heap, ids: seq<RowId>, rows: seq<Row>)
    requires name in catalog && name in heaps && k <= |valueRows|
  {
    && AddedSoFar(catalog[name], columns, valueRows, k, heaps[name], heap, ids, rows)
    && forall i :: 0 <= i < k ==> InsertableAt(fits, catalog, heaps, name, columns, valueRows, i)
  }

  lemma InsertAdvances(fits: Row -> bool, catalog: Catalog, heaps: Heaps, name: Name, columns: seq<Name>,
                       valueRows: seq<Row>, k: nat, heap: Heap, ids: seq<RowId>, rows: seq<Row>, id: RowId, row: Row)
    requires name in catalog && name in heaps && SchemaOk(catalog, name, catalog[name]) && k < |valueRows|
    requires InsertReached(fits, catalog, heaps, name, columns, valueRows, k, heap, ids, rows)
    requires AcceptsValues(fits, catalog, heaps[name := heap], name, columns, valueRows[k])
    requires ConvertedRow(catalog[name], columns, valueRows[k], row) && id !in heap
    ensures InsertReached(fits, catalog, heaps, name, columns, valueRows, k + 1, heap[id := row], ids + [id], rows + [row])
  {
    InsertableStep(fits, catalog, heaps, name, columns, valueRows, k, heap, ids, rows);
    SoFarOneMore(catalog[name], columns, valueRows, k, heaps[name], heap, ids, rows, id, row);
  }

  lemma InsertRefused(fits: Row -> bool, catalog: Catalog, heaps: Heaps, name: Name, columns: seq<Name>,
                      valueRows: seq<Row>, k: nat, heap: Heap, ids: seq<RowId>, rows: seq<Row>)
    requires name in catalog && name in heaps && SchemaOk(catalog, name, catalog[name]) && k < |valueRows|
    requires InsertReached(fits, catalog, heaps, name, columns, valueRows, k, heap, ids, rows)
    requires !AcceptsValues(fits, catalog, heaps[name := heap], name, columns, valueRows[k])
    ensures !Insertable(fits, catalog, heaps, name, columns, valueRows)
  {
    InsertableStep(fits, catalog, heaps, name, columns, valueRows, k, heap, ids, rows);
  }

  lemma InsertFinished(fits: Row -> bool, catalog: Catalog, heaps: Heaps, name: Name, columns: seq<Name>,
                       valueRows: seq<Row>, heap: Heap, ids: seq<RowId>, rows: seq<Row>)
    requires name in catalog && name in heaps
    requires InsertReached(fits, catalog, heaps, name, columns, valueRows, |valueRows|, heap, ids, rows)
    ensures Insertable(fits, catalog, heaps, name, columns, valueRows)
    ensures Converted(catalog[name], columns, valueRows, rows) && AddedRows(heaps[name], heap, ids, rows)
  {
    assert valueRows[..|valueRows|] == valueRows;
  }

  // -------------------------------------------------------------------- DELETE

  /** The condition can be evaluated everywhere and no matching row is referenced. */
  predicate Deletable(catalog: Catalog, heaps: Heaps, name: Name, where: Predicate)
    requires name in catalog && name in heaps
  {
    forall id :: id in heaps[name] ==> DeletableRow(catalog, heaps, name, where, heaps[name][id])
  }

  predicate DeletableRow(catalog: Catalog, heaps: Heaps, name: Name, where: Predicate, row: Row)
    requires name in catalog
  {
    where(row).Ok? && (where(row).value ==> Unreferenced(catalog, heaps, name, row, None))
  }

  /** A DELETE has visited these rows. */
  ghost predicate DeleteReached(catalog: Catalog, heaps: Heaps, name: Name, where: Predicate, heap: Heap, done: set<RowId>)
    requires name in catalog && name in heaps
  {
    && DeletedSoFar(where, heaps[name], heap, done) && done <= heaps[name].Keys
    && forall id :: id in done ==> DeletableRow(catalog, heaps, name, where, heaps[name][id])
  }

  lemma DeleteAdvances(catalog: Catalog, heaps: Heaps, name: Name, where: Predicate, heap: Heap, done: set<RowId>, id: RowId)
    requires name in catalog && name in heaps && SchemaOk(catalog, name, catalog[name])
    requires DeleteReached(catalog, heaps, name, where, heap, done) && id in heaps[name] && id !in done && where(heaps[name][id]).Ok?
    requires where(heaps[name][id]).value ==> Unreferenced(catalog, heaps[name := heap], name, heaps[name][id], None)
    ensures id in heap && heap[id] == heaps[name][id]
    ensures DeleteReached(catalog, heaps, name, where, if where(heaps[name][id]).value then heap - {id} else heap, done + {id})
  {
    DeletedOneMore(where, heaps[name], heap, done, id);
    UnreferencedElsewhere(catalog, heaps, name, heap, heaps[name][id], None);
  }

  lemma DeleteRefused(catalog: Catalog, heaps: Heaps, name: Name, where: Predicate, heap: Heap, id: RowId)
    requires name in catalog && name in heaps && SchemaOk(catalog, name, catalog[name]) && id in heaps[name]
    requires where(heaps[name][id]) == Ok(true) && !Unreferenced(catalog, heaps[name := heap], name, heaps[name][id], None)
    ensures !Deletable(catalog, heaps, name, where)
  {
    UnreferencedElsewhere(catalog, heaps, name, heap, heaps[name][id], None);
    assert !DeletableRow(catalog, heaps, name, where, heaps[name][id]);
  }

  // -------------------------------------------------------------------- UPDATE

  /** The rows of a scan. */
  ghost predicate Scanned(ids: seq<RowId>, heap: Heap) {
    && (forall i, j :: 0 <= i < j < |ids| ==> ids[i] != ids[j])
    && (forall id :: id in heap <==> id in ids)
    && (forall i :: 0 <= i < |ids| ==> ids[i] in heap)
  }

  predicate Matching(where: Predicate, row: Row) {
    where(row) == Ok(true)
  }

  /** Row j of the scan when it is row k's turn. */
  function RowAt(table: Table, where: Predicate, assign: Assignment, before: Heap, ids: seq<RowId>, j: nat, k: nat): Row
    requires j < |ids| && ids[j] in before
  {
    var row := before[ids[j]];
    if j < k && Matching(where, row) && Updated(table, assign, row).Ok? then Updated(table, assign, row).value else row
  }

  /** Row k of the scan does not match, or its replacement has the right form and fits a page,
      finds what it refers to, takes away nothing that others refer to, and its key is new among
      all other rows as they are by then. */
  predicate UpdatableAt(fits: Row -> bool, catalog: Catalog, heaps: Heaps, name: Name, where: Predicate, assign: Assignment,
                        ids: seq<RowId>, k: nat)
    requires name in catalog && name in heaps && k < |ids| && forall i :: 0 <= i < |ids| ==> ids[i] in heaps[name]
  {
    var row := heaps[name][ids[k]];
    && where(row).Ok?
    && (where(row).value ==>
         var row' := Updated(catalog[name], assign, row);
         && row'.Ok? && fits(row'.value) && ReferencesOk(catalog, heaps, catalog[name], row'.value)
         && Unreferenced(catalog, heaps, name, row, Some(row'.value))
         && forall j :: 0 <= j < |ids| && j != k ==>
              Apart(catalog[name], RowAt(catalog[name], where, assign, heaps[name], ids, j, k), row'.value))
  }

  predicate Updatable(fits: Row -> bool, catalog: Catalog, heaps: Heaps, name: Name, where: Predicate, assign: Assignment, ids: seq<RowId>)
    requires name in catalog && name in heaps && forall i :: 0 <= i < |ids| ==> ids[i] in heaps[name]
  {
    forall k :: 0 <= k < |ids| ==> UpdatableAt(fits, catalog, heaps, name, where, assign, ids, k)
  }

  /** What the statement asks of one matching row in the state it has reached. */
  predicate AcceptsUpdate(fits: Row -> bool, catalog: Catalog, heaps: Heaps, name: Name, assign: Assignment, id: RowId, row: Row)
    requires name in catalog && name in heaps
  {
    var tuple := assign(row);
    && tuple.Ok? && Validate(catalog, heaps, name, tuple.value, Some(id)).Ok?
    && Unreferenced(catalog, heaps, name, row, Some(Validate(catalog, heaps, name, tuple.value, Some(id)).value))
    && fits(Validate(catalog, heaps, name, tuple.value, Some(id)).value)
  }

  /** Where a row of the start is by now. */
  function PlaceOf(moved: map<RowId, RowId>, id: RowId): RowId {
    if id in moved then moved[id] else id
  }

  lemma FreshAmongUpdated(table: Table, where: Predicate, assign: Assignment, before: Heap, heap: Heap, ids: seq<RowId>, k: nat,
                          done: set<RowId>, moved: map<RowId, RowId>, row: Row)
    requires Scanned(ids, before) && k < |ids| && forall id :: id in done <==> id in ids[..k]
    requires UpdatedSoFar(table, where, assign, before, heap, done, moved)
    ensures FreshKey(table, heap, row, Some(ids[k])) <==>
      forall j :: 0 <= j < |ids| && j != k ==> Apart(table, RowAt(table, where, assign, before, ids, j, k), row)
  {
    FreshIsApart(table, heap, row, Some(ids[k]));
    if FreshKey(table, heap, row, Some(ids[k])) {
      forall j: nat | j < |ids| && j != k ensures Apart(table, RowAt(table, where, assign, before, ids, j, k), row) {
        RowAtIsThere(table, where, assign, before, heap, ids, j, k, done, moved);
        assert Apart(table, heap[PlaceOf(moved, ids[j])], row);
      }
    }
    if forall j :: 0 <= j < |ids| && j != k ==> Apart(table, RowAt(table, where, assign, before, ids, j, k), row) {
      forall x | x in heap && Some(x) != Some(ids[k]) ensures Apart(table, heap[x], row) {
        InPrefix(ids, k, k);
        var j := PlaceOwner(before, heap, ids, k, moved, x);
        RowAtIsThere(table, where, assign, before, heap, ids, j, k, done, moved);
        assert Apart(table, RowAt(table, where, assign, before, ids, j, k), row);
      }
    }
  }

  lemma InPrefix(ids: seq<RowId>, k: nat, j: nat)
    requires k <= |ids| && j < |ids| && forall a, b :: 0 <= a < b < |ids| ==> ids[a] != ids[b]
    ensures ids[j] in ids[..k] <==> j < k
  {
    if j < k { assert ids[..k][j] == ids[j]; }
  }

  lemma RowAtIsThere(table: Table, where: Predicate, assign: Assignment, before: Heap, heap: Heap, ids: seq<RowId>, j: nat, k: nat,
                     done: set<RowId>, moved: map<RowId, RowId>)
    requires Scanned(ids, before) && k < |ids| && j < |ids| && j != k && forall id :: id in done <==> id in ids[..k]
    requires UpdatedSoFar(table, where, assign, before, heap, done, moved)
    ensures var x := PlaceOf(moved, ids[j]);
      x in heap && x != ids[k] && heap[x] == RowAt(table, where, assign, before, ids, j, k)
  {
    InPrefix(ids, k, j);
    InPrefix(ids, k, k);
    if ids[j] in moved { assert moved[ids[j]] in moved.Values; }
  }

  /** Which row of the scan is at this place. */
  lemma PlaceOwner(before: Heap, heap: Heap, ids: seq<RowId>, k: nat, moved: map<RowId, RowId>, x: RowId) returns (j: nat)
    requires Scanned(ids, before) && k < |ids| && x in heap && x != ids[k] && ids[k] !in moved
    requires OthersStay(before, heap, moved) && forall a :: a in moved ==> a in before
    ensures j < |ids| && j != k && PlaceOf(moved, ids[j]) == x
  {
    var a: RowId;
    if x in moved.Values { a :| a in moved && moved[a] == x; } else { a := x; }
    j :| j < |ids| && ids[j] == a;
  }

  lemma UpdatableStep(fits: Row -> bool, catalog: Catalog, heaps: Heaps, name: Name, where: Predicate, assign: Assignment,
                      ids: seq<RowId>, k: nat, heap: Heap, done: set<RowId>, moved: map<RowId, RowId>)
    requires name in catalog && name in heaps && SchemaOk(catalog, name, catalog[name])
    requires Scanned(ids, heaps[name]) && k < |ids| && forall id :: id in done <==> id in ids[..k]
    requires UpdatedSoFar(catalog[name], where, assign, heaps[name], heap, done, moved)
    requires Matching(where, heaps[name][ids[k]])
    ensures AcceptsUpdate(fits, catalog, heaps[name := heap], name, assign, ids[k], heaps[name][ids[k]])
       <==> UpdatableAt(fits, catalog, heaps, name, where, assign, ids, k)
  {
    var table, row := catalog[name], heaps[name][ids[k]];
    var row' := Updated(table, assign, row);
    if row'.Ok? {
      ReferencesElsewhere(catalog, heaps, name, heap, row'.value);
      UnreferencedElsewhere(catalog, heaps, name, heap, row, Some(row'.value));
      FreshAmongUpdated(table, where, assign, heaps[name], heap, ids, k, done, moved, row'.value);
    }
  }

  function Visited(ids: seq<RowId>, k: nat): (done: set<RowId>)
    requires k <= |ids|
    ensures forall id :: id in done <==> id in ids[..k]
  {
    set id | id in ids[..k]
  }

  /** An UPDATE has visited the first k rows of its scan. */
  ghost predicate UpdateReached(fits: Row -> bool, catalog: Catalog, heaps: Heaps, name: Name, where: Predicate, assign: Assignment,
                                ids: seq<RowId>, k: nat, heap: Heap, moved: map<RowId, RowId>)
    requires name in catalog && name in heaps && Scanned(ids, heaps[name]) && k <= |ids|
  {
    && UpdatedSoFar(catalog[name], where, assign, heaps[name], heap, Visited(ids, k), moved)
    && forall i :: 0 <= i < k ==> UpdatableAt(fits, catalog, heaps, name, where, assign, ids, i)
  }

  lemma VisitedNext(ids: seq<RowId>, k: nat, heap: Heap)
    requires Scanned(ids, heap) && k < |ids|
    ensures Visited(ids, k + 1) == Visited(ids, k) + {ids[k]} && ids[k] !in Visited(ids, k)
  {
    assert ids[..k + 1] == ids[..k] + [ids[k]];
    InPrefix(ids, k, k);
  }

  lemma AllVisited(ids: seq<RowId>, heap: Heap)
    requires Scanned(ids, heap)
    ensures Visited(ids, |ids|) == heap.Keys
  {
    assert ids[..|ids|] == ids;
  }

  lemma UpdateSkips(fits: Row -> bool, catalog: Catalog, heaps: Heaps, name: Name, where: Predicate, assign: Assignment,
                    ids: seq<RowId>, k: nat, heap: Heap, moved: map<RowId, RowId>)
    requires name in catalog && name in heaps && Scanned(ids, heaps[name]) && k < |ids|
    requires UpdateReached(fits, catalog, heaps, name, where, assign, ids, k, heap, moved) && where(heaps[name][ids[k]]) == Ok(false)
    ensures UpdateReached(fits, catalog, heaps, name, where, assign, ids, k + 1, heap, moved)
  {
    VisitedNext(ids, k, heaps[name]);
    SkippedOneMore(catalog[name], where, assign, heaps[name], heap, Visited(ids, k), moved, ids[k]);
  }

  lemma UpdateAdvances(fits: Row -> bool, catalog: Catalog, heaps: Heaps, name: Name, where: Predicate, assign: Assignment,
                       ids: seq<RowId>, k: nat, heap: Heap, moved: map<RowId, RowId>, id': RowId, row: Row)
    requires name in catalog && name in heaps && SchemaOk(catalog, name, catalog[name]) && Scanned(ids, heaps[name]) && k < |ids|
    requires UpdateReached(fits, catalog, heaps, name, where, assign, ids, k, heap, moved) && Matching(where, heaps[name][ids[k]])
    requires AcceptsUpdate(fits, catalog, heaps[name := heap], name, assign, ids[k], heaps[name][ids[k]])
    requires Updated(catalog[name], assign, heaps[name][ids[k]]) == Ok(row) && id' !in heap - {ids[k]}
    ensures UpdateReached(fits, catalog, heaps, name, where, assign, ids, k + 1, Replaced(heap, Some(ids[k]), id', row),
                          moved[ids[k] := id'])
  {
    VisitedNext(ids, k, heaps[name]);
    UpdatableStep(fits, catalog, heaps, name, where, assign, ids, k, heap, Visited(ids, k), moved);
    UpdatedOneMore(catalog[name], where, assign, heaps[name], heap, Visited(ids, k), moved, ids[k], id', row);
  }

  lemma UpdateRefused(fits: Row -> bool, catalog: Catalog, heaps: Heaps, name: Name, where: Predicate, assign: Assignment,
                      ids: seq<RowId>, k: nat, heap: Heap, moved: map<RowId, RowId>)
    requires name in catalog && name in heaps && SchemaOk(catalog, name, catalog[name]) && Scanned(ids, heaps[name]) && k < |ids|
    requires UpdateReached(fits, catalog, heaps, name, where, assign, ids, k, heap, moved) && Matching(where, heaps[name][ids[k]])
    requires !AcceptsUpdate(fits, catalog, heaps[name := heap], name, assign, ids[k], heaps[name][ids[k]])
    ensures !Updatable(fits, catalog, heaps, name, where, assign, ids)
  {
    UpdatableStep(fits, catalog, heaps, name, where, assign, ids, k, heap, Visited(ids, k), moved);
  }

  lemma UpdateFinished(fits: Row -> bool, catalog: Catalog, heaps: Heaps, name: Name, where: Predicate, assign: Assignment,
                       ids: seq<RowId>, heap: Heap, moved: map<RowId, RowId>)
    requires name in catalog && name in heaps && Scanned(ids, heaps[name])
    requires UpdateReached(fits, catalog, heaps, name, where, assign, ids, |ids|, heap, moved)
    ensures Updatable(fits, catalog, heaps, name, where, assign, ids)
    ensures UpdatedSoFar(catalog[name], where, assign, heaps[name], heap, heaps[name].Keys, moved)
  {
    AllVisited(ids, heaps[name]);
  }

  /** The row whose turn it is has not been moved. */
  lemma UpdateReaches(fits: Row -> bool, catalog: Catalog, heaps: Heaps, name: Name, where: Predicate, assign: Assignment,
                      ids: seq<RowId>, k: nat, heap: Heap, moved: map<RowId, RowId>)
    requires name in catalog && name in heaps && Scanned(ids, heaps[name]) && k < |ids|
    requires UpdateReached(fits, catalog, heaps, name, where, assign, ids, k, heap, moved)
    ensures ids[k] in heap && heap[ids[k]] == heaps[name][ids[k]]
  {
    VisitedNext(ids, k, heaps[name]);
    StillThere(catalog[name], where, assign, heaps[name], heap, Visited(ids, k), moved, ids[k]);
  }
}
