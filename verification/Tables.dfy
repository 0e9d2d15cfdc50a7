/** Tables, their declared constraints, and what one changed row does to them
    (src/native_engine.cpp:621-686, 2273-2416). */
module Tables {
  import opened Wrappers
  import opened RowIds
  import opened Bytes
  import opened Values

  /** Table and column names; only their identity matters. */
  datatype Name = Name(id: nat)

  datatype ColumnType = IntegerType | RealType | TextType | BlobType

  datatype Reference = Reference(table: Name, column: Name)

  datatype Column = Column(name: Name, ctype: ColumnType, primaryKey: bool, notNull: bool, foreign: Option<Reference>)

  type Table = seq<Column>

  type Catalog = map<Name, Table>

  type Heap = map<RowId, Row>

  type Heaps = map<Name, Heap>

  /** First column with this name, or the number of columns. */
  function ColumnIndex(table: Table, name: Name): (n: nat)
    ensures n <= |table| && (n < |table| ==> table[n].name == name)
  {
    if table == [] || table[0].name == name then 0 else 1 + ColumnIndex(table[1..], name)
  }

  // -------------------------------------------------------------- constraints

  function TagOf(ctype: ColumnType): nat {
    match ctype
    case IntegerType => 1
    case RealType => 2
    case TextType => 3
    case BlobType => 5
  }

  predicate Typed(column: Column, v: Value) {
    v.Null? || InColumn(TagOf(column.ctype), v)
  }

  predicate CellOk(column: Column, v: Value) {
    Typed(column, v) && (column.notNull || column.primaryKey ==> !v.Null?)
  }

  /** Width, types and NOT NULL. */
  predicate RowOk(table: Table, row: Row) {
    |row| == |table| && forall c :: 0 <= c < |table| ==> CellOk(table[c], row[c])
  }

  ghost predicate RowsOk(table: Table, heap: Heap) {
    forall id :: id in heap ==> RowOk(table, heap[id])
  }

  /** Primary keys differ between rows. */
  predicate KeysUnique(table: Table, heap: Heap) {
    forall a, b, c :: a in heap && b in heap && a != b && 0 <= c < |table| && table[c].primaryKey ==>
      KeysDiffer(heap[a], heap[b], c)
  }

  predicate KeysDiffer(a: Row, b: Row, c: nat) {
    c < |a| && c < |b| && !Equal(a[c], b[c])
  }

  /** Some row holds an equal value in the column. */
  predicate Holds(heap: Heap, column: nat, v: Value) {
    exists id :: id in heap && column < |heap[id]| && Equal(heap[id][column], v)
  }

  /** The references of one row find their targets. */
  predicate ReferencesOk(catalog: Catalog, heaps: Heaps, table: Table, row: Row) {
    forall c :: 0 <= c < |table| && c < |row| ==> ReferenceOk(catalog, heaps, table[c], row[c])
  }

  predicate ReferenceOk(catalog: Catalog, heaps: Heaps, column: Column, v: Value) {
    match column.foreign
    case None => true
    case Some(r) =>
      v.Null? || (r.table in catalog && r.table in heaps
                  && Holds(heaps[r.table], ColumnIndex(catalog[r.table], r.column), v))
  }

  predicate SchemaOk(catalog: Catalog, name: Name, table: Table) {
    && (forall c, d :: 0 <= c < d < |table| ==>
         !(table[c].primaryKey && table[d].primaryKey) && table[c].name != table[d].name)
    && (forall c :: 0 <= c < |table| ==> ColumnSchemaOk(catalog, name, table[c]))
  }

  /** A column refers to a column of another table that exists. */
  predicate ColumnSchemaOk(catalog: Catalog, name: Name, column: Column) {
    match column.foreign
    case None => true
    case Some(r) => r.table != name && r.table in catalog && ColumnIndex(catalog[r.table], r.column) < |catalog[r.table]|
  }

  ghost predicate TableOk(catalog: Catalog, heaps: Heaps, name: Name)
    requires name in catalog && name in heaps
  {
    && SchemaOk(catalog, name, catalog[name])
    && RowsOk(catalog[name], heaps[name])
    && KeysUnique(catalog[name], heaps[name])
    && forall id :: id in heaps[name] ==> ReferencesOk(catalog, heaps, catalog[name], heaps[name][id])
  }

  /** The integrity of the whole database. */
  ghost predicate Consistent(catalog: Catalog, heaps: Heaps) {
    && catalog.Keys == heaps.Keys
    && forall name :: name in catalog ==> TableOk(catalog, heaps, name)
  }

  // -------------------------------------------------------------- single rows

  lemma EqualTransitive(a: Value, b: Value, c: Value)
    requires Equal(a, b) && Equal(b, c)
    ensures Equal(a, c) && Equal(b, a)
  {
  }

  /** No other row has the key. */
  predicate FreshKey(table: Table, heap: Heap, row: Row, replaced: Option<RowId>) {
    forall id, c :: id in heap && Some(id) != replaced && 0 <= c < |table| && table[c].primaryKey ==>
      KeysDiffer(heap[id], row, c)
  }

  /** No reference to the table needs the value that this row gives up. */
  predicate Unreferenced(catalog: Catalog, heaps: Heaps, name: Name, row: Row, replacement: Option<Row>)
    requires name in catalog
  {
    forall t, id, c :: t in catalog && t in heaps && id in heaps[t] && 0 <= c < |catalog[t]| && c < |heaps[t][id]| ==>
      NotNeeded(catalog[name], name, catalog[t][c], heaps[t][id][c], row, replacement)
  }

  predicate NotNeeded(table: Table, name: Name, column: Column, v: Value, row: Row, replacement: Option<Row>) {
    match column.foreign
    case None => true
    case Some(r) =>
      var n := ColumnIndex(table, r.column);
      r.table == name && n < |table| && n < |row| && !v.Null? && Equal(v, row[n]) ==>
        replacement.Some? && n < |replacement.value| && Equal(row[n], replacement.value[n])
  }

  function Replaced(heap: Heap, previous: Option<RowId>, id: RowId, row: Row): Heap {
    (if previous.Some? then heap - {previous.value} else heap)[id := row]
  }

  lemma KeysAfterPut(table: Table, heap: Heap, previous: Option<RowId>, id: RowId, row: Row)
    requires KeysUnique(table, heap) && FreshKey(table, heap, row, previous)
    requires id !in (if previous.Some? then heap - {previous.value} else heap)
    ensures KeysUnique(table, Replaced(heap, previous, id, row))
  {
    var after := Replaced(heap, previous, id, row);
    forall a, b, c | a in after && b in after && a != b && 0 <= c < |table| && table[c].primaryKey
      ensures KeysDiffer(after[a], after[b], c)
    {
      if a == id {
        assert KeysDiffer(heap[b], row, c);
        KeysDifferSymmetric(heap[b], row, c);
      } else if b == id {
        assert KeysDiffer(heap[a], row, c);
      }
    }
  }

  lemma KeysDifferSymmetric(a: Row, b: Row, c: nat)
    requires KeysDiffer(a, b, c)
    ensures KeysDiffer(b, a, c)
  {
  }

  /** The value a row gives up, if needed, is held by its replacement. */
  lemma HoldsAfterPut(heap: Heap, previous: Option<RowId>, id: RowId, row: Row, column: nat, v: Value)
    requires Holds(heap, column, v) && id !in (if previous.Some? then heap - {previous.value} else heap)
    requires previous.Some? && previous.value in heap && column < |heap[previous.value]| && Equal(v, heap[previous.value][column]) ==>
      column < |row| && Equal(heap[previous.value][column], row[column])
    ensures Holds(Replaced(heap, previous, id, row), column, v)
  {
    var after := Replaced(heap, previous, id, row);
    var x :| x in heap && column < |heap[x]| && Equal(heap[x][column], v);
    if Some(x) == previous {
      EqualTransitive(heap[x][column], v, heap[x][column]);
      EqualTransitive(v, heap[x][column], row[column]);
      EqualTransitive(row[column], row[column], v);
      assert id in after && column < |after[id]| && Equal(after[id][column], v);
    } else {
      assert x in after && after[x] == heap[x];
    }
  }

  // -------------------------------------------- what a change leaves consistent

  /** A reference whose target table is unchanged, or keeps the value. */
  lemma ReferenceStays(catalog: Catalog, heaps: Heaps, heaps': Heaps, column: Column, v: Value)
    requires ReferenceOk(catalog, heaps, column, v)
    requires column.foreign.Some? && column.foreign.value.table in heaps ==>
      var r := column.foreign.value;
      r.table in heaps' && (heaps'[r.table] == heaps[r.table]
        || (r.table in catalog && !v.Null? && Holds(heaps[r.table], ColumnIndex(catalog[r.table], r.column), v) ==>
            Holds(heaps'[r.table], ColumnIndex(catalog[r.table], r.column), v)))
    ensures ReferenceOk(catalog, heaps', column, v)
  {
  }

  /** References from other tables survive a replaced or new row. */
  lemma OthersAfterPut(catalog: Catalog, heaps: Heaps, name: Name, previous: Option<RowId>, id: RowId, row: Row,
                       t: Name, x: RowId, c: nat)
    requires Consistent(catalog, heaps) && name in catalog && t in catalog && t != name
    requires x in heaps[t] && c < |catalog[t]| && c < |heaps[t][x]|
    requires id !in (if previous.Some? then heaps[name] - {previous.value} else heaps[name])
    requires previous.Some? ==> previous.value in heaps[name]
    requires previous.Some? ==> Unreferenced(catalog, heaps, name, heaps[name][previous.value], Some(row))
    ensures ReferenceOk(catalog, heaps[name := Replaced(heaps[name], previous, id, row)], catalog[t][c], heaps[t][x][c])
  {
    var heaps', column, v := heaps[name := Replaced(heaps[name], previous, id, row)], catalog[t][c], heaps[t][x][c];
    assert TableOk(catalog, heaps, t) && ReferencesOk(catalog, heaps, catalog[t], heaps[t][x]);
    assert ReferenceOk(catalog, heaps, column, v);
    if column.foreign.Some? && column.foreign.value.table == name && !v.Null? {
      var n := ColumnIndex(catalog[name], column.foreign.value.column);
      assert ColumnSchemaOk(catalog, t, column);
      if previous.Some? {
        assert NotNeeded(catalog[name], name, column, v, heaps[name][previous.value], Some(row));
        assert TableOk(catalog, heaps, name) && RowOk(catalog[name], heaps[name][previous.value]);
      }
      HoldsAfterPut(heaps[name], previous, id, row, n, v);
    }
    ReferenceStays(catalog, heaps, heaps', column, v);
  }

  /** A table's own rows refer to other tables only. */
  lemma OwnReference(catalog: Catalog, heaps: Heaps, heaps': Heaps, name: Name, row: Row)
    requires name in catalog && SchemaOk(catalog, name, catalog[name]) && |row| == |catalog[name]|
    requires ReferencesOk(catalog, heaps, catalog[name], row)
    requires forall t :: t in heaps && t != name ==> t in heaps' && heaps'[t] == heaps[t]
    ensures ReferencesOk(catalog, heaps', catalog[name], row)
  {
    forall c | 0 <= c < |catalog[name]| ensures ReferenceOk(catalog, heaps', catalog[name][c], row[c]) {
      assert ColumnSchemaOk(catalog, name, catalog[name][c]);
      assert ReferenceOk(catalog, heaps, catalog[name][c], row[c]);
      ReferenceStays(catalog, heaps, heaps', catalog[name][c], row[c]);
    }
  }

  lemma ChangedTable(catalog: Catalog, heaps: Heaps, name: Name, previous: Option<RowId>, id: RowId, row: Row)
    requires Consistent(catalog, heaps) && name in catalog
    requires RowOk(catalog[name], row) && FreshKey(catalog[name], heaps[name], row, previous)
    requires ReferencesOk(catalog, heaps, catalog[name], row)
    requires id !in (if previous.Some? then heaps[name] - {previous.value} else heaps[name])
    ensures TableOk(catalog, heaps[name := Replaced(heaps[name], previous, id, row)], name)
  {
    var heap' := Replaced(heaps[name], previous, id, row);
    var heaps' := heaps[name := heap'];
    assert TableOk(catalog, heaps, name);
    KeysAfterPut(catalog[name], heaps[name], previous, id, row);
    forall x | x in heap' ensures RowOk(catalog[name], heap'[x]) && ReferencesOk(catalog, heaps', catalog[name], heap'[x]) {
      OwnReference(catalog, heaps, heaps', name, heap'[x]);
    }
  }

  lemma OtherTable(catalog: Catalog, heaps: Heaps, name: Name, heap': Heap, t: Name)
    requires Consistent(catalog, heaps) && name in catalog && t in catalog && t != name
    requires forall x, c :: x in heaps[t] && 0 <= c < |catalog[t]| && c < |heaps[t][x]| ==>
      ReferenceOk(catalog, heaps[name := heap'], catalog[t][c], heaps[t][x][c])
    ensures TableOk(catalog, heaps[name := heap'], t)
  {
    assert TableOk(catalog, heaps, t);
  }

  /** One row inserted, or replaced by another at the same or a new place. */
  lemma PutConsistent(catalog: Catalog, heaps: Heaps, name: Name, previous: Option<RowId>, id: RowId, row: Row)
    requires Consistent(catalog, heaps) && name in catalog
    requires RowOk(catalog[name], row) && FreshKey(catalog[name], heaps[name], row, previous)
    requires ReferencesOk(catalog, heaps, catalog[name], row)
    requires id !in (if previous.Some? then heaps[name] - {previous.value} else heaps[name])
    requires previous.Some? ==> previous.value in heaps[name]
    requires previous.Some? ==> Unreferenced(catalog, heaps, name, heaps[name][previous.value], Some(row))
    ensures Consistent(catalog, heaps[name := Replaced(heaps[name], previous, id, row)])
  {
    var heap' := Replaced(heaps[name], previous, id, row);
    forall t | t in catalog ensures TableOk(catalog, heaps[name := heap'], t) {
      if t == name {
        ChangedTable(catalog, heaps, name, previous, id, row);
      } else {
        forall x, c | x in heaps[t] && 0 <= c < |catalog[t]| && c < |heaps[t][x]|
          ensures ReferenceOk(catalog, heaps[name := heap'], catalog[t][c], heaps[t][x][c])
        {
          OthersAfterPut(catalog, heaps, name, previous, id, row, t, x, c);
        }
        OtherTable(catalog, heaps, name, heap', t);
      }
    }
  }

  lemma HoldsAfterRemove(heap: Heap, id: RowId, column: nat, v: Value)
    requires Holds(heap, column, v) && id in heap && column < |heap[id]| && !Equal(v, heap[id][column])
    ensures Holds(heap - {id}, column, v)
  {
    var x :| x in heap && column < |heap[x]| && Equal(heap[x][column], v);
    EqualTransitive(heap[x][column], v, heap[x][column]);
    assert x in heap - {id};
  }

  lemma OthersAfterRemove(catalog: Catalog, heaps: Heaps, name: Name, id: RowId, t: Name, x: RowId, c: nat)
    requires Consistent(catalog, heaps) && name in catalog && t in catalog && t != name && id in heaps[name]
    requires x in heaps[t] && c < |catalog[t]| && c < |heaps[t][x]|
    requires Unreferenced(catalog, heaps, name, heaps[name][id], None)
    ensures ReferenceOk(catalog, heaps[name := heaps[name] - {id}], catalog[t][c], heaps[t][x][c])
  {
    var heaps', column, v := heaps[name := heaps[name] - {id}], catalog[t][c], heaps[t][x][c];
    assert TableOk(catalog, heaps, t) && ReferencesOk(catalog, heaps, catalog[t], heaps[t][x]);
    assert ReferenceOk(catalog, heaps, column, v);
    if column.foreign.Some? && column.foreign.value.table == name && !v.Null? {
      var n := ColumnIndex(catalog[name], column.foreign.value.column);
      assert ColumnSchemaOk(catalog, t, column);
      assert NotNeeded(catalog[name], name, column, v, heaps[name][id], None);
      assert TableOk(catalog, heaps, name) && RowOk(catalog[name], heaps[name][id]);
      HoldsAfterRemove(heaps[name], id, n, v);
    }
    ReferenceStays(catalog, heaps, heaps', column, v);
  }

  /** One row deleted. */
  lemma RemoveConsistent(catalog: Catalog, heaps: Heaps, name: Name, id: RowId)
    requires Consistent(catalog, heaps) && name in catalog && id in heaps[name]
    requires Unreferenced(catalog, heaps, name, heaps[name][id], None)
    ensures Consistent(catalog, heaps[name := heaps[name] - {id}])
  {
    var heap' := heaps[name] - {id};
    var heaps' := heaps[name := heap'];
    forall t | t in catalog ensures TableOk(catalog, heaps', t) {
      assert TableOk(catalog, heaps, t);
      if t == name {
        forall x | x in heap' ensures ReferencesOk(catalog, heaps', catalog[name], heap'[x]) {
          OwnReference(catalog, heaps, heaps', name, heap'[x]);
        }
      } else {
        forall x, c | x in heaps[t] && 0 <= c < |catalog[t]| && c < |heaps[t][x]|
          ensures ReferenceOk(catalog, heaps', catalog[t][c], heaps[t][x][c])
        {
          OthersAfterRemove(catalog, heaps, name, id, t, x, c);
        }
        OtherTable(catalog, heaps, name, heap', t);
      }
    }
  }

  // --------------------------------------------------------------- whole tables

  /** CREATE TABLE: what the table refers to exists already. */
  lemma CreateConsistent(catalog: Catalog, heaps: Heaps, name: Name, table: Table)
    requires Consistent(catalog, heaps) && name !in catalog && SchemaOk(catalog, name, table)
    ensures Consistent(catalog[name := table], heaps[name := map[]])
  {
    var catalog', heaps' := catalog[name := table], heaps[name := map[]];
    forall t | t in catalog' ensures TableOk(catalog', heaps', t) {
      if t != name {
        assert TableOk(catalog, heaps, t);
        forall x, c | x in heaps[t] && 0 <= c < |catalog[t]| && c < |heaps[t][x]|
          ensures ReferenceOk(catalog', heaps', catalog[t][c], heaps[t][x][c])
        {
          assert ReferencesOk(catalog, heaps, catalog[t], heaps[t][x]);
          assert ReferenceOk(catalog, heaps, catalog[t][c], heaps[t][x][c]);
          assert ColumnSchemaOk(catalog, t, catalog[t][c]);
        }
        forall c | 0 <= c < |catalog[t]| ensures ColumnSchemaOk(catalog', t, catalog[t][c]) {
          assert ColumnSchemaOk(catalog, t, catalog[t][c]);
        }
      } else {
        forall c | 0 <= c < |table| ensures ColumnSchemaOk(catalog', t, table[c]) {
          assert ColumnSchemaOk(catalog, t, table[c]);
        }
      }
    }
  }

  /** No other table refers to this one. */
  predicate Unwanted(catalog: Catalog, name: Name) {
    forall t, c :: t in catalog && t != name && 0 <= c < |catalog[t]| ==> !RefersTo(catalog[t][c], name)
  }

  predicate RefersTo(column: Column, name: Name) {
    column.foreign.Some? && column.foreign.value.table == name
  }

  lemma DropConsistent(catalog: Catalog, heaps: Heaps, name: Name)
    requires Consistent(catalog, heaps) && name in catalog && Unwanted(catalog, name)
    ensures Consistent(catalog - {name}, heaps - {name})
  {
    var catalog', heaps' := catalog - {name}, heaps - {name};
    assert catalog'.Keys == catalog.Keys - {name} && heaps'.Keys == heaps.Keys - {name};
    forall t | t in catalog' ensures TableOk(catalog', heaps', t) {
      assert TableOk(catalog, heaps, t);
      forall x, c | x in heaps[t] && 0 <= c < |catalog[t]| && c < |heaps[t][x]|
        ensures ReferenceOk(catalog', heaps', catalog[t][c], heaps[t][x][c])
      {
        assert ReferencesOk(catalog, heaps, catalog[t], heaps[t][x]);
        assert ReferenceOk(catalog, heaps, catalog[t][c], heaps[t][x][c]);
        assert !RefersTo(catalog[t][c], name);
      }
      forall c | 0 <= c < |catalog[t]| ensures ColumnSchemaOk(catalog', t, catalog[t][c]) {
        assert ColumnSchemaOk(catalog, t, catalog[t][c]);
        assert !RefersTo(catalog[t][c], name);
      }
    }
  }

  // -------------------------------------------------------------- coercion

  datatype StatementError =
    | TableExists | UnknownTable | BadSchema | ReferencedTable
    | WrongWidth | UnknownColumn | WrongType | NullViolation | DuplicateKey | MissingReference
    | ReferencedRow | RowTooLarge | EvaluationFailed

  /** How the engine prints a value; nothing depends on the format. */
  const Render: Value -> seq<byte>

  function ToText(v: Value): seq<byte> {
    if v.Text? then v.text else Render(v)
  }

  /** static_cast from double to integer: toward zero. */
  function Truncate(r: real): int {
    if r >= 0.0 then r.Floor else -((-r).Floor)
  }

  function AsInteger(v: Value): int
    requires IsNumeric(v)
  {
    match v
    case Integer(i) => i
    case Real(r) => Truncate(r)
    case Boolean(b) => if b then 1 else 0
  }

  function Coerce(column: Column, v: Value): Result<Value, StatementError> {
    if v.Null? then Ok(v)
    else match column.ctype
      case IntegerType => if IsNumeric(v) then Ok(Integer(AsInteger(v))) else Err(WrongType)
      case RealType => if IsNumeric(v) then Ok(Real(AsReal(v))) else Err(WrongType)
      case TextType => Ok(Text(ToText(v)))
      case BlobType => if v.Blob? then Ok(v) else Err(WrongType)
  }

  /** What is stored has the declared type, and a value of that type is stored as it is. */
  lemma CoerceTyped(column: Column, v: Value)
    ensures Coerce(column, v).Ok? ==> Typed(column, Coerce(column, v).value)
    ensures Typed(column, v) ==> Coerce(column, v) == Ok(v)
  {
  }

  /** The columns of a row up to the n-th, coerced; the first violation is reported. */
  function CoerceUpTo(table: Table, tuple: Row, n: nat): (r: Result<Row, StatementError>)
    requires n <= |table| == |tuple|
    ensures r.Ok? ==> |r.value| == n
                      && forall c :: 0 <= c < n ==> Coerce(table[c], tuple[c]) == Ok(r.value[c]) && CellOk(table[c], r.value[c])
    ensures r.Err? ==> exists c :: 0 <= c < n && !CellAccepted(table[c], tuple[c])
  {
    if n == 0 then Ok([])
    else match CoerceUpTo(table, tuple, n - 1)
      case Err(e) => Err(e)
      case Ok(before) =>
        CoerceTyped(table[n - 1], tuple[n - 1]);
        match Coerce(table[n - 1], tuple[n - 1])
        case Err(e) => assert !CellAccepted(table[n - 1], tuple[n - 1]); Err(e)
        case Ok(v) =>
          if (table[n - 1].notNull || table[n - 1].primaryKey) && v.Null?
          then assert !CellAccepted(table[n - 1], tuple[n - 1]); Err(NullViolation)
          else Ok(before + [v])
  }

  predicate CellAccepted(column: Column, v: Value) {
    Coerce(column, v).Ok? && CellOk(column, Coerce(column, v).value)
  }

  function CoerceRow(table: Table, tuple: Row): (r: Result<Row, StatementError>)
    ensures r.Ok? ==> RowOk(table, r.value)
  {
    if |tuple| != |table| then Err(WrongWidth) else CoerceUpTo(table, tuple, |table|)
  }

  /** validateAndCoerce: what a row must satisfy before it is stored. */
  function Validate(catalog: Catalog, heaps: Heaps, name: Name, tuple: Row, replaced: Option<RowId>)
    : (r: Result<Row, StatementError>)
    requires name in catalog && name in heaps
    ensures r.Ok? ==> CoerceRow(catalog[name], tuple) == Ok(r.value) && RowOk(catalog[name], r.value)
                      && FreshKey(catalog[name], heaps[name], r.value, replaced)
                      && ReferencesOk(catalog, heaps, catalog[name], r.value)
    ensures r.Err? ==> CoerceRow(catalog[name], tuple).Err?
                       || !FreshKey(catalog[name], heaps[name], CoerceRow(catalog[name], tuple).value, replaced)
                       || !ReferencesOk(catalog, heaps, catalog[name], CoerceRow(catalog[name], tuple).value)
  {
    match CoerceRow(catalog[name], tuple)
    case Err(e) => Err(e)
    case Ok(row) =>
      if !FreshKey(catalog[name], heaps[name], row, replaced) then Err(DuplicateKey)
      else if !ReferencesOk(catalog, heaps, catalog[name], row) then Err(MissingReference)
      else Ok(row)
  }
}
