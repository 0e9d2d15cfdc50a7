/** Statements that change tables (src/native_engine.cpp:621-913): each keeps the constraints and
    the caches right, whether it succeeds or fails. */
module Engine {
  import opened Wrappers
  import opened RowIds
  import opened Values
  import opened Tables
  import opened PrimaryIndex
  import opened ColumnStatistics
  import opened Changes

  type Indexes = map<Name, KeyIndex>

  type Ranges = map<Name, map<nat, Range>>

  // ------------------------------------------------------------------- caches

  ghost predicate IndexOk(table: Table, heap: Heap, index: KeyIndex) {
    PrimaryColumn(table) < |table| && IsIndex(heap, heap.Keys, PrimaryColumn(table), index)
  }

  /** Each cached index is what a fresh scan would build. */
  ghost predicate IndexesOk(catalog: Catalog, heaps: Heaps, indexes: Indexes) {
    forall t :: t in indexes ==> t in catalog && t in heaps && IndexOk(catalog[t], heaps[t], indexes[t])
  }

  ghost predicate RangesOfTableOk(heap: Heap, ranges: map<nat, Range>) {
    forall c :: c in ranges ==> Describes(heap, c, heap.Keys, ranges[c])
  }

  /** Each cached statistic is what a fresh scan would find. */
  ghost predicate RangesOk(heaps: Heaps, ranges: Ranges) {
    forall t :: t in ranges ==> t in heaps && RangesOfTableOk(heaps[t], ranges[t])
  }

  lemma CachesOfOthers(catalog: Catalog, heaps: Heaps, indexes: Indexes, ranges: Ranges, name: Name, heap: Heap)
    requires IndexesOk(catalog, heaps, indexes) && RangesOk(heaps, ranges)
    ensures IndexesOk(catalog, heaps[name := heap], indexes - {name})
    ensures RangesOk(heaps[name := heap], ranges - {name})
  {
  }

  // ----------------------------------------------------------------- the class

  class Engine {
    /** Whether a heap file can store the row, see TableFiles. */
    const fits: Row -> bool

    var catalog: Catalog
    var heaps: Heaps
    var indexes: Indexes
    var ranges: Ranges

    /** What holds also between the rows of a statement; statistics are dropped at its end. */
    ghost predicate Working()
      reads this`catalog, this`heaps, this`indexes
    {
      Consistent(catalog, heaps) && IndexesOk(catalog, heaps, indexes)
    }

    ghost predicate Valid()
      reads this
    {
      Working() && RangesOk(heaps, ranges)
    }

    constructor (fits: Row -> bool)
      ensures Valid() && catalog == map[] && heaps == map[] && this.fits == fits
    {
      this.fits := fits;
      catalog, heaps, indexes, ranges := map[], map[], map[], map[];
    }

    // ----------------------------------------------------------------- tables

    method CreateTable(name: Name, table: Table) returns (r: Result<(), StatementError>)
      requires Valid()
      modifies this
      ensures Valid()
      ensures r.Ok? <==> name !in old(catalog) && SchemaOk(old(catalog), name, table)
      ensures r.Ok? ==> catalog == old(catalog)[name := table] && heaps == old(heaps)[name := map[]]
      ensures r.Err? ==> catalog == old(catalog) && heaps == old(heaps)
    {
      if name in catalog { return Err(TableExists); }
      if !SchemaOk(catalog, name, table) { return Err(BadSchema); }
      CreateConsistent(catalog, heaps, name, table);
      catalog, heaps := catalog[name := table], heaps[name := map[]];
      indexes, ranges := indexes - {name}, ranges - {name};
      return Ok(());
    }

    method DropTable(name: Name) returns (r: Result<(), StatementError>)
      requires Valid()
      modifies this
      ensures Valid()
      ensures r.Ok? <==> name in old(catalog) && Unwanted(old(catalog), name)
      ensures r.Ok? ==> catalog == old(catalog) - {name} && heaps == old(heaps) - {name}
      ensures r.Err? ==> catalog == old(catalog) && heaps == old(heaps)
    {
      if name !in catalog { return Err(UnknownTable); }
      if !Unwanted(catalog, name) { return Err(ReferencedTable); }
      DropConsistent(catalog, heaps, name);
      catalog, heaps := catalog - {name}, heaps - {name};
      indexes, ranges := indexes - {name}, ranges - {name};
      return Ok(());
    }

    // ------------------------------------------------------------------ reading

    method EnsureIndex(name: Name) returns (index: KeyIndex)
      requires Valid() && name in catalog && PrimaryColumn(catalog[name]) < |catalog[name]|
      modifies this`indexes
      ensures Valid() && name in indexes && indexes[name] == index && IndexOk(catalog[name], heaps[name], index)
    {
      index := FetchIndex(name);
    }

    method FetchIndex(name: Name) returns (index: KeyIndex)
      requires Working() && name in catalog && PrimaryColumn(catalog[name]) < |catalog[name]|
      modifies this`indexes
      ensures Working() && name in indexes && indexes[name] == index && IndexOk(catalog[name], heaps[name], index)
    {
      if name in indexes { return indexes[name]; }
      assert TableOk(catalog, heaps, name);
      index := BuildIndex(catalog[name], heaps[name], PrimaryColumn(catalog[name]));
      indexes := indexes[name := index];
    }

    /** The row a filtered scan with `key = literal` would find. */
    method LookupPrimaryKey(name: Name, key: Value) returns (row: Option<RowId>)
      requires Valid() && name in catalog && PrimaryColumn(catalog[name]) < |catalog[name]|
      requires Typed(catalog[name][PrimaryColumn(catalog[name])], key)
      modifies this`indexes
      ensures Valid()
      ensures forall id :: row == Some(id) <==>
        id in heaps[name] && Selected(Cell(heaps[name], id, PrimaryColumn(catalog[name])), key)
    {
      var index := EnsureIndex(name);
      row := Find(index, key);
      assert TableOk(catalog, heaps, name);
      forall id ensures row == Some(id) <==>
        id in heaps[name] && Selected(Cell(heaps[name], id, PrimaryColumn(catalog[name])), key)
      {
        LookupIsScan(catalog[name], heaps[name], PrimaryColumn(catalog[name]), index, key, id);
      }
    }

    method EnsureColumnRange(name: Name, column: nat) returns (range: Range)
      requires Valid() && name in catalog && column < |catalog[name]|
      modifies this`ranges
      ensures Valid() && Describes(heaps[name], column, heaps[name].Keys, range)
    {
      if name in ranges && column in ranges[name] { return ranges[name][column]; }
      assert TableOk(catalog, heaps, name);
      ColumnTyped(catalog[name], heaps[name], column);
      range := Build(heaps[name], column, TagOf(catalog[name][column].ctype));
      ranges := ranges[name := (if name in ranges then ranges[name] else map[])[column := range]];
    }

    // ------------------------------------------------------------------- insert

    /** One row of an INSERT: checked against the index, stored, and indexed. */
    method InsertRow(name: Name, tuple: Row) returns (r: Result<RowId, StatementError>, ghost row: Row)
      requires Working() && name in catalog && name in heaps
      modifies this`heaps, this`indexes
      ensures Working() && name in heaps
      ensures r.Err? ==> heaps == old(heaps)
      ensures r.Err? <==> Validate(catalog, old(heaps), name, tuple, None).Err?
                          || !fits(Validate(catalog, old(heaps), name, tuple, None).value)
      ensures r.Ok? ==> CoerceRow(catalog[name], tuple) == Ok(row) && r.value !in old(heaps)[name]
                        && heaps == old(heaps)[name := old(heaps)[name][r.value := row]]
    {
      var checked := ValidateNew(name, tuple);
      row := [];
      if checked.Err? { return Err(checked.error), row; }
      row := checked.value;
      if !fits(checked.value) { return Err(RowTooLarge), row; }
      var id := StoreNew(name, checked.value);
      return Ok(id), row;
    }

    method StoreNew(name: Name, row: Row) returns (id: RowId)
      requires Working() && name in catalog && name in heaps
      requires RowOk(catalog[name], row) && FreshKey(catalog[name], heaps[name], row, None)
      requires ReferencesOk(catalog, heaps, catalog[name], row)
      requires PrimaryColumn(catalog[name]) < |catalog[name]| ==> name in indexes
      modifies this`heaps, this`indexes
      ensures Working() && id !in old(heaps)[name] && heaps == old(heaps)[name := old(heaps)[name][id := row]]
    {
      FreshRowId(heaps[name].Keys);
      id :| id !in heaps[name];
      var indexes', heaps' := WithEntry(indexes, catalog[name], name, row, id), heaps[name := heaps[name][id := row]];
      StoreKeeps(catalog, heaps, heaps', indexes, indexes', name, id, row);
      SetState(heaps', indexes');
    }

    method SetState(heaps': Heaps, indexes': Indexes)
      requires Consistent(catalog, heaps') && IndexesOk(catalog, heaps', indexes')
      modifies this`heaps, this`indexes
      ensures Working() && heaps == heaps' && indexes == indexes'
    {
      heaps, indexes := heaps', indexes';
    }

    /** validateAndCoerce for a new row: the key is looked up in the index. */
    method ValidateNew(name: Name, tuple: Row) returns (r: Result<Row, StatementError>)
      requires Working() && name in catalog
      modifies this`indexes
      ensures Working()
      ensures r == Validate(catalog, heaps, name, tuple, None)
      ensures r.Ok? && PrimaryColumn(catalog[name]) < |catalog[name]| ==> name in indexes
    {
      var coerced := CoerceRow(catalog[name], tuple);
      if coerced.Err? { return Err(coerced.error); }
      assert TableOk(catalog, heaps, name);
      var column := PrimaryColumn(catalog[name]);
      if column < |catalog[name]| {
        var index := FetchIndex(name);
        IndexFindsDuplicate(catalog[name], heaps[name], column, index, coerced.value);
        if coerced.value[column] in index { return Err(DuplicateKey); }
      } else {
        NoKeyIsFresh(catalog[name], heaps[name], coerced.value);
      }
      if !ReferencesOk(catalog, heaps, catalog[name], coerced.value) { return Err(MissingReference); }
      return Ok(coerced.value);
    }

    /** INSERT of several rows: all of them or none. */
    method Insert(name: Name, columns: seq<Name>, valueRows: seq<Row>)
      returns (r: Result<nat, StatementError>, ghost ids: seq<RowId>, ghost rows: seq<Row>)
      requires Valid()
      modifies this
      ensures Valid() && catalog == old(catalog)
      ensures r.Ok? <==> name in old(heaps) && Insertable(fits, catalog, old(heaps), name, columns, valueRows)
      ensures r.Err? ==> heaps == old(heaps)
      ensures r.Ok? ==> name in catalog && name in old(heaps) && name in heaps && r.value == |valueRows|
      ensures r.Ok? ==> Converted(catalog[name], columns, valueRows, rows)
      ensures r.Ok? ==> heaps == old(heaps)[name := heaps[name]] && AddedRows(old(heaps)[name], heaps[name], ids, rows)
    {
      if name !in catalog { return Err(UnknownTable), [], []; }
      var before := heaps[name];
      var done;
      done, ids, rows := InsertAll(name, columns, valueRows);
      if done.Err? {
        RollBack(name, before, old(heaps));
        return Err(done.error), ids, rows;
      }
      RangesWithout(old(heaps), heaps, ranges, name);
      ranges := ranges - {name};
      return Ok(|valueRows|), ids, rows;
    }

    method InsertAll(name: Name, columns: seq<Name>, valueRows: seq<Row>)
      returns (r: Result<(), StatementError>, ghost ids: seq<RowId>, ghost rows: seq<Row>)
      requires Working() && name in catalog && name in heaps
      modifies this`heaps, this`indexes
      ensures Working() && name in heaps && heaps == old(heaps)[name := heaps[name]]
      ensures r.Ok? <==> Insertable(fits, catalog, old(heaps), name, columns, valueRows)
      ensures r.Ok? ==> Converted(catalog[name], columns, valueRows, rows)
      ensures r.Ok? ==> AddedRows(old(heaps)[name], heaps[name], ids, rows)
    {
      ghost var start := heaps;
      ids, rows := [], [];
      for k := 0 to |valueRows|
        invariant Working() && name in heaps && heaps == start[name := heaps[name]]
        invariant InsertReached(fits, catalog, start, name, columns, valueRows, k, heaps[name], ids, rows)
      {
        r, ids, rows := InsertNext(name, columns, valueRows, k, start, ids, rows);
        if r.Err? { return; }
      }
      InsertFinished(fits, catalog, start, name, columns, valueRows, heaps[name], ids, rows);
      r := Ok(());
    }

    method InsertNext(name: Name, columns: seq<Name>, valueRows: seq<Row>, k: nat, ghost start: Heaps,
                      ghost ids: seq<RowId>, ghost rows: seq<Row>)
      returns (r: Result<(), StatementError>, ghost ids': seq<RowId>, ghost rows': seq<Row>)
      requires Working() && name in catalog && name in heaps && name in start && heaps == start[name := heaps[name]]
      requires k < |valueRows| && InsertReached(fits, catalog, start, name, columns, valueRows, k, heaps[name], ids, rows)
      modifies this`heaps, this`indexes
      ensures Working() && name in heaps && heaps == start[name := heaps[name]]
      ensures r.Ok? ==> InsertReached(fits, catalog, start, name, columns, valueRows, k + 1, heaps[name], ids', rows')
      ensures r.Err? ==> !Insertable(fits, catalog, start, name, columns, valueRows)
    {
      ghost var heap := heaps[name];
      assert TableOk(catalog, heaps, name);
      var stored, row := InsertValues(name, columns, valueRows[k]);
      if stored.Err? {
        InsertRefused(fits, catalog, start, name, columns, valueRows, k, heap, ids, rows);
        return Err(stored.error), ids, rows;
      }
      SetTwice(start, name, heap, heap[stored.value := row]);
      InsertAdvances(fits, catalog, start, name, columns, valueRows, k, heap, ids, rows, stored.value, row);
      return Ok(()), ids + [stored.value], rows + [row];
    }

    method InsertValues(name: Name, columns: seq<Name>, values: Row) returns (r: Result<RowId, StatementError>, ghost row: Row)
      requires Working() && name in catalog && name in heaps
      modifies this`heaps, this`indexes
      ensures Working() && name in heaps
      ensures r.Ok? <==> AcceptsValues(fits, catalog, old(heaps), name, columns, values)
      ensures r.Err? ==> heaps == old(heaps)
      ensures r.Ok? ==> ConvertedRow(catalog[name], columns, values, row) && r.value !in old(heaps)[name]
      ensures r.Ok? ==> heaps == old(heaps)[name := old(heaps)[name][r.value := row]]
    {
      row := [];
      var arranged := Arrange(catalog[name], columns, values);
      if arranged.Err? { return Err(arranged.error), row; }
      r, row := InsertRow(name, arranged.value);
    }

    // ------------------------------------------------------------------- delete

    /** DELETE: exactly the matching rows go, or none when one is still referenced. */
    method Delete(name: Name, where: Predicate) returns (r: Result<nat, StatementError>)
      requires Valid()
      modifies this
      ensures Valid() && catalog == old(catalog)
      ensures r.Ok? <==> name in old(heaps) && Deletable(catalog, old(heaps), name, where)
      ensures r.Err? ==> heaps == old(heaps)
      ensures r.Ok? ==> name in catalog && name in old(heaps) && name in heaps
      ensures r.Ok? ==> heaps == old(heaps)[name := heaps[name]]
      ensures r.Ok? ==> forall id :: id in heaps[name] <==> id in old(heaps)[name] && where(old(heaps)[name][id]) == Ok(false)
      ensures r.Ok? ==> forall id :: id in heaps[name] ==> heaps[name][id] == old(heaps)[name][id]
    {
      if name !in catalog { return Err(UnknownTable); }
      var before := heaps[name];
      var done := DeleteAll(name, where);
      if done.Err? {
        RollBack(name, before, old(heaps));
        return Err(done.error);
      }
      FinishChange(name, old(heaps));
      return Ok(done.value);
    }

    method DeleteAll(name: Name, where: Predicate) returns (r: Result<nat, StatementError>)
      requires Consistent(catalog, heaps) && name in catalog && name in heaps
      modifies this`heaps
      ensures Consistent(catalog, heaps) && name in heaps && heaps == old(heaps)[name := heaps[name]]
      ensures r.Ok? <==> Deletable(catalog, old(heaps), name, where)
      ensures r.Ok? ==> DeletedSoFar(where, old(heaps)[name], heaps[name], old(heaps)[name].Keys)
    {
      ghost var start := heaps;
      var before, count := heaps[name], 0;
      var ids := ScanIds(before);
      for k := 0 to |ids|
        invariant Consistent(catalog, heaps) && name in heaps && heaps == start[name := heaps[name]]
        invariant DeleteReached(catalog, start, name, where, heaps[name], Visited(ids, k))
      {
        VisitedNext(ids, k, before);
        var deleted := DeleteNext(name, where, ids[k], before[ids[k]], start, Visited(ids, k));
        if deleted.Err? { return Err(deleted.error); }
        count := if deleted.value then count + 1 else count;
      }
      AllVisited(ids, before);
      return Ok(count);
    }

    method DeleteNext(name: Name, where: Predicate, id: RowId, row: Row, ghost start: Heaps, ghost done: set<RowId>)
      returns (r: Result<bool, StatementError>)
      requires Consistent(catalog, heaps) && name in catalog && name in heaps && name in start && heaps == start[name := heaps[name]]
      requires DeleteReached(catalog, start, name, where, heaps[name], done) && id in start[name] && id !in done && start[name][id] == row
      modifies this`heaps
      ensures Consistent(catalog, heaps) && name in heaps && heaps == start[name := heaps[name]]
      ensures r.Ok? ==> DeleteReached(catalog, start, name, where, heaps[name], done + {id})
      ensures r.Err? ==> !Deletable(catalog, start, name, where)
    {
      ghost var heap := heaps[name];
      var matching := where(row);
      assert TableOk(catalog, heaps, name);
      if matching.Err? {
        assert !DeletableRow(catalog, start, name, where, row);
        return Err(matching.error);
      }
      if matching.value && !Unreferenced(catalog, heaps, name, row, None) {
        DeleteRefused(catalog, start, name, where, heap, id);
        return Err(ReferencedRow);
      }
      DeleteAdvances(catalog, start, name, where, heap, done, id);
      if matching.value {
        RemoveConsistent(catalog, heaps, name, id);
        SetTwice(start, name, heap, heap - {id});
        heaps := heaps[name := heaps[name] - {id}];
      }
      return Ok(matching.value);
    }

    /** A statement that changed rows drops the table's caches. */
    method FinishChange(name: Name, ghost start: Heaps)
      requires Consistent(catalog, heaps) && name in heaps && heaps == start[name := heaps[name]]
      requires IndexesOk(catalog, start, indexes) && RangesOk(start, ranges)
      modifies this`indexes, this`ranges
      ensures Valid()
    {
      CachesOfOthers(catalog, start, indexes, ranges, name, heaps[name]);
      indexes, ranges := indexes - {name}, ranges - {name};
    }

    // ------------------------------------------------------------------- update

    /** UPDATE: each matching row is replaced, at its place or a new one, or nothing changes. */
    method Update(name: Name, where: Predicate, assign: Assignment)
      returns (r: Result<nat, StatementError>, ghost moved: map<RowId, RowId>, ghost ids: seq<RowId>)
      requires Valid()
      modifies this
      ensures Valid() && catalog == old(catalog)
      ensures name in old(heaps) ==> Scanned(ids, old(heaps)[name])
      ensures r.Ok? <==> name in old(heaps) && Updatable(fits, catalog, old(heaps), name, where, assign, ids)
      ensures r.Err? ==> heaps == old(heaps)
      ensures r.Ok? ==> name in catalog && name in old(heaps) && name in heaps
      ensures r.Ok? ==> heaps == old(heaps)[name := heaps[name]]
      ensures r.Ok? ==> UpdatedSoFar(catalog[name], where, assign, old(heaps)[name], heaps[name], old(heaps)[name].Keys, moved)
    {
      if name !in catalog { return Err(UnknownTable), map[], []; }
      var before := heaps[name];
      var order := ScanIds(before);
      ids := order;
      var done;
      done, moved := UpdateAll(name, where, assign, order);
      if done.Err? {
        RollBack(name, before, old(heaps));
        return Err(done.error), moved, ids;
      }
      FinishChange(name, old(heaps));
      return Ok(done.value), moved, ids;
    }

    method UpdateAll(name: Name, where: Predicate, assign: Assignment, ids: seq<RowId>)
      returns (r: Result<nat, StatementError>, ghost moved: map<RowId, RowId>)
      requires Consistent(catalog, heaps) && name in catalog && name in heaps && Scanned(ids, heaps[name])
      modifies this`heaps
      ensures Consistent(catalog, heaps) && name in heaps && heaps == old(heaps)[name := heaps[name]]
      ensures r.Ok? <==> Updatable(fits, catalog, old(heaps), name, where, assign, ids)
      ensures r.Ok? ==> UpdatedSoFar(catalog[name], where, assign, old(heaps)[name], heaps[name], old(heaps)[name].Keys, moved)
    {
      ghost var start := heaps;
      var before, count := heaps[name], 0;
      moved := map[];
      for k := 0 to |ids|
        invariant Consistent(catalog, heaps) && name in heaps && heaps == start[name := heaps[name]]
        invariant UpdateReached(fits, catalog, start, name, where, assign, ids, k, heaps[name], moved)
      {
        var updated;
        updated, moved := UpdateNext(name, where, assign, ids, k, before[ids[k]], start, moved);
        if updated.Err? { return Err(updated.error), moved; }
        count := if updated.value then count + 1 else count;
      }
      UpdateFinished(fits, catalog, start, name, where, assign, ids, heaps[name], moved);
      return Ok(count), moved;
    }

    method UpdateNext(name: Name, where: Predicate, assign: Assignment, ids: seq<RowId>, k: nat, row: Row, ghost start: Heaps,
                      ghost moved: map<RowId, RowId>)
      returns (r: Result<bool, StatementError>, ghost moved': map<RowId, RowId>)
      requires Consistent(catalog, heaps) && name in catalog && name in heaps && name in start && heaps == start[name := heaps[name]]
      requires Scanned(ids, start[name]) && k < |ids| && start[name][ids[k]] == row
      requires UpdateReached(fits, catalog, start, name, where, assign, ids, k, heaps[name], moved)
      modifies this`heaps
      ensures Consistent(catalog, heaps) && name in heaps && heaps == start[name := heaps[name]]
      ensures r.Ok? ==> UpdateReached(fits, catalog, start, name, where, assign, ids, k + 1, heaps[name], moved')
      ensures r.Err? ==> !Updatable(fits, catalog, start, name, where, assign, ids)
    {
      ghost var heap := heaps[name];
      assert TableOk(catalog, heaps, name);
      UpdateReaches(fits, catalog, start, name, where, assign, ids, k, heap, moved);
      var matching := where(row);
      if matching.Err? {
        assert !UpdatableAt(fits, catalog, start, name, where, assign, ids, k);
        return Err(matching.error), moved;
      }
      if !matching.value {
        UpdateSkips(fits, catalog, start, name, where, assign, ids, k, heap, moved);
        return Ok(false), moved;
      }
      var replaced, row' := UpdateRow(name, ids[k], assign, row);
      if replaced.Err? {
        UpdateRefused(fits, catalog, start, name, where, assign, ids, k, heap, moved);
        return Err(replaced.error), moved;
      }
      UpdateAdvances(fits, catalog, start, name, where, assign, ids, k, heap, moved, replaced.value, row');
      SetTwice(start, name, heap, Replaced(heap, Some(ids[k]), replaced.value, row'));
      return Ok(true), moved[ids[k] := replaced.value];
    }

    /** The rows as a scan lists them. */
    method ScanIds(heap: Heap) returns (ids: seq<RowId>)
      ensures Scanned(ids, heap)
    {
      ids := [];
      var rest := heap.Keys;
      while rest != {}
        invariant (forall id :: id in heap <==> id in rest || id in ids) && forall i :: 0 <= i < |ids| ==> ids[i] in heap && ids[i] !in rest
        invariant forall i, j :: 0 <= i < j < |ids| ==> ids[i] != ids[j]
        decreases rest
      {
        var id :| id in rest;
        ids, rest := ids + [id], rest - {id};
      }
    }

    method UpdateRow(name: Name, id: RowId, assign: Assignment, previous: Row)
      returns (r: Result<RowId, StatementError>, ghost row: Row)
      requires Consistent(catalog, heaps) && name in catalog && name in heaps && id in heaps[name] && heaps[name][id] == previous
      modifies this`heaps
      ensures Consistent(catalog, heaps)
      ensures r.Ok? <==> AcceptsUpdate(fits, catalog, old(heaps), name, assign, id, previous)
      ensures r.Err? ==> heaps == old(heaps)
      ensures r.Ok? ==> Updated(catalog[name], assign, previous) == Ok(row) && r.value !in old(heaps)[name] - {id}
      ensures r.Ok? ==> heaps == old(heaps)[name := Replaced(old(heaps)[name], Some(id), r.value, row)]
    {
      row := [];
      var computed := assign(previous);
      if computed.Err? { return Err(computed.error), row; }
      r := ReplaceRow(name, id, computed.value);
      if r.Ok? { row := CoerceRow(catalog[name], computed.value).value; }
    }

    /** One row of an UPDATE: every other row is checked for the key. */
    method ReplaceRow(name: Name, id: RowId, tuple: Row) returns (r: Result<RowId, StatementError>)
      requires Consistent(catalog, heaps) && name in catalog && name in heaps && id in heaps[name]
      modifies this`heaps
      ensures Consistent(catalog, heaps)
      ensures r.Ok? <==> Replaceable(fits, catalog, old(heaps), name, tuple, id)
      ensures r.Err? ==> heaps == old(heaps)
      ensures r.Ok? ==> CoerceRow(catalog[name], tuple).Ok? && r.value !in old(heaps)[name] - {id}
      ensures r.Ok? ==> heaps == old(heaps)[name :=
                          Replaced(old(heaps)[name], Some(id), r.value, CoerceRow(catalog[name], tuple).value)]
    {
      var checked := Validate(catalog, heaps, name, tuple, Some(id));
      if checked.Err? { return Err(checked.error); }
      var row := checked.value;
      if !Unreferenced(catalog, heaps, name, heaps[name][id], Some(row)) { return Err(ReferencedRow); }
      if !fits(row) { return Err(RowTooLarge); }
      assert id !in heaps[name] - {id};
      var id' :| id' !in heaps[name] - {id};
      PutConsistent(catalog, heaps, name, Some(id), id', row);
      heaps := heaps[name := Replaced(heaps[name], Some(id), id', row)];
      return Ok(id');
    }

    /** The whole directory is replaced; every cache is dropped. */
    method Reload(catalog': Catalog, heaps': Heaps)
      requires Consistent(catalog', heaps')
      modifies this
      ensures Valid() && catalog == catalog' && heaps == heaps' && indexes == map[] && ranges == map[]
    {
      catalog, heaps, indexes, ranges := catalog', heaps', map[], map[];
    }

    /** The failed statement's table gets its file back; its index is dropped. */
    method RollBack(name: Name, before: Heap, ghost start: Heaps)
      requires name in start && start[name] == before
      requires name in heaps && heaps == start[name := heaps[name]]
      requires Consistent(catalog, start) && RangesOk(start, ranges)
      requires IndexesOk(catalog, heaps, indexes) || IndexesOk(catalog, start, indexes)
      modifies this`heaps, this`indexes
      ensures Valid() && heaps == start
    {
      heaps := heaps[name := before];
      assert heaps == start;
      indexes := indexes - {name};
    }
  }

  lemma RangesWithout(heaps: Heaps, heaps': Heaps, ranges: Ranges, name: Name)
    requires RangesOk(heaps, ranges) && name in heaps' && heaps' == heaps[name := heaps'[name]]
    ensures RangesOk(heaps', ranges - {name})
  {
  }

  predicate Replaceable(fits: Row -> bool, catalog: Catalog, heaps: Heaps, name: Name, tuple: Row, id: RowId)
    requires name in catalog && name in heaps && id in heaps[name]
  {
    var checked := Validate(catalog, heaps, name, tuple, Some(id));
    checked.Ok? && Unreferenced(catalog, heaps, name, heaps[name][id], Some(checked.value)) && fits(checked.value)
  }

  /** A heap file never runs out of places. */
  lemma FreshRowId(ids: set<RowId>)
    ensures exists id :: id !in ids
  {
    var pages := PagesBelow(ids);
    assert RowId(pages, 0) !in ids;
  }

  lemma PagesBelow(ids: set<RowId>) returns (pages: nat)
    ensures forall id :: id in ids ==> id.page < pages
    decreases ids
  {
    if ids == {} { return 0; }
    var id :| id in ids;
    pages := PagesBelow(ids - {id});
    pages := if id.page < pages then pages else id.page + 1;
    forall x | x in ids ensures x.page < pages {
      if x != id { assert x in ids - {id}; }
    }
  }

  lemma SetTwice<K, V>(m: map<K, V>, k: K, a: V, b: V)
    ensures m[k := a][k := b] == m[k := b]
  {
  }

  lemma NoKeyIsFresh(table: Table, heap: Heap, row: Row)
    requires PrimaryColumn(table) == |table|
    ensures FreshKey(table, heap, row, None)
  {
  }

  /** The new row's key goes into the table's index. */
  function WithEntry(indexes: Indexes, table: Table, name: Name, row: Row, id: RowId): Indexes
    requires |row| == |table| && (PrimaryColumn(table) < |table| ==> name in indexes)
  {
    var column := PrimaryColumn(table);
    if column < |table| then indexes[name := indexes[name][row[column] := id]] else indexes
  }

  lemma StoreKeeps(catalog: Catalog, heaps: Heaps, heaps': Heaps, indexes: Indexes, indexes': Indexes,
                   name: Name, id: RowId, row: Row)
    requires Consistent(catalog, heaps) && IndexesOk(catalog, heaps, indexes) && name in catalog && name in heaps
    requires RowOk(catalog[name], row) && id !in heaps[name] && FreshKey(catalog[name], heaps[name], row, None)
    requires ReferencesOk(catalog, heaps, catalog[name], row)
    requires PrimaryColumn(catalog[name]) < |catalog[name]| ==> name in indexes
    requires heaps' == heaps[name := heaps[name][id := row]]
    requires indexes' == WithEntry(indexes, catalog[name], name, row, id)
    ensures Consistent(catalog, heaps') && IndexesOk(catalog, heaps', indexes')
  {
    assert TableOk(catalog, heaps, name);
    IndexesAfterInsert(catalog, heaps, indexes, name, id, row);
    PutConsistent(catalog, heaps, name, None, id, row);
    assert Replaced(heaps[name], None, id, row) == heaps[name][id := row];
  }

  lemma IndexesAfterInsert(catalog: Catalog, heaps: Heaps, indexes: Indexes, name: Name, id: RowId, row: Row)
    requires IndexesOk(catalog, heaps, indexes) && name in catalog && name in heaps && TableOk(catalog, heaps, name)
    requires RowOk(catalog[name], row) && id !in heaps[name] && FreshKey(catalog[name], heaps[name], row, None)
    requires PrimaryColumn(catalog[name]) < |catalog[name]| ==> name in indexes
    ensures IndexesOk(catalog, heaps[name := heaps[name][id := row]], WithEntry(indexes, catalog[name], name, row, id))
  {
    var column := PrimaryColumn(catalog[name]);
    if column < |catalog[name]| {
      IndexAfterInsert(catalog[name], heaps[name], column, indexes[name], id, row);
    }
  }

  lemma ColumnTyped(table: Table, heap: Heap, column: nat)
    requires RowsOk(table, heap) && column < |table|
    ensures TypedColumn(heap, column, TagOf(table[column].ctype))
  {
    forall id | id in heap ensures Cell(heap, id, column).Null? || InColumn(TagOf(table[column].ctype), Cell(heap, id, column)) {
      assert RowOk(table, heap[id]) && CellOk(table[column], heap[id][column]);
    }
  }
}
