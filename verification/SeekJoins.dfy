/** A star of inner joins on primary keys, aggregated while it is joined
    (src/native_joins.cpp:620-831): every row of the first table looks its partners up by
    key instead of scanning for them. */
module SeekJoins {
  import opened Wrappers
  import opened RowIds
  import opened Values
  import opened Tables
  import opened ColumnStatistics
  import opened PrimaryIndex
  import opened Engine
  import opened Bags
  import SourceJoins
  import opened Expressions
  import opened Query
  import opened AggregateStates
  import DirectAggregates
  import opened AggregateQuery
  import HeapScan
  import opened TableFiles
  import opened StoredTables

  // ------------------------------------------------------- inner joins, row by row

  /** A right side and its ON condition over the combined row. */
  datatype Relation = Relation(rows: seq<Row>, on: Row -> bool)

  function Matched(l: Row, r: Relation, n: nat): seq<Row>
    requires n <= |r.rows|
  {
    if n == 0 then [] else Matched(l, r, n - 1) + if r.on(l + r.rows[n - 1]) then [l + r.rows[n - 1]] else []
  }

  function InnerJoin(left: seq<Row>, r: Relation): seq<Row> {
    if left == [] then [] else InnerJoin(left[..|left| - 1], r) + Matched(left[|left| - 1], r, |r.rows|)
  }

  lemma {:induction false} MatchedIsRendered(left: seq<Row>, r: Relation, width: nat, i: nat, n: nat)
    requires i < |left| && n <= |r.rows|
    ensures Map(SourceJoins.Render(left, r.rows, width), SourceJoins.RowMatches(SourceJoins.On(left, r.rows, r.on), i, n))
         == Matched(left[i], r, n)
  {
    if n > 0 {
      MatchedIsRendered(left, r, width, i, n - 1);
      var on := SourceJoins.On(left, r.rows, r.on);
      SourceJoins.RenderOne(left, r.rows, width, SourceJoins.Pair(i, Some(n - 1)));
      MapConcat(SourceJoins.Render(left, r.rows, width), SourceJoins.RowMatches(on, i, n - 1),
                if on(i, n - 1) then [SourceJoins.Pair(i, Some(n - 1))] else []);
    }
  }

  lemma {:induction false} InnerJoinUpTo(left: seq<Row>, r: Relation, width: nat, m: nat)
    requires m <= |left|
    ensures Map(SourceJoins.Render(left, r.rows, width),
                SourceJoins.NestedPairs(SourceJoins.On(left, r.rows, r.on), SourceJoins.Inner, m, |r.rows|))
         == InnerJoin(left[..m], r)
  {
    if m > 0 {
      InnerJoinUpTo(left, r, width, m - 1);
      var on := SourceJoins.On(left, r.rows, r.on);
      MatchedIsRendered(left, r, width, m - 1, |r.rows|);
      MapConcat(SourceJoins.Render(left, r.rows, width), SourceJoins.NestedPairs(on, SourceJoins.Inner, m - 1, |r.rows|),
                SourceJoins.RowMatches(on, m - 1, |r.rows|));
      assert left[..m][..m - 1] == left[..m - 1];
    }
  }

  /** The same rows as the nested loop of the source-order path, in the same order. */
  lemma InnerJoinIsNestedLoop(left: seq<Row>, r: Relation, width: nat)
    ensures SourceJoins.JoinRows(left, r.rows, SourceJoins.On(left, r.rows, r.on), SourceJoins.Inner, width)
         == InnerJoin(left, r)
  {
    InnerJoinUpTo(left, r, width, |left|);
    assert left[..|left|] == left;
  }

  lemma {:induction false} InnerJoinConcat(a: seq<Row>, b: seq<Row>, r: Relation)
    ensures InnerJoin(a + b, r) == InnerJoin(a, r) + InnerJoin(b, r)
  {
    if b == [] {
      assert a + b == a;
    } else {
      InnerJoinConcat(a, b[..|b| - 1], r);
      assert (a + b)[..|a + b| - 1] == a + b[..|b| - 1];
    }
  }

  /** All joins, one after the other. */
  function StarJoin(base: seq<Row>, rs: seq<Relation>): seq<Row> {
    if rs == [] then base else InnerJoin(StarJoin(base, rs[..|rs| - 1]), rs[|rs| - 1])
  }

  lemma {:induction false} StarConcat(a: seq<Row>, b: seq<Row>, rs: seq<Relation>)
    ensures StarJoin(a + b, rs) == StarJoin(a, rs) + StarJoin(b, rs)
  {
    if rs != [] {
      var start := rs[..|rs| - 1];
      StarConcat(a, b, start);
      InnerJoinConcat(StarJoin(a, start), StarJoin(b, start), rs[|rs| - 1]);
    }
  }

  lemma StarNext(base: seq<Row>, k: nat, rs: seq<Relation>)
    requires k < |base|
    ensures StarJoin(base[..k + 1], rs) == StarJoin(base[..k], rs) + StarJoin([base[k]], rs)
  {
    StarConcat(base[..k], [base[k]], rs);
    assert base[..k + 1] == base[..k] + [base[k]];
  }

  /** Once nothing is left, later joins find nothing either. */
  lemma {:induction false} StarStaysEmpty(base: seq<Row>, rs: seq<Relation>, n: nat)
    requires n <= |rs| && StarJoin(base, rs[..n]) == []
    ensures StarJoin(base, rs) == []
    decreases |rs|
  {
    if n < |rs| {
      var start := rs[..|rs| - 1];
      assert start[..n] == rs[..n];
      StarStaysEmpty(base, start, n);
    } else {
      assert rs[..n] == rs;
    }
  }

  lemma StarOneMore(base: seq<Row>, rs: seq<Relation>, n: nat)
    requires n < |rs|
    ensures StarJoin(base, rs[..n + 1]) == InnerJoin(StarJoin(base, rs[..n]), rs[n])
  {
    assert rs[..n + 1][..n] == rs[..n];
  }

  // ----------------------------------------------------------------- the star

  /** Joins the table where its primary key equals this column of the first table. */
  datatype Seek = Seek(table: Name, baseKey: nat)

  /** The tables are there, have keys, and the scans list their rows. */
  ghost predicate Joinable(catalog: Catalog, heaps: Heaps, width: nat, joins: seq<Seek>, scans: seq<seq<RowId>>) {
    |scans| == |joins| && forall j :: 0 <= j < |joins| ==> JoinableTo(catalog, heaps, width, joins[j], scans[j])
  }

  ghost predicate JoinableTo(catalog: Catalog, heaps: Heaps, width: nat, join: Seek, scan: seq<RowId>) {
    && join.table in catalog && join.table in heaps && join.baseKey < width
    && PrimaryColumn(catalog[join.table]) < |catalog[join.table]|
    && Lists(heaps[join.table], scan)
  }

  ghost predicate Lists(heap: Heap, ids: seq<RowId>) {
    Enumerates(heap, ids) && forall i :: 0 <= i < |ids| ==> ids[i] in heap
  }

  function WidthAfter(catalog: Catalog, width: nat, joins: seq<Seek>, n: nat): nat
    requires n <= |joins|
  {
    if n == 0 then width
    else WidthAfter(catalog, width, joins, n - 1)
         + if joins[n - 1].table in catalog then |catalog[joins[n - 1].table]| else 0
  }

  lemma {:induction false} WidthGrows(catalog: Catalog, width: nat, joins: seq<Seek>, n: nat)
    requires n <= |joins|
    ensures WidthAfter(catalog, width, joins, n) >= width
  {
    if n > 0 { WidthGrows(catalog, width, joins, n - 1); }
  }

  /** `first.baseKey = table.primaryKey` over the rows joined so far and a row of the table. */
  function OnKey(leftWidth: nat, baseKey: nat, pk: nat): Row -> bool {
    SourceJoins.Meaning(SourceJoins.Equality(baseKey, pk), leftWidth)
  }

  ghost function RelationOf(catalog: Catalog, heaps: Heaps, leftWidth: nat, join: Seek, scan: seq<RowId>, width: nat): Relation
    requires JoinableTo(catalog, heaps, width, join, scan)
  {
    Relation(ScanRows(heaps[join.table], scan), OnKey(leftWidth, join.baseKey, PrimaryColumn(catalog[join.table])))
  }

  ghost function Relations(catalog: Catalog, heaps: Heaps, width: nat, joins: seq<Seek>, scans: seq<seq<RowId>>): (rs: seq<Relation>)
    requires Joinable(catalog, heaps, width, joins, scans)
    ensures |rs| == |joins|
  {
    seq(|joins|, j requires 0 <= j < |joins| =>
      RelationOf(catalog, heaps, WidthAfter(catalog, width, joins, j), joins[j], scans[j], width))
  }

  // ------------------------------------------------------------- the stored rows

  /** A row off the mapped file is the engine's row. */
  method ReadPartner(store: TableFiles, ghost heaps: Heaps, path: Name -> string, name: Name, id: RowId) returns (row: Row)
    requires store.Valid() && Serves(store.tables, heaps, path) && name in heaps && id in heaps[name]
    modifies store`mapped
    ensures store.Valid() && store.tables == old(store.tables) && row == heaps[name][id]
  {
    var tuple := store.ReadMapped(path(name), id);
    row := AsRow(tuple.value);
  }

  /** The first table's rows in the order of a scan of its mapped file. */
  method ReadBase(store: TableFiles, ghost heaps: Heaps, path: Name -> string, name: Name) returns (rows: seq<Row>, ghost ids: seq<RowId>)
    requires store.Valid() && Serves(store.tables, heaps, path) && name in heaps
    modifies store`mapped, store.pool
    ensures store.Valid() && store.tables == old(store.tables)
    ensures Lists(heaps[name], ids) && rows == ScanRows(heaps[name], ids)
  {
    var list := store.ScanMapped(path(name));
    ids := IdsOf(list);
    ListingLists(list, store.tables[path(name)], heaps[name]);
    rows := RowsOf(list);
  }

  function IdsOf(list: seq<HeapScan.StoredRow>): (ids: seq<RowId>)
    ensures |ids| == |list| && forall i :: 0 <= i < |list| ==> ids[i] == list[i].id
  {
    seq(|list|, i requires 0 <= i < |list| => list[i].id)
  }

  function RowsOf(list: seq<HeapScan.StoredRow>): (rows: seq<Row>)
    ensures |rows| == |list| && forall i :: 0 <= i < |list| ==> rows[i] == AsRow(list[i].values)
  {
    seq(|list|, i requires 0 <= i < |list| => AsRow(list[i].values))
  }

  lemma ListingLists(list: seq<HeapScan.StoredRow>, stored: Rows, heap: Heap)
    requires Listing(list, stored) && AsHeap(stored) == heap
    ensures Lists(heap, IdsOf(list)) && RowsOf(list) == ScanRows(heap, IdsOf(list))
  {
    var ids := IdsOf(list);
    var page :| HeapScan.Lists(list, stored, page, 0);
    forall i | 0 <= i < |list| ensures ids[i] in heap && AsRow(list[i].values) == heap[ids[i]] {
      assert HeapScan.ListedRow(list[i], stored, page, 0);
    }
    forall i, j | 0 <= i < j < |ids| ensures ids[i] != ids[j] {
      assert HeapScan.Before(list[i].id, list[j].id.page, list[j].id.slot);
    }
    forall id ensures id in heap <==> id in ids {
      if id in heap {
        assert HeapScan.StoredRow(id, stored[id]) in list;
        var i :| 0 <= i < |list| && list[i] == HeapScan.StoredRow(id, stored[id]);
        assert ids[i] == id;
      }
    }
  }

  // ------------------------------------------------------------------ one seek

  /** The row whose key equals this value, which may come from a column of another type. */
  method SeekKey(engine: Engine, name: Name, key: Value) returns (found: Option<RowId>)
    requires engine.Valid() && name in engine.catalog && name in engine.heaps
    requires PrimaryColumn(engine.catalog[name]) < |engine.catalog[name]|
    modifies engine`indexes
    ensures engine.Valid()
    ensures forall id :: found == Some(id) <==>
      id in engine.heaps[name] && Selected(Cell(engine.heaps[name], id, PrimaryColumn(engine.catalog[name])), key)
  {
    var index := engine.EnsureIndex(name);
    assert TableOk(engine.catalog, engine.heaps, name);
    found := PrimaryIndex.FindEqual(index, key);
    SeekIsScan(engine.catalog[name], engine.heaps[name], PrimaryColumn(engine.catalog[name]), index, key, found);
  }

  lemma SeekIsScan(table: Table, heap: Heap, column: nat, index: KeyIndex, key: Value, found: Option<RowId>)
    requires RowsOk(table, heap) && column < |table| && table[column].primaryKey
    requires IsIndex(heap, heap.Keys, column, index)
    requires EqualFound(index, key, found)
    ensures forall id :: found == Some(id) <==> id in heap && Selected(Cell(heap, id, column), key)
  {
    forall id ensures found == Some(id) <==> id in heap && Selected(Cell(heap, id, column), key) {
      if found == Some(id) {
        assert RowOk(table, heap[id]) && CellOk(table[column], heap[id][column]);
      }
      if id in heap && Selected(Cell(heap, id, column), key) {
        assert RowOk(table, heap[id]) && CellOk(table[column], heap[id][column]) && IndexedAs(index, heap[id][column], id);
        var k :| k in index && Equal(k, key) && found == Some(index[k]);
        assert RowOk(table, heap[index[k]]) && CellOk(table[column], heap[index[k]][column]);
        EqualTransitive(k, key, heap[id][column]);
        KeyEquality(table[column], k, heap[id][column]);
      }
    }
  }

  /** The rows that scanning the table for a partner would produce: the row found, if any. */
  lemma SeekIsMatched(catalog: Catalog, heaps: Heaps, l: Row, width: nat, join: Seek, scan: seq<RowId>, found: Option<RowId>)
    requires JoinableTo(catalog, heaps, width, join, scan) && width <= |l| && TableOk(catalog, heaps, join.table)
    requires forall id :: found == Some(id) <==>
      id in heaps[join.table] && Selected(Cell(heaps[join.table], id, PrimaryColumn(catalog[join.table])), l[join.baseKey])
    ensures var r := RelationOf(catalog, heaps, |l|, join, scan, width);
      InnerJoin([l], r) == if found.Some? && found.value in heaps[join.table] then [l + heaps[join.table][found.value]] else []
  {
    var r, heap := RelationOf(catalog, heaps, |l|, join, scan, width), heaps[join.table];
    forall i | 0 <= i < |scan| ensures r.on(l + r.rows[i]) <==> found == Some(scan[i]) {
      MeetsKey(catalog[join.table], heap, l, join.baseKey, PrimaryColumn(catalog[join.table]), scan[i]);
    }
    MatchedOnce(l, r, scan, found, |scan|);
    assert InnerJoin([l][..0], r) == [];
    if found.Some? {
      assert found.value in scan;
      assert scan[..|scan|] == scan;
      var i :| 0 <= i < |scan| && scan[i] == found.value;
      assert r.rows[i] == heap[found.value];
    }
  }

  lemma MeetsKey(table: Table, heap: Heap, l: Row, baseKey: nat, pk: nat, id: RowId)
    requires RowsOk(table, heap) && pk < |table| && baseKey < |l| && id in heap
    ensures OnKey(|l|, baseKey, pk)(l + heap[id]) <==> Selected(Cell(heap, id, pk), l[baseKey])
  {
    assert RowOk(table, heap[id]);
    var combined := l + heap[id];
    assert combined[baseKey] == l[baseKey] && combined[|l| + pk] == heap[id][pk];
  }

  lemma {:induction false} MatchedOnce(l: Row, r: Relation, scan: seq<RowId>, found: Option<RowId>, n: nat)
    requires n <= |scan| == |r.rows| && Distinct(scan)
    requires forall i :: 0 <= i < |scan| ==> (r.on(l + r.rows[i]) <==> found == Some(scan[i]))
    ensures found.None? || found.value !in scan[..n] ==> Matched(l, r, n) == []
    ensures forall i :: 0 <= i < n && found == Some(scan[i]) ==> Matched(l, r, n) == [l + r.rows[i]]
  {
    if n > 0 {
      MatchedOnce(l, r, scan, found, n - 1);
      assert scan[..n] == scan[..n - 1] + [scan[n - 1]];
      assert found == Some(scan[n - 1]) ==> found.value !in scan[..n - 1];
    }
  }

  // ------------------------------------------------------------- one base row

  /** All partners of a row of the first table, or nothing when one is missing. */
  method SeekAll(engine: Engine, store: TableFiles, path: Name -> string, row: Row, joins: seq<Seek>, ghost scans: seq<seq<RowId>>, ghost rs: seq<Relation>)
    returns (combined: Option<Row>)
    requires engine.Valid() && store.Valid() && Serves(store.tables, engine.heaps, path)
    requires Related(engine.catalog, engine.heaps, |row|, joins, scans, rs)
    modifies engine`indexes, store`mapped
    ensures engine.Valid() && store.Valid() && store.tables == old(store.tables)
    ensures StarJoin([row], rs) == if combined.Some? then [combined.value] else []
  {
    combined := Some(row);
    JoinedEnds(engine.catalog, row, joins, rs, row);
    for j := 0 to |joins|
      invariant engine.Valid() && store.Valid() && store.tables == old(store.tables)
      invariant combined.Some? && JoinedSoFar(engine.catalog, row, joins, rs, j, combined.value)
    {
      combined := SeekNext(engine, store, path, row, joins, scans, rs, j, combined.value);
      if combined.None? { return; }
    }
    JoinedEnds(engine.catalog, row, joins, rs, combined.value);
  }

  lemma JoinedEnds(catalog: Catalog, row: Row, joins: seq<Seek>, rs: seq<Relation>, joined: Row)
    requires |rs| == |joins|
    ensures JoinedSoFar(catalog, row, joins, rs, 0, row)
    ensures JoinedSoFar(catalog, row, joins, rs, |joins|, joined) ==> StarJoin([row], rs) == [joined]
  {
    assert rs[..0] == [] && rs[..|joins|] == rs;
  }

  predicate JoinedSoFar(catalog: Catalog, row: Row, joins: seq<Seek>, rs: seq<Relation>, j: nat, joined: Row) {
    && |rs| == |joins| && j <= |joins|
    && StarJoin([row], rs[..j]) == [joined] && |joined| == WidthAfter(catalog, |row|, joins, j)
  }

  /** These are the relations that the joins stand for. */
  ghost predicate Related(catalog: Catalog, heaps: Heaps, width: nat, joins: seq<Seek>, scans: seq<seq<RowId>>, rs: seq<Relation>) {
    |scans| == |rs| == |joins| && forall j :: 0 <= j < |joins| ==> RelatedAt(catalog, heaps, width, joins, scans, rs, j)
  }

  ghost predicate RelatedAt(catalog: Catalog, heaps: Heaps, width: nat, joins: seq<Seek>, scans: seq<seq<RowId>>, rs: seq<Relation>,
                            j: nat)
    requires j < |joins| == |scans| == |rs|
  {
    && JoinableTo(catalog, heaps, width, joins[j], scans[j])
    && rs[j] == RelationOf(catalog, heaps, WidthAfter(catalog, width, joins, j), joins[j], scans[j], width)
  }

  lemma RelationsRelated(catalog: Catalog, heaps: Heaps, width: nat, joins: seq<Seek>, scans: seq<seq<RowId>>)
    requires Joinable(catalog, heaps, width, joins, scans)
    ensures Related(catalog, heaps, width, joins, scans, Relations(catalog, heaps, width, joins, scans))
  {
    var rs := Relations(catalog, heaps, width, joins, scans);
    forall j | 0 <= j < |joins| ensures RelatedAt(catalog, heaps, width, joins, scans, rs, j) {
      assert JoinableTo(catalog, heaps, width, joins[j], scans[j]);
    }
  }

  /** The row and its partners so far, with the partner from the next table. */
  method SeekNext(engine: Engine, store: TableFiles, path: Name -> string, ghost row: Row, joins: seq<Seek>, ghost scans: seq<seq<RowId>>, ghost rs: seq<Relation>,
                  j: nat, joined: Row)
    returns (next: Option<Row>)
    requires engine.Valid() && store.Valid() && Serves(store.tables, engine.heaps, path)
    requires Related(engine.catalog, engine.heaps, |row|, joins, scans, rs) && j < |joins|
    requires JoinedSoFar(engine.catalog, row, joins, rs, j, joined)
    modifies engine`indexes, store`mapped
    ensures engine.Valid() && store.Valid() && store.tables == old(store.tables)
    ensures next.Some? ==> JoinedSoFar(engine.catalog, row, joins, rs, j + 1, next.value)
    ensures next.None? ==> StarJoin([row], rs) == []
  {
    WidthGrows(engine.catalog, |row|, joins, j);
    assert RelatedAt(engine.catalog, engine.heaps, |row|, joins, scans, rs, j);
    var partner := SeekPartner(engine, store, path, |row|, joined, joins[j], scans[j]);
    JoinedOneMore(row, rs, j, joined, partner);
    return if partner.None? then None else Some(joined + partner.value);
  }

  lemma JoinedOneMore(row: Row, rs: seq<Relation>, n: nat, joined: Row, partner: Option<Row>)
    requires n < |rs| && StarJoin([row], rs[..n]) == [joined]
    requires InnerJoin([joined], rs[n]) == if partner.Some? then [joined + partner.value] else []
    ensures partner.Some? ==> StarJoin([row], rs[..n + 1]) == [joined + partner.value]
    ensures partner.None? ==> StarJoin([row], rs) == []
  {
    StarOneMore([row], rs, n);
    if partner.None? { StarStaysEmpty([row], rs, n + 1); }
  }

  method SeekPartner(engine: Engine, store: TableFiles, path: Name -> string, ghost width: nat, l: Row, join: Seek, ghost scan: seq<RowId>) returns (partner: Option<Row>)
    requires engine.Valid() && store.Valid() && Serves(store.tables, engine.heaps, path)
    requires width <= |l| && JoinableTo(engine.catalog, engine.heaps, width, join, scan)
    modifies engine`indexes, store`mapped
    ensures engine.Valid() && store.Valid() && store.tables == old(store.tables)
    ensures partner.Some? ==> |partner.value| == |engine.catalog[join.table]|
    ensures InnerJoin([l], RelationOf(engine.catalog, engine.heaps, |l|, join, scan, width))
         == if partner.Some? then [l + partner.value] else []
  {
    ghost var heap := engine.heaps[join.table];
    assert TableOk(engine.catalog, engine.heaps, join.table);
    var found: Option<RowId> := None;
    if !l[join.baseKey].Null? { found := SeekKey(engine, join.table, l[join.baseKey]); }
    SeekIsMatched(engine.catalog, engine.heaps, l, width, join, scan, found);
    if found.None? { return None; }
    assert RowOk(engine.catalog[join.table], heap[found.value]);
    var row := ReadPartner(store, engine.heaps, path, join.table, found.value);
    return Some(row);
  }

  // -------------------------------------------------------------- domain pruning

  /** No key of the first table can meet a key of the other. */
  predicate Disjoint(base: Range, other: Range) {
    !base.present || !other.present || Compare(base.max, other.min) < 0 || Compare(base.min, other.max) > 0
  }

  /** Values on either side of a gap are not equal. */
  lemma GapBetween(v: Value, w: Value, low: Value, high: Value, tag: nat, otherTag: nat)
    requires InColumn(tag, v) && InColumn(tag, low) && InColumn(otherTag, w) && InColumn(otherTag, high)
    requires Compare(v, low) <= 0 && Compare(low, high) < 0 && Compare(high, w) <= 0
    ensures !Equal(v, w)
  {
    if Equal(v, w) && !IsNumeric(v) {
      ColumnOrder(tag, v, low, high);
      ColumnOrder(tag, high, v, low);
      ColumnOrder(tag, low, high, v);
    }
  }

  lemma CompareFlips(a: Value, b: Value, tag: nat, otherTag: nat)
    requires InColumn(tag, a) && InColumn(otherTag, b) && Compare(a, b) > 0
    ensures Compare(b, a) < 0
  {
    if tag == otherTag { ColumnOrder(tag, a, b, b); ColumnOrder(tag, b, a, a); }
  }

  lemma DisjointSound(heap: Heap, column: nat, tag: nat, r: Range, other: Heap, otherColumn: nat, otherTag: nat,
                      otherRange: Range, x: RowId, y: RowId)
    requires TypedColumn(heap, column, tag) && Extrema(heap, column, heap.Keys, r) && x in heap
    requires TypedColumn(other, otherColumn, otherTag) && Extrema(other, otherColumn, other.Keys, otherRange) && y in other
    requires Disjoint(r, otherRange)
    ensures !Selected(Cell(other, y, otherColumn), Cell(heap, x, column))
  {
    var v, w := Cell(heap, x, column), Cell(other, y, otherColumn);
    assert Within(heap, column, x, r) && Within(other, otherColumn, y, otherRange);
    if !v.Null? && !w.Null? {
      AttainedTyped(heap, column, heap.Keys, r.min, tag);
      AttainedTyped(heap, column, heap.Keys, r.max, tag);
      AttainedTyped(other, otherColumn, other.Keys, otherRange.min, otherTag);
      AttainedTyped(other, otherColumn, other.Keys, otherRange.max, otherTag);
      if Compare(r.max, otherRange.min) < 0 {
        GapBetween(v, w, r.max, otherRange.min, tag, otherTag);
      } else {
        CompareFlips(r.min, otherRange.max, tag, otherTag);
        GapBetween(w, v, otherRange.max, r.min, otherTag, tag);
      }
      if Equal(w, v) { EqualSymmetric(w, v); }
    }
  }

  lemma EqualSymmetric(a: Value, b: Value)
    ensures Equal(a, b) <==> Equal(b, a)
  {
  }

  /** Rows of the first table before other joins, whose partners come after them. */
  predicate Extending(row: Row, rows: seq<Row>, width: nat) {
    forall i :: 0 <= i < |rows| ==> StartsWith(rows[i], row, width)
  }

  predicate StartsWith(l: Row, row: Row, width: nat) {
    |l| == width && width >= |row| && l[..|row|] == row
  }

  lemma {:induction false} MatchedExtends(row: Row, l: Row, r: Relation, n: nat, width: nat, more: nat)
    requires n <= |r.rows| && StartsWith(l, row, width)
    requires forall i :: 0 <= i < |r.rows| ==> |r.rows[i]| == more
    ensures Extending(row, Matched(l, r, n), width + more)
  {
    if n > 0 { MatchedExtends(row, l, r, n - 1, width, more); }
  }

  lemma {:induction false} JoinExtends(row: Row, left: seq<Row>, r: Relation, width: nat, more: nat)
    requires Extending(row, left, width) && forall i :: 0 <= i < |r.rows| ==> |r.rows[i]| == more
    ensures Extending(row, InnerJoin(left, r), width + more)
  {
    if left != [] {
      var start := left[..|left| - 1];
      assert Extending(row, start, width);
      JoinExtends(row, start, r, width, more);
      MatchedExtends(row, left[|left| - 1], r, |r.rows|, width, more);
    }
  }

  lemma {:induction false} StarExtends(catalog: Catalog, heaps: Heaps, row: Row, joins: seq<Seek>, scans: seq<seq<RowId>>, n: nat)
    requires Joinable(catalog, heaps, |row|, joins, scans) && Consistent(catalog, heaps) && n <= |joins|
    ensures Extending(row, StarJoin([row], Relations(catalog, heaps, |row|, joins, scans)[..n]), WidthAfter(catalog, |row|, joins, n))
  {
    var rs := Relations(catalog, heaps, |row|, joins, scans);
    if n > 0 {
      StarExtends(catalog, heaps, row, joins, scans, n - 1);
      StarOneMore([row], rs, n - 1);
      var join, scan, left := joins[n - 1], scans[n - 1], StarJoin([row], rs[..n - 1]);
      assert JoinableTo(catalog, heaps, |row|, join, scan) && TableOk(catalog, heaps, join.table);
      ScanWide(catalog[join.table], heaps[join.table], scan);
      JoinExtends(row, left, rs[n - 1], WidthAfter(catalog, |row|, joins, n - 1), |catalog[join.table]|);
    } else {
      assert rs[..0] == [];
    }
  }

  lemma {:induction false} NothingMatched(l: Row, r: Relation, n: nat)
    requires n <= |r.rows| && forall i :: 0 <= i < |r.rows| ==> !r.on(l + r.rows[i])
    ensures Matched(l, r, n) == []
  {
    if n > 0 { NothingMatched(l, r, n - 1); }
  }

  lemma {:induction false} NothingJoined(left: seq<Row>, r: Relation)
    requires forall k, i :: 0 <= k < |left| && 0 <= i < |r.rows| ==> !r.on(left[k] + r.rows[i])
    ensures InnerJoin(left, r) == []
  {
    if left != [] {
      NothingJoined(left[..|left| - 1], r);
      NothingMatched(left[|left| - 1], r, |r.rows|);
    }
  }

  /** A row that can have no partner in one of the tables joins to nothing. */
  lemma PartnerlessRow(catalog: Catalog, heaps: Heaps, row: Row, joins: seq<Seek>, scans: seq<seq<RowId>>, j: nat)
    requires Joinable(catalog, heaps, |row|, joins, scans) && Consistent(catalog, heaps) && j < |joins|
    requires var t := joins[j].table; forall id :: id in heaps[t] ==>
      !Selected(Cell(heaps[t], id, PrimaryColumn(catalog[t])), row[joins[j].baseKey])
    ensures StarJoin([row], Relations(catalog, heaps, |row|, joins, scans)) == []
  {
    var rs := Relations(catalog, heaps, |row|, joins, scans);
    var t, left := joins[j].table, StarJoin([row], rs[..j]);
    StarExtends(catalog, heaps, row, joins, scans, j);
    assert JoinableTo(catalog, heaps, |row|, joins[j], scans[j]) && TableOk(catalog, heaps, t);
    forall k, i | 0 <= k < |left| && 0 <= i < |rs[j].rows| ensures !rs[j].on(left[k] + rs[j].rows[i]) {
      MeetsKey(catalog[t], heaps[t], left[k], joins[j].baseKey, PrimaryColumn(catalog[t]), scans[j][i]);
      assert left[k][..|row|][joins[j].baseKey] == row[joins[j].baseKey];
    }
    NothingJoined(left, rs[j]);
    StarOneMore([row], rs, j);
    StarStaysEmpty([row], rs, j + 1);
  }

  lemma {:induction false} AllPartnerless(base: seq<Row>, rs: seq<Relation>)
    requires forall k :: 0 <= k < |base| ==> StarJoin([base[k]], rs) == []
    ensures StarJoin(base, rs) == []
  {
    if base == [] {
      assert [] + base == base;
      StarConcat(base, base, rs);
      assert base + base == base;
    } else {
      var n := |base| - 1;
      AllPartnerless(base[..n], rs);
      StarNext(base, n, rs);
      assert base[..n + 1] == base;
    }
  }

  // ------------------------------------------------------------------ the query

  /** The joined rows, by nested loops. */
  ghost function StarRows(catalog: Catalog, heaps: Heaps, base: Name, ids: seq<RowId>, joins: seq<Seek>, scans: seq<seq<RowId>>)
    : seq<Row>
    requires base in catalog && base in heaps && Lists(heaps[base], ids)
    requires Joinable(catalog, heaps, |catalog[base]|, joins, scans)
  {
    StarJoin(ScanRows(heaps[base], ids), Relations(catalog, heaps, |catalog[base]|, joins, scans))
  }

  /** The statistics of one join's columns rule out every match. */
  method DomainProvesEmpty(engine: Engine, base: Name, join: Seek, ghost ids: seq<RowId>, ghost scan: seq<RowId>) returns (empty: bool)
    requires engine.Valid() && base in engine.catalog && base in engine.heaps
    requires JoinableTo(engine.catalog, engine.heaps, |engine.catalog[base]|, join, scan)
    modifies engine`ranges
    ensures engine.Valid()
    ensures empty ==> Unmatched(engine.catalog, engine.heaps, base, join)
  {
    var pk := PrimaryColumn(engine.catalog[join.table]);
    var range := engine.EnsureColumnRange(base, join.baseKey);
    var other := engine.EnsureColumnRange(join.table, pk);
    empty := Disjoint(range, other);
    if empty {
      assert TableOk(engine.catalog, engine.heaps, base) && TableOk(engine.catalog, engine.heaps, join.table);
      DisjointColumns(engine.catalog, engine.heaps, base, join, range, other);
    }
  }

  /** No row of the first table has a partner in this one. */
  ghost predicate Unmatched(catalog: Catalog, heaps: Heaps, base: Name, join: Seek)
    requires base in heaps && join.table in heaps && join.table in catalog
  {
    forall x, y :: x in heaps[base] && y in heaps[join.table] ==>
      !Selected(Cell(heaps[join.table], y, PrimaryColumn(catalog[join.table])), Cell(heaps[base], x, join.baseKey))
  }

  lemma DisjointColumns(catalog: Catalog, heaps: Heaps, base: Name, join: Seek, range: Range, other: Range)
    requires base in catalog && base in heaps && join.table in catalog && join.table in heaps
    requires RowsOk(catalog[base], heaps[base]) && RowsOk(catalog[join.table], heaps[join.table])
    requires join.baseKey < |catalog[base]| && PrimaryColumn(catalog[join.table]) < |catalog[join.table]|
    requires Extrema(heaps[base], join.baseKey, heaps[base].Keys, range)
    requires Extrema(heaps[join.table], PrimaryColumn(catalog[join.table]), heaps[join.table].Keys, other)
    requires Disjoint(range, other)
    ensures Unmatched(catalog, heaps, base, join)
  {
    var t, pk := catalog[join.table], PrimaryColumn(catalog[join.table]);
    ColumnTyped(catalog[base], heaps[base], join.baseKey);
    ColumnTyped(t, heaps[join.table], pk);
    forall x, y | x in heaps[base] && y in heaps[join.table]
      ensures !Selected(Cell(heaps[join.table], y, pk), Cell(heaps[base], x, join.baseKey))
    {
      DisjointSound(heaps[base], join.baseKey, TagOf(catalog[base][join.baseKey].ctype), range,
                    heaps[join.table], pk, TagOf(t[pk].ctype), other, x, y);
    }
  }

  lemma UnmatchedIsEmpty(catalog: Catalog, heaps: Heaps, base: Name, ids: seq<RowId>, joins: seq<Seek>, scans: seq<seq<RowId>>, j: nat)
    requires Consistent(catalog, heaps) && base in catalog && base in heaps && Lists(heaps[base], ids)
    requires Joinable(catalog, heaps, |catalog[base]|, joins, scans) && j < |joins|
    requires Unmatched(catalog, heaps, base, joins[j])
    ensures StarRows(catalog, heaps, base, ids, joins, scans) == []
  {
    var rows, width := ScanRows(heaps[base], ids), |catalog[base]|;
    var rs := Relations(catalog, heaps, width, joins, scans);
    assert TableOk(catalog, heaps, base);
    ScanWide(catalog[base], heaps[base], ids);
    forall k | 0 <= k < |rows| ensures StarJoin([rows[k]], rs) == [] {
      assert rows[k] == heaps[base][ids[k]] && Cell(heaps[base], ids[k], joins[j].baseKey) == rows[k][joins[j].baseKey];
      PartnerlessRow(catalog, heaps, rows[k], joins, scans, j);
    }
    AllPartnerless(rows, rs);
  }

  /** The combined rows are as wide as all the tables together. */
  lemma StarWide(catalog: Catalog, heaps: Heaps, base: Name, ids: seq<RowId>, joins: seq<Seek>, scans: seq<seq<RowId>>, k: nat)
    requires Consistent(catalog, heaps) && base in catalog && base in heaps && Lists(heaps[base], ids)
    requires Joinable(catalog, heaps, |catalog[base]|, joins, scans) && k <= |ids|
    ensures Wide(StarJoin(ScanRows(heaps[base], ids)[..k], Relations(catalog, heaps, |catalog[base]|, joins, scans)),
                 WidthAfter(catalog, |catalog[base]|, joins, |joins|))
    decreases k
  {
    var rows, width := ScanRows(heaps[base], ids), |catalog[base]|;
    var rs := Relations(catalog, heaps, width, joins, scans);
    if k == 0 {
      AllPartnerless(rows[..0], rs);
    } else {
      StarWide(catalog, heaps, base, ids, joins, scans, k - 1);
      assert TableOk(catalog, heaps, base);
      ScanWide(catalog[base], heaps[base], ids);
      StarExtends(catalog, heaps, rows[k - 1], joins, scans, |joins|);
      assert rs[..|joins|] == rs;
      StarNext(rows, k - 1, rs);
      ExtendingIsWide(rows[k - 1], StarJoin([rows[k - 1]], rs), WidthAfter(catalog, width, joins, |joins|));
    }
  }

  lemma ExtendingIsWide(row: Row, rows: seq<Row>, width: nat)
    requires Extending(row, rows, width)
    ensures Wide(rows, width)
  {
    forall i | 0 <= i < |rows| ensures |rows[i]| == width {
      assert StartsWith(rows[i], row, width);
    }
  }

  method AnyDomainProvesEmpty(engine: Engine, base: Name, joins: seq<Seek>, ghost ids: seq<RowId>, ghost scans: seq<seq<RowId>>)
    returns (empty: bool)
    requires engine.Valid() && base in engine.catalog && base in engine.heaps && Lists(engine.heaps[base], ids)
    requires Joinable(engine.catalog, engine.heaps, |engine.catalog[base]|, joins, scans)
    modifies engine`ranges
    ensures engine.Valid()
    ensures empty ==> StarRows(engine.catalog, engine.heaps, base, ids, joins, scans) == []
  {
    for j := 0 to |joins|
      invariant engine.Valid()
    {
      empty := DomainProvesEmpty(engine, base, joins[j], ids, scans[j]);
      if empty {
        UnmatchedIsEmpty(engine.catalog, engine.heaps, base, ids, joins, scans, j);
        return true;
      }
    }
    return false;
  }

  /** Some row makes a sum fail. */
  predicate Summing(plan: DirectAggregates.Plan, rows: seq<Row>) {
    exists k :: 0 <= k < |rows| && DirectAggregates.NonNumber(plan.projections, rows[k])
  }

  /** The groups after these rows. */
  predicate Holds(plan: DirectAggregates.Plan, rows: seq<Row>, states: seq<DirectAggregates.GroupState>) {
    DirectAggregates.Mirrors(plan.projections, states, DirectAggregates.PlanGroups(plan, rows))
  }

  lemma {:induction false} EverythingPasses(plan: DirectAggregates.Plan, rows: seq<Row>)
    requires plan.condition.None?
    ensures DirectAggregates.Passing(plan.condition, rows) == rows
  {
    if rows != [] { EverythingPasses(plan, rows[..|rows| - 1]); }
  }

  /** The answer to the aggregate query over these rows; it fails just when a SUM or AVG meets
      a value that is no number. */
  ghost predicate Answers(plan: DirectAggregates.Plan, rows: seq<Row>, r: Result<seq<Row>, EvalError>) {
    && (r.Ok? ==> Run(DirectAggregates.SelectOf(plan), rows) == r)
    && (r.Err? <==> Run(DirectAggregates.SelectOf(plan), rows).Err?)
    && (r.Err? <==> Summing(plan, rows))
  }

  /** Whatever the path, the answer is to the query over the rows that nested loops join. */
  method SeekAggregate(engine: Engine, store: TableFiles, path: Name -> string, base: Name, joins: seq<Seek>,
                       ghost scans: seq<seq<RowId>>, plan: DirectAggregates.Plan)
    returns (r: Result<seq<Row>, EvalError>, ghost ids: seq<RowId>)
    requires engine.Valid() && store.Valid() && Serves(store.tables, engine.heaps, path)
    requires base in engine.catalog && base in engine.heaps && plan.condition.None?
    requires Joinable(engine.catalog, engine.heaps, |engine.catalog[base]|, joins, scans)
    requires DirectAggregates.Accepted(plan, WidthAfter(engine.catalog, |engine.catalog[base]|, joins, |joins|))
    modifies engine`ranges, engine`indexes, store`mapped, store.pool
    ensures engine.Valid() && store.Valid() && store.tables == old(store.tables)
    ensures Lists(engine.heaps[base], ids)
    ensures Answers(plan, StarRows(engine.catalog, engine.heaps, base, ids, joins, scans), r)
  {
    var rows;
    rows, ids := ReadBase(store, engine.heaps, path, base);
    r := SeekRows(engine, store, path, base, rows, ids, joins, scans, plan);
  }

  method SeekRows(engine: Engine, store: TableFiles, path: Name -> string, base: Name, rows: seq<Row>, ghost ids: seq<RowId>,
                  joins: seq<Seek>, ghost scans: seq<seq<RowId>>, plan: DirectAggregates.Plan)
    returns (r: Result<seq<Row>, EvalError>)
    requires engine.Valid() && store.Valid() && Serves(store.tables, engine.heaps, path)
    requires base in engine.catalog && base in engine.heaps && Lists(engine.heaps[base], ids) && rows == ScanRows(engine.heaps[base], ids)
    requires Joinable(engine.catalog, engine.heaps, |engine.catalog[base]|, joins, scans) && plan.condition.None?
    requires DirectAggregates.Accepted(plan, WidthAfter(engine.catalog, |engine.catalog[base]|, joins, |joins|))
    modifies engine`ranges, engine`indexes, store`mapped
    ensures engine.Valid() && store.Valid() && store.tables == old(store.tables)
    ensures Answers(plan, StarRows(engine.catalog, engine.heaps, base, ids, joins, scans), r)
  {
    ghost var width := WidthAfter(engine.catalog, |engine.catalog[base]|, joins, |joins|);
    var empty := AnyDomainProvesEmpty(engine, base, joins, ids, scans);
    if empty {
      r := EmptyAnswer(plan, width);
    } else {
      r := SeekScan(engine, store, path, base, rows, ids, joins, scans, plan);
    }
  }

  method SeekScan(engine: Engine, store: TableFiles, path: Name -> string, base: Name, rows: seq<Row>, ghost ids: seq<RowId>,
                  joins: seq<Seek>, ghost scans: seq<seq<RowId>>, plan: DirectAggregates.Plan)
    returns (r: Result<seq<Row>, EvalError>)
    requires engine.Valid() && store.Valid() && Serves(store.tables, engine.heaps, path)
    requires base in engine.catalog && base in engine.heaps && Lists(engine.heaps[base], ids) && rows == ScanRows(engine.heaps[base], ids)
    requires Joinable(engine.catalog, engine.heaps, |engine.catalog[base]|, joins, scans) && plan.condition.None?
    requires DirectAggregates.Accepted(plan, WidthAfter(engine.catalog, |engine.catalog[base]|, joins, |joins|))
    modifies engine`indexes, store`mapped
    ensures engine.Valid() && store.Valid() && store.tables == old(store.tables)
    ensures Answers(plan, StarRows(engine.catalog, engine.heaps, base, ids, joins, scans), r)
  {
    ghost var joined := StarRows(engine.catalog, engine.heaps, base, ids, joins, scans);
    ghost var width := WidthAfter(engine.catalog, |engine.catalog[base]|, joins, |joins|);
    StarIsWide(engine.catalog, engine.heaps, base, ids, joins, scans);
    var states := SeekTable(engine, store, path, base, rows, ids, joins, scans, plan);
    r := Answer(plan, joined, width, states);
  }

  /** Groups the joined rows of the whole table. */
  method SeekTable(engine: Engine, store: TableFiles, path: Name -> string, base: Name, rows: seq<Row>, ghost ids: seq<RowId>,
                   joins: seq<Seek>, ghost scans: seq<seq<RowId>>, plan: DirectAggregates.Plan)
    returns (states: Result<seq<DirectAggregates.GroupState>, EvalError>)
    requires engine.Valid() && store.Valid() && Serves(store.tables, engine.heaps, path)
    requires base in engine.catalog && base in engine.heaps && Lists(engine.heaps[base], ids) && rows == ScanRows(engine.heaps[base], ids)
    requires Joinable(engine.catalog, engine.heaps, |engine.catalog[base]|, joins, scans)
    modifies engine`indexes, store`mapped
    ensures engine.Valid() && store.Valid() && store.tables == old(store.tables)
    ensures states.Err? <==> Summing(plan, StarRows(engine.catalog, engine.heaps, base, ids, joins, scans))
    ensures states.Ok? ==> Holds(plan, StarRows(engine.catalog, engine.heaps, base, ids, joins, scans), states.value)
  {
    ghost var rs := Relations(engine.catalog, engine.heaps, |engine.catalog[base]|, joins, scans);
    assert TableOk(engine.catalog, engine.heaps, base);
    ScanWide(engine.catalog[base], engine.heaps[base], ids);
    RelationsRelated(engine.catalog, engine.heaps, |engine.catalog[base]|, joins, scans);
    states := SeekGroups(engine, store, path, |engine.catalog[base]|, rows, joins, scans, rs, plan);
  }

  lemma StarIsWide(catalog: Catalog, heaps: Heaps, base: Name, ids: seq<RowId>, joins: seq<Seek>, scans: seq<seq<RowId>>)
    requires Consistent(catalog, heaps) && base in catalog && base in heaps && Lists(heaps[base], ids)
    requires Joinable(catalog, heaps, |catalog[base]|, joins, scans)
    ensures Wide(StarRows(catalog, heaps, base, ids, joins, scans), WidthAfter(catalog, |catalog[base]|, joins, |joins|))
  {
    StarWide(catalog, heaps, base, ids, joins, scans, |ids|);
    assert ScanRows(heaps[base], ids)[..|ids|] == ScanRows(heaps[base], ids);
  }

  method EmptyAnswer(plan: DirectAggregates.Plan, ghost width: nat) returns (r: Result<seq<Row>, EvalError>)
    requires DirectAggregates.Accepted(plan, width)
    ensures Answers(plan, [], r)
  {
    var answer := DirectAggregates.AnswerEmpty(plan, [], width);
    return Ok(answer);
  }

  method Answer(plan: DirectAggregates.Plan, ghost joined: seq<Row>, ghost width: nat,
                states: Result<seq<DirectAggregates.GroupState>, EvalError>)
    returns (r: Result<seq<Row>, EvalError>)
    requires DirectAggregates.Accepted(plan, width) && Wide(joined, width) && plan.condition.None?
    requires states.Ok? ==> Holds(plan, joined, states.value)
    requires states.Err? <==> Summing(plan, joined)
    ensures Answers(plan, joined, r)
  {
    DirectAggregates.QueryErrIff(plan, joined, width);
    if states.Err? { return Err(states.error); }
    EverythingPasses(plan, joined);
    DirectAggregates.PassIsQuery(plan, joined, width, states.value);
    return Ok(DirectAggregates.OutputRows(plan.projections, states.value));
  }

  method SeekGroups(engine: Engine, store: TableFiles, path: Name -> string, ghost width: nat, rows: seq<Row>, joins: seq<Seek>, ghost scans: seq<seq<RowId>>,
                    ghost rs: seq<Relation>, plan: DirectAggregates.Plan)
    returns (r: Result<seq<DirectAggregates.GroupState>, EvalError>)
    requires engine.Valid() && store.Valid() && Serves(store.tables, engine.heaps, path)
    requires Wide(rows, width) && Related(engine.catalog, engine.heaps, width, joins, scans, rs)
    modifies engine`indexes, store`mapped
    ensures engine.Valid() && store.Valid() && store.tables == old(store.tables)
    ensures r.Err? <==> Summing(plan, StarJoin(rows, rs))
    ensures r.Ok? ==> Holds(plan, StarJoin(rows, rs), r.value)
  {
    var states := if plan.groupBy == [] then [DirectAggregates.GroupState([], DirectAggregates.StartCells(plan.projections))] else [];
    ghost var kept: seq<Row> := [];
    AllPartnerless(rows[..0], rs);
    for k := 0 to |rows|
      invariant engine.Valid() && store.Valid() && store.tables == old(store.tables) && kept == StarJoin(rows[..k], rs)
      invariant !Summing(plan, kept) && Holds(plan, kept, states)
    {
      StarNext(rows, k, rs);
      var next, more := SeekRow(engine, store, path, rows[k], joins, scans, rs, plan, states, kept);
      if next.Err? {
        SummingStays(plan, kept, more, rows, rs, k + 1);
        return Err(next.error);
      }
      SummingBoth(plan, kept, more);
      states, kept := next.value, kept + more;
    }
    assert rows[..|rows|] == rows;
    return Ok(states);
  }

  /** One row of the first table: its joined row, if it has all its partners, goes to a group. */
  method SeekRow(engine: Engine, store: TableFiles, path: Name -> string, row: Row, joins: seq<Seek>, ghost scans: seq<seq<RowId>>, ghost rs: seq<Relation>,
                 plan: DirectAggregates.Plan, states: seq<DirectAggregates.GroupState>, ghost kept: seq<Row>)
    returns (r: Result<seq<DirectAggregates.GroupState>, EvalError>, ghost more: seq<Row>)
    requires engine.Valid() && store.Valid() && Serves(store.tables, engine.heaps, path)
    requires Related(engine.catalog, engine.heaps, |row|, joins, scans, rs) && Holds(plan, kept, states)
    modifies engine`indexes, store`mapped
    ensures engine.Valid() && store.Valid() && store.tables == old(store.tables) && more == StarJoin([row], rs)
    ensures r.Err? <==> Summing(plan, more)
    ensures r.Ok? ==> Holds(plan, kept + more, r.value)
  {
    var combined := SeekAll(engine, store, path, row, joins, scans, rs);
    more := StarJoin([row], rs);
    if combined.None? {
      assert kept + more == kept;
      return Ok(states), more;
    }
    r := AddJoined(plan, states, combined.value, kept);
  }

  method AddJoined(plan: DirectAggregates.Plan, states: seq<DirectAggregates.GroupState>, row: Row, ghost kept: seq<Row>)
    returns (r: Result<seq<DirectAggregates.GroupState>, EvalError>)
    requires Holds(plan, kept, states)
    ensures r.Err? <==> Summing(plan, [row])
    ensures r.Ok? ==> Holds(plan, kept + [row], r.value)
  {
    DirectAggregates.GroupsNext(plan, kept, row);
    r := DirectAggregates.AddRow(plan.projections, plan.groupBy, states, row, DirectAggregates.PlanGroups(plan, kept));
    assert [row][0] == row;
  }

  lemma SummingBoth(plan: DirectAggregates.Plan, a: seq<Row>, b: seq<Row>)
    ensures Summing(plan, a + b) <==> Summing(plan, a) || Summing(plan, b)
  {
    if k :| 0 <= k < |a| && DirectAggregates.NonNumber(plan.projections, a[k]) { assert (a + b)[k] == a[k]; }
    if k :| 0 <= k < |b| && DirectAggregates.NonNumber(plan.projections, b[k]) { assert (a + b)[|a| + k] == b[k]; }
  }

  lemma SummingStays(plan: DirectAggregates.Plan, kept: seq<Row>, more: seq<Row>, base: seq<Row>, rs: seq<Relation>, k: nat)
    requires k <= |base| && StarJoin(base[..k], rs) == kept + more && Summing(plan, more)
    ensures Summing(plan, StarJoin(base, rs))
  {
    StarConcat(base[..k], base[k..], rs);
    assert base == base[..k] + base[k..];
    SummingBoth(plan, kept, more);
    SummingBoth(plan, kept + more, StarJoin(base[k..], rs));
  }
}
