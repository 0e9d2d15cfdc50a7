/** executeDirectAggregateSelect (src/native_aggregates.cpp:18-688): which of its ways an
    aggregate query takes over a stored table, and that all of them answer the query. */
module AggregateQuery {
  import opened Wrappers
  import opened RowIds
  import opened Values
  import opened Tables
  import opened ColumnStatistics
  import opened Engine
  import opened Bags
  import opened Expressions
  import opened Query
  import opened AggregateStates
  import opened ColumnPredicates
  import opened DirectAggregates
  import opened DenseGroups

  /** The largest span of keys for which an array is used. */
  const MaxSpan: nat

  /** A scan visits each row once. */
  ghost predicate Enumerates(heap: Heap, ids: seq<RowId>) {
    Distinct(ids) && forall id :: id in heap <==> id in ids
  }

  function ScanRows(heap: Heap, ids: seq<RowId>): (rows: seq<Row>)
    requires forall i :: 0 <= i < |ids| ==> ids[i] in heap
    ensures |rows| == |ids| && forall i :: 0 <= i < |ids| ==> rows[i] == heap[ids[i]]
  {
    seq(|ids|, i requires 0 <= i < |ids| => heap[ids[i]])
  }

  lemma ScanWide(table: Table, heap: Heap, ids: seq<RowId>)
    requires RowsOk(table, heap) && forall i :: 0 <= i < |ids| ==> ids[i] in heap
    ensures Wide(ScanRows(heap, ids), |table|)
  {
    forall i | 0 <= i < |ids| ensures |ScanRows(heap, ids)[i]| == |table| {
      assert RowOk(table, heap[ids[i]]);
    }
  }

  // -------------------------------------------------- statistics and the scan

  lemma NoneMatch(table: Table, heap: Heap, ids: seq<RowId>, r: Range, c: Condition)
    requires RowsOk(table, heap) && c.column < |table| && Extrema(heap, c.column, heap.Keys, r) && ProvesEmpty(r, c)
    requires forall i :: 0 <= i < |ids| ==> ids[i] in heap
    ensures forall k :: 0 <= k < |ids| ==> !Passes(Some(c), ScanRows(heap, ids)[k])
  {
    ColumnTyped(table, heap, c.column);
    forall k | 0 <= k < |ids| ensures !Passes(Some(c), ScanRows(heap, ids)[k]) {
      assert RowOk(table, heap[ids[k]]);
      ProvesEmptySound(heap, c.column, TagOf(table[c.column].ctype), r, c, ids[k]);
    }
  }

  function MatchingAmong(heap: Heap, c: Condition, ids: seq<RowId>, n: nat): set<RowId>
    requires n <= |ids|
  {
    if n == 0 then {}
    else MatchingAmong(heap, c, ids, n - 1) + if Matches(c, ColumnStatistics.Cell(heap, ids[n - 1], c.column)) then {ids[n - 1]} else {}
  }

  lemma {:induction false} MatchingMember(heap: Heap, c: Condition, ids: seq<RowId>, n: nat, id: RowId)
    requires n <= |ids|
    ensures id in MatchingAmong(heap, c, ids, n) <==> id in ids[..n] && Matches(c, ColumnStatistics.Cell(heap, id, c.column))
  {
    if n > 0 {
      MatchingMember(heap, c, ids, n - 1, id);
      assert ids[..n] == ids[..n - 1] + [ids[n - 1]];
    }
  }

  lemma CountedOneMore(heap: Heap, c: Condition, ids: seq<RowId>, n: nat)
    requires 0 < n <= |ids| && Distinct(ids)
    ensures |MatchingAmong(heap, c, ids, n)|
         == |MatchingAmong(heap, c, ids, n - 1)| + if Matches(c, ColumnStatistics.Cell(heap, ids[n - 1], c.column)) then 1 else 0
  {
    MatchingMember(heap, c, ids, n - 1, ids[n - 1]);
  }

  lemma PassesIsMatches(table: Table, heap: Heap, c: Condition, ids: seq<RowId>, k: nat)
    requires RowsOk(table, heap) && c.column < |table| && k < |ids|
    requires forall i :: 0 <= i < |ids| ==> ids[i] in heap
    ensures Passes(Some(c), ScanRows(heap, ids)[k]) <==> Matches(c, ColumnStatistics.Cell(heap, ids[k], c.column))
  {
    assert RowOk(table, heap[ids[k]]);
  }

  lemma {:induction false} PassingCounted(table: Table, heap: Heap, c: Condition, ids: seq<RowId>, n: nat)
    requires RowsOk(table, heap) && c.column < |table| && Distinct(ids) && n <= |ids|
    requires forall i :: 0 <= i < |ids| ==> ids[i] in heap
    ensures |Passing(Some(c), ScanRows(heap, ids)[..n])| == |MatchingAmong(heap, c, ids, n)|
  {
    if n > 0 {
      PassingCounted(table, heap, c, ids, n - 1);
      PassingNext(Some(c), ScanRows(heap, ids), n - 1);
      PassesIsMatches(table, heap, c, ids, n - 1);
      CountedOneMore(heap, c, ids, n);
    }
  }

  /** As many rows pass the scan as the heap has matching rows. */
  lemma PassingIsMatching(table: Table, heap: Heap, c: Condition, ids: seq<RowId>)
    requires RowsOk(table, heap) && c.column < |table| && Enumerates(heap, ids)
    requires forall i :: 0 <= i < |ids| ==> ids[i] in heap
    ensures |Passing(Some(c), ScanRows(heap, ids))| == |MatchingIds(heap, c)|
  {
    PassingCounted(table, heap, c, ids, |ids|);
    assert ScanRows(heap, ids)[..|ids|] == ScanRows(heap, ids);
    assert ids[..|ids|] == ids;
    forall id ensures id in MatchingAmong(heap, c, ids, |ids|) <==> id in MatchingIds(heap, c) {
      MatchingMember(heap, c, ids, |ids|, id);
    }
    assert MatchingAmong(heap, c, ids, |ids|) == MatchingIds(heap, c);
  }

  lemma IntegersInRange(table: Table, heap: Heap, ids: seq<RowId>, g: nat, r: Range)
    requires RowsOk(table, heap) && g < |table| && table[g].notNull && table[g].ctype == IntegerType
    requires Extrema(heap, g, heap.Keys, r) && r.present
    requires forall i :: 0 <= i < |ids| ==> ids[i] in heap
    ensures r.min.Integer? && r.max.Integer? && r.min.i <= r.max.i
    ensures IntegerKeys(ScanRows(heap, ids), g, r.min.i, r.max.i)
  {
    ColumnTyped(table, heap, g);
    AttainedTyped(heap, g, heap.Keys, r.min, 1);
    AttainedTyped(heap, g, heap.Keys, r.max, 1);
    var x :| x in heap && !ColumnStatistics.Cell(heap, x, g).Null? && ColumnStatistics.Cell(heap, x, g) == r.min;
    assert Within(heap, g, x, r);
    forall i | 0 <= i < |ids|
      ensures var row := ScanRows(heap, ids)[i];
        g < |row| && row[g].Integer? && r.min.i <= row[g].i <= r.max.i
    {
      assert RowOk(table, heap[ids[i]]) && CellOk(table[g], heap[ids[i]][g]);
      assert Within(heap, g, ids[i], r);
    }
  }

  // ------------------------------------------------------------------ the query

  /** Rows in any order. */
  ghost predicate Answers(plan: Plan, rows: seq<Row>, answer: seq<Row>) {
    Run(SelectOf(plan), rows).Ok? && multiset(answer) == multiset(Run(SelectOf(plan), rows).value)
  }

  method Execute(engine: Engine, name: Name, plan: Plan, ids: seq<RowId>) returns (r: Result<seq<Row>, EvalError>)
    requires engine.Valid() && name in engine.catalog && name in engine.heaps
    requires Accepted(plan, |engine.catalog[name]|) && Enumerates(engine.heaps[name], ids)
    requires forall i :: 0 <= i < |ids| ==> ids[i] in engine.heaps[name]
    modifies engine`ranges
    ensures engine.Valid()
    ensures r.Ok? ==> Answers(plan, ScanRows(engine.heaps[name], ids), r.value)
    ensures r.Err? <==> Run(SelectOf(plan), ScanRows(engine.heaps[name], ids)).Err?
    ensures r.Err? <==> Unsummed(plan, ScanRows(engine.heaps[name], ids))
  {
    var table, heap := engine.catalog[name], engine.heaps[name];
    var rows, width := ScanRows(heap, ids), |table|;
    assert TableOk(engine.catalog, engine.heaps, name);
    ScanWide(table, heap, ids);
    QueryErrIff(plan, rows, width);
    if plan.condition.Some? {
      var quick := FromStatistics(engine, name, plan, ids);
      if quick.Some? { return Ok(quick.value); }
    }
    if Dense(plan) && table[plan.groupBy[0]].notNull && table[plan.groupBy[0]].ctype == IntegerType {
      var range := KeySpan(engine, name, plan.groupBy[0], ids);
      if range.Some? {
        r := DenseAggregate(plan, rows, width, range.value.0, range.value.1);
        return;
      }
    }
    r := ScanAndAggregate(plan, rows, width);
  }

  /** The least and greatest key, when their span is small enough for an array. */
  method KeySpan(engine: Engine, name: Name, g: nat, ghost ids: seq<RowId>) returns (span: Option<(int, int)>)
    requires engine.Valid() && name in engine.catalog && name in engine.heaps && g < |engine.catalog[name]|
    requires engine.catalog[name][g].notNull && engine.catalog[name][g].ctype == IntegerType
    requires forall i :: 0 <= i < |ids| ==> ids[i] in engine.heaps[name]
    modifies engine`ranges
    ensures engine.Valid()
    ensures span.Some? ==> span.value.0 <= span.value.1
    ensures span.Some? ==> IntegerKeys(ScanRows(engine.heaps[name], ids), g, span.value.0, span.value.1)
  {
    assert TableOk(engine.catalog, engine.heaps, name);
    var range := engine.EnsureColumnRange(name, g);
    if !range.present { return None; }
    IntegersInRange(engine.catalog[name], engine.heaps[name], ids, g, range);
    return if range.max.i - range.min.i < MaxSpan then Some((range.min.i, range.max.i)) else None;
  }

  /** The answer without a scan: no row can pass, or the number that do is known. */
  method FromStatistics(engine: Engine, name: Name, plan: Plan, ghost ids: seq<RowId>) returns (answer: Option<seq<Row>>)
    requires engine.Valid() && name in engine.catalog && name in engine.heaps && plan.condition.Some?
    requires Accepted(plan, |engine.catalog[name]|) && Enumerates(engine.heaps[name], ids)
    requires forall i :: 0 <= i < |ids| ==> ids[i] in engine.heaps[name]
    modifies engine`ranges
    ensures engine.Valid()
    ensures answer.Some? ==> Answers(plan, ScanRows(engine.heaps[name], ids), answer.value)
  {
    ghost var heap, rows, width := engine.heaps[name], ScanRows(engine.heaps[name], ids), |engine.catalog[name]|;
    var c := plan.condition.value;
    var range := engine.EnsureColumnRange(name, c.column);
    assert TableOk(engine.catalog, engine.heaps, name);
    ScanWide(engine.catalog[name], heap, ids);
    if ProvesEmpty(range, c) {
      NoneMatch(engine.catalog[name], heap, ids, range, c);
      var empty := AnswerEmpty(plan, rows, width);
      return Some(empty);
    }
    if CountsMatches(plan) && NormalizeOp(c.op, c.columnOnLeft) == Eq && !c.literal.Null? && range.counts.Some? {
      var n := CountOf(range.counts.value, c.literal);
      ColumnTyped(engine.catalog[name], heap, c.column);
      ValueCountExact(heap, TagOf(engine.catalog[name][c.column].ctype), range, c, n);
      PassingIsMatching(engine.catalog[name], heap, c, ids);
      CountAnswer(plan, rows, width);
      return Some([[Integer(n)]]);
    }
    return None;
  }
}
