/** The cached statistics of one column (src/native_engine.cpp:1720-1819): extrema, non-NULL
    count and, up to a limit, how often each value occurs. */
module ColumnStatistics {
  import opened Wrappers
  import opened RowIds
  import opened Values
  import opened Tables

  /** How many different values are counted exactly. */
  const ExactLimit: nat

  datatype Range = Range(present: bool, min: Value, max: Value, nonNull: nat, counts: Option<map<Value, nat>>)

  function Cell(heap: Heap, id: RowId, column: nat): Value {
    if id in heap && column < |heap[id]| then heap[id][column] else Null
  }

  ghost predicate TypedColumn(heap: Heap, column: nat, tag: nat) {
    forall id :: id in heap ==> Cell(heap, id, column).Null? || InColumn(tag, Cell(heap, id, column))
  }

  function NonNull(heap: Heap, column: nat, ids: set<RowId>): set<RowId> {
    set id | id in ids && !Cell(heap, id, column).Null?
  }

  function Having(heap: Heap, column: nat, ids: set<RowId>, v: Value): set<RowId> {
    set id | id in ids && !Cell(heap, id, column).Null? && Cell(heap, id, column) == v
  }

  ghost predicate Attained(heap: Heap, column: nat, ids: set<RowId>, v: Value) {
    exists id :: id in ids && !Cell(heap, id, column).Null? && Cell(heap, id, column) == v
  }

  ghost predicate Within(heap: Heap, column: nat, id: RowId, r: Range) {
    var v := Cell(heap, id, column);
    !v.Null? ==> r.present && Compare(r.min, v) <= 0 && Compare(v, r.max) <= 0
  }

  ghost predicate Extrema(heap: Heap, column: nat, ids: set<RowId>, r: Range) {
    && (r.present ==> Attained(heap, column, ids, r.min) && Attained(heap, column, ids, r.max))
    && (forall id :: id in ids ==> Within(heap, column, id, r))
  }

  ghost predicate Counts(heap: Heap, column: nat, ids: set<RowId>, r: Range) {
    && r.nonNull == |NonNull(heap, column, ids)|
    && (r.counts.Some? ==>
         forall v :: if v in r.counts.value then r.counts.value[v] == |Having(heap, column, ids, v)| > 0
                     else Having(heap, column, ids, v) == {})
  }

  /** What a scan of these rows finds in the column. */
  ghost predicate Describes(heap: Heap, column: nat, ids: set<RowId>, r: Range) {
    Extrema(heap, column, ids, r) && Counts(heap, column, ids, r)
  }

  const Nothing := Range(false, Null, Null, 0, Some(map[]))

  function WithExtrema(r: Range, v: Value): Range {
    if !r.present then r.(present := true, min := v, max := v)
    else
      var lower := if Compare(v, r.min) < 0 then r.(min := v) else r;
      if Compare(v, lower.max) > 0 then lower.(max := v) else lower
  }

  function WithCount(r: Range, v: Value): Range {
    var counted :=
      match r.counts
      case None => None
      case Some(m) =>
        var m' := m[v := (if v in m then m[v] else 0) + 1];
        if |m'| > ExactLimit then None else Some(m');
    r.(nonNull := r.nonNull + 1, counts := counted)
  }

  /** One more row of the scan. */
  function Noticing(r: Range, v: Value): Range {
    if v.Null? then r else WithExtrema(WithCount(r, v), v)
  }

  lemma CompareTyped(tag: nat, a: Value, b: Value, c: Value)
    requires InColumn(tag, a) && InColumn(tag, b) && InColumn(tag, c)
    ensures Compare(a, a) == 0 && (Compare(a, b) <= 0 && Compare(b, c) <= 0 ==> Compare(a, c) <= 0)
    ensures Compare(a, b) <= 0 || Compare(b, a) < 0
    ensures Compare(a, b) < 0 ==> Compare(a, b) <= 0 && Compare(b, a) > 0
  {
    ColumnOrder(tag, a, b, c);
    ColumnOrder(tag, a, a, a);
    ColumnOrder(tag, b, a, c);
    ColumnOrder(tag, b, c, a);
    ColumnOrder(tag, a, c, b);
  }

  lemma NonNullOneMore(heap: Heap, column: nat, ids: set<RowId>, id: RowId)
    requires id !in ids
    ensures NonNull(heap, column, ids + {id}) == NonNull(heap, column, ids) + if Cell(heap, id, column).Null? then {} else {id}
    ensures |NonNull(heap, column, ids + {id})| == |NonNull(heap, column, ids)| + if Cell(heap, id, column).Null? then 0 else 1
  {
    assert id !in NonNull(heap, column, ids);
  }

  predicate Hit(heap: Heap, column: nat, id: RowId, v: Value) {
    !Cell(heap, id, column).Null? && Cell(heap, id, column) == v
  }

  lemma HavingHit(heap: Heap, column: nat, ids: set<RowId>, id: RowId, v: Value)
    requires id !in ids && Hit(heap, column, id, v)
    ensures Having(heap, column, ids + {id}, v) == Having(heap, column, ids, v) + {id}
    ensures |Having(heap, column, ids + {id}, v)| == |Having(heap, column, ids, v)| + 1
  {
    assert id !in Having(heap, column, ids, v);
  }

  lemma HavingMiss(heap: Heap, column: nat, ids: set<RowId>, id: RowId, v: Value)
    requires id !in ids && !Hit(heap, column, id, v)
    ensures Having(heap, column, ids + {id}, v) == Having(heap, column, ids, v)
  {
  }

  lemma CountOneMore(heap: Heap, column: nat, ids: set<RowId>, id: RowId, m: map<Value, nat>, v: Value, w: Value)
    requires id !in ids && v == Cell(heap, id, column) && !v.Null?
    requires if w in m then m[w] == |Having(heap, column, ids, w)| > 0 else Having(heap, column, ids, w) == {}
    ensures var m' := m[v := (if v in m then m[v] else 0) + 1];
      if w in m' then m'[w] == |Having(heap, column, ids + {id}, w)| > 0 else Having(heap, column, ids + {id}, w) == {}
  {
    if w == v { HavingHit(heap, column, ids, id, w); } else { HavingMiss(heap, column, ids, id, w); }
  }

  lemma CountsOneMore(heap: Heap, column: nat, ids: set<RowId>, id: RowId, r: Range)
    requires id !in ids && Counts(heap, column, ids, r)
    ensures Counts(heap, column, ids + {id}, Noticing(r, Cell(heap, id, column)))
  {
    var r' := Noticing(r, Cell(heap, id, column));
    NonNullOneMore(heap, column, ids, id);
    if r'.counts.Some? {
      forall v ensures if v in r'.counts.value then r'.counts.value[v] == |Having(heap, column, ids + {id}, v)| > 0
                       else Having(heap, column, ids + {id}, v) == {}
      {
        if Cell(heap, id, column).Null? { HavingMiss(heap, column, ids, id, v); }
        else { CountOneMore(heap, column, ids, id, r.counts.value, Cell(heap, id, column), v); }
      }
    }
  }

  lemma BoundsWiden(tag: nat, r: Range, v: Value, w: Value)
    requires r.present && InColumn(tag, r.min) && InColumn(tag, r.max) && InColumn(tag, v) && InColumn(tag, w)
    requires Compare(r.min, w) <= 0 && Compare(w, r.max) <= 0
    ensures Compare(WithExtrema(r, v).min, w) <= 0 && Compare(w, WithExtrema(r, v).max) <= 0
  {
    CompareTyped(tag, v, r.min, w);
    CompareTyped(tag, w, r.max, v);
  }

  lemma BoundsInclude(tag: nat, r: Range, v: Value)
    requires InColumn(tag, v) && (r.present ==> InColumn(tag, r.min) && InColumn(tag, r.max))
    ensures var r' := WithExtrema(r, v); r'.present && Compare(r'.min, v) <= 0 && Compare(v, r'.max) <= 0
  {
    CompareTyped(tag, v, v, v);
    if r.present {
      CompareTyped(tag, r.min, v, v);
      CompareTyped(tag, v, r.max, v);
    }
  }

  lemma AttainedTyped(heap: Heap, column: nat, ids: set<RowId>, v: Value, tag: nat)
    requires TypedColumn(heap, column, tag) && Attained(heap, column, ids, v)
    ensures InColumn(tag, v)
  {
    var id :| id in ids && !Cell(heap, id, column).Null? && Cell(heap, id, column) == v;
    assert id in heap;
  }

  lemma AttainedMore(heap: Heap, column: nat, ids: set<RowId>, id: RowId, v: Value)
    requires Attained(heap, column, ids, v) || (!v.Null? && Cell(heap, id, column) == v)
    ensures Attained(heap, column, ids + {id}, v)
  {
    if Attained(heap, column, ids, v) {
      var x :| x in ids && !Cell(heap, x, column).Null? && Cell(heap, x, column) == v;
      assert x in ids + {id};
    } else {
      assert id in ids + {id};
    }
  }

  lemma ExtremaOneMore(heap: Heap, column: nat, ids: set<RowId>, id: RowId, r: Range, tag: nat)
    requires TypedColumn(heap, column, tag) && Extrema(heap, column, ids, r)
    ensures Extrema(heap, column, ids + {id}, Noticing(r, Cell(heap, id, column)))
  {
    var v := Cell(heap, id, column);
    var r' := Noticing(r, v);
    if r.present {
      AttainedTyped(heap, column, ids, r.min, tag);
      AttainedTyped(heap, column, ids, r.max, tag);
    }
    if r'.present {
      AttainedMore(heap, column, ids, id, r'.min);
      AttainedMore(heap, column, ids, id, r'.max);
    }
    forall x | x in ids + {id} ensures Within(heap, column, x, r') {
      var w := Cell(heap, x, column);
      if !w.Null? && !v.Null? {
        assert x in heap && id in heap;
        BoundsInclude(tag, r, v);
        if x in ids {
          assert Within(heap, column, x, r);
          BoundsWiden(tag, r, v, w);
        }
      } else if x in ids {
        assert Within(heap, column, x, r);
      }
    }
  }

  /** The scan that fills the cache. */
  method Build(heap: Heap, column: nat, ghost tag: nat) returns (r: Range)
    requires TypedColumn(heap, column, tag)
    ensures Describes(heap, column, heap.Keys, r)
  {
    r := Nothing;
    var rest := heap.Keys;
    ghost var done: set<RowId> := {};
    assert NonNull(heap, column, {}) == {};
    while rest != {}
      invariant done + rest == heap.Keys && done !! rest && Describes(heap, column, done, r)
      decreases rest
    {
      var id :| id in rest;
      CountsOneMore(heap, column, done, id, r);
      ExtremaOneMore(heap, column, done, id, r, tag);
      r := Noticing(r, Cell(heap, id, column));
      rest, done := rest - {id}, done + {id};
    }
    assert done == heap.Keys;
  }
}
