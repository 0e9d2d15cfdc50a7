/** A WHERE clause that compares one column with one literal, and what column statistics say
    about it without a scan (src/native_aggregates.cpp:98-131, 283-392,
    src/native_raw.cpp:249-280). */
module ColumnPredicates {
  import opened Wrappers
  import opened RowIds
  import opened Values
  import opened Tables
  import opened ColumnStatistics
  import opened Expressions
  import opened Query

  datatype Condition = Condition(column: nat, op: Comparison, literal: Value, columnOnLeft: bool)

  function ExprOf(c: Condition): Expr {
    if c.columnOnLeft then Binary(Compares(c.op), ColumnRef(c.column), Literal(c.literal))
    else Binary(Compares(c.op), Literal(c.literal), ColumnRef(c.column))
  }

  // ------------------------------------------------------------------ matching

  /** comparisonMatches on the outcome of a comparison. */
  predicate OrderMatches(op: Comparison, order: int) {
    match op
    case Eq => order == 0
    case Ne => order != 0
    case Lt => order < 0
    case Gt => order > 0
    case Le => order <= 0
    case Ge => order >= 0
  }

  /** How the raw scans test a value. */
  predicate Matches(c: Condition, v: Value) {
    && !v.Null? && !c.literal.Null?
    && OrderMatches(c.op, if c.columnOnLeft then Compare(v, c.literal) else -Compare(v, c.literal))
  }

  /** Comparison is antisymmetric and zero exactly on equal values, whatever the types. */
  lemma CompareEqual(a: Value, b: Value)
    ensures Compare(a, b) == -Compare(b, a)
    ensures !a.Null? && !b.Null? ==> (Compare(a, b) == 0 <==> Equal(a, b))
  {
    if a.Text? && b.Text? { BytesOrder(a.text, b.text, a.text); BytesOrder(b.text, a.text, b.text); }
    if a.Blob? && b.Blob? { BytesOrder(a.blob, b.blob, a.blob); BytesOrder(b.blob, a.blob, b.blob); }
  }

  /** The raw test decides as the evaluator does. */
  lemma MatchesIsKeeps(c: Condition, row: Row)
    requires c.column < |row|
    ensures Keeps(Some(ExprOf(c)), row) == Ok(Matches(c, row[c.column]))
  {
    var v := row[c.column];
    CompareEqual(v, c.literal);
    CompareEqual(c.literal, v);
    var e := ExprOf(c);
    assert Eval(ColumnRef(c.column), row) == Ok(v) && Eval(Literal(c.literal), row) == Ok(c.literal);
    assert Eval(e, row) == if c.columnOnLeft then ApplyBinary(Compares(c.op), v, c.literal)
                           else ApplyBinary(Compares(c.op), c.literal, v);
  }

  // ------------------------------------------------------------ minimum and maximum

  function NormalizeOp(op: Comparison, columnOnLeft: bool): Comparison {
    if columnOnLeft then op
    else match op
      case Lt => Gt
      case Gt => Lt
      case Le => Ge
      case Ge => Le
      case Eq => Eq
      case Ne => Ne
  }

  /** The extrema show that no row can match. */
  predicate ProvesEmpty(r: Range, c: Condition) {
    if c.literal.Null? || !r.present then true
    else match NormalizeOp(c.op, c.columnOnLeft)
      case Eq => Compare(c.literal, r.min) < 0 || Compare(c.literal, r.max) > 0
      case Ne => Compare(r.min, c.literal) == 0 && Compare(r.max, c.literal) == 0
      case Lt => Compare(r.min, c.literal) >= 0
      case Le => Compare(r.min, c.literal) > 0
      case Gt => Compare(r.max, c.literal) <= 0
      case Ge => Compare(r.max, c.literal) < 0
  }

  /** Comparing a literal of any type with the values of one column is monotone. */
  lemma LiteralMonotone(tag: nat, a: Value, b: Value, literal: Value)
    requires InColumn(tag, a) && InColumn(tag, b) && !literal.Null? && Compare(a, b) <= 0
    ensures Compare(a, literal) <= Compare(b, literal)
  {
    if Tag(literal) == tag && !literal.Boolean? {
      ColumnOrder(tag, a, b, literal);
      ColumnOrder(tag, b, literal, a);
      ColumnOrder(tag, a, literal, b);
      CompareEqual(a, b);
      CompareEqual(b, literal);
      CompareEqual(a, literal);
    }
  }

  /** So no value between the extrema matches, for each operator and either side. */
  lemma EmptyBetween(tag: nat, r: Range, c: Condition, v: Value)
    requires InColumn(tag, v) && r.present && InColumn(tag, r.min) && InColumn(tag, r.max)
    requires Compare(r.min, v) <= 0 && Compare(v, r.max) <= 0 && ProvesEmpty(r, c)
    ensures !Matches(c, v)
  {
    if !c.literal.Null? {
      LiteralMonotone(tag, r.min, v, c.literal);
      LiteralMonotone(tag, v, r.max, c.literal);
      CompareEqual(c.literal, r.min);
      CompareEqual(c.literal, r.max);
    }
  }

  lemma ProvesEmptySound(heap: Heap, column: nat, tag: nat, r: Range, c: Condition, id: RowId)
    requires TypedColumn(heap, column, tag) && Extrema(heap, column, heap.Keys, r) && c.column == column
    requires ProvesEmpty(r, c) && id in heap
    ensures !Matches(c, Cell(heap, id, column))
  {
    assert Within(heap, column, id, r);
    if r.present {
      AttainedTyped(heap, column, heap.Keys, r.min, tag);
      AttainedTyped(heap, column, heap.Keys, r.max, tag);
      if !Cell(heap, id, column).Null? { EmptyBetween(tag, r, c, Cell(heap, id, column)); }
    }
  }

  // ---------------------------------------------------------------- value counts

  /** Looking a literal up among the counted values, by operator==. */
  method CountOf(counts: map<Value, nat>, literal: Value) returns (n: nat)
    ensures (n == 0 && forall v :: v in counts ==> !Equal(v, literal))
         || exists v :: v in counts && Equal(v, literal) && n == counts[v]
  {
    var rest := counts.Keys;
    while rest != {}
      invariant rest <= counts.Keys && forall v :: v in counts && v !in rest ==> !Equal(v, literal)
      decreases rest
    {
      var v :| v in rest;
      if Equal(v, literal) { return counts[v]; }
      rest := rest - {v};
    }
    return 0;
  }

  function MatchingIds(heap: Heap, c: Condition): set<RowId> {
    set id | id in heap && Matches(c, Cell(heap, id, c.column))
  }

  /** An exact count answers `column = literal` with the number of rows a scan would count. */
  lemma ValueCountExact(heap: Heap, tag: nat, r: Range, c: Condition, n: nat)
    requires TypedColumn(heap, c.column, tag) && Counts(heap, c.column, heap.Keys, r)
    requires r.counts.Some? && NormalizeOp(c.op, c.columnOnLeft) == Eq && !c.literal.Null?
    requires (n == 0 && forall v :: v in r.counts.value ==> !Equal(v, c.literal))
          || exists v :: v in r.counts.value && Equal(v, c.literal) && n == r.counts.value[v]
    ensures n == |MatchingIds(heap, c)|
  {
    if v :| v in r.counts.value && Equal(v, c.literal) && n == r.counts.value[v] {
      assert MatchingIds(heap, c) == Having(heap, c.column, heap.Keys, v) by {
        forall id | id in heap ensures Matches(c, Cell(heap, id, c.column)) <==> Hit(heap, c.column, id, v) {
          CountedValue(heap, tag, r, c, v, id);
        }
      }
    } else {
      assert MatchingIds(heap, c) == {} by {
        forall id | id in heap ensures !Matches(c, Cell(heap, id, c.column)) {
          var w := Cell(heap, id, c.column);
          CompareEqual(w, c.literal);
          if !w.Null? {
            assert id in Having(heap, c.column, heap.Keys, w);
            assert w in r.counts.value;
          }
        }
      }
    }
  }

  lemma CountedValue(heap: Heap, tag: nat, r: Range, c: Condition, v: Value, id: RowId)
    requires TypedColumn(heap, c.column, tag) && Counts(heap, c.column, heap.Keys, r) && id in heap
    requires r.counts.Some? && v in r.counts.value && Equal(v, c.literal) && !c.literal.Null?
    requires NormalizeOp(c.op, c.columnOnLeft) == Eq
    ensures Matches(c, Cell(heap, id, c.column)) <==> Hit(heap, c.column, id, v)
  {
    var w := Cell(heap, id, c.column);
    assert |Having(heap, c.column, heap.Keys, v)| > 0;
    var x :| x in Having(heap, c.column, heap.Keys, v);
    assert InColumn(tag, v);
    CompareEqual(w, c.literal);
    if !w.Null? {
      ColumnOrder(tag, w, v, v);
      if Equal(w, v) { EqualTransitive(w, v, c.literal); }
      if Equal(w, c.literal) { EqualTransitive(v, c.literal, v); EqualTransitive(w, c.literal, v); }
    }
  }
}
