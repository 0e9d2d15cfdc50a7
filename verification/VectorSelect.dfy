/** executeVectorizedSelect (src/native_vectorized.cpp:439-807): a SELECT over one table, batch
    by batch. However the scan cuts the rows into batches, the answer is that of the query. */
module VectorSelect {
  import opened Wrappers
  import opened Values
  import opened Expressions
  import opened Query
  import opened AggregateStates
  import opened GroupedQueries
  import DirectAggregates
  import opened TypedVectors
  import opened VectorEvaluation
  import opened VectorGroups
  import opened Streaming

  // ------------------------------------------------------------ decoded columns

  /** The columns that the statement mentions. */
  function Mentioned(s: Select, width: nat): set<nat> {
    (if s.where.None? then {} else Uses(s.where.value, width))
    + (set i, c | 0 <= i < |s.groupBy| && c in Uses(s.groupBy[i], width) :: c)
    + (set i, c | 0 <= i < |s.columns| && c in Uses(s.columns[i], width) :: c)
  }

  /** All columns are decoded, in order. */
  predicate Whole(required: seq<nat>, width: nat) {
    |required| == width && forall k :: 0 <= k < width ==> required[k] == k
  }

  /** In ascending order; an unknown column is an error. */
  method RequiredColumns(s: Select, width: nat) returns (r: Result<seq<nat>, EvalError>)
    ensures r.Err? <==> exists c :: c in Mentioned(s, width) && c >= width
    ensures r.Ok? ==> (forall c :: c in Mentioned(s, width) <==> c in r.value)
    ensures r.Ok? ==> forall i, j :: 0 <= i < j < |r.value| ==> r.value[i] < r.value[j]
    ensures r.Ok? && (forall c :: 0 <= c < width ==> c in Mentioned(s, width)) ==> Whole(r.value, width)
  {
    var mentioned := Mentioned(s, width);
    if c :| c in mentioned && c >= width { return Err(UnknownColumnError); }
    var required: seq<nat> := [];
    for c := 0 to width
      invariant forall x :: x in required <==> x in mentioned && x < c
      invariant forall i, j :: 0 <= i < j < |required| ==> required[i] < required[j]
      invariant (forall x :: 0 <= x < c ==> x in mentioned) ==> Whole(required, c)
    {
      if c in mentioned {
        forall i | 0 <= i < |required| ensures required[i] < c {
          assert required[i] in required;
        }
        required := required + [c];
      }
    }
    return Ok(required);
  }

  lemma MentionedDecoded(s: Select, required: seq<nat>, width: nat)
    requires forall c :: c in Mentioned(s, width) ==> c in required
    ensures s.where.Some? ==> Decoded(s.where.value, required, width)
    ensures forall k :: 0 <= k < |VectorsOf(s)| ==> Decoded(VectorsOf(s)[k], required, width)
  {
    forall k | 0 <= k < |VectorsOf(s)| ensures Decoded(VectorsOf(s)[k], required, width) {
      if k < |s.groupBy| {
        assert VectorsOf(s)[k] == s.groupBy[k];
      } else {
        var e := s.columns[k - |s.groupBy|];
        assert VectorsOf(s)[k] == OperandOf(e);
        OperandUses(e, width);
        forall c | c in Uses(OperandOf(e), width) ensures c in required {
          assert c in Uses(e, width);
        }
      }
    }
  }

  lemma OperandUses(e: Expr, width: nat)
    ensures Uses(OperandOf(e), width) <= Uses(e, width)
  {
  }

  // ------------------------------------------------------------------ one batch

  method BuildColumn(column: nat, kinds: seq<Kind>, rows: seq<Row>) returns (v: TypedVector)
    requires TypedRows(kinds, rows) && column < |kinds|
    ensures fresh(v) && Shows(v, ColumnRef(column), rows)
  {
    v := new TypedVector(kinds[column]);
    for i := 0 to |rows|
      invariant fresh(v) && v.size == i && ShowsUpTo(v, ColumnRef(column), kinds[column], rows, i)
    {
      assert TypedRow(kinds, rows[i]);
      AppendNext(v, rows[i][column], ColumnRef(column), kinds, rows);
    }
  }

  method BuildBatch(required: seq<nat>, kinds: seq<Kind>, rows: seq<Row>) returns (columns: seq<TypedVector>)
    requires TypedRows(kinds, rows) && forall k :: 0 <= k < |required| ==> required[k] < |kinds|
    ensures Batch(columns, required, kinds, rows)
  {
    columns := [];
    for k := 0 to |required|
      invariant |columns| == k && forall j :: 0 <= j < k ==> Shows(columns[j], ColumnRef(required[j]), rows)
    {
      var v := BuildColumn(required[k], kinds, rows);
      columns := columns + [v];
    }
  }

  ghost predicate VectorsShow(vs: seq<TypedVector>, es: seq<Expr>, rows: seq<Row>)
    reads vs
  {
    |vs| == |es| && forall k :: 0 <= k < |es| ==> Shows(vs[k], es[k], rows)
  }

  method EvalVectors(es: seq<Expr>, columns: seq<TypedVector>, required: seq<nat>, ghost kinds: seq<Kind>,
                     ghost rows: seq<Row>, count: nat)
    returns (r: Result<seq<TypedVector>, EvalError>)
    requires Batch(columns, required, kinds, rows) && count == |rows| > 0
    requires forall k :: 0 <= k < |es| ==> Decoded(es[k], required, |kinds|)
    ensures r.Ok? ==> VectorsShow(r.value, es, rows)
    ensures r.Err? ==> exists k :: 0 <= k < |es| && Fails(es[k], rows)
  {
    var vs: seq<TypedVector> := [];
    for k := 0 to |es|
      invariant |vs| == k && forall j :: 0 <= j < k ==> Shows(vs[j], es[j], rows)
    {
      var v := EvalVector(es[k], columns, required, kinds, rows, count);
      if v.Err? { return Err(v.error); }
      vs := vs + [v.value];
    }
    return Ok(vs);
  }

  /** Without WHERE a vector of true stands in for the condition. */
  function ConditionOf(s: Select): Expr {
    if s.where.None? then Literal(Boolean(true)) else s.where.value
  }

  lemma ConditionKeeps(s: Select, row: Row)
    ensures Eval(ConditionOf(s), row).Ok? ==> Keeps(s.where, row) == Ok(AsBoolean(ValueOn(ConditionOf(s), row)))
  {
  }

  method ReadVectors(vs: seq<TypedVector>, ghost es: seq<Expr>, ghost rows: seq<Row>, i: nat) returns (d: Row)
    requires VectorsShow(vs, es, rows) && i < |rows|
    ensures d == Derived(es, rows[i])
  {
    d := [];
    for k := 0 to |vs|
      invariant |d| == k && forall j :: 0 <= j < k ==> d[j] == ValueOn(es[j], rows[i])
    {
      var v := vs[k].ValueAt(i);
      assert Eval(es[k], rows[i]) == Ok(v);
      d := d + [v];
    }
  }

  // -------------------------------------------------------------- grouped batches

  /** A SUM or AVG meets a value that is no number. */
  predicate Summing(s: Select, kept: seq<Row>) {
    exists i :: 0 <= i < |kept| && DirectAggregates.NonNumber(ProjectionsOf(s), Derived(VectorsOf(s), kept[i]))
  }

  /** No vector is evaluated for a wildcard, and the first row that a group takes reads it. */
  predicate Unevaluated(s: Select, kept: seq<Row>) {
    Wildcard in s.columns && kept != []
  }

  /** Where grouping the kept rows fails. */
  predicate Stops(s: Select, kept: seq<Row>) {
    Summing(s, kept) || Unevaluated(s, kept)
  }

  lemma StopsBoth(s: Select, a: seq<Row>, b: seq<Row>)
    ensures Stops(s, a + b) <==> Stops(s, a) || Stops(s, b)
  {
    if Summing(s, a) {
      var i :| 0 <= i < |a| && DirectAggregates.NonNumber(ProjectionsOf(s), Derived(VectorsOf(s), a[i]));
      assert (a + b)[i] == a[i];
    }
    if Summing(s, b) {
      var i :| 0 <= i < |b| && DirectAggregates.NonNumber(ProjectionsOf(s), Derived(VectorsOf(s), b[i]));
      assert (a + b)[|a| + i] == b[i];
    }
  }

  lemma FilterNext(where: Option<Expr>, rows: seq<Row>, i: nat, kept: seq<Row>)
    requires i < |rows| && Filter(where, rows[..i]) == Ok(kept) && Keeps(where, rows[i]).Ok?
    ensures Filter(where, rows[..i + 1]) == Ok(if Keeps(where, rows[i]).value then kept + [rows[i]] else kept)
  {
    assert rows[..i + 1][..i] == rows[..i];
  }

  lemma FilterLast(where: Option<Expr>, rows: seq<Row>, n: nat)
    requires |rows| == n + 1 && Filter(where, rows).Ok?
    ensures rows == rows[..n] + [rows[n]] && Filter(where, rows[..n]).Ok? && Keeps(where, rows[n]).Ok?
  {
  }

  lemma {:induction false} FilterConcat(where: Option<Expr>, a: seq<Row>, b: seq<Row>)
    requires Filter(where, a).Ok? && Filter(where, b).Ok?
    ensures Filter(where, a + b) == Ok(Filter(where, a).value + Filter(where, b).value)
  {
    if b == [] {
      assert a + b == a && Filter(where, a).value + [] == Filter(where, a).value;
    } else {
      var n := |b| - 1;
      FilterLast(where, b, n);
      FilterConcat(where, a, b[..n]);
      FilterSnoc(where, b[..n], b[n]);
      FilterSnoc(where, a + b[..n], b[n]);
      Regroup(a, b[..n], [b[n]]);
      Regroup(Filter(where, a).value, Filter(where, b[..n]).value, [b[n]]);
    }
  }

  lemma Regroup(a: seq<Row>, b: seq<Row>, c: seq<Row>)
    ensures (a + b) + c == a + (b + c)
  {
  }

  method GroupRow(s: Select, states: seq<DirectAggregates.GroupState>, d: Row, ghost kept: seq<Row>, ghost row: Row)
    returns (r: Result<seq<DirectAggregates.GroupState>, EvalError>)
    requires StandFor(s, kept, states) && d == Derived(VectorsOf(s), row)
    ensures r.Err? <==> Stops(s, [row])
    ensures r.Ok? ==> StandFor(s, kept + [row], r.value)
  {
    if Wildcard in s.columns { return Err(MissingVector); }
    r := DirectAggregates.AddRow(ProjectionsOf(s), KeyColumns(|s.groupBy|), states, d, DerivedGroups(s, kept));
    DerivedNext(s, kept, row);
    assert [row][0] == row;
  }

  method GroupBatch(s: Select, condition: TypedVector, vs: seq<TypedVector>, rows: seq<Row>,
                    start: seq<DirectAggregates.GroupState>, ghost before: seq<Row>)
    returns (r: Result<seq<DirectAggregates.GroupState>, EvalError>, ghost more: seq<Row>)
    requires Shows(condition, ConditionOf(s), rows) && VectorsShow(vs, VectorsOf(s), rows) && StandFor(s, before, start)
    ensures Filter(s.where, rows) == Ok(more)
    ensures r.Err? <==> Stops(s, more)
    ensures r.Ok? ==> StandFor(s, before + more, r.value)
  {
    var states := start;
    more := [];
    FilterSucceeds(s, condition, rows);
    assert before + more == before;
    for i := 0 to |rows|
      invariant Filter(s.where, rows[..i]) == Ok(more) && !Stops(s, more) && StandFor(s, before + more, states)
    {
      var holds := condition.ValueAt(i);
      var next;
      next, more := GroupNext(s, holds, vs, rows, i, states, before, more);
      if next.Err? {
        StopsLater(s, rows, i + 1, more);
        return Err(next.error), Filter(s.where, rows).value;
      }
      states := next.value;
    }
    assert rows[..|rows|] == rows;
    return Ok(states), more;
  }

  /** One row of the batch. */
  method GroupNext(s: Select, holds: Value, vs: seq<TypedVector>, rows: seq<Row>, i: nat,
                   states: seq<DirectAggregates.GroupState>, ghost before: seq<Row>, ghost more: seq<Row>)
    returns (r: Result<seq<DirectAggregates.GroupState>, EvalError>, ghost after: seq<Row>)
    requires i < |rows| && Eval(ConditionOf(s), rows[i]) == Ok(holds) && VectorsShow(vs, VectorsOf(s), rows)
    requires Filter(s.where, rows[..i]) == Ok(more) && !Stops(s, more) && StandFor(s, before + more, states)
    ensures Filter(s.where, rows[..i + 1]) == Ok(after)
    ensures r.Err? <==> Stops(s, after)
    ensures r.Ok? ==> StandFor(s, before + after, r.value)
  {
    KeptNext(s, rows, i, more);
    if !AsBoolean(holds) { return Ok(states), more; }
    var d := ReadVectors(vs, VectorsOf(s), rows, i);
    r := GroupRow(s, states, d, before + more, rows[i]);
    Regroup(before, more, [rows[i]]);
    after := more + [rows[i]];
  }

  lemma KeptNext(s: Select, rows: seq<Row>, i: nat, more: seq<Row>)
    requires i < |rows| && Eval(ConditionOf(s), rows[i]).Ok? && Filter(s.where, rows[..i]) == Ok(more)
    ensures Filter(s.where, rows[..i + 1])
         == Ok(if AsBoolean(Eval(ConditionOf(s), rows[i]).value) then more + [rows[i]] else more)
    ensures Stops(s, more + [rows[i]]) <==> Stops(s, more) || Stops(s, [rows[i]])
  {
    ConditionKeeps(s, rows[i]);
    FilterNext(s.where, rows, i, more);
    StopsBoth(s, more, [rows[i]]);
  }

  lemma {:induction false} FilterTotal(where: Option<Expr>, rows: seq<Row>)
    requires forall i :: 0 <= i < |rows| ==> Keeps(where, rows[i]).Ok?
    ensures Filter(where, rows).Ok?
  {
    if rows != [] { FilterTotal(where, rows[..|rows| - 1]); }
  }

  lemma FilterSucceeds(s: Select, condition: TypedVector, rows: seq<Row>)
    requires Shows(condition, ConditionOf(s), rows)
    ensures Filter(s.where, rows).Ok?
  {
    forall i | 0 <= i < |rows| ensures Keeps(s.where, rows[i]).Ok? {
      ConditionKeeps(s, rows[i]);
    }
    FilterTotal(s.where, rows);
  }

  lemma StopsLater(s: Select, rows: seq<Row>, i: nat, kept: seq<Row>)
    requires i <= |rows| && Filter(s.where, rows).Ok? && Filter(s.where, rows[..i]) == Ok(kept) && Stops(s, kept)
    ensures Stops(s, Filter(s.where, rows).value)
  {
    FilterPrefix(s.where, rows, i, kept);
    var rest :| Filter(s.where, rows).value == kept + rest;
    StopsBoth(s, kept, rest);
  }

  lemma FilterPrefix(where: Option<Expr>, rows: seq<Row>, i: nat, kept: seq<Row>)
    requires i <= |rows| && Filter(where, rows).Ok? && Filter(where, rows[..i]) == Ok(kept)
    ensures exists rest :: Filter(where, rows).value == kept + rest
  {
    assert rows == rows[..i] + rows[i..];
    FilterSplit(where, rows[..i], rows[i..]);
    FilterConcat(where, rows[..i], rows[i..]);
  }

  lemma {:induction false} FilterSplit(where: Option<Expr>, a: seq<Row>, b: seq<Row>)
    requires Filter(where, a + b).Ok?
    ensures Filter(where, a).Ok? && Filter(where, b).Ok?
  {
    if b == [] {
      assert a + b == a;
    } else {
      assert (a + b)[..|a + b| - 1] == a + b[..|b| - 1];
      FilterSplit(where, a, b[..|b| - 1]);
    }
  }

  // ------------------------------------------------------------ ungrouped batches

  /** One output row from the row's operands; a wildcard shows all columns. */
  function Shown(columns: seq<Expr>, operands: Row, whole: Row): Row
    requires |operands| == |columns|
  {
    if columns == [] then []
    else
      var n := |columns| - 1;
      Shown(columns[..n], operands[..n], whole) + if columns[n].Wildcard? then whole else [operands[n]]
  }

  method ShowRow(columns: seq<Expr>, operands: Row, whole: Row) returns (output: Row)
    requires |operands| == |columns|
    ensures output == Shown(columns, operands, whole)
  {
    output := [];
    for k := 0 to |columns|
      invariant output == Shown(columns[..k], operands[..k], whole)
    {
      assert columns[..k + 1][..k] == columns[..k] && operands[..k + 1][..k] == operands[..k];
      output := output + if columns[k].Wildcard? then whole else [operands[k]];
    }
    assert columns[..|columns|] == columns && operands[..|columns|] == operands;
  }

  lemma {:induction false} ShownIsProject(columns: seq<Expr>, row: Row)
    requires forall k :: 0 <= k < |columns| ==> !columns[k].Call? && Eval(OperandOf(columns[k]), row).Ok?
    ensures Project(columns, row) == Ok(Shown(columns, Derived(OperandsOf(columns), row), row))
  {
    if columns != [] {
      var n := |columns| - 1;
      ShownIsProject(columns[..n], row);
      assert Derived(OperandsOf(columns), row)[..n] == Derived(OperandsOf(columns[..n]), row);
    }
  }

  /** Rows that the projected output consists of. */
  ghost predicate Renders(s: Select, kept: seq<Row>, result: seq<Row>) {
    RowOutputs(s, kept).Ok? && ValuesOf(RowOutputs(s, kept).value) == result
  }

  lemma ShowsNext(s: Select, kept: seq<Row>, result: seq<Row>, row: Row, output: Row)
    requires Renders(s, kept, result) && s.orderBy == [] && Project(s.columns, row) == Ok(output)
    ensures Renders(s, kept + [row], result + [output])
  {
    assert (kept + [row])[..|kept|] == kept && KeyExprs(s.orderBy) == [];
    assert RowOutput(s, row) == Ok(Output(output, []));
    var os := RowOutputs(s, kept).value;
    assert ValuesOf(os + [Output(output, [])]) == ValuesOf(os) + [output];
  }

  method OutputBatch(s: Select, condition: TypedVector, vs: seq<TypedVector>, columns: seq<TypedVector>,
                     ghost required: seq<nat>, ghost kinds: seq<Kind>, rows: seq<Row>, start: seq<Row>, ghost before: seq<Row>)
    returns (result: seq<Row>, ghost more: seq<Row>)
    requires Vectorizable(s) && !Grouped(s)
    requires Shows(condition, ConditionOf(s), rows) && VectorsShow(vs, VectorsOf(s), rows)
    requires Batch(columns, required, kinds, rows) && Renders(s, before, start)
    requires (exists k :: 0 <= k < |s.columns| && s.columns[k].Wildcard?) ==> Whole(required, |kinds|)
    ensures Filter(s.where, rows) == Ok(more) && Renders(s, before + more, result)
  {
    result, more := start, [];
    assert before + more == before;
    for i := 0 to |rows|
      invariant Filter(s.where, rows[..i]) == Ok(more) && Renders(s, before + more, result)
    {
      var holds := condition.ValueAt(i);
      result, more := OutputNext(s, holds, vs, columns, required, kinds, rows, i, result, before, more);
    }
    assert rows[..|rows|] == rows;
  }

  method OutputNext(s: Select, holds: Value, vs: seq<TypedVector>, columns: seq<TypedVector>,
                    ghost required: seq<nat>, ghost kinds: seq<Kind>, rows: seq<Row>, i: nat, result: seq<Row>,
                    ghost before: seq<Row>, ghost more: seq<Row>)
    returns (result': seq<Row>, ghost after: seq<Row>)
    requires i < |rows| && Eval(ConditionOf(s), rows[i]) == Ok(holds) && VectorsShow(vs, VectorsOf(s), rows)
    requires Vectorizable(s) && !Grouped(s) && Batch(columns, required, kinds, rows)
    requires (exists k :: 0 <= k < |s.columns| && s.columns[k].Wildcard?) ==> Whole(required, |kinds|)
    requires Filter(s.where, rows[..i]) == Ok(more) && Renders(s, before + more, result)
    ensures Filter(s.where, rows[..i + 1]) == Ok(after) && Renders(s, before + after, result')
  {
    KeptNext(s, rows, i, more);
    if !AsBoolean(holds) { return result, more; }
    var d := ReadVectors(vs, VectorsOf(s), rows, i);
    var whole := ReadColumns(columns, required, kinds, rows, i);
    var output := ShowRow(s.columns, d, whole);
    ProjectedRow(s, vs, required, kinds, rows, i, d, whole);
    ShowsNext(s, before + more, result, rows[i], output);
    Regroup(before, more, [rows[i]]);
    return result + [output], more + [rows[i]];
  }

  method ReadColumns(columns: seq<TypedVector>, ghost required: seq<nat>, ghost kinds: seq<Kind>, ghost rows: seq<Row>, i: nat)
    returns (whole: Row)
    requires Batch(columns, required, kinds, rows) && i < |rows|
    ensures Whole(required, |kinds|) ==> whole == rows[i]
  {
    whole := [];
    for k := 0 to |columns|
      invariant |whole| == k && forall j :: 0 <= j < k ==> Eval(ColumnRef(required[j]), rows[i]) == Ok(whole[j])
    {
      var v := columns[k].ValueAt(i);
      whole := whole + [v];
    }
    assert TypedRow(kinds, rows[i]);
  }

  lemma ProjectedRow(s: Select, vs: seq<TypedVector>, required: seq<nat>, kinds: seq<Kind>, rows: seq<Row>, i: nat, d: Row, whole: Row)
    requires Vectorizable(s) && !Grouped(s) && i < |rows| && VectorsShow(vs, VectorsOf(s), rows)
    requires d == Derived(VectorsOf(s), rows[i]) && (Whole(required, |kinds|) ==> whole == rows[i])
    requires (exists k :: 0 <= k < |s.columns| && s.columns[k].Wildcard?) ==> Whole(required, |kinds|)
    ensures Project(s.columns, rows[i]) == Ok(Shown(s.columns, d, whole))
  {
    assert s.groupBy == [] && VectorsOf(s) == OperandsOf(s.columns);
    forall k | 0 <= k < |s.columns| ensures !s.columns[k].Call? && Eval(OperandOf(s.columns[k]), rows[i]).Ok? {
      assert s.columns[k].Call? ==> HasAggregate(s.columns[k]);
      assert Shows(vs[k], VectorsOf(s)[k], rows);
    }
    ShownIsProject(s.columns, rows[i]);
    if forall k :: 0 <= k < |s.columns| ==> !s.columns[k].Wildcard? { ShownIgnoresWhole(s.columns, d, whole, rows[i]); }
  }

  lemma {:induction false} ShownIgnoresWhole(columns: seq<Expr>, operands: Row, a: Row, b: Row)
    requires |operands| == |columns| && forall k :: 0 <= k < |columns| ==> !columns[k].Wildcard?
    ensures Shown(columns, operands, a) == Shown(columns, operands, b)
  {
    if columns != [] { ShownIgnoresWhole(columns[..|columns| - 1], operands[..|columns| - 1], a, b); }
  }

  // ------------------------------------------------------------------ the query

  function Flat(batches: seq<seq<Row>>): seq<Row> {
    if batches == [] then [] else Flat(batches[..|batches| - 1]) + batches[|batches| - 1]
  }

  /** Where the vectorised path gives up: an expression fails on some row, whether or not the
      row passes the filter, or a sum over the rows that do meets a value that is no number, or
      such a row is grouped under a wildcard. */
  ghost predicate Trouble(s: Select, rows: seq<Row>) {
    || Fails(ConditionOf(s), rows)
    || (exists k :: 0 <= k < |VectorsOf(s)| && Fails(VectorsOf(s)[k], rows))
    || (Grouped(s) && Filter(s.where, rows).Ok? && Stops(s, Filter(s.where, rows).value))
  }

  lemma FailsStays(e: Expr, a: seq<Row>, b: seq<Row>)
    ensures Fails(e, a + b) <==> Fails(e, a) || Fails(e, b)
  {
    if Fails(e, a) {
      var i :| 0 <= i < |a| && Eval(e, a[i]).Err?;
      assert (a + b)[i] == a[i];
    }
    if Fails(e, b) {
      var i :| 0 <= i < |b| && Eval(e, b[i]).Err?;
      assert (a + b)[|a| + i] == b[i];
    }
  }

  lemma TroubleStays(s: Select, a: seq<Row>, b: seq<Row>)
    requires Trouble(s, a)
    ensures Trouble(s, a + b)
  {
    FailsStays(ConditionOf(s), a, b);
    if k :| 0 <= k < |VectorsOf(s)| && Fails(VectorsOf(s)[k], a) {
      FailsStays(VectorsOf(s)[k], a, b);
    } else if !Fails(ConditionOf(s), a + b) {
      ConditionTotal(s, a + b);
      FilterSplit(s.where, a, b);
      FilterConcat(s.where, a, b);
      StopsBoth(s, Filter(s.where, a).value, Filter(s.where, b).value);
    }
  }

  lemma ConditionTotal(s: Select, rows: seq<Row>)
    requires !Fails(ConditionOf(s), rows)
    ensures Filter(s.where, rows).Ok?
  {
    forall i | 0 <= i < |rows| ensures Keeps(s.where, rows[i]).Ok? {
      assert Eval(ConditionOf(s), rows[i]).Ok?;
      ConditionKeeps(s, rows[i]);
    }
    FilterTotal(s.where, rows);
  }

  datatype Progress = Grouping(states: seq<DirectAggregates.GroupState>) | Listing(rows: seq<Row>)

  /** What is known after these rows, of which the filter kept some. */
  ghost predicate Reached(s: Select, kinds: seq<Kind>, rows: seq<Row>, kept: seq<Row>, p: Progress) {
    && TypedRows(kinds, rows) && Succeeds(ConditionOf(s), rows) && AllSucceed(VectorsOf(s), rows)
    && Filter(s.where, rows) == Ok(kept) && GroupedAs(s, kept, p)
  }

  ghost predicate GroupedAs(s: Select, kept: seq<Row>, p: Progress) {
    match p
    case Grouping(states) => Grouped(s) && StandFor(s, kept, states) && !Stops(s, kept)
    case Listing(result) => !Grouped(s) && Renders(s, kept, result)
  }

  lemma ReachedMore(s: Select, kinds: seq<Kind>, rows: seq<Row>, kept: seq<Row>, p: Progress, batch: seq<Row>, more: seq<Row>, p': Progress)
    requires Reached(s, kinds, rows, kept, p) && TypedRows(kinds, batch)
    requires Succeeds(ConditionOf(s), batch) && AllSucceed(VectorsOf(s), batch) && Filter(s.where, batch) == Ok(more)
    requires GroupedAs(s, kept + more, p')
    ensures Reached(s, kinds, rows + batch, kept + more, p')
  {
    FilterConcat(s.where, rows, batch);
    forall k | 0 <= k < |VectorsOf(s)| ensures Succeeds(VectorsOf(s)[k], rows + batch) {
      assert Succeeds(VectorsOf(s)[k], rows) && Succeeds(VectorsOf(s)[k], batch);
    }
  }

  method OneBatch(s: Select, batch: seq<Row>, required: seq<nat>, kinds: seq<Kind>, p: Progress,
                  ghost rows: seq<Row>, ghost kept: seq<Row>)
    returns (r: Result<Progress, EvalError>, ghost more: seq<Row>)
    requires Vectorizable(s) && batch != [] && TypedRows(kinds, batch) && Reached(s, kinds, rows, kept, p)
    requires Suited(s, required, |kinds|)
    ensures r.Ok? ==> Reached(s, kinds, rows + batch, kept + more, r.value)
    ensures r.Err? ==> Trouble(s, rows + batch)
  {
    var columns := BuildBatch(required, kinds, batch);
    MentionedDecoded(s, required, |kinds|);
    more := [];
    var condition := EvalVector(ConditionOf(s), columns, required, kinds, batch, |batch|);
    if condition.Err? {
      FailsStays(ConditionOf(s), rows, batch);
      return Err(condition.error), more;
    }
    var vs := EvalVectors(VectorsOf(s), columns, required, kinds, batch, |batch|);
    if vs.Err? {
      ghost var k :| 0 <= k < |VectorsOf(s)| && Fails(VectorsOf(s)[k], batch);
      FailsStays(VectorsOf(s)[k], rows, batch);
      return Err(vs.error), more;
    }
    VectorsSucceed(vs.value, VectorsOf(s), batch);
    r, more := TakeBatch(s, condition.value, vs.value, columns, required, kinds, batch, p, kept);
    if r.Err? {
      FilterConcat(s.where, rows, batch);
      StopsBoth(s, kept, more);
    } else {
      ReachedMore(s, kinds, rows, kept, p, batch, more, r.value);
    }
  }

  lemma VectorsSucceed(vs: seq<TypedVector>, es: seq<Expr>, rows: seq<Row>)
    requires VectorsShow(vs, es, rows)
    ensures AllSucceed(es, rows)
  {
    forall k | 0 <= k < |es| ensures Succeeds(es[k], rows) {
      assert Shows(vs[k], es[k], rows);
    }
  }

  /** What the scan decodes is what the statement mentions. */
  ghost predicate Suited(s: Select, required: seq<nat>, width: nat) {
    && (forall c :: c in Mentioned(s, width) <==> c in required)
    && (forall k :: 0 <= k < |required| ==> required[k] < width)
    && ((exists k :: 0 <= k < |s.columns| && s.columns[k].Wildcard?) ==> Whole(required, width))
  }

  method TakeBatch(s: Select, condition: TypedVector, vs: seq<TypedVector>, columns: seq<TypedVector>,
                   ghost required: seq<nat>, ghost kinds: seq<Kind>, batch: seq<Row>, p: Progress, ghost kept: seq<Row>)
    returns (r: Result<Progress, EvalError>, ghost more: seq<Row>)
    requires Vectorizable(s) && GroupedAs(s, kept, p)
    requires Shows(condition, ConditionOf(s), batch) && VectorsShow(vs, VectorsOf(s), batch)
    requires Batch(columns, required, kinds, batch) && Suited(s, required, |kinds|)
    ensures Filter(s.where, batch) == Ok(more)
    ensures r.Err? ==> Grouped(s) && Stops(s, more)
    ensures r.Ok? ==> GroupedAs(s, kept + more, r.value)
  {
    match p
    case Grouping(states) =>
      var next;
      next, more := GroupBatch(s, condition, vs, batch, states, kept);
      if next.Err? { return Err(next.error), more; }
      StopsBoth(s, kept, more);
      r := Ok(Grouping(next.value));
    case Listing(result) =>
      var next;
      next, more := OutputBatch(s, condition, vs, columns, required, kinds, batch, result, kept);
      r := Ok(Listing(next));
  }

  /** A column that the table does not have. */
  ghost predicate Unknown(s: Select, width: nat) {
    exists c :: c in Mentioned(s, width) && c >= width
  }

  /** For every way to cut the rows into batches: it fails exactly on an unknown column, a failing
      expression, a sum over a value that is no number or a row grouped under a wildcard; its groups depend on the rows alone;
      and it answers the query, if grouped with the projections being GROUP BY expressions. */
  method VectorizedSelect(s: Select, batches: seq<seq<Row>>, kinds: seq<Kind>) returns (r: Result<seq<Row>, EvalError>)
    requires Vectorizable(s)
    requires forall i :: 0 <= i < |batches| ==> batches[i] != [] && TypedRows(kinds, batches[i])
    ensures r.Err? <==> Unknown(s, |kinds|) || Trouble(s, Flat(batches))
    ensures r.Ok? && Grouped(s) ==> Summarizes(s, Flat(batches), r.value)
    ensures r.Ok? && (Grouped(s) ==> Comparable(s)) ==> Run(s, Flat(batches)) == r
    ensures r.Ok? ==> Untroubled(s, kinds, Flat(batches))
  {
    var required := RequiredColumns(s, |kinds|);
    if required.Err? { return Err(required.error); }
    RequiredSuited(s, required.value, |kinds|);
    var p := Start(s);
    ghost var rows: seq<Row>, kept: seq<Row> := [], [];
    NothingReached(s, kinds, p);
    for i := 0 to |batches|
      invariant rows == Flat(batches[..i]) && Reached(s, kinds, rows, kept, p)
    {
      FlatNext(batches, i);
      var next, more := OneBatch(s, batches[i], required.value, kinds, p, rows, kept);
      if next.Err? {
        TroubleLater(s, batches, i + 1);
        return Err(next.error);
      }
      rows, kept, p := rows + batches[i], kept + more, next.value;
    }
    assert batches[..|batches|] == batches;
    NoTrouble(s, kinds, rows, kept, p);
    KeptSucceed(s, kinds, rows, kept);
    r := Finished(s, kinds, rows, kept, p);
  }

  /** Nothing fails on the rows that are kept. */
  predicate Untroubled(s: Select, kinds: seq<Kind>, rows: seq<Row>) {
    Filter(s.where, rows).Ok?
    && var kept := Filter(s.where, rows).value;
       TypedRows(kinds, kept) && AllSucceed(VectorsOf(s), kept) && (Grouped(s) ==> !Stops(s, kept))
  }

  /** The vectors and, on the same rows, the generic path: when the vectors succeed the two agree
      exactly if the generic path streams or every group's plain columns show its first row's
      values. SUM and AVG with DISTINCT are apart, see DistinctPaths. */
  method BothPaths(s: Select, batches: seq<seq<Row>>, kinds: seq<Kind>)
    returns (vectors: Result<seq<Row>, EvalError>, generic: Result<seq<Row>, EvalError>)
    requires Vectorizable(s)
    requires forall i :: 0 <= i < |batches| ==> batches[i] != [] && TypedRows(kinds, batches[i])
    ensures vectors.Ok? ==> Filter(s.where, Flat(batches)).Ok?
    ensures vectors.Ok? && (!Grouped(s) || Streams(s)) ==> generic == vectors
    ensures vectors.Ok? && Grouped(s) && NoDistinctSum(s) && Wildcard !in s.columns ==>
      var groups := GroupsOf(s, Filter(s.where, Flat(batches)).value);
      groups.Ok? && (generic == vectors <==> Streams(s) || GroupsShowFirst(s, groups.value))
  {
    vectors := VectorizedSelect(s, batches, kinds);
    generic := GenericSelect(s, Flat(batches));
    if vectors.Ok? && Grouped(s) {
      VectorizableIsSimple(s);
      if Streams(s) { StreamsAsVectors(s, kinds, Flat(batches), vectors.value, generic); }
      if NoDistinctSum(s) && Wildcard !in s.columns { VectorsIff(s, kinds, Flat(batches), vectors.value); }
    }
  }

  lemma VectorsIff(s: Select, kinds: seq<Kind>, rows: seq<Row>, answer: seq<Row>)
    requires Simple(s) && Grouped(s) && NoDistinctSum(s) && Wildcard !in s.columns
    requires Untroubled(s, kinds, rows) && Summarizes(s, rows, answer)
    ensures var groups := GroupsOf(s, Filter(s.where, rows).value);
      groups.Ok? && (Run(s, rows) == Ok(answer) <==> GroupsShowFirst(s, groups.value))
  {
    var kept := Filter(s.where, rows).value;
    var states: seq<DirectAggregates.GroupState> :| StandFor(s, kept, states)
      && answer == DirectAggregates.OutputRows(ProjectionsOf(s), states);
    StatesAnswerIff(s, kinds, rows, kept, states);
  }

  /** Where the vectors succeed, streaming does, and gives the same rows. */
  lemma StreamsAsVectors(s: Select, kinds: seq<Kind>, rows: seq<Row>, answer: seq<Row>, streamed: Result<seq<Row>, EvalError>)
    requires Grouped(s) && Streams(s) && Untroubled(s, kinds, rows) && Summarizes(s, rows, answer)
    requires streamed.Err? <==> StreamFailsWithin(s, Filter(s.where, rows).value)
    requires streamed.Ok? ==> Summarizes(s, rows, streamed.value)
    ensures streamed == Ok(answer)
  {
    var kept := Filter(s.where, rows).value;
    forall i | 0 <= i < |kept| ensures !FailsAt(s, kept, i) {
      StreamTakes(s, kept, i);
    }
    SummaryUnique(s, rows, answer, streamed.value);
  }

  lemma StreamTakes(s: Select, kept: seq<Row>, i: nat)
    requires Streams(s) && AllSucceed(VectorsOf(s), kept) && !Stops(s, kept) && i < |kept|
    ensures !FailsAt(s, kept, i)
  {
    var row, group := kept[i], GroupSoFar(s, kept[..i], kept[i]);
    assert !DirectAggregates.NonNumber(ProjectionsOf(s), Derived(VectorsOf(s), row));
    KeyErrIff(s.groupBy, row);
    forall k | 0 <= k < |s.groupBy| ensures !ArgumentFails(s.groupBy[k], row) {
      assert Succeeds(VectorsOf(s)[k], kept);
    }
    forall k | 0 <= k < |s.columns| ensures !ColumnStops(s, k, group, row) {
      assert Succeeds(VectorsOf(s)[|s.groupBy| + k], kept) && s.columns[k] in s.columns && StreamColumn(s.columns[k]);
      if s.columns[k].Call? && CallFails(s.columns[k], row) { CallStops(s, k, row); }
    }
  }

  lemma CallStops(s: Select, k: nat, row: Row)
    requires k < |s.columns| && s.columns[k].Call? && Eval(OperandOf(s.columns[k]), row).Ok? && CallFails(s.columns[k], row)
    ensures DirectAggregates.NonNumber(ProjectionsOf(s), Derived(VectorsOf(s), row))
  {
    var e, c, d := s.columns[k], |s.groupBy| + k, Derived(VectorsOf(s), row);
    var a := Aggregate(e.function_, Some(c), e.distinct);
    assert VectorsOf(s)[c] == OperandOf(e) && d[c] == ValueOn(OperandOf(e), row);
    assert ProjectionsOf(s)[k] == DirectAggregates.Aggregated(a) && ArgumentOf(a, d) == d[c];
    assert DirectAggregates.Unsummable(ProjectionsOf(s)[k], d);
  }

  method Start(s: Select) returns (p: Progress)
    ensures GroupedAs(s, [], p)
  {
    if Grouped(s) {
      var cells := DirectAggregates.StartCells(ProjectionsOf(s));
      assert DerivedRows(VectorsOf(s), []) == [];
      p := Grouping(if s.groupBy == [] then [DirectAggregates.GroupState([], cells)] else []);
    } else {
      p := Listing([]);
    }
  }

  lemma NothingReached(s: Select, kinds: seq<Kind>, p: Progress)
    requires GroupedAs(s, [], p)
    ensures Reached(s, kinds, [], [], p)
  {
  }

  lemma RequiredSuited(s: Select, required: seq<nat>, width: nat)
    requires forall c :: c in Mentioned(s, width) <==> c in required
    requires !Unknown(s, width)
    requires (forall c :: 0 <= c < width ==> c in Mentioned(s, width)) ==> Whole(required, width)
    ensures Suited(s, required, width)
  {
    forall k | 0 <= k < |required| ensures required[k] < width {
      assert required[k] in required;
    }
    if k :| 0 <= k < |s.columns| && s.columns[k].Wildcard? {
      forall c | 0 <= c < width ensures c in Mentioned(s, width) {
        assert c in Uses(s.columns[k], width);
      }
    }
  }

  lemma FlatNext(batches: seq<seq<Row>>, i: nat)
    requires i < |batches|
    ensures Flat(batches[..i + 1]) == Flat(batches[..i]) + batches[i]
  {
    assert batches[..i + 1][..i] == batches[..i];
  }

  lemma {:induction false} TroubleLater(s: Select, batches: seq<seq<Row>>, i: nat)
    requires i <= |batches| && Trouble(s, Flat(batches[..i]))
    ensures Trouble(s, Flat(batches))
    decreases |batches| - i
  {
    if i < |batches| {
      FlatNext(batches, i);
      TroubleStays(s, Flat(batches[..i]), batches[i]);
      TroubleLater(s, batches, i + 1);
    } else {
      assert batches[..i] == batches;
    }
  }

  lemma NoTrouble(s: Select, kinds: seq<Kind>, rows: seq<Row>, kept: seq<Row>, p: Progress)
    requires Reached(s, kinds, rows, kept, p)
    ensures !Trouble(s, rows)
  {
    forall k | 0 <= k < |VectorsOf(s)| ensures !Fails(VectorsOf(s)[k], rows) {
      assert Succeeds(VectorsOf(s)[k], rows);
    }
  }

  method Finished(s: Select, ghost kinds: seq<Kind>, ghost rows: seq<Row>, ghost kept: seq<Row>, p: Progress)
    returns (r: Result<seq<Row>, EvalError>)
    requires Vectorizable(s) && Reached(s, kinds, rows, kept, p)
    ensures r.Ok?
    ensures Grouped(s) ==> Summarizes(s, rows, r.value)
    ensures (Grouped(s) ==> Comparable(s)) ==> Run(s, rows) == r
  {
    match p
    case Grouping(states) =>
      r := Ok(DirectAggregates.OutputRows(ProjectionsOf(s), states));
      if Comparable(s) {
        KeptSucceed(s, kinds, rows, kept);
        StatesAnswer(s, kinds, rows, kept, states);
      }
    case Listing(result) =>
      r := Ok(result);
      BareFinish(s, RowOutputs(s, kept).value);
  }

  lemma KeptSucceed(s: Select, kinds: seq<Kind>, rows: seq<Row>, kept: seq<Row>)
    requires TypedRows(kinds, rows) && AllSucceed(VectorsOf(s), rows) && Filter(s.where, rows) == Ok(kept)
    ensures TypedRows(kinds, kept) && AllSucceed(VectorsOf(s), kept)
  {
    SucceedsWithin(VectorsOf(s), rows, kept);
    TypedWithin(kinds, rows, kept);
  }

  // ------------------------------------------------- where the two paths differ

  const PlainAndDistinct :=
    Select([ColumnRef(0), Call(Count, true, [ColumnRef(0)])], None, [], None, false, [], 0, None)

  /** A plain column that is no GROUP BY expression, NULL on the first row and 1 on the second. For
      the DISTINCT the generic path does not stream: it shows the first row's NULL. */
  lemma PlainProjectionDiffers(answer: seq<Row>)
    requires Summarizes(PlainAndDistinct, [[Null], [Integer(1)]], answer)
    ensures Vectorizable(PlainAndDistinct) && Grouped(PlainAndDistinct) && !Streams(PlainAndDistinct)
    ensures Run(PlainAndDistinct, [[Null], [Integer(1)]]) == Ok([[Null, Integer(1)]])
    ensures answer == [[Integer(1), Integer(1)]]
  {
    var s, rows := PlainAndDistinct, [[Null], [Integer(1)]];
    NothingFiltered(rows);
    PlainIsAccepted();
    PlainRun(rows);
    var states: seq<DirectAggregates.GroupState> :| StandFor(s, rows, states)
      && answer == DirectAggregates.OutputRows(ProjectionsOf(s), states);
    PlainStates(rows, states);
    PlainOutput(states);
  }

  lemma PlainIsAccepted()
    ensures Vectorizable(PlainAndDistinct) && Grouped(PlainAndDistinct) && !Streams(PlainAndDistinct)
  {
    var s := PlainAndDistinct;
    assert !StreamColumn(s.columns[1]) && HasAggregate(s.columns[1]);
    assert SupportedColumn(s.columns[0]) && SupportedColumn(s.columns[1]);
  }

  const OneSeen := Empty.(count := 1, seen := [Integer(1)])

  lemma PlainStates(rows: seq<Row>, states: seq<DirectAggregates.GroupState>)
    requires rows == [[Null], [Integer(1)]] && StandFor(PlainAndDistinct, rows, states)
    ensures |states| == 1 && |states[0].cells| == 2
    ensures states[0].cells[0] == DirectAggregates.Shown(Integer(1))
    ensures states[0].cells[1] == DirectAggregates.Kept(OneSeen)
  {
    var ds := DerivedRows(VectorsOf(PlainAndDistinct), rows);
    assert KeyColumns(0) == [];
    DirectAggregates.OneGroupOfAll(ds);
    PlainCells(rows, ds, states[0].cells);
  }

  lemma PlainOutput(states: seq<DirectAggregates.GroupState>)
    requires |states| == 1 && |states[0].cells| == 2
    requires states[0].cells[0] == DirectAggregates.Shown(Integer(1))
    requires states[0].cells[1] == DirectAggregates.Kept(OneSeen)
    ensures DirectAggregates.OutputRows(ProjectionsOf(PlainAndDistinct), states) == [[Integer(1), Integer(1)]]
  {
    PlainProjections();
    var row := DirectAggregates.OutputRow(ProjectionsOf(PlainAndDistinct), states[0].cells);
    assert row == [Integer(1), Integer(1)];
  }

  lemma PlainProjections()
    ensures ProjectionsOf(PlainAndDistinct)
         == [DirectAggregates.Representative(0), DirectAggregates.Aggregated(Aggregate(Count, Some(1), true))]
  {
  }

  lemma PlainRun(rows: seq<Row>)
    requires rows == [[Null], [Integer(1)]] && Filter(None, rows) == Ok(rows)
    ensures Run(PlainAndDistinct, rows) == Ok([[Null, Integer(1)]])
  {
    var s, outs := PlainAndDistinct, [[Null, Integer(1)]];
    PlainIsAccepted();
    PlainGroup(rows);
    OutputsIff(s, [Group([], rows)], outs);
    BareFinish(s, GroupOutputs(s, [Group([], rows)]).value);
  }

  lemma PlainGroup(rows: seq<Row>)
    requires rows == [[Null], [Integer(1)]]
    ensures EvalAllGrouped(PlainAndDistinct.columns, rows) == Ok([Null, Integer(1)])
  {
    OneCounted(rows);
    var plain, count := ColumnRef(0), Call(Count, true, [ColumnRef(0)]);
    assert EvalGrouped(plain, rows) == Ok(Null) && EvalGrouped(count, rows) == Ok(Integer(1));
    ProjectedIff([plain, count], rows, [Null, Integer(1)]);
  }

  lemma OneCounted(rows: seq<Row>)
    requires rows == [[Null], [Integer(1)]]
    ensures ArgumentValues(ColumnRef(0), rows) == Ok([Integer(1)]) && DistinctValues([Integer(1)]) == [Integer(1)]
  {
    assert rows[..1] == [[Null]] && rows[..1][..0] == [];
    assert ArgumentValues(ColumnRef(0), rows[..1]) == Ok([]);
    assert [] + [Integer(1)] == [Integer(1)] && [Integer(1)][..0] == [];
  }

  lemma PlainCells(rows: seq<Row>, ds: seq<Row>, cells: seq<DirectAggregates.Cell>)
    requires rows == [[Null], [Integer(1)]] && ds == DerivedRows(VectorsOf(PlainAndDistinct), rows)
    requires DirectAggregates.CellsAre(ProjectionsOf(PlainAndDistinct), ds, cells)
    ensures cells[0] == DirectAggregates.Shown(Integer(1)) && cells[1] == DirectAggregates.Kept(OneSeen)
  {
    PlainProjections();
    assert ds[0] == Derived(VectorsOf(PlainAndDistinct), rows[0]) && ds[1] == Derived(VectorsOf(PlainAndDistinct), rows[1]);
    assert ds[0] == [Null, Null] && ds[1] == [Integer(1), Integer(1)];
    RepresentativeIff(0, ds);
    assert ds[..1] == [ds[0]] && [ds[0]][..0] == [];
    assert FirstPresent([ds[0]], 0) == Null && FirstPresent(ds, 0) == Integer(1);
    var a := Aggregate(Count, Some(1), true);
    assert Accumulate(a, ds[..1]) == Ok(Empty);
    assert [] + [Integer(1)] == [Integer(1)];
    assert Accumulate(a, ds) == Ok(OneSeen);
    DirectAggregates.AggregatedCell(a, ds);
  }

  // ------------------------------------------------------------ grouped wildcards

  const GroupedStar := Select([Wildcard], None, [ColumnRef(0)], None, false, [], 0, None)

  /** SELECT * with GROUP BY is accepted, and fails on the first row that a group takes: the program
      reads a vector that it never made, where the generic path reports an error. */
  lemma WildcardHasNoVector(row: Row)
    requires row != []
    ensures Vectorizable(GroupedStar) && Grouped(GroupedStar)
    ensures Trouble(GroupedStar, [row]) && !Trouble(GroupedStar, [])
    ensures Run(GroupedStar, [row]).Err? && Run(GroupedStar, []) == Ok([])
  {
    var s := GroupedStar;
    assert SupportedColumn(s.columns[0]) && Supported(s.groupBy[0], false);
    NothingFiltered([row]);
    assert s.columns[0] in s.columns && VectorsOf(s)[0] == ColumnRef(0) && VectorsOf(s)[1] == Literal(Null);
    WildcardIff(s, [row]);
    WildcardIff(s, []);
    assert Filter(s.where, []) == Ok([]);
    assert GroupsOf(s, []) == Ok([]) && GroupOutputs(s, []) == Ok([]);
    BareFinish(s, []);
  }

  /** With a wildcard among the columns, and no other failure: the vectors fail exactly if a row is
      kept, the generic path exactly if there is a group. */
  lemma WildcardIff(s: Select, rows: seq<Row>)
    requires Vectorizable(s) && Grouped(s) && Wildcard in s.columns && Succeeds(ConditionOf(s), rows) && AllSucceed(VectorsOf(s), rows)
    requires Filter(s.where, rows).Ok? ==> !Summing(s, Filter(s.where, rows).value)
    ensures Filter(s.where, rows).Ok?
    ensures Trouble(s, rows) <==> Filter(s.where, rows).value != []
    ensures Run(s, rows).Err? <==> Filter(s.where, rows).value != [] || s.groupBy == []
  {
    ConditionTotal(s, rows);
    forall k | 0 <= k < |VectorsOf(s)| ensures !Fails(VectorsOf(s)[k], rows) {
      assert Succeeds(VectorsOf(s)[k], rows);
    }
    var kept := Filter(s.where, rows).value;
    SucceedsWithin(VectorsOf(s), rows, kept);
    WildcardOutputs(s, kept);
  }

  lemma WildcardOutputs(s: Select, kept: seq<Row>)
    requires Bare(s) && Grouped(s) && Wildcard in s.columns && AllSucceed(VectorsOf(s), kept)
    ensures Outputs(s, kept).Err? <==> kept != [] || s.groupBy == []
  {
    KeysSucceed(s, kept);
    GroupsAlike(s, kept);
    var groups := GroupsOf(s, kept).value;
    GroupsOfErrIff(s, kept);
    if kept != [] { assert kept[0] in kept && Placed(groups, kept[0]); }
    if groups != [] { WildcardGroupsFail(s, groups); }
    if kept == [] && s.groupBy != [] { assert groups == []; }
  }

  lemma {:induction false} WildcardGroupsFail(s: Select, groups: seq<Group>)
    requires Bare(s) && Wildcard in s.columns && groups != []
    ensures GroupOutputs(s, groups).Err?
  {
    if |groups| > 1 { WildcardGroupsFail(s, groups[..|groups| - 1]); }
  }

  const NegatedNowhere := Select([Unary(Neg, ColumnRef(0))], Some(Literal(Boolean(false))), [], None, false, [], 0, None)

  /** An output expression fails on a row that the filter drops: only the vectors evaluate it. */
  lemma DroppedRowFails(text: Value)
    requires text.Text?
    ensures Vectorizable(NegatedNowhere) && Run(NegatedNowhere, [[text]]) == Ok([])
    ensures Trouble(NegatedNowhere, [[text]])
  {
    var s, rows := NegatedNowhere, [[text]];
    assert rows[..0] == [];
    assert Filter(s.where, rows) == Ok([]);
    assert SupportedColumn(s.columns[0]);
    assert Eval(VectorsOf(s)[0], rows[0]).Err?;
    assert Fails(VectorsOf(s)[0], rows);
    BareFinish(s, []);
    assert RowOutputs(s, []) == Ok([]);
  }
}
