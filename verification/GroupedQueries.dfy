/** Grouped statements that no path sorts, cuts or filters after grouping
    (src/native_engine.cpp:1317-1372, 1517-1547): their rows group by group, and when they fail. */
module GroupedQueries {
  import opened Wrappers
  import opened Values
  import opened Expressions
  import opened Query
  import opened AggregateStates

  /** No DISTINCT, ORDER BY, LIMIT, OFFSET or HAVING. */
  predicate Bare(s: Select) {
    !s.distinct && s.orderBy == [] && s.limit.None? && s.offset == 0 && s.having.None?
  }

  predicate CountsRows(f: Function, args: seq<Expr>) {
    f.Count? && (args == [] || args[0].Wildcard?)
  }

  /** An aggregate of rows or of an argument, or no aggregate at all. */
  predicate SimpleColumn(e: Expr) {
    match e
    case Call(f, _, args) => CountsRows(f, args) || args != []
    case _ => !HasAggregate(e)
  }

  predicate Simple(s: Select) {
    Bare(s) && forall i :: 0 <= i < |s.columns| ==> SimpleColumn(s.columns[i])
  }

  /** Every plain output column is a GROUP BY expression. */
  predicate PlainGrouped(s: Select) {
    forall i :: 0 <= i < |s.columns| && !s.columns[i].Call? ==> s.columns[i] in s.groupBy
  }

  lemma FilterSnoc(where: Option<Expr>, rows: seq<Row>, row: Row)
    requires Filter(where, rows).Ok? && Keeps(where, row).Ok?
    ensures Filter(where, rows + [row])
         == Ok(if Keeps(where, row).value then Filter(where, rows).value + [row] else Filter(where, rows).value)
  {
    assert (rows + [row])[..|rows|] == rows;
  }

  lemma LastApart<T>(s: seq<T>)
    requires s != []
    ensures s == s[..|s| - 1] + [s[|s| - 1]]
  {
  }

  lemma {:induction false} NothingFiltered(rows: seq<Row>)
    ensures Filter(None, rows) == Ok(rows)
  {
    if rows != [] {
      var start, last := rows[..|rows| - 1], rows[|rows| - 1];
      NothingFiltered(start);
      FilterSnoc(None, start, last);
      LastApart(rows);
    }
  }

  // ------------------------------------------------------------------ the groups

  /** Without aggregates inside, a group shows the value on its first row. */
  lemma {:induction false} PlainGroupedValue(e: Expr, rows: seq<Row>)
    requires !HasAggregate(e) && rows != []
    ensures EvalGrouped(e, rows) == Eval(e, rows[0])
  {
    match e
    case Binary(_, l, r) =>
      PlainGroupedValue(l, rows);
      PlainGroupedValue(r, rows);
    case Unary(_, x) => PlainGroupedValue(x, rows);
    case _ =>
  }

  /** With a GROUP BY list no group is empty. */
  predicate NoneEmpty(groups: seq<Group>) {
    forall k :: 0 <= k < |groups| ==> groups[k].rows != []
  }

  lemma {:induction false} GroupsNotEmpty(groupBy: seq<Expr>, rows: seq<Row>)
    requires GroupRows(groupBy, rows).Ok?
    ensures NoneEmpty(GroupRows(groupBy, rows).value)
  {
    if rows != [] { GroupsNotEmpty(groupBy, rows[..|rows| - 1]); }
  }

  /** The rows of the groups are rows of the input. */
  predicate Within(groups: seq<Group>, rows: seq<Row>) {
    forall k :: 0 <= k < |groups| ==> forall r :: r in groups[k].rows ==> r in rows
  }

  lemma {:induction false} GroupsWithin(groupBy: seq<Expr>, rows: seq<Row>)
    requires GroupRows(groupBy, rows).Ok?
    ensures Within(GroupRows(groupBy, rows).value, rows)
  {
    if rows != [] {
      var start := rows[..|rows| - 1];
      GroupsWithin(groupBy, start);
      assert forall r :: r in start ==> r in rows;
    }
  }

  lemma InputGroups(s: Select, kept: seq<Row>)
    requires GroupsOf(s, kept).Ok?
    ensures Within(GroupsOf(s, kept).value, kept) && (s.groupBy != [] ==> NoneEmpty(GroupsOf(s, kept).value))
  {
    if s.groupBy != [] {
      GroupsWithin(s.groupBy, kept);
      GroupsNotEmpty(s.groupBy, kept);
    }
  }

  // ----------------------------------------------------------------- their output

  /** A row of values is what the expressions evaluate to, one by one. */
  lemma {:induction false} ProjectedIff(es: seq<Expr>, rows: seq<Row>, values: Row)
    requires |values| == |es|
    ensures EvalAllGrouped(es, rows) == Ok(values) <==> forall i :: 0 <= i < |es| ==> EvalGrouped(es[i], rows) == Ok(values[i])
  {
    if es != [] {
      var n := |es| - 1;
      ProjectedIff(es[..n], rows, values[..n]);
      assert values == values[..n] + [values[n]];
      if EvalAllGrouped(es, rows) == Ok(values) {
        var before, last := EvalAllGrouped(es[..n], rows).value, EvalGrouped(es[n], rows).value;
        assert (before + [last])[..n] == before && (before + [last])[n] == last;
        forall i | 0 <= i < |es| ensures EvalGrouped(es[i], rows) == Ok(values[i]) {
          if i < n { assert es[..n][i] == es[i] && values[..n][i] == values[i]; }
        }
      }
    }
  }

  /** Groups come out as these rows exactly if each projects to its row. */
  lemma {:induction false} OutputsIff(s: Select, groups: seq<Group>, outs: seq<Row>)
    requires s.having.None? && s.orderBy == [] && |outs| == |groups| && Wildcard !in s.columns
    ensures GroupOutputs(s, groups).Ok? && ValuesOf(GroupOutputs(s, groups).value) == outs
       <==> forall k :: 0 <= k < |groups| ==> EvalAllGrouped(s.columns, groups[k].rows) == Ok(outs[k])
  {
    if groups != [] {
      var n := |groups| - 1;
      OutputsIff(s, groups[..n], outs[..n]);
      OutputsIffLast(s, groups, outs);
      if forall k :: 0 <= k < n ==> EvalAllGrouped(s.columns, groups[..n][k].rows) == Ok(outs[..n][k]) {
        forall k | 0 <= k < n ensures EvalAllGrouped(s.columns, groups[k].rows) == Ok(outs[k]) {
          assert groups[..n][k] == groups[k] && outs[..n][k] == outs[k];
        }
      }
    }
  }

  lemma OutputsIffLast(s: Select, groups: seq<Group>, outs: seq<Row>)
    requires s.having.None? && s.orderBy == [] && |outs| == |groups| > 0 && Wildcard !in s.columns
    ensures var n := |groups| - 1;
      (GroupOutputs(s, groups).Ok? && ValuesOf(GroupOutputs(s, groups).value) == outs)
      <==> (GroupOutputs(s, groups[..n]).Ok? && ValuesOf(GroupOutputs(s, groups[..n]).value) == outs[..n]
            && EvalAllGrouped(s.columns, groups[n].rows) == Ok(outs[n]))
  {
    var n := |groups| - 1;
    var row := EvalAllGrouped(s.columns, groups[n].rows);
    assert KeyExprs(s.orderBy) == [] && outs == outs[..n] + [outs[n]];
    if GroupOutputs(s, groups[..n]).Ok? && row.Ok? {
      var before := GroupOutputs(s, groups[..n]).value;
      assert GroupOutput(s, groups[n].rows) == Ok([Output(row.value, [])]);
      OneOutputEach(s, groups[..n]);
      var now := ValuesOf(before + [Output(row.value, [])]);
      assert now == ValuesOf(before) + [row.value];
      assert now[..n] == ValuesOf(before) && now[n] == row.value;
    }
  }

  lemma {:induction false} OneOutputEach(s: Select, groups: seq<Group>)
    requires s.having.None? && GroupOutputs(s, groups).Ok?
    ensures |GroupOutputs(s, groups).value| == |groups|
  {
    if groups != [] { OneOutputEach(s, groups[..|groups| - 1]); }
  }

  lemma BareFinish(s: Select, os: seq<Output>)
    requires Bare(s)
    ensures Finish(s, os) == ValuesOf(os)
  {
    if os != [] { assert os[0..] == os; }
  }

  // ----------------------------------------------------------- when a group fails

  /** The aggregate cannot take this row: its argument fails or a sum meets no number. */
  predicate CallFails(e: Expr, row: Row) {
    && e.Call? && !CountsRows(e.function_, e.args) && e.args != []
    && match Eval(e.args[0], row)
       case Err(_) => true
       case Ok(v) => Sums(e.function_) && !v.Null? && !IsNumeric(v)
  }

  lemma {:induction false} SumErrIff(vs: seq<Value>)
    ensures SumOf(vs).Err? <==> exists i :: 0 <= i < |vs| && !IsNumeric(vs[i])
  {
    if vs != [] {
      var n := |vs| - 1;
      SumErrIff(vs[..n]);
      forall i | 0 <= i < n ensures vs[..n][i] == vs[i] {
      }
      if i :| 0 <= i < |vs| && !IsNumeric(vs[i]) {
        assert i < n ==> !IsNumeric(vs[..n][i]);
      }
    }
  }

  predicate ArgumentFails(e: Expr, row: Row) {
    Eval(e, row).Err?
  }

  predicate NoNumber(e: Expr, row: Row) {
    Eval(e, row).Ok? && !Eval(e, row).value.Null? && !IsNumeric(Eval(e, row).value)
  }

  lemma {:induction false} ArgumentsErrIff(e: Expr, rows: seq<Row>)
    ensures ArgumentValues(e, rows).Err? <==> exists i :: 0 <= i < |rows| && ArgumentFails(e, rows[i])
    ensures ArgumentValues(e, rows).Ok? ==>
      (SumOf(ArgumentValues(e, rows).value).Err? <==> exists i :: 0 <= i < |rows| && NoNumber(e, rows[i]))
  {
    if rows != [] {
      var n := |rows| - 1;
      ArgumentsErrIff(e, rows[..n]);
      forall i | 0 <= i < n ensures rows[..n][i] == rows[i] {
      }
      if i :| 0 <= i < |rows| && ArgumentFails(e, rows[i]) {
        assert i < n ==> ArgumentFails(e, rows[..n][i]);
      }
      if i :| 0 <= i < |rows| && NoNumber(e, rows[i]) {
        assert i < n ==> NoNumber(e, rows[..n][i]);
      }
      if ArgumentValues(e, rows).Ok? {
        var before := ArgumentValues(e, rows[..n]).value;
        assert (before + [Eval(e, rows[n]).value])[..|before|] == before;
      }
    }
  }

  /** An aggregate fails exactly if it cannot take some row of the group. */
  lemma AggregateErrIff(e: Expr, rows: seq<Row>)
    requires e.Call? && SimpleColumn(e)
    ensures EvalGrouped(e, rows).Err? <==> exists i :: 0 <= i < |rows| && CallFails(e, rows[i])
  {
    if !CountsRows(e.function_, e.args) {
      var x := e.args[0];
      ArgumentsErrIff(x, rows);
      forall i | 0 <= i < |rows| ensures CallFails(e, rows[i]) <==> ArgumentFails(x, rows[i]) || (Sums(e.function_) && NoNumber(x, rows[i])) {
      }
      if ArgumentValues(x, rows).Ok? && Sums(e.function_) && ArgumentValues(x, rows).value == [] {
        assert SumOf([]).Ok?;
      }
    }
  }

  /** The group cannot take this row: a key expression fails or an aggregate cannot take it. */
  predicate RowFails(s: Select, row: Row) {
    || (exists k :: 0 <= k < |s.groupBy| && ArgumentFails(s.groupBy[k], row))
    || (exists k :: 0 <= k < |s.columns| && CallFails(s.columns[k], row))
  }

  lemma {:induction false} KeyErrIff(es: seq<Expr>, row: Row)
    ensures EvalAll(es, row).Err? <==> exists k :: 0 <= k < |es| && ArgumentFails(es[k], row)
  {
    if es != [] {
      var n := |es| - 1;
      KeyErrIff(es[..n], row);
      if k :| 0 <= k < |es| && ArgumentFails(es[k], row) {
        assert k < n ==> ArgumentFails(es[..n][k], row);
      }
    }
  }

  /** Every row is in a group. */
  predicate Placed(groups: seq<Group>, row: Row) {
    exists g :: 0 <= g < |groups| && row in groups[g].rows
  }

  lemma PlacedStays(groups: seq<Group>, key: Row, last: Row, row: Row)
    requires row == last || Placed(groups, row)
    ensures Placed(AddToGroup(groups, key, last), row)
  {
    var n, after := FindGroup(groups, key), AddToGroup(groups, key, last);
    if row == last {
      assert row in after[n].rows;
    } else {
      var g :| 0 <= g < |groups| && row in groups[g].rows;
      assert row in after[g].rows;
    }
  }

  lemma {:induction false} AllPlaced(groupBy: seq<Expr>, rows: seq<Row>)
    requires GroupRows(groupBy, rows).Ok?
    ensures forall r :: r in rows ==> Placed(GroupRows(groupBy, rows).value, r)
  {
    if rows != [] {
      var start, last := rows[..|rows| - 1], rows[|rows| - 1];
      AllPlaced(groupBy, start);
      forall r | r in rows ensures Placed(GroupRows(groupBy, rows).value, r) {
        assert rows == start + [last];
        PlacedStays(GroupRows(groupBy, start).value, EvalAll(groupBy, last).value, last, r);
      }
    }
  }

  lemma {:induction false} KeysErrIff(groupBy: seq<Expr>, rows: seq<Row>)
    ensures GroupRows(groupBy, rows).Err? <==> exists i :: 0 <= i < |rows| && EvalAll(groupBy, rows[i]).Err?
  {
    if rows != [] {
      var n := |rows| - 1;
      KeysErrIff(groupBy, rows[..n]);
      forall i | 0 <= i < n ensures rows[..n][i] == rows[i] {
      }
      if i :| 0 <= i < |rows| && EvalAll(groupBy, rows[i]).Err? {
        assert i < n ==> EvalAll(groupBy, rows[..n][i]).Err?;
      }
    }
  }

  predicate ColumnFails(e: Expr, rows: seq<Row>) {
    EvalGrouped(e, rows).Err?
  }

  lemma {:induction false} ColumnsErrIff(es: seq<Expr>, rows: seq<Row>)
    ensures EvalAllGrouped(es, rows).Err? <==> exists k :: 0 <= k < |es| && ColumnFails(es[k], rows)
  {
    if es != [] {
      var n := |es| - 1;
      ColumnsErrIff(es[..n], rows);
      if k :| 0 <= k < |es| && ColumnFails(es[k], rows) {
        assert k < n ==> ColumnFails(es[..n][k], rows);
      }
    }
  }

  lemma {:induction false} GroupsErrIff(s: Select, groups: seq<Group>)
    requires Bare(s) && Wildcard !in s.columns
    ensures GroupOutputs(s, groups).Err? <==> exists k :: 0 <= k < |groups| && EvalAllGrouped(s.columns, groups[k].rows).Err?
  {
    if groups != [] {
      var n := |groups| - 1;
      GroupsErrIff(s, groups[..n]);
      assert KeyExprs(s.orderBy) == [];
      forall k | 0 <= k < n ensures groups[..n][k] == groups[k] {
      }
      if k :| 0 <= k < |groups| && EvalAllGrouped(s.columns, groups[k].rows).Err? {
        assert k < n ==> EvalAllGrouped(s.columns, groups[..n][k].rows).Err?;
      }
    }
  }

  lemma GroupsOfErrIff(s: Select, rows: seq<Row>)
    ensures GroupsOf(s, rows).Err? ==> exists i :: 0 <= i < |rows| && RowFails(s, rows[i])
    ensures forall i :: 0 <= i < |rows| && EvalAll(s.groupBy, rows[i]).Err? ==> GroupsOf(s, rows).Err?
    ensures GroupsOf(s, rows).Ok? ==> forall r :: r in rows ==> Placed(GroupsOf(s, rows).value, r)
  {
    if s.groupBy == [] {
      assert GroupsOf(s, rows).value[0].rows == rows;
    } else {
      KeysErrIff(s.groupBy, rows);
      if GroupsOf(s, rows).Ok? { AllPlaced(s.groupBy, rows); }
      if i :| 0 <= i < |rows| && EvalAll(s.groupBy, rows[i]).Err? { KeyErrIff(s.groupBy, rows[i]); }
    }
  }

  /** With plain columns that are GROUP BY expressions the grouped output fails exactly if some
      row cannot be taken. */
  lemma OutputsErrIff(s: Select, rows: seq<Row>)
    requires Simple(s) && PlainGrouped(s) && Wildcard !in s.columns && Grouped(s)
    ensures Outputs(s, rows).Err? <==> exists i :: 0 <= i < |rows| && RowFails(s, rows[i])
  {
    GroupsOfErrIff(s, rows);
    if GroupsOf(s, rows).Ok? {
      var groups := GroupsOf(s, rows).value;
      GroupsErrIff(s, groups);
      if i :| 0 <= i < |rows| && RowFails(s, rows[i]) { FailingRow(s, rows, i); }
      if k :| 0 <= k < |groups| && EvalAllGrouped(s.columns, groups[k].rows).Err? { FailingGroup(s, rows, k); }
    }
  }

  lemma FailingRow(s: Select, rows: seq<Row>, i: nat)
    requires Simple(s) && i < |rows| && RowFails(s, rows[i]) && GroupsOf(s, rows).Ok?
    ensures exists k :: 0 <= k < |GroupsOf(s, rows).value| && EvalAllGrouped(s.columns, GroupsOf(s, rows).value[k].rows).Err?
  {
    var groups := GroupsOf(s, rows).value;
    GroupsOfErrIff(s, rows);
    KeyErrIff(s.groupBy, rows[i]);
    var c :| 0 <= c < |s.columns| && CallFails(s.columns[c], rows[i]);
    assert rows[i] in rows && Placed(groups, rows[i]);
    var k :| 0 <= k < |groups| && rows[i] in groups[k].rows;
    var j :| 0 <= j < |groups[k].rows| && groups[k].rows[j] == rows[i];
    assert SimpleColumn(s.columns[c]);
    AggregateErrIff(s.columns[c], groups[k].rows);
    assert ColumnFails(s.columns[c], groups[k].rows);
    ColumnsErrIff(s.columns, groups[k].rows);
  }

  lemma FailingGroup(s: Select, rows: seq<Row>, k: nat)
    requires Simple(s) && PlainGrouped(s) && GroupsOf(s, rows).Ok? && k < |GroupsOf(s, rows).value|
    requires EvalAllGrouped(s.columns, GroupsOf(s, rows).value[k].rows).Err?
    ensures exists i :: 0 <= i < |rows| && RowFails(s, rows[i])
  {
    InputGroups(s, rows);
    var group := GroupsOf(s, rows).value[k].rows;
    ColumnsErrIff(s.columns, group);
    var c :| 0 <= c < |s.columns| && ColumnFails(s.columns[c], group);
    assert SimpleColumn(s.columns[c]);
    var row: Row;
    if s.columns[c].Call? {
      AggregateErrIff(s.columns[c], group);
      var j :| 0 <= j < |group| && CallFails(s.columns[c], group[j]);
      row := group[j];
    } else {
      assert s.columns[c] in s.groupBy && group != [];
      PlainGroupedValue(s.columns[c], group);
      row := group[0];
      var n :| 0 <= n < |s.groupBy| && s.groupBy[n] == s.columns[c];
      assert ArgumentFails(s.groupBy[n], row);
    }
    assert row in group && RowFails(s, row);
    var i :| 0 <= i < |rows| && rows[i] == row;
  }
}
