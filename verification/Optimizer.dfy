/** The optimizer's rewrites of a SELECT over one table (src/optimizer.cpp:28-45, 217-387,
    439-467) keep its result on every table that satisfies its constraints. */
module Optimizer {
  import opened Wrappers
  import opened Values
  import opened Tables
  import opened Expressions
  import opened ConstantFolding
  import opened Query

  function FoldAll(es: seq<Expr>): (r: seq<Expr>)
    ensures |r| == |es|
  {
    seq(|es|, i requires 0 <= i < |es| => FoldConstants(es[i]))
  }

  function FoldOption(e: Option<Expr>): Option<Expr> {
    if e.None? then None else Some(FoldConstants(e.value))
  }

  /** Pass 1. LIMIT and OFFSET are numbers here; GROUP BY and ORDER BY are not folded. */
  function FoldSelect(s: Select): Select {
    s.(columns := FoldAll(s.columns), where := FoldOption(s.where), having := FoldOption(s.having))
  }

  // ------------------------------------------------- replacing expressions by equals

  /** Two expressions mean the same on these rows. */
  ghost predicate SameOn(a: Expr, b: Expr, rows: seq<Row>) {
    && a.Wildcard? == b.Wildcard?
    && forall r :: r in rows ==> Eval(a, r) == Eval(b, r)
  }

  ghost predicate SameListOn(a: seq<Expr>, b: seq<Expr>, rows: seq<Row>) {
    |a| == |b| && forall i :: 0 <= i < |a| ==> SameOn(a[i], b[i], rows)
  }

  lemma {:induction false} SameProject(a: seq<Expr>, b: seq<Expr>, row: Row)
    requires SameListOn(a, b, [row])
    ensures Project(a, row) == Project(b, row)
  {
    if a != [] {
      var n := |a| - 1;
      forall i | 0 <= i < n ensures SameOn(a[..n][i], b[..n][i], [row]) {
        assert SameOn(a[i], b[i], [row]);
      }
      SameProject(a[..n], b[..n], row);
      assert SameOn(a[n], b[n], [row]);
      assert row in [row];
    }
  }

  lemma {:induction false} SameFilter(a: Option<Expr>, b: Option<Expr>, rows: seq<Row>)
    requires forall r :: r in rows ==> Keeps(a, r) == Keeps(b, r)
    ensures Filter(a, rows) == Filter(b, rows)
  {
    if rows != [] { SameFilter(a, b, rows[..|rows| - 1]); }
  }

  lemma {:induction false} SameRowOutputs(s: Select, t: Select, rows: seq<Row>)
    requires s.orderBy == t.orderBy && SameListOn(s.columns, t.columns, rows)
    ensures RowOutputs(s, rows) == RowOutputs(t, rows)
  {
    if rows != [] {
      var start, last := rows[..|rows| - 1], rows[|rows| - 1];
      forall i | 0 <= i < |s.columns| ensures SameOn(s.columns[i], t.columns[i], start) && SameOn(s.columns[i], t.columns[i], [last]) {
        assert SameOn(s.columns[i], t.columns[i], rows);
      }
      SameRowOutputs(s, t, start);
      SameProject(s.columns, t.columns, last);
    }
  }

  ghost predicate SameOnGroup(a: Expr, b: Expr, rows: seq<Row>) {
    a.Wildcard? == b.Wildcard? && EvalGrouped(a, rows) == EvalGrouped(b, rows)
  }

  ghost predicate SameListOnGroup(a: seq<Expr>, b: seq<Expr>, rows: seq<Row>) {
    |a| == |b| && forall i :: 0 <= i < |a| ==> SameOnGroup(a[i], b[i], rows)
  }

  lemma {:induction false} SameEvalAllGrouped(a: seq<Expr>, b: seq<Expr>, rows: seq<Row>)
    requires SameListOnGroup(a, b, rows)
    ensures EvalAllGrouped(a, rows) == EvalAllGrouped(b, rows)
  {
    if a != [] {
      var n := |a| - 1;
      forall i | 0 <= i < n ensures SameOnGroup(a[..n][i], b[..n][i], rows) {
        assert SameOnGroup(a[i], b[i], rows);
      }
      SameEvalAllGrouped(a[..n], b[..n], rows);
      assert SameOnGroup(a[n], b[n], rows);
    }
  }

  lemma SameProjectGrouped(a: seq<Expr>, b: seq<Expr>, rows: seq<Row>)
    requires SameListOnGroup(a, b, rows)
    ensures ProjectGrouped(a, rows) == ProjectGrouped(b, rows)
  {
    SameEvalAllGrouped(a, b, rows);
    if Wildcard in a {
      var i :| 0 <= i < |a| && a[i] == Wildcard;
      assert SameOnGroup(a[i], b[i], rows);
      assert b[i] == Wildcard;
    }
    if Wildcard in b {
      var i :| 0 <= i < |b| && b[i] == Wildcard;
      assert SameOnGroup(a[i], b[i], rows);
      assert a[i] == Wildcard;
    }
  }

  /** The two statements treat this group alike. */
  ghost predicate SameGroup(s: Select, t: Select, rows: seq<Row>) {
    SameListOnGroup(s.columns, t.columns, rows) && KeepsGroup(s.having, rows) == KeepsGroup(t.having, rows)
  }

  lemma {:induction false} SameGroupOutputs(s: Select, t: Select, groups: seq<Group>)
    requires s.orderBy == t.orderBy && forall i :: 0 <= i < |groups| ==> SameGroup(s, t, groups[i].rows)
    ensures GroupOutputs(s, groups) == GroupOutputs(t, groups)
  {
    if groups != [] {
      SameGroupOutputs(s, t, groups[..|groups| - 1]);
      assert SameGroup(s, t, groups[|groups| - 1].rows);
      SameProjectGrouped(s.columns, t.columns, groups[|groups| - 1].rows);
    }
  }

  /** Every group of a GROUP BY has rows, all of them from the table. */
  lemma {:induction false} GroupsFilled(groupBy: seq<Expr>, rows: seq<Row>)
    ensures var r := GroupRows(groupBy, rows);
      r.Ok? ==> forall i :: 0 <= i < |r.value| ==> FilledFrom(r.value[i].rows, rows)
  {
    if rows != [] {
      var start, last := rows[..|rows| - 1], rows[|rows| - 1];
      GroupsFilled(groupBy, start);
      var before, after := GroupRows(groupBy, start), GroupRows(groupBy, rows);
      if after.Ok? {
        forall i | 0 <= i < |after.value| ensures FilledFrom(after.value[i].rows, rows) {
          if i < |before.value| { assert FilledFrom(before.value[i].rows, start); }
        }
      }
    }
  }

  ghost predicate FilledFrom(group: seq<Row>, rows: seq<Row>) {
    group != [] && forall r :: r in group ==> r in rows
  }

  /** The grouped evaluation of the statement never meets an empty group. */
  predicate NoEmptyGroup(s: Select, rows: seq<Row>) {
    Grouped(s) && s.groupBy == [] ==> rows != []
  }

  // ---------------------------------------------------------------- pass 1

  lemma FoldedListSame(es: seq<Expr>, rows: seq<Row>)
    ensures SameListOn(es, FoldAll(es), rows)
  {
    forall i | 0 <= i < |es| ensures SameOn(es[i], FoldAll(es)[i], rows) {
      FoldKeepsAggregates(es[i]);
      forall r | r in rows ensures Eval(es[i], r) == Eval(FoldConstants(es[i]), r) {
        FoldKeepsEval(es[i], r);
      }
    }
  }

  lemma FoldedGroupSame(s: Select, rows: seq<Row>)
    requires rows != []
    ensures SameGroup(s, FoldSelect(s), rows)
  {
    forall i | 0 <= i < |s.columns| ensures SameOnGroup(s.columns[i], FoldAll(s.columns)[i], rows) {
      FoldKeepsGrouped(s.columns[i], rows);
      FoldKeepsAggregates(s.columns[i]);
    }
    if s.having.Some? { FoldKeepsGrouped(s.having.value, rows); }
  }

  lemma FoldedGrouped(s: Select)
    ensures Grouped(FoldSelect(s)) == Grouped(s)
  {
    forall i | 0 <= i < |s.columns| ensures HasAggregate(FoldAll(s.columns)[i]) == HasAggregate(s.columns[i]) {
      FoldKeepsAggregates(s.columns[i]);
    }
    if SomeAggregate(s.columns) {
      var i :| 0 <= i < |s.columns| && HasAggregate(s.columns[i]);
      assert HasAggregate(FoldAll(s.columns)[i]);
    }
    if s.having.Some? { FoldKeepsAggregates(s.having.value); }
  }

  lemma OutputsSame(s: Select, t: Select, rows: seq<Row>)
    requires s.groupBy == t.groupBy && s.orderBy == t.orderBy && Grouped(s) == Grouped(t)
    requires !Grouped(s) ==> SameListOn(s.columns, t.columns, rows)
    requires Grouped(s) && s.groupBy == [] ==> SameGroup(s, t, rows)
    requires Grouped(s) && s.groupBy != [] ==> forall g :: FilledFrom(g, rows) ==> SameGroup(s, t, g)
    ensures Outputs(s, rows) == Outputs(t, rows)
  {
    if Grouped(s) {
      GroupsFilled(s.groupBy, rows);
      var groups := GroupsOf(s, rows);
      if groups.Ok? { SameGroupOutputs(s, t, groups.value); }
    } else {
      SameRowOutputs(s, t, rows);
    }
  }

  /** No logical operator of an aggregate without GROUP BY folds away. */
  predicate Steady(s: Select) {
    Grouped(s) && s.groupBy == [] ==>
      && (forall i :: 0 <= i < |s.columns| ==> KeepsLogic(s.columns[i]))
      && (s.having.Some? ==> KeepsLogic(s.having.value))
  }

  lemma FoldedEmptySame(s: Select)
    requires Grouped(s) && s.groupBy == [] && Steady(s)
    ensures SameGroup(s, FoldSelect(s), [])
  {
    forall i | 0 <= i < |s.columns| ensures SameOnGroup(s.columns[i], FoldAll(s.columns)[i], []) {
      FoldKeepsEmptyGroup(s.columns[i]);
      FoldKeepsAggregates(s.columns[i]);
    }
    if s.having.Some? { FoldKeepsEmptyGroup(s.having.value); }
  }

  /** Folding keeps the result of every query that meets no empty group or has no logical
      operator to lose there. */
  lemma FoldKeepsRun(s: Select, rows: seq<Row>)
    requires var kept := Filter(s.where, rows); kept.Ok? ==> NoEmptyGroup(s, kept.value) || Steady(s)
    ensures Run(FoldSelect(s), rows) == Run(s, rows)
  {
    var t := FoldSelect(s);
    forall r | r in rows ensures Keeps(s.where, r) == Keeps(t.where, r) {
      if s.where.Some? { FoldKeepsEval(s.where.value, r); }
    }
    SameFilter(s.where, t.where, rows);
    var kept := Filter(s.where, rows);
    if kept.Ok? {
      FoldedGrouped(s);
      FoldedListSame(s.columns, kept.value);
      forall g | g != [] ensures SameGroup(s, t, g) {
        FoldedGroupSame(s, g);
      }
      if Grouped(s) && s.groupBy == [] && kept.value == [] { FoldedEmptySame(s); }
      OutputsSame(s, t, kept.value);
    }
  }

  // ------------------------------------------------------- pass 2: non-null counts

  predicate Guaranteed(column: Column) {
    column.notNull || (column.primaryKey && column.ctype == IntegerType)
  }

  predicate CountsNonNull(table: Table, f: Function, distinct: bool, args: seq<Expr>) {
    f == Count && !distinct && |args| == 1 && args[0].ColumnRef? && args[0].column < |table| && Guaranteed(table[args[0].column])
  }

  /** COUNT of a column that cannot be NULL becomes COUNT of the rows. */
  function RewriteCounts(table: Table, e: Expr): Expr {
    match e
    case Call(f, distinct, args) =>
      if CountsNonNull(table, f, distinct, args) then Call(f, distinct, [Wildcard])
      else Call(f, distinct, seq(|args|, i requires 0 <= i < |args| => RewriteCounts(table, args[i])))
    case Binary(op, l, r) => Binary(op, RewriteCounts(table, l), RewriteCounts(table, r))
    case Unary(op, x) => Unary(op, RewriteCounts(table, x))
    case _ => e
  }

  function RewriteAll(table: Table, es: seq<Expr>): (r: seq<Expr>)
    ensures |r| == |es|
  {
    seq(|es|, i requires 0 <= i < |es| => RewriteCounts(table, es[i]))
  }

  function RewriteSelect(table: Table, s: Select): Select {
    s.(columns := RewriteAll(table, s.columns),
       having := if s.having.None? then None else Some(RewriteCounts(table, s.having.value)))
  }

  ghost predicate RowsTyped(table: Table, rows: seq<Row>) {
    forall r :: r in rows ==> RowOk(table, r)
  }

  lemma {:induction false} RewriteKeepsEval(table: Table, e: Expr, row: Row)
    ensures Eval(RewriteCounts(table, e), row) == Eval(e, row)
    ensures RewriteCounts(table, e).Wildcard? == e.Wildcard?
    ensures HasAggregate(RewriteCounts(table, e)) == HasAggregate(e)
  {
    match e
    case Binary(_, l, r) =>
      RewriteKeepsEval(table, l, row);
      RewriteKeepsEval(table, r, row);
    case Unary(_, x) => RewriteKeepsEval(table, x, row);
    case Call(_, _, _) =>
    case _ =>
  }

  lemma {:induction false} RewriteKeepsArguments(table: Table, e: Expr, rows: seq<Row>)
    ensures ArgumentValues(RewriteCounts(table, e), rows) == ArgumentValues(e, rows)
  {
    if rows != [] {
      RewriteKeepsArguments(table, e, rows[..|rows| - 1]);
      RewriteKeepsEval(table, e, rows[|rows| - 1]);
    }
  }

  lemma {:induction false} AllCounted(table: Table, column: nat, rows: seq<Row>)
    requires RowsTyped(table, rows) && column < |table| && Guaranteed(table[column])
    ensures ArgumentValues(ColumnRef(column), rows).Ok? && |ArgumentValues(ColumnRef(column), rows).value| == |rows|
  {
    if rows != [] {
      AllCounted(table, column, rows[..|rows| - 1]);
      assert RowOk(table, rows[|rows| - 1]) && CellOk(table[column], rows[|rows| - 1][column]);
    }
  }

  lemma {:induction false} RewriteKeepsGrouped(table: Table, e: Expr, rows: seq<Row>)
    requires RowsTyped(table, rows)
    ensures EvalGrouped(RewriteCounts(table, e), rows) == EvalGrouped(e, rows)
  {
    match e
    case Call(f, distinct, args) =>
      if CountsNonNull(table, f, distinct, args) {
        AllCounted(table, args[0].column, rows);
      } else if args != [] {
        RewriteKeepsArguments(table, args[0], rows);
        RewriteKeepsEval(table, args[0], []);
      }
    case Binary(_, l, r) =>
      RewriteKeepsGrouped(table, l, rows);
      RewriteKeepsGrouped(table, r, rows);
    case Unary(_, x) => RewriteKeepsGrouped(table, x, rows);
    case _ =>
  }

  lemma RewrittenGroupSame(table: Table, s: Select, rows: seq<Row>)
    requires RowsTyped(table, rows)
    ensures SameGroup(s, RewriteSelect(table, s), rows)
  {
    forall i | 0 <= i < |s.columns| ensures SameOnGroup(s.columns[i], RewriteAll(table, s.columns)[i], rows) {
      RewriteKeepsGrouped(table, s.columns[i], rows);
      RewriteKeepsEval(table, s.columns[i], []);
    }
    if s.having.Some? { RewriteKeepsGrouped(table, s.having.value, rows); }
  }

  lemma RewrittenGrouped(table: Table, s: Select)
    ensures Grouped(RewriteSelect(table, s)) == Grouped(s)
  {
    forall i | 0 <= i < |s.columns| ensures HasAggregate(RewriteAll(table, s.columns)[i]) == HasAggregate(s.columns[i]) {
      RewriteKeepsEval(table, s.columns[i], []);
    }
    if SomeAggregate(s.columns) {
      var i :| 0 <= i < |s.columns| && HasAggregate(s.columns[i]);
      assert HasAggregate(RewriteAll(table, s.columns)[i]);
    }
    if s.having.Some? { RewriteKeepsEval(table, s.having.value, []); }
  }

  lemma RewrittenListSame(table: Table, es: seq<Expr>, rows: seq<Row>)
    ensures SameListOn(es, RewriteAll(table, es), rows)
  {
    forall i | 0 <= i < |es| ensures SameOn(es[i], RewriteAll(table, es)[i], rows) {
      RewriteKeepsEval(table, es[i], []);
      forall r | r in rows ensures Eval(es[i], r) == Eval(RewriteCounts(table, es[i]), r) {
        RewriteKeepsEval(table, es[i], r);
      }
    }
  }

  lemma RewriteKeepsRun(table: Table, s: Select, rows: seq<Row>)
    requires RowsTyped(table, rows)
    ensures Run(RewriteSelect(table, s), rows) == Run(s, rows)
  {
    var t, kept := RewriteSelect(table, s), Filter(s.where, rows);
    if kept.Ok? {
      RewrittenGrouped(table, s);
      RewrittenListSame(table, s.columns, kept.value);
      forall g | forall r :: r in g ==> r in kept.value ensures SameGroup(s, t, g) {
        RewrittenGroupSame(table, s, g);
      }
      OutputsSame(s, t, kept.value);
    }
  }

  // ---------------------------------------------------------- pass 5: dead code

  /** A condition that is a true literal is removed. */
  function DropTrue(e: Option<Expr>): Option<Expr> {
    if e.Some? && e.value.Literal? && AsBoolean(e.value.value) then None else e
  }

  function EliminateDeadCode(s: Select): Select {
    s.(where := DropTrue(s.where), having := DropTrue(s.having))
  }

  predicate TrueHaving(s: Select) {
    s.having.Some? && DropTrue(s.having).None?
  }

  lemma DeadCodeSameGroup(s: Select, rows: seq<Row>)
    requires rows != [] || !TrueHaving(s)
    ensures SameGroup(s, EliminateDeadCode(s), rows)
  {
    var t := EliminateDeadCode(s);
    forall i | 0 <= i < |s.columns| ensures SameOnGroup(s.columns[i], t.columns[i], rows) {
    }
  }

  /** Removing a true HAVING is visible only over the empty group. */
  lemma DeadCodeKeepsRun(s: Select, rows: seq<Row>)
    requires var kept := Filter(s.where, rows); kept.Ok? ==> NoEmptyGroup(s, kept.value) || !TrueHaving(s)
    ensures Run(EliminateDeadCode(s), rows) == Run(s, rows)
  {
    var t := EliminateDeadCode(s);
    SameFilter(s.where, t.where, rows);
    var kept := Filter(s.where, rows);
    if kept.Ok? {
      forall i | 0 <= i < |s.columns| ensures SameOn(s.columns[i], t.columns[i], kept.value) {
      }
      forall g: seq<Row> | g != [] || !TrueHaving(s) ensures SameGroup(s, t, g) {
        DeadCodeSameGroup(s, g);
      }
      OutputsSame(s, t, kept.value);
    }
  }

  /** Its one output row over no rows cannot be computed. */
  predicate Broken(s: Select) {
    ProjectGrouped(s.columns, []).Err? || EvalAllGrouped(KeyExprs(s.orderBy), []).Err?
  }

  /** What the statement looks like when the rewrite changes its answer on some table: an
      aggregate without GROUP BY, a HAVING that is a true literal, and an output row that
      OFFSET and LIMIT would let through. */
  predicate ShowsRowOfNothing(s: Select) {
    Grouped(s) && s.groupBy == [] && TrueHaving(s) && (Broken(s) || (s.offset == 0 && s.limit != Some(0)))
  }

  lemma OverNothing(s: Select)
    requires Grouped(s) && s.groupBy == [] && TrueHaving(s)
    ensures Run(s, []) == Ok([])
    ensures Broken(s) ==> Run(EliminateDeadCode(s), []).Err?
    ensures !Broken(s) ==>
      Run(EliminateDeadCode(s), []) == Ok(if s.offset == 0 && s.limit != Some(0) then [ProjectGrouped(s.columns, []).value] else [])
  {
    var t := EliminateDeadCode(s);
    OneGroup(s, []);
    OneGroup(t, []);
    assert EvalGrouped(s.having.value, []) == Ok(Null);
    assert Outputs(s, []) == Ok([]) && Finish(s, []) == [];
    if !Broken(s) {
      FinishOne(t, Output(ProjectGrouped(s.columns, []).value, EvalAllGrouped(KeyExprs(s.orderBy), []).value));
    }
  }

  lemma FinishOne(s: Select, o: Output)
    ensures Finish(s, [o]) == if s.offset == 0 && s.limit != Some(0) then [o.values] else []
  {
    var os := [o];
    assert os[..0] == [];
    assert RemoveDuplicates(os) == os;
    assert SortOutputs(s.orderBy, os) == InsertStable(s.orderBy, [], o) == os;
    assert os[0..] == os;
    assert ValuesOf(os) == [o.values] && ValuesOf([]) == [];
  }

  /** Dead-code elimination keeps the answer on every table exactly if the statement is not of
      that kind. */
  lemma DeadCodeIff(s: Select)
    ensures (forall rows :: Run(EliminateDeadCode(s), rows) == Run(s, rows)) <==> !ShowsRowOfNothing(s)
  {
    if ShowsRowOfNothing(s) {
      OverNothing(s);
    } else {
      forall rows ensures Run(EliminateDeadCode(s), rows) == Run(s, rows) {
        DeadCodeOtherwise(s, rows);
      }
    }
  }

  lemma DeadCodeOtherwise(s: Select, rows: seq<Row>)
    requires !ShowsRowOfNothing(s)
    ensures Run(EliminateDeadCode(s), rows) == Run(s, rows)
  {
    var kept := Filter(s.where, rows);
    if kept.Err? || NoEmptyGroup(s, kept.value) || !TrueHaving(s) {
      DeadCodeKeepsRun(s, rows);
    } else {
      OverNothing(s);
      SameFilter(s.where, EliminateDeadCode(s).where, rows);
      RunOfKept(s, rows, []);
      RunOfKept(EliminateDeadCode(s), rows, []);
    }
  }

  /** The answer depends on the rows that the filter keeps. */
  lemma RunOfKept(s: Select, a: seq<Row>, b: seq<Row>)
    requires Filter(s.where, a) == Filter(s.where, b)
    ensures Run(s, a) == Run(s, b)
  {
  }

  /** Over no rows a true HAVING literal, being NULL there, drops the row that its removal keeps. */
  lemma TrueHavingOverNoRows(rows: seq<Row>)
    requires rows == []
    ensures var s := Select([Call(Count, false, [])], None, [], Some(Literal(Boolean(true))), false, [], 0, None);
      Run(s, rows) == Ok([]) && Run(EliminateDeadCode(s), rows) == Ok([[Integer(0)]])
  {
    var count := Call(Count, false, []);
    var s := Select([count], None, [], Some(Literal(Boolean(true))), false, [], 0, None);
    assert HasAggregate(s.columns[0]) && SomeAggregate(s.columns);
    OneGroup(s, rows);
    assert EvalGrouped(s.having.value, rows) == Ok(Null);
    assert ValuesOf([]) == [];
    var t := EliminateDeadCode(s);
    assert HasAggregate(t.columns[0]) && SomeAggregate(t.columns);
    OneGroup(t, rows);
    OneGrouped(count, rows);
    assert KeyExprs([]) == [];
    assert ValuesOf([Output([Integer(0)], [])]) == [[Integer(0)]];
  }

  lemma OneGrouped(e: Expr, rows: seq<Row>)
    requires EvalGrouped(e, rows).Ok?
    ensures EvalAllGrouped([e], rows) == Ok([EvalGrouped(e, rows).value])
    ensures !e.Wildcard? ==> ProjectGrouped([e], rows) == Ok([EvalGrouped(e, rows).value])
  {
    var es, v := [e], EvalGrouped(e, rows).value;
    assert es[..|es| - 1] == [] && es[|es| - 1] == e;
    assert EvalAllGrouped(es[..|es| - 1], rows) == Ok([]);
    assert [] + [v] == [v];
  }

  lemma OneGroup(s: Select, rows: seq<Row>)
    requires s.groupBy == []
    ensures GroupsOf(s, rows) == Ok([Group([], rows)])
    ensures GroupOutputs(s, [Group([], rows)]) == GroupOutput(s, rows)
  {
    assert [Group([], rows)][..0] == [];
    assert GroupOutputs(s, []) == Ok([]);
    if GroupOutput(s, rows).Ok? { assert [] + GroupOutput(s, rows).value == GroupOutput(s, rows).value; }
  }
}
