/** What a vectorised SELECT means (src/native_vectorized.cpp:190-249, 570-807): per row it keeps
    only its group keys and the operands of its output columns, and these are enough. */
module VectorGroups {
  import opened Wrappers
  import opened Values
  import opened Expressions
  import opened Query
  import opened AggregateStates
  import opened GroupedQueries
  import DirectAggregates
  import opened TypedVectors
  import opened VectorEvaluation

  // ------------------------------------------------------------ what is accepted

  predicate Supported(e: Expr, allowAggregate: bool) {
    match e
    case Literal(_) => true
    case ColumnRef(_) => true
    case Wildcard => true
    case Binary(_, l, r) => Supported(l, false) && Supported(r, false)
    case Unary(_, x) => Supported(x, false)
    case Call(f, _, args) =>
      allowAggregate && if args == [] || args[0].Wildcard? then f.Count? else Supported(args[0], false)
  }

  /** canVectorize, on one table. */
  predicate Vectorizable(s: Select) {
    && Bare(s)
    && (s.where.Some? ==> Supported(s.where.value, false))
    && (forall i :: 0 <= i < |s.groupBy| ==> Supported(s.groupBy[i], false))
    && (forall i :: 0 <= i < |s.columns| ==> SupportedColumn(s.columns[i]))
  }

  predicate SupportedColumn(e: Expr) {
    Supported(e, true) && (HasAggregate(e) ==> e.Call?)
  }

  lemma VectorizableIsSimple(s: Select)
    requires Vectorizable(s)
    ensures Simple(s)
  {
    forall i | 0 <= i < |s.columns| ensures SimpleColumn(s.columns[i]) {
      assert SupportedColumn(s.columns[i]);
    }
  }

  // --------------------------------------------------------------- derived rows

  /** What an output column takes from a row. */
  function OperandOf(e: Expr): Expr {
    match e
    case Call(f, _, args) => if CountsRows(f, args) || args == [] then Literal(Null) else args[0]
    case Wildcard => Literal(Null)
    case _ => e
  }

  function OperandsOf(columns: seq<Expr>): (es: seq<Expr>)
    ensures |es| == |columns|
  {
    seq(|columns|, i requires 0 <= i < |columns| => OperandOf(columns[i]))
  }

  /** The expressions whose vectors a batch needs: group keys, then operands. */
  function VectorsOf(s: Select): (es: seq<Expr>)
    ensures |es| == |s.groupBy| + |s.columns|
    ensures forall i :: 0 <= i < |s.groupBy| ==> es[i] == s.groupBy[i]
    ensures forall i :: 0 <= i < |s.columns| ==> es[|s.groupBy| + i] == OperandOf(s.columns[i])
  {
    s.groupBy + OperandsOf(s.columns)
  }

  function ValueOn(e: Expr, row: Row): Value {
    match Eval(e, row)
    case Ok(v) => v
    case Err(_) => Null
  }

  function Derived(es: seq<Expr>, row: Row): (d: Row)
    ensures |d| == |es| && forall i :: 0 <= i < |es| ==> d[i] == ValueOn(es[i], row)
  {
    seq(|es|, i requires 0 <= i < |es| => ValueOn(es[i], row))
  }

  function DerivedRows(es: seq<Expr>, rows: seq<Row>): (ds: seq<Row>)
    ensures |ds| == |rows| && forall i :: 0 <= i < |rows| ==> ds[i] == Derived(es, rows[i])
  {
    seq(|rows|, i requires 0 <= i < |rows| => Derived(es, rows[i]))
  }

  lemma DerivedConcat(es: seq<Expr>, a: seq<Row>, b: seq<Row>)
    ensures DerivedRows(es, a + b) == DerivedRows(es, a) + DerivedRows(es, b)
  {
  }

  predicate Succeeds(e: Expr, rows: seq<Row>) {
    forall i :: 0 <= i < |rows| ==> Eval(e, rows[i]).Ok?
  }

  predicate AllSucceed(es: seq<Expr>, rows: seq<Row>) {
    forall k :: 0 <= k < |es| ==> Succeeds(es[k], rows)
  }

  // ---------------------------------------------------------------------- states

  function KeyColumns(n: nat): (columns: seq<nat>)
    ensures |columns| == n && forall i :: 0 <= i < n ==> columns[i] == i
  {
    seq(n, i => i)
  }

  function ProjectionOf(e: Expr, operand: nat): DirectAggregates.Projection {
    match e
    case Call(f, distinct, args) =>
      DirectAggregates.Aggregated(Aggregate(f, if CountsRows(f, args) then None else Some(operand), distinct))
    case _ => DirectAggregates.Representative(operand)
  }

  function ProjectionsOf(s: Select): (ps: seq<DirectAggregates.Projection>)
    ensures |ps| == |s.columns|
    ensures forall i :: 0 <= i < |s.columns| ==> ps[i] == ProjectionOf(s.columns[i], |s.groupBy| + i)
  {
    seq(|s.columns|, i requires 0 <= i < |s.columns| => ProjectionOf(s.columns[i], |s.groupBy| + i))
  }

  function StartGroups(s: Select): seq<Group> {
    if s.groupBy == [] then [Group([], [])] else []
  }

  /** The groups of derived rows that the states stand for. */
  function DerivedGroups(s: Select, kept: seq<Row>): seq<Group> {
    DirectAggregates.GroupsFrom(StartGroups(s), KeyColumns(|s.groupBy|), DerivedRows(VectorsOf(s), kept))
  }

  /** The states after the kept rows. */
  ghost predicate StandFor(s: Select, kept: seq<Row>, states: seq<DirectAggregates.GroupState>) {
    DirectAggregates.Mirrors(ProjectionsOf(s), states, DerivedGroups(s, kept))
  }

  /** The states depend on the rows alone, not on how they came in batches. */
  lemma BatchesDoNotMatter(s: Select, kept: seq<Row>, a: seq<DirectAggregates.GroupState>, b: seq<DirectAggregates.GroupState>)
    requires StandFor(s, kept, a) && StandFor(s, kept, b)
    ensures a == b
  {
    var groups := DerivedGroups(s, kept);
    forall k | 0 <= k < |groups| ensures a[k] == b[k] {
      var rows := groups[k].rows;
      assert DirectAggregates.CellsAre(ProjectionsOf(s), rows, a[k].cells);
      assert DirectAggregates.CellsAre(ProjectionsOf(s), rows, b[k].cells);
      assert a[k].cells == b[k].cells;
    }
  }

  /** The output of the states after the kept rows, whatever the plain columns are. */
  ghost predicate Answered(s: Select, kept: seq<Row>, answer: seq<Row>) {
    exists states :: StandFor(s, kept, states) && answer == DirectAggregates.OutputRows(ProjectionsOf(s), states)
  }

  ghost predicate Summarizes(s: Select, rows: seq<Row>, answer: seq<Row>) {
    Filter(s.where, rows).Ok? && Answered(s, Filter(s.where, rows).value, answer)
  }

  lemma SummaryUnique(s: Select, rows: seq<Row>, a: seq<Row>, b: seq<Row>)
    requires Summarizes(s, rows, a) && Summarizes(s, rows, b)
    ensures a == b
  {
    var kept := Filter(s.where, rows).value;
    var x: seq<DirectAggregates.GroupState> :| StandFor(s, kept, x) && a == DirectAggregates.OutputRows(ProjectionsOf(s), x);
    var y: seq<DirectAggregates.GroupState> :| StandFor(s, kept, y) && b == DirectAggregates.OutputRows(ProjectionsOf(s), y);
    BatchesDoNotMatter(s, kept, x, y);
  }

  lemma DerivedNext(s: Select, kept: seq<Row>, row: Row)
    ensures var d := Derived(VectorsOf(s), row);
      DerivedGroups(s, kept + [row])
        == AddToGroup(DerivedGroups(s, kept), DirectAggregates.KeyOf(KeyColumns(|s.groupBy|), d), d)
  {
    var es := VectorsOf(s);
    DerivedConcat(es, kept, [row]);
    assert DerivedRows(es, [row]) == [Derived(es, row)];
    assert DerivedRows(es, kept + [row])[..|kept|] == DerivedRows(es, kept);
  }

  // ------------------------------------------------------------ the same groups

  lemma {:induction false} KeyEvaluated(es: seq<Expr>, row: Row)
    requires forall k :: 0 <= k < |es| ==> Eval(es[k], row).Ok?
    ensures EvalAll(es, row) == Ok(Derived(es, row))
  {
    if es == [] {
      assert Derived(es, row) == [];
    } else {
      KeyEvaluated(es[..|es| - 1], row);
      assert Derived(es, row) == Derived(es[..|es| - 1], row) + [ValueOn(es[|es| - 1], row)];
    }
  }

  lemma DerivedKey(s: Select, row: Row)
    ensures DirectAggregates.KeyOf(KeyColumns(|s.groupBy|), Derived(VectorsOf(s), row)) == Derived(s.groupBy, row)
  {
  }

  /** The same keys, and the derived rows for the rows. */
  predicate Alike(es: seq<Expr>, groups: seq<Group>, derived: seq<Group>) {
    && |groups| == |derived|
    && forall k :: 0 <= k < |groups| ==> derived[k].key == groups[k].key && derived[k].rows == DerivedRows(es, groups[k].rows)
  }

  lemma SameGroupFound(es: seq<Expr>, groups: seq<Group>, derived: seq<Group>, key: Row)
    requires Alike(es, groups, derived)
    ensures FindGroup(groups, key) == FindGroup(derived, key)
  {
  }

  lemma AlikeNext(es: seq<Expr>, groups: seq<Group>, derived: seq<Group>, key: Row, row: Row)
    requires Alike(es, groups, derived)
    ensures Alike(es, AddToGroup(groups, key, row), AddToGroup(derived, key, Derived(es, row)))
  {
    SameGroupFound(es, groups, derived, key);
    var n := FindGroup(groups, key);
    DerivedConcat(es, if n < |groups| then groups[n].rows else [], [row]);
    assert DerivedRows(es, [row]) == [Derived(es, row)];
  }

  lemma {:induction false} GroupRowsAlike(s: Select, rows: seq<Row>)
    requires AllSucceed(s.groupBy, rows)
    ensures GroupRows(s.groupBy, rows).Ok?
    ensures Alike(VectorsOf(s), GroupRows(s.groupBy, rows).value,
                  DirectAggregates.GroupsFrom([], KeyColumns(|s.groupBy|), DerivedRows(VectorsOf(s), rows)))
  {
    var es := VectorsOf(s);
    if rows != [] {
      var start, last := rows[..|rows| - 1], rows[|rows| - 1];
      forall k | 0 <= k < |s.groupBy| ensures Succeeds(s.groupBy[k], start) && Eval(s.groupBy[k], last).Ok? {
        assert Succeeds(s.groupBy[k], rows);
      }
      GroupRowsAlike(s, start);
      KeyEvaluated(s.groupBy, last);
      DerivedKey(s, last);
      assert rows == start + [last];
      DerivedConcat(es, start, [last]);
      assert DerivedRows(es, [last]) == [Derived(es, last)];
      assert DerivedRows(es, rows)[..|rows| - 1] == DerivedRows(es, start);
      AlikeNext(es, GroupRows(s.groupBy, start).value,
                DirectAggregates.GroupsFrom([], KeyColumns(|s.groupBy|), DerivedRows(es, start)),
                Derived(s.groupBy, last), last);
    } else {
      assert DerivedRows(es, rows) == [];
    }
  }

  lemma GroupsAlike(s: Select, rows: seq<Row>)
    requires AllSucceed(s.groupBy, rows)
    ensures GroupsOf(s, rows).Ok? && Alike(VectorsOf(s), GroupsOf(s, rows).value, DerivedGroups(s, rows))
  {
    if s.groupBy == [] {
      DirectAggregates.OneGroupOfAll(DerivedRows(VectorsOf(s), rows));
      assert KeyColumns(0) == [];
    } else {
      GroupRowsAlike(s, rows);
    }
  }

  // ----------------------------------------------------------- the same outputs

  lemma {:induction false} OperandValues(e: Expr, es: seq<Expr>, c: nat, rows: seq<Row>)
    requires c < |es| && es[c] == e && Succeeds(e, rows)
    ensures ArgumentValues(e, rows).Ok? && ArgumentValues(ColumnRef(c), DerivedRows(es, rows)) == ArgumentValues(e, rows)
  {
    if rows != [] {
      var start, last := rows[..|rows| - 1], rows[|rows| - 1];
      OperandValues(e, es, c, start);
      assert DerivedRows(es, rows)[..|rows| - 1] == DerivedRows(es, start);
      assert DerivedRows(es, rows)[|rows| - 1] == Derived(es, last);
      assert Eval(ColumnRef(c), Derived(es, last)) == Eval(e, last);
    } else {
      assert DerivedRows(es, rows) == [];
    }
  }

  lemma DerivedWide(es: seq<Expr>, rows: seq<Row>)
    ensures Wide(DerivedRows(es, rows), |es|)
  {
  }

  lemma {:induction false} ValuesTyped(e: Expr, kinds: seq<Kind>, rows: seq<Row>)
    requires TypedRows(kinds, rows) && Succeeds(e, rows)
    ensures ArgumentValues(e, rows).Ok?
    ensures forall v :: v in ArgumentValues(e, rows).value ==> !v.Null? && KindOf(v) == StaticKind(e, kinds)
  {
    if rows != [] {
      ValuesTyped(e, kinds, rows[..|rows| - 1]);
      assert TypedRow(kinds, rows[|rows| - 1]);
      EvalKind(e, kinds, rows[|rows| - 1]);
    }
  }

  /** SUM and AVG with DISTINCT are where the generic path differs, see DistinctPaths. */
  predicate NoDistinctSum(s: Select) {
    forall i :: 0 <= i < |s.columns| && s.columns[i].Call? ==> !(s.columns[i].distinct && Sums(s.columns[i].function_))
  }

  /** DISTINCT on an aggregate other than COUNT asks for columns of one type each. */
  predicate Uniform(s: Select, kinds: seq<Kind>, rows: seq<Row>) {
    TypedRows(kinds, rows)
    || forall i :: 0 <= i < |s.columns| && s.columns[i].Call? && s.columns[i].distinct ==> s.columns[i].function_.Count?
  }

  lemma AggregateColumn(s: Select, i: nat, kinds: seq<Kind>, rows: seq<Row>)
    requires Simple(s) && NoDistinctSum(s) && i < |s.columns| && s.columns[i].Call?
    requires Uniform(s, kinds, rows) && AllSucceed(VectorsOf(s), rows)
    ensures var p := ProjectionsOf(s)[i];
      EvalGrouped(s.columns[i], rows) == DirectAggregates.Projected(p, DirectAggregates.CellOver(p, DerivedRows(VectorsOf(s), rows)))
  {
    var es, e, c := VectorsOf(s), s.columns[i], |s.groupBy| + i;
    var ds := DerivedRows(es, rows);
    var a := ProjectionsOf(s)[i].a;
    assert SimpleColumn(e) && Succeeds(es[c], rows);
    DirectAggregates.AggregatedCell(a, ds);
    DerivedWide(es, rows);
    if CountsRows(e.function_, e.args) {
      AccumulateCounts(a, ds);
    } else {
      OperandValues(e.args[0], es, c, rows);
      AccumulateIsFold(a, ds, |es|);
      var vs := ArgumentValues(e.args[0], rows).value;
      if a.distinct && !a.f.Count? {
        ValuesTyped(e.args[0], kinds, rows);
        OneKind(vs, StaticKind(e.args[0], kinds));
        DistinctPaths(a.f, a.distinct);
        assert SamePaths(a.f, a.distinct, vs);
      }
    }
  }

  lemma OneKind(vs: seq<Value>, kind: Kind)
    requires forall v :: v in vs ==> !v.Null? && KindOf(v) == kind
    ensures OneType(vs)
  {
    forall i | 0 <= i < |vs| ensures !vs[i].Null? && Tag(vs[i]) == Tag(vs[0]) {
      assert vs[i] in vs && vs[0] in vs;
    }
  }

  /** A group's rows agree on the group's key expressions. */
  lemma PlainAgrees(s: Select, i: nat, k: nat, g: Group, rows: seq<Row>)
    requires i < |s.columns| && k < |s.groupBy| && OperandOf(s.columns[i]) == s.groupBy[k]
    requires g.rows == DerivedRows(VectorsOf(s), rows)
    requires DirectAggregates.Keyed(KeyColumns(|s.groupBy|), g)
    ensures DirectAggregates.Agreeing(g.rows, |s.groupBy| + i)
  {
    var es, c := VectorsOf(s), |s.groupBy| + i;
    DerivedWide(es, rows);
    assert KeyColumns(|s.groupBy|)[k] == k;
    DirectAggregates.KeyedAgrees(KeyColumns(|s.groupBy|), g, |es|, k);
    forall j | 0 <= j < |g.rows| ensures Equal(g.rows[0][c], g.rows[j][c]) {
      assert g.rows[0][c] == g.rows[0][k] && g.rows[j][c] == g.rows[j][k];
    }
  }

  lemma SucceedsWithin(es: seq<Expr>, all: seq<Row>, rows: seq<Row>)
    requires AllSucceed(es, all) && forall r :: r in rows ==> r in all
    ensures AllSucceed(es, rows)
  {
    forall k | 0 <= k < |es| ensures Succeeds(es[k], rows) {
      assert Succeeds(es[k], all);
      forall i | 0 <= i < |rows| ensures Eval(es[k], rows[i]).Ok? {
        assert rows[i] in all;
        var j :| 0 <= j < |all| && all[j] == rows[i];
      }
    }
  }

  lemma TypedWithin(kinds: seq<Kind>, all: seq<Row>, rows: seq<Row>)
    requires TypedRows(kinds, all) && forall r :: r in rows ==> r in all
    ensures TypedRows(kinds, rows)
  {
    forall i | 0 <= i < |rows| ensures TypedRow(kinds, rows[i]) {
      assert rows[i] in all;
      var j :| 0 <= j < |all| && all[j] == rows[i];
    }
  }

  // ------------------------------------------------- the value a group shows

  function FirstPresent(rows: seq<Row>, c: nat): Value {
    if rows == [] then Null
    else
      var before := FirstPresent(rows[..|rows| - 1], c);
      if before.Null? && c < |rows[|rows| - 1]| then rows[|rows| - 1][c] else before
  }

  predicate AllNull(rows: seq<Row>, c: nat) {
    forall i :: 0 <= i < |rows| && c < |rows[i]| ==> rows[i][c].Null?
  }

  /** A plain projection shows the group's first value that is not NULL. It is the value on the
      first row, which the generic path shows, exactly if that is not NULL or all are. */
  lemma {:induction false} RepresentativeIff(c: nat, rows: seq<Row>)
    requires rows != [] && forall i :: 0 <= i < |rows| ==> c < |rows[i]|
    ensures DirectAggregates.CellOver(DirectAggregates.Representative(c), rows) == Ok(DirectAggregates.Shown(FirstPresent(rows, c)))
    ensures FirstPresent(rows, c) == rows[0][c] <==> !rows[0][c].Null? || AllNull(rows, c)
  {
    var n := |rows| - 1;
    if n == 0 {
      assert rows[..0] == [];
      assert DirectAggregates.CellOver(DirectAggregates.Representative(c), []) == Ok(DirectAggregates.Shown(Null));
    } else {
      RepresentativeIff(c, rows[..n]);
      FirstNull(rows[..n], c);
      assert rows[..n][0] == rows[0];
      if AllNull(rows[..n], c) {
        forall i | 0 <= i < n ensures rows[i][c].Null? {
          assert rows[..n][i] == rows[i];
        }
      } else {
        var i :| 0 <= i < n && !rows[..n][i][c].Null?;
        assert rows[i] == rows[..n][i];
      }
    }
  }

  lemma {:induction false} FirstNull(rows: seq<Row>, c: nat)
    requires forall i :: 0 <= i < |rows| ==> c < |rows[i]|
    ensures FirstPresent(rows, c).Null? <==> AllNull(rows, c)
  {
    if rows != [] {
      var n := |rows| - 1;
      FirstNull(rows[..n], c);
      if AllNull(rows[..n], c) {
        forall i | 0 <= i < n ensures rows[i][c].Null? {
          assert rows[..n][i] == rows[i];
        }
      } else {
        var i :| 0 <= i < n && !rows[..n][i][c].Null?;
        assert rows[i] == rows[..n][i];
      }
    }
  }

  /** A plain column's first value in the group is not NULL, or all its values are. */
  predicate ShowsFirst(e: Expr, rows: seq<Row>) {
    if rows == [] then EvalGrouped(e, []) == Ok(Null)
    else !ValueOn(e, rows[0]).Null? || forall i :: 0 <= i < |rows| ==> ValueOn(e, rows[i]).Null?
  }

  /** Then, and only then, a state shows what the group does. */
  lemma PlainColumnIff(s: Select, i: nat, rows: seq<Row>)
    requires Simple(s) && i < |s.columns| && !s.columns[i].Call? && AllSucceed(VectorsOf(s), rows) && !s.columns[i].Wildcard?
    ensures var p := ProjectionsOf(s)[i];
      (EvalGrouped(s.columns[i], rows) == DirectAggregates.Projected(p, DirectAggregates.CellOver(p, DerivedRows(VectorsOf(s), rows))))
      <==> ShowsFirst(s.columns[i], rows)
  {
    var es, e, c := VectorsOf(s), s.columns[i], |s.groupBy| + i;
    var ds := DerivedRows(es, rows);
    assert SimpleColumn(e) && es[c] == e;
    if rows == [] {
      assert ds == [];
    } else {
      RepresentativeIff(c, ds);
      PlainGroupedValue(e, rows);
      assert Succeeds(es[c], rows);
      forall j | 0 <= j < |rows| ensures ds[j][c] == ValueOn(e, rows[j]) {
        assert ds[j] == Derived(es, rows[j]);
      }
    }
  }

  /** Rows that agree on an expression show the first one's value. */
  lemma KeyShowsFirst(s: Select, i: nat, k: nat, g: Group, rows: seq<Row>)
    requires i < |s.columns| && k < |s.groupBy| && OperandOf(s.columns[i]) == s.columns[i] == s.groupBy[k]
    requires rows != [] && g.rows == DerivedRows(VectorsOf(s), rows) && DirectAggregates.Keyed(KeyColumns(|s.groupBy|), g)
    ensures ShowsFirst(s.columns[i], rows)
  {
    var es, e, c := VectorsOf(s), s.columns[i], |s.groupBy| + i;
    PlainAgrees(s, i, k, g, rows);
    forall j | 0 <= j < |rows| ensures g.rows[j][c] == ValueOn(e, rows[j]) {
      assert g.rows[j] == Derived(es, rows[j]);
    }
    assert Equal(g.rows[0][c], g.rows[0][c]);
  }

  // ---------------------------------------------------------------- the theorem

  /** Where the states and the generic path have to agree. */
  predicate Alignable(s: Select) {
    Simple(s) && NoDistinctSum(s) && PlainGrouped(s) && Wildcard !in s.groupBy
  }

  predicate Comparable(s: Select) {
    Vectorizable(s) && Alignable(s)
  }

  /** A group's plain columns show its first row's values. */
  predicate AllShowFirst(s: Select, rows: seq<Row>) {
    forall i :: 0 <= i < |s.columns| && !s.columns[i].Call? ==> ShowsFirst(s.columns[i], rows)
  }

  predicate GroupsShowFirst(s: Select, groups: seq<Group>) {
    forall k :: 0 <= k < |groups| ==> AllShowFirst(s, groups[k].rows)
  }

  /** One group's output row. */
  lemma GroupRowIff(s: Select, kinds: seq<Kind>, rows: seq<Row>, cells: seq<DirectAggregates.Cell>)
    requires Simple(s) && NoDistinctSum(s) && Wildcard !in s.columns
    requires Uniform(s, kinds, rows) && AllSucceed(VectorsOf(s), rows)
    requires DirectAggregates.CellsAre(ProjectionsOf(s), DerivedRows(VectorsOf(s), rows), cells)
    ensures EvalAllGrouped(s.columns, rows) == Ok(DirectAggregates.OutputRow(ProjectionsOf(s), cells)) <==> AllShowFirst(s, rows)
  {
    var outs := DirectAggregates.OutputRow(ProjectionsOf(s), cells);
    forall i | 0 <= i < |s.columns|
      ensures EvalGrouped(s.columns[i], rows) == Ok(outs[i]) <==> s.columns[i].Call? || ShowsFirst(s.columns[i], rows)
    {
      if s.columns[i].Call? {
        AggregateColumn(s, i, kinds, rows);
      } else {
        assert s.columns[i] in s.columns;
        PlainColumnIff(s, i, rows);
      }
    }
    ProjectedIff(s.columns, rows, outs);
  }

  lemma DerivedKeyed(s: Select, kept: seq<Row>)
    ensures DirectAggregates.AllKeyed(KeyColumns(|s.groupBy|), DerivedGroups(s, kept))
  {
    DirectAggregates.GroupsKeyed(StartGroups(s), KeyColumns(|s.groupBy|), DerivedRows(VectorsOf(s), kept));
  }

  /** The states after the rows that pass the filter project to the answer to the query exactly if
      every group's plain columns show its first row's values. */
  lemma StatesAnswerIff(s: Select, kinds: seq<Kind>, rows: seq<Row>, kept: seq<Row>, states: seq<DirectAggregates.GroupState>)
    requires Simple(s) && NoDistinctSum(s) && Wildcard !in s.columns && Grouped(s) && Filter(s.where, rows) == Ok(kept)
    requires Uniform(s, kinds, kept) && AllSucceed(VectorsOf(s), kept)
    requires DirectAggregates.Mirrors(ProjectionsOf(s), states, DerivedGroups(s, kept))
    ensures GroupsOf(s, kept).Ok?
    ensures Run(s, rows) == Ok(DirectAggregates.OutputRows(ProjectionsOf(s), states))
       <==> GroupsShowFirst(s, GroupsOf(s, kept).value)
  {
    KeysSucceed(s, kept);
    GroupsAlike(s, kept);
    InputGroups(s, kept);
    var groups, derived := GroupsOf(s, kept).value, DerivedGroups(s, kept);
    var outs := DirectAggregates.OutputRows(ProjectionsOf(s), states);
    forall k | 0 <= k < |groups|
      ensures EvalAllGrouped(s.columns, groups[k].rows) == Ok(outs[k]) <==> AllShowFirst(s, groups[k].rows)
    {
      SucceedsWithin(VectorsOf(s), kept, groups[k].rows);
      if TypedRows(kinds, kept) { TypedWithin(kinds, kept, groups[k].rows); }
      GroupRowIff(s, kinds, groups[k].rows, states[k].cells);
    }
    OutputsIff(s, groups, outs);
    if GroupOutputs(s, groups).Ok? { BareFinish(s, GroupOutputs(s, groups).value); }
  }

  /** Always so if the plain columns are GROUP BY expressions. */
  lemma StatesAnswer(s: Select, kinds: seq<Kind>, rows: seq<Row>, kept: seq<Row>, states: seq<DirectAggregates.GroupState>)
    requires Alignable(s) && Grouped(s) && Filter(s.where, rows) == Ok(kept)
    requires Uniform(s, kinds, kept) && AllSucceed(VectorsOf(s), kept)
    requires DirectAggregates.Mirrors(ProjectionsOf(s), states, DerivedGroups(s, kept))
    ensures Run(s, rows) == Ok(DirectAggregates.OutputRows(ProjectionsOf(s), states))
  {
    NoWildcards(s);
    StatesAnswerIff(s, kinds, rows, kept, states);
    KeysSucceed(s, kept);
    GroupsAlike(s, kept);
    InputGroups(s, kept);
    DerivedKeyed(s, kept);
    var groups, derived := GroupsOf(s, kept).value, DerivedGroups(s, kept);
    forall k | 0 <= k < |groups| ensures AllShowFirst(s, groups[k].rows) {
      forall i | 0 <= i < |s.columns| && !s.columns[i].Call? ensures ShowsFirst(s.columns[i], groups[k].rows) {
        var n :| 0 <= n < |s.groupBy| && s.groupBy[n] == s.columns[i];
        assert s.columns[i] in s.columns;
        KeyShowsFirst(s, i, n, derived[k], groups[k].rows);
      }
    }
  }

  lemma NoWildcards(s: Select)
    requires Alignable(s)
    ensures Wildcard !in s.columns
  {
    forall i | 0 <= i < |s.columns| ensures s.columns[i] != Wildcard {
      assert !s.columns[i].Call? ==> s.columns[i] in s.groupBy;
    }
  }

  lemma KeysSucceed(s: Select, kept: seq<Row>)
    requires AllSucceed(VectorsOf(s), kept)
    ensures AllSucceed(s.groupBy, kept)
  {
    forall k | 0 <= k < |s.groupBy| ensures Succeeds(s.groupBy[k], kept) {
      assert Succeeds(VectorsOf(s)[k], kept);
    }
  }
}
