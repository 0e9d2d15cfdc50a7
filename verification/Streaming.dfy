/** The streaming aggregation of executeSelect (src/native_engine.cpp:1317-1516): one pass over the
    rows with a state per group, expressions evaluated only where they are needed. */
module Streaming {
  import opened Wrappers
  import opened Values
  import opened Expressions
  import opened Query
  import opened AggregateStates
  import opened GroupedQueries
  import opened DirectAggregates
  import opened VectorGroups
  import opened Optimizer

  // ------------------------------------------------------------ what it takes

  predicate StreamColumn(e: Expr) {
    match e
    case Call(f, distinct, args) => !distinct && (CountsRows(f, args) || |args| == 1)
    case _ => !HasAggregate(e)
  }

  /** No DISTINCT anywhere, HAVING, ORDER BY, LIMIT or OFFSET; aggregates of one argument. */
  predicate Streams(s: Select) {
    Bare(s) && forall i :: 0 <= i < |s.columns| ==> StreamColumn(s.columns[i])
  }

  lemma StreamsIsSimple(s: Select)
    requires Streams(s)
    ensures Simple(s) && NoDistinctSum(s)
  {
    forall i | 0 <= i < |s.columns|
      ensures SimpleColumn(s.columns[i]) && (s.columns[i].Call? ==> !s.columns[i].distinct)
    {
      assert StreamColumn(s.columns[i]);
    }
  }

  /** Of the statements that the vectors take, exactly those with a DISTINCT aggregate or one of
      several arguments are not streamed. */
  lemma NotStreamed(s: Select)
    requires Vectorizable(s)
    ensures Streams(s) <==> forall i :: 0 <= i < |s.columns| && s.columns[i].Call? ==>
      !s.columns[i].distinct && (CountsRows(s.columns[i].function_, s.columns[i].args) || |s.columns[i].args| == 1)
  {
    forall i | 0 <= i < |s.columns| ensures !s.columns[i].Call? ==> StreamColumn(s.columns[i]) {
      assert SupportedColumn(s.columns[i]);
    }
    if Streams(s) {
      forall i | 0 <= i < |s.columns| && s.columns[i].Call?
        ensures !s.columns[i].distinct && (CountsRows(s.columns[i].function_, s.columns[i].args) || |s.columns[i].args| == 1)
      {
        assert StreamColumn(s.columns[i]);
      }
    }
  }

  // ------------------------------------------------------------------ one row

  /** One column of one group: a plain one is evaluated until it shows a value. */
  function StreamCell(e: Expr, cell: Cell, row: Row): Result<Cell, EvalError> {
    match e
    case Call(f, _, args) =>
      if cell.Shown? then Ok(cell)
      else if CountsRows(f, args) then Ok(Kept(cell.state.(count := cell.state.count + 1)))
      else if args == [] then Err(MissingArgument)
      else (match Eval(args[0], row)
            case Err(x) => Err(x)
            case Ok(v) =>
              if v.Null? then Ok(cell)
              else match Take(Aggregate(f, Some(0), false), cell.state, v)
                case Err(x) => Err(x)
                case Ok(t) => Ok(Kept(t)))
    case _ =>
      if cell.Kept? || !cell.value.Null? then Ok(cell)
      else match Eval(e, row)
        case Err(x) => Err(x)
        case Ok(v) => Ok(Shown(v))
  }

  /** The column's cell cannot take the row. */
  predicate CellFails(e: Expr, cell: Cell, row: Row) {
    if e.Call? then CallFails(e, row) else cell == Shown(Null) && ArgumentFails(e, row)
  }

  predicate CellFits(e: Expr, cell: Cell) {
    if e.Call? then cell.Kept? && cell.state.seen == [] else cell.Shown?
  }

  /** It fails exactly then; otherwise it does what a step over the derived row does. */
  lemma StreamStep(s: Select, i: nat, cell: Cell, row: Row)
    requires Streams(s) && i < |s.columns| && CellFits(s.columns[i], cell)
    ensures StreamCell(s.columns[i], cell, row).Err? <==> CellFails(s.columns[i], cell, row)
    ensures StreamCell(s.columns[i], cell, row).Ok? ==>
      StreamCell(s.columns[i], cell, row) == StepCell(ProjectionsOf(s)[i], cell, Derived(VectorsOf(s), row))
  {
    var e, c, d := s.columns[i], |s.groupBy| + i, Derived(VectorsOf(s), row);
    assert StreamColumn(e) && VectorsOf(s)[c] == OperandOf(e) && d[c] == ValueOn(OperandOf(e), row);
    if e.Call? { CallStep(e, c, cell, row, d); } else { PlainStep(e, c, cell, row, d); }
  }

  lemma PlainStep(e: Expr, c: nat, cell: Cell, row: Row, d: Row)
    requires !e.Call? && cell.Shown? && c < |d| && d[c] == ValueOn(OperandOf(e), row)
    ensures StreamCell(e, cell, row).Err? <==> cell.value.Null? && ArgumentFails(e, row)
    ensures StreamCell(e, cell, row).Ok? ==> StreamCell(e, cell, row) == StepCell(ProjectionOf(e, c), cell, d)
  {
    assert ProjectionOf(e, c) == Representative(c);
    if Eval(e, row).Ok? { assert OperandOf(e) == e; }
  }

  lemma CallStep(e: Expr, c: nat, cell: Cell, row: Row, d: Row)
    requires e.Call? && StreamColumn(e) && CellFits(e, cell) && c < |d| && d[c] == ValueOn(OperandOf(e), row)
    ensures StreamCell(e, cell, row).Err? <==> CallFails(e, row)
    ensures StreamCell(e, cell, row).Ok? ==> StreamCell(e, cell, row) == StepCell(ProjectionOf(e, c), cell, d)
  {
    if !CountsRows(e.function_, e.args) {
      var a := Aggregate(e.function_, Some(c), false);
      assert ProjectionOf(e, c) == Aggregated(a);
      if Eval(e.args[0], row).Ok? {
        assert ArgumentOf(a, d) == Eval(e.args[0], row).value;
        assert Take(a, cell.state, d[c]) == Take(Aggregate(e.function_, Some(0), false), cell.state, d[c]);
      }
    }
  }

  lemma {:induction false} CellsFit(e: Expr, n: nat, rows: seq<Row>)
    requires StreamColumn(e) && CellOver(ProjectionOf(e, n), rows).Ok?
    ensures CellFits(e, CellOver(ProjectionOf(e, n), rows).value)
  {
    if rows != [] { CellsFit(e, n, rows[..|rows| - 1]); }
  }

  method EvalKey(es: seq<Expr>, row: Row) returns (r: Result<Row, EvalError>)
    ensures r == EvalAll(es, row)
  {
    var key: Row := [];
    for k := 0 to |es|
      invariant EvalAll(es[..k], row) == Ok(key)
    {
      assert es[..k + 1][..k] == es[..k];
      var v := Eval(es[k], row);
      if v.Err? {
        KeyErrIff(es, row);
        assert ArgumentFails(es[k], row);
        FirstError(es, row, k);
        return Err(v.error);
      }
      key := key + [v.value];
    }
    assert es[..|es|] == es;
    return Ok(key);
  }

  /** The first expression that fails decides the error. */
  lemma {:induction false} FirstError(es: seq<Expr>, row: Row, k: nat)
    requires k < |es| && EvalAll(es[..k], row).Ok? && Eval(es[k], row).Err?
    ensures EvalAll(es, row) == Err(Eval(es[k], row).error)
  {
    if k == |es| - 1 {
      assert es[..|es| - 1] == es[..k];
    } else {
      assert es[..|es| - 1][..k] == es[..k];
      FirstError(es[..|es| - 1], row, k);
    }
  }

  /** One of the first n cells cannot take the row. */
  predicate SomeCellFails(s: Select, cells: seq<Cell>, row: Row, n: nat)
    requires n <= |cells| == |s.columns|
  {
    n > 0 && (SomeCellFails(s, cells, row, n - 1) || CellFails(s.columns[n - 1], cells[n - 1], row))
  }

  lemma {:induction false} SomeFailsIff(s: Select, cells: seq<Cell>, row: Row, n: nat)
    requires n <= |cells| == |s.columns|
    ensures SomeCellFails(s, cells, row, n) <==> exists k :: 0 <= k < n && CellFails(s.columns[k], cells[k], row)
  {
    if n > 0 { SomeFailsIff(s, cells, row, n - 1); }
  }

  lemma {:induction false} SomeFailsStays(s: Select, cells: seq<Cell>, row: Row, k: nat, n: nat)
    requires k <= n <= |cells| == |s.columns| && SomeCellFails(s, cells, row, k)
    ensures SomeCellFails(s, cells, row, n)
  {
    if k < n { SomeFailsStays(s, cells, row, k, n - 1); }
  }

  /** A cell before and after the row. */
  lemma CellTaken(s: Select, i: nat, rows: seq<Row>, cell: Cell, row: Row)
    requires Streams(s) && i < |s.columns| && CellOver(ProjectionsOf(s)[i], rows) == Ok(cell)
    ensures StreamCell(s.columns[i], cell, row).Err? <==> CellFails(s.columns[i], cell, row)
    ensures StreamCell(s.columns[i], cell, row).Ok? ==>
      CellOver(ProjectionsOf(s)[i], rows + [Derived(VectorsOf(s), row)]) == StreamCell(s.columns[i], cell, row)
  {
    assert StreamColumn(s.columns[i]);
    CellsFit(s.columns[i], |s.groupBy| + i, rows);
    StreamStep(s, i, cell, row);
    CellStep(ProjectionsOf(s)[i], cell, Derived(VectorsOf(s), row), rows);
  }

  /** After these rows the projection's cell is this one. */
  predicate CellIs(p: Projection, rows: seq<Row>, cell: Cell) {
    CellOver(p, rows) == Ok(cell)
  }

  method StreamOne(s: Select, i: nat, cell: Cell, row: Row, ghost rows: seq<Row>, ghost after: seq<Row>)
    returns (r: Result<Cell, EvalError>)
    requires Streams(s) && i < |s.columns| && CellOver(ProjectionsOf(s)[i], rows) == Ok(cell)
    requires after == rows + [Derived(VectorsOf(s), row)]
    ensures r.Err? <==> CellFails(s.columns[i], cell, row)
    ensures r.Ok? ==> CellIs(ProjectionsOf(s)[i], after, r.value)
  {
    CellTaken(s, i, rows, cell, row);
    r := StreamCell(s.columns[i], cell, row);
  }

  /** The first columns have taken the row. */
  predicate Taken(s: Select, cells: seq<Cell>, row: Row, after: seq<Row>, next: seq<Cell>) {
    && |next| <= |s.columns| == |cells| && !SomeCellFails(s, cells, row, |next|)
    && forall k :: 0 <= k < |next| ==> CellIs(ProjectionsOf(s)[k], after, next[k])
  }

  lemma TakenNext(s: Select, cells: seq<Cell>, row: Row, after: seq<Row>, next: seq<Cell>, cell: Cell)
    requires Taken(s, cells, row, after, next) && |next| < |cells|
    requires !CellFails(s.columns[|next|], cells[|next|], row) && CellIs(ProjectionsOf(s)[|next|], after, cell)
    ensures Taken(s, cells, row, after, next + [cell])
  {
  }

  lemma TakenAll(s: Select, cells: seq<Cell>, row: Row, after: seq<Row>, next: seq<Cell>)
    requires Taken(s, cells, row, after, next) && |next| == |cells|
    ensures CellsAre(ProjectionsOf(s), after, next) && !SomeCellFails(s, cells, row, |cells|)
  {
    forall k | 0 <= k < |next| ensures CellOver(ProjectionsOf(s)[k], after) == Ok(next[k]) {
      assert CellIs(ProjectionsOf(s)[k], after, next[k]);
    }
  }

  lemma NotTaken(s: Select, cells: seq<Cell>, row: Row, k: nat)
    requires k < |cells| == |s.columns| && CellFails(s.columns[k], cells[k], row)
    ensures SomeCellFails(s, cells, row, |cells|)
  {
    SomeFailsStays(s, cells, row, k + 1, |cells|);
  }

  method StreamCells(s: Select, cells: seq<Cell>, row: Row, ghost rows: seq<Row>, ghost after: seq<Row>)
    returns (r: Result<seq<Cell>, EvalError>)
    requires Streams(s) && CellsAre(ProjectionsOf(s), rows, cells) && after == rows + [Derived(VectorsOf(s), row)]
    ensures r.Err? <==> SomeCellFails(s, cells, row, |cells|)
    ensures r.Ok? ==> CellsAre(ProjectionsOf(s), after, r.value)
  {
    var next: seq<Cell> := [];
    for i := 0 to |s.columns|
      invariant |next| == i && Taken(s, cells, row, after, next)
    {
      var cell := StreamOne(s, i, cells[i], row, rows, after);
      if cell.Err? {
        NotTaken(s, cells, row, i);
        return Err(cell.error);
      }
      TakenNext(s, cells, row, after, next, cell.value);
      next := next + [cell.value];
    }
    TakenAll(s, cells, row, after, next);
    return Ok(next);
  }

  // ------------------------------------------------------------------ all rows

  /** The rows so far of the group that this row goes to, as the states see them. */
  function GroupSoFar(s: Select, before: seq<Row>, row: Row): seq<Row> {
    var groups, key := DerivedGroups(s, before), Derived(s.groupBy, row);
    var n := FindGroup(groups, key);
    if n < |groups| then groups[n].rows else []
  }

  /** The group cannot take this row's column: an aggregate fails, or a plain column does that has
      shown nothing but NULL so far. */
  predicate ColumnStops(s: Select, k: nat, group: seq<Row>, row: Row)
    requires k < |s.columns|
  {
    if s.columns[k].Call? then CallFails(s.columns[k], row)
    else ArgumentFails(s.columns[k], row) && FirstPresent(group, |s.groupBy| + k).Null?
  }

  predicate SomeColumnStops(s: Select, group: seq<Row>, row: Row) {
    exists k :: 0 <= k < |s.columns| && ColumnStops(s, k, group, row)
  }

  /** After these rows this one cannot be taken. */
  predicate StreamFails(s: Select, before: seq<Row>, row: Row) {
    EvalAll(s.groupBy, row).Err? || SomeColumnStops(s, GroupSoFar(s, before, row), row)
  }

  predicate FailsAt(s: Select, rows: seq<Row>, i: nat)
    requires i < |rows|
  {
    StreamFails(s, rows[..i], rows[i])
  }

  predicate StreamFailsWithin(s: Select, rows: seq<Row>) {
    exists i :: 0 <= i < |rows| && FailsAt(s, rows, i)
  }

  lemma DerivedGroupsWide(s: Select, rows: seq<Row>)
    ensures forall k :: 0 <= k < |DerivedGroups(s, rows)| ==> Wide(DerivedGroups(s, rows)[k].rows, |VectorsOf(s)|)
  {
    DerivedWide(VectorsOf(s), rows);
    GroupsWide(StartGroups(s), KeyColumns(|s.groupBy|), DerivedRows(VectorsOf(s), rows), |VectorsOf(s)|);
  }

  /** Whether some cell fails, told from the rows. */
  lemma FailsAsTold(s: Select, group: seq<Row>, row: Row, cells: seq<Cell>)
    requires Streams(s) && CellsAre(ProjectionsOf(s), group, cells) && Wide(group, |VectorsOf(s)|)
    ensures SomeCellFails(s, cells, row, |cells|) <==> SomeColumnStops(s, group, row)
  {
    SomeFailsIff(s, cells, row, |cells|);
    forall k | 0 <= k < |s.columns| ensures CellFails(s.columns[k], cells[k], row) <==> ColumnStops(s, k, group, row) {
      if !s.columns[k].Call? { PresentCell(|s.groupBy| + k, group); }
    }
    if SomeCellFails(s, cells, row, |cells|) {
      var k :| 0 <= k < |s.columns| && CellFails(s.columns[k], cells[k], row);
      assert ColumnStops(s, k, group, row);
    }
    if SomeColumnStops(s, group, row) {
      var k :| 0 <= k < |s.columns| && ColumnStops(s, k, group, row);
      assert CellFails(s.columns[k], cells[k], row);
    }
  }

  lemma PresentCell(c: nat, rows: seq<Row>)
    requires forall i :: 0 <= i < |rows| ==> c < |rows[i]|
    ensures CellOver(Representative(c), rows) == Ok(Shown(FirstPresent(rows, c)))
  {
    if rows != [] { RepresentativeIff(c, rows); }
  }

  lemma KeyDerived(s: Select, row: Row)
    requires EvalAll(s.groupBy, row).Ok?
    ensures EvalAll(s.groupBy, row) == Ok(Derived(s.groupBy, row))
    ensures KeyOf(KeyColumns(|s.groupBy|), Derived(VectorsOf(s), row)) == Derived(s.groupBy, row)
  {
    KeyErrIff(s.groupBy, row);
    forall k | 0 <= k < |s.groupBy| ensures Eval(s.groupBy[k], row).Ok? {
      assert !ArgumentFails(s.groupBy[k], row);
    }
    KeyEvaluated(s.groupBy, row);
    DerivedKey(s, row);
  }

  method StreamRow(s: Select, states: seq<GroupState>, row: Row, ghost before: seq<Row>)
    returns (r: Result<seq<GroupState>, EvalError>)
    requires Streams(s) && StandFor(s, before, states)
    ensures r.Err? <==> StreamFails(s, before, row)
    ensures r.Ok? ==> StandFor(s, before + [row], r.value)
  {
    var key := EvalKey(s.groupBy, row);
    if key.Err? { return Err(key.error); }
    KeyDerived(s, row);
    DerivedNext(s, before, row);
    DerivedGroupsWide(s, before);
    r := StreamInto(s, states, key.value, row, DerivedGroups(s, before), GroupSoFar(s, before, row));
  }

  /** Into the group of its key, found or new. */
  method StreamInto(s: Select, states: seq<GroupState>, key: Row, row: Row, ghost groups: seq<Group>, ghost group: seq<Row>)
    returns (r: Result<seq<GroupState>, EvalError>)
    requires Streams(s) && Mirrors(ProjectionsOf(s), states, groups) && Wide(group, |VectorsOf(s)|)
    requires group == if FindGroup(groups, key) < |groups| then groups[FindGroup(groups, key)].rows else []
    ensures r.Err? <==> SomeColumnStops(s, group, row)
    ensures r.Ok? ==> Mirrors(ProjectionsOf(s), r.value, AddToGroup(groups, key, Derived(VectorsOf(s), row)))
  {
    var n := 0;
    while n < |states| && !SameTuple(states[n].key, key)
      invariant 0 <= n <= |states| && forall i :: 0 <= i < n ==> !SameTuple(groups[i].key, key)
    {
      n := n + 1;
    }
    assert n == FindGroup(groups, key);
    ghost var d := Derived(VectorsOf(s), row);
    CellsSoFar(ProjectionsOf(s), states, groups, n, group);
    var current := if n < |states| then states[n].cells else StartCells(ProjectionsOf(s));
    FailsAsTold(s, group, row, current);
    var cells := StreamCells(s, current, row, group, group + [d]);
    if cells.Err? { return Err(cells.error); }
    GroupTaken(ProjectionsOf(s), states, groups, n, key, d, group, cells.value);
    return Ok(if n < |states| then states[n := GroupState(states[n].key, cells.value)] else states + [GroupState(key, cells.value)]);
  }

  lemma CellsSoFar(ps: seq<Projection>, states: seq<GroupState>, groups: seq<Group>, n: nat, group: seq<Row>)
    requires Mirrors(ps, states, groups) && n <= |groups| && group == if n < |groups| then groups[n].rows else []
    ensures CellsAre(ps, group, if n < |states| then states[n].cells else StartCells(ps))
  {
  }

  lemma GroupTaken(ps: seq<Projection>, states: seq<GroupState>, groups: seq<Group>, n: nat, key: Row, d: Row,
                   group: seq<Row>, cells: seq<Cell>)
    requires Mirrors(ps, states, groups) && n == FindGroup(groups, key) && CellsAre(ps, group + [d], cells)
    requires group == if n < |groups| then groups[n].rows else []
    ensures Mirrors(ps, if n < |states| then states[n := GroupState(states[n].key, cells)] else states + [GroupState(key, cells)],
                    AddToGroup(groups, key, d))
  {
    assert [] + [d] == [d];
  }

  method StreamNext(s: Select, states: seq<GroupState>, rows: seq<Row>, i: nat) returns (r: Result<seq<GroupState>, EvalError>)
    requires Streams(s) && i < |rows| && StandFor(s, rows[..i], states)
    ensures r.Err? <==> FailsAt(s, rows, i)
    ensures r.Ok? ==> StandFor(s, rows[..i + 1], r.value)
  {
    r := StreamRow(s, states, rows[i], rows[..i]);
    assert rows[..i + 1] == rows[..i] + [rows[i]];
  }

  /** tryStreamingAggregation on the rows that WHERE kept. */
  method StreamAggregate(s: Select, rows: seq<Row>) returns (r: Result<seq<Row>, EvalError>)
    requires Streams(s)
    ensures r.Err? <==> StreamFailsWithin(s, rows)
    ensures r.Ok? ==> Answered(s, rows, r.value)
  {
    var states := if s.groupBy == [] then [GroupState([], StartCells(ProjectionsOf(s)))] else [];
    NothingStands(s, states);
    for i := 0 to |rows|
      invariant StandFor(s, rows[..i], states)
      invariant forall k :: 0 <= k < i ==> !FailsAt(s, rows, k)
    {
      var next := StreamNext(s, states, rows, i);
      if next.Err? { return Err(next.error); }
      states := next.value;
    }
    assert rows[..|rows|] == rows;
    return Ok(OutputRows(ProjectionsOf(s), states));
  }

  lemma NothingStands(s: Select, states: seq<GroupState>)
    requires states == if s.groupBy == [] then [GroupState([], StartCells(ProjectionsOf(s)))] else []
    ensures StandFor(s, [], states)
  {
    assert DerivedRows(VectorsOf(s), []) == [];
  }

  // ---------------------------------------------------------- against the query

  /** With plain columns that are GROUP BY expressions it fails where the query does. */
  lemma StreamErrIff(s: Select, rows: seq<Row>)
    requires Streams(s) && Alignable(s) && Grouped(s)
    ensures StreamFailsWithin(s, rows) <==> Outputs(s, rows).Err?
  {
    NoWildcards(s);
    OutputsErrIff(s, rows);
    forall i | 0 <= i < |rows| ensures FailsAt(s, rows, i) <==> RowFails(s, rows[i]) {
      RowStopsIff(s, rows[..i], rows[i]);
    }
    if StreamFailsWithin(s, rows) {
      var i :| 0 <= i < |rows| && FailsAt(s, rows, i);
      assert RowFails(s, rows[i]);
    }
    if i :| 0 <= i < |rows| && RowFails(s, rows[i]) { assert FailsAt(s, rows, i); }
  }

  lemma RowStopsIff(s: Select, before: seq<Row>, row: Row)
    requires Alignable(s)
    ensures StreamFails(s, before, row) <==> RowFails(s, row)
  {
    var group := GroupSoFar(s, before, row);
    KeyErrIff(s.groupBy, row);
    if SomeColumnStops(s, group, row) {
      var k :| 0 <= k < |s.columns| && ColumnStops(s, k, group, row);
      if !s.columns[k].Call? {
        var n :| 0 <= n < |s.groupBy| && s.groupBy[n] == s.columns[k];
        assert ArgumentFails(s.groupBy[n], row);
      } else {
        assert CallFails(s.columns[k], row);
      }
    }
    if k :| 0 <= k < |s.columns| && CallFails(s.columns[k], row) { assert ColumnStops(s, k, group, row); }
  }

  lemma NoneFailing(s: Select, rows: seq<Row>)
    requires Alignable(s) && !exists i :: 0 <= i < |rows| && RowFails(s, rows[i])
    ensures AllSucceed(VectorsOf(s), rows)
  {
    forall c | 0 <= c < |VectorsOf(s)| ensures Succeeds(VectorsOf(s)[c], rows) {
      forall i | 0 <= i < |rows| ensures Eval(VectorsOf(s)[c], rows[i]).Ok? {
        assert !RowFails(s, rows[i]);
        if c < |s.groupBy| {
          assert !ArgumentFails(s.groupBy[c], rows[i]);
        } else {
          OperandSucceeds(s, c - |s.groupBy|, rows[i]);
        }
      }
    }
  }

  lemma OperandSucceeds(s: Select, k: nat, row: Row)
    requires Alignable(s) && !RowFails(s, row) && k < |s.columns|
    ensures Eval(OperandOf(s.columns[k]), row).Ok?
  {
    var e := s.columns[k];
    assert SimpleColumn(e) && !CallFails(e, row);
    if !e.Call? {
      var n :| 0 <= n < |s.groupBy| && s.groupBy[n] == e;
      assert !ArgumentFails(s.groupBy[n], row);
    }
  }

  /** It then gives the query's answer. */
  lemma StreamIsRun(s: Select, rows: seq<Row>, answer: seq<Row>)
    requires Streams(s) && Alignable(s) && Grouped(s)
    requires Summarizes(s, rows, answer) && Outputs(s, Filter(s.where, rows).value).Ok?
    ensures Run(s, rows) == Ok(answer)
  {
    var kept := Filter(s.where, rows).value;
    NoWildcards(s);
    OutputsErrIff(s, kept);
    NoneFailing(s, kept);
    var states: seq<GroupState> :| StandFor(s, kept, states) && answer == OutputRows(ProjectionsOf(s), states);
    OnlyCounts(s);
    StatesAnswer(s, [], rows, kept, states);
  }

  lemma OnlyCounts(s: Select)
    requires Streams(s)
    ensures forall rows :: Uniform(s, [], rows)
  {
    forall i | 0 <= i < |s.columns| && s.columns[i].Call? ensures !s.columns[i].distinct {
      assert StreamColumn(s.columns[i]);
    }
  }

  /** Whatever the plain columns: it gives the query's answer exactly if each group's plain columns
      show its first row's values. */
  lemma StreamIsRunIff(s: Select, rows: seq<Row>, answer: seq<Row>)
    requires Streams(s) && Grouped(s) && Wildcard !in s.columns && Summarizes(s, rows, answer)
    requires AllSucceed(VectorsOf(s), Filter(s.where, rows).value)
    ensures var groups := GroupsOf(s, Filter(s.where, rows).value);
      groups.Ok? && (Run(s, rows) == Ok(answer) <==> GroupsShowFirst(s, groups.value))
  {
    var kept := Filter(s.where, rows).value;
    StreamsIsSimple(s);
    OnlyCounts(s);
    var states: seq<GroupState> :| StandFor(s, kept, states) && answer == OutputRows(ProjectionsOf(s), states);
    StatesAnswerIff(s, [], rows, kept, states);
  }

  /** executeSelect on the rows of one table, past the direct and the vectorised path: it streams
      what it can and evaluates the rest group by group. */
  method GenericSelect(s: Select, rows: seq<Row>) returns (r: Result<seq<Row>, EvalError>)
    ensures !(Grouped(s) && Streams(s)) ==> r == Run(s, rows)
    ensures Grouped(s) && Streams(s) ==>
      (r.Err? <==> Filter(s.where, rows).Err? || StreamFailsWithin(s, Filter(s.where, rows).value))
    ensures Grouped(s) && Streams(s) && r.Ok? ==> Summarizes(s, rows, r.value)
    ensures Alignable(s) ==> (r.Err? <==> Run(s, rows).Err?) && (r.Ok? ==> r == Run(s, rows))
  {
    if !(Grouped(s) && Streams(s)) { return Run(s, rows); }
    var kept := Filter(s.where, rows);
    if kept.Err? { return Err(kept.error); }
    r := StreamAggregate(s, kept.value);
    if Alignable(s) {
      StreamErrIff(s, kept.value);
      if r.Ok? { StreamIsRun(s, rows, r.value); }
    }
  }

  // ------------------------------------------------------ HAVING and streaming

  /** Removing a HAVING that is a true literal makes a statement one that streams. Where a group has
      rows the answer stays what it was exactly if the plain columns show its first row's values. */
  lemma HavingRemovalIff(s: Select, rows: seq<Row>, answer: seq<Row>)
    requires TrueHaving(s) && Streams(EliminateDeadCode(s)) && Grouped(EliminateDeadCode(s)) && Wildcard !in s.columns
    requires Filter(s.where, rows).Ok? && NoEmptyGroup(s, Filter(s.where, rows).value)
    requires Summarizes(EliminateDeadCode(s), rows, answer)
    requires AllSucceed(VectorsOf(EliminateDeadCode(s)), Filter(s.where, rows).value)
    ensures !Streams(s)
    ensures var groups := GroupsOf(s, Filter(s.where, rows).value);
      groups.Ok? && (Run(s, rows) == Ok(answer) <==> GroupsShowFirst(s, groups.value))
  {
    var t := EliminateDeadCode(s);
    forall r | r in rows ensures Keeps(s.where, r) == Keeps(t.where, r) {
    }
    SameFilter(s.where, t.where, rows);
    DeadCodeKeepsRun(s, rows);
    StreamIsRunIff(t, rows, answer);
    var groups := GroupsOf(s, Filter(s.where, rows).value).value;
    forall k | 0 <= k < |groups| ensures AllShowFirst(s, groups[k].rows) == AllShowFirst(t, groups[k].rows) {
    }
  }

  lemma NullFirst(rows: seq<Row>)
    requires rows == [[Null], [Integer(1)]]
    ensures !ShowsFirst(ColumnRef(0), rows)
  {
    assert ValueOn(ColumnRef(0), rows[0]) == Null && ValueOn(ColumnRef(0), rows[1]) == Integer(1);
  }

  const PlainHaving :=
    Select([ColumnRef(0), Call(Count, false, [])], None, [], Some(Literal(Boolean(true))), false, [], 0, None)

  lemma PlainHavingStreams()
    ensures var t := EliminateDeadCode(PlainHaving);
      TrueHaving(PlainHaving) && Grouped(PlainHaving) && Streams(t) && Grouped(t) && VectorsOf(t) == [ColumnRef(0), Literal(Null)]
  {
    var s, t := PlainHaving, EliminateDeadCode(PlainHaving);
    assert HasAggregate(s.columns[1]) && HasAggregate(t.columns[1]);
    assert StreamColumn(t.columns[0]) && StreamColumn(t.columns[1]);
  }

  /** NULL on the first row and 1 on the second: NULL is shown before the rewrite, 1 after. */
  lemma HavingRemovalDiffers(answer: seq<Row>)
    requires Answered(EliminateDeadCode(PlainHaving), [[Null], [Integer(1)]], answer)
    ensures Streams(EliminateDeadCode(PlainHaving)) && !Streams(PlainHaving)
    ensures Run(PlainHaving, [[Null], [Integer(1)]]) != Ok(answer)
  {
    var s, t, rows := PlainHaving, EliminateDeadCode(PlainHaving), [[Null], [Integer(1)]];
    PlainHavingStreams();
    NothingFiltered(rows);
    PlainSucceeds(VectorsOf(t), rows);
    HavingRemovalIff(s, rows, answer);
    NullFirst(rows);
    assert !AllShowFirst(s, rows);
    assert GroupsOf(s, rows).value[0].rows == rows;
  }

  lemma PlainSucceeds(es: seq<Expr>, rows: seq<Row>)
    requires es == [ColumnRef(0), Literal(Null)] && forall i :: 0 <= i < |rows| ==> rows[i] != []
    ensures AllSucceed(es, rows)
  {
    assert Succeeds(es[0], rows) && Succeeds(es[1], rows);
  }
}
