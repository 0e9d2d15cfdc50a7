/** Aggregation straight over the stored rows (src/native_aggregates.cpp:132-281, 430-440,
    610-688): one pass that keeps a state per group gives what filtering, grouping and
    folding would. */
module DirectAggregates {
  import opened Wrappers
  import opened Values
  import opened Tables
  import opened Expressions
  import opened Query
  import opened AggregateStates
  import opened GroupedQueries
  import opened ColumnPredicates

  datatype Projection = Representative(column: nat) | Aggregated(a: Aggregate)

  datatype Plan = Plan(condition: Option<Condition>, groupBy: seq<nat>, projections: seq<Projection>)

  /** Columns exist; plain projections are GROUP BY columns; DISTINCT goes with COUNT. */
  predicate Plannable(plan: Plan, width: nat) {
    && (plan.condition.Some? ==> plan.condition.value.column < width)
    && (forall i :: 0 <= i < |plan.groupBy| ==> plan.groupBy[i] < width)
    && (forall i :: 0 <= i < |plan.projections| ==> AcceptedProjection(plan, plan.projections[i], width))
  }

  /** What the planner of the direct path accepts. */
  predicate Accepted(plan: Plan, width: nat) {
    && Plannable(plan, width)
    && (forall i :: 0 <= i < |plan.projections| && plan.projections[i].Aggregated? ==> !plan.projections[i].a.distinct)
    && exists i :: 0 <= i < |plan.projections| && plan.projections[i].Aggregated?
  }

  predicate AcceptedProjection(plan: Plan, p: Projection, width: nat) {
    match p
    case Representative(c) => c in plan.groupBy
    case Aggregated(a) => AggregateStates.WellFormed(a, width) && (a.distinct ==> a.f.Count?)
  }

  // --------------------------------------------------------- the query it answers

  function ExprOfProjection(p: Projection): Expr {
    match p
    case Representative(c) => ColumnRef(c)
    case Aggregated(a) => CallOf(a)
  }

  function ColumnsOf(ps: seq<Projection>): (es: seq<Expr>)
    ensures |es| == |ps|
  {
    seq(|ps|, i requires 0 <= i < |ps| => ExprOfProjection(ps[i]))
  }

  function RefsOf(columns: seq<nat>): (es: seq<Expr>)
    ensures |es| == |columns|
  {
    seq(|columns|, i requires 0 <= i < |columns| => ColumnRef(columns[i]))
  }

  function SelectOf(plan: Plan): Select {
    Select(ColumnsOf(plan.projections), if plan.condition.None? then None else Some(ExprOf(plan.condition.value)),
           RefsOf(plan.groupBy), None, false, [], 0, None)
  }

  predicate Passes(condition: Option<Condition>, row: Row) {
    condition.None? || (condition.value.column < |row| && Matches(condition.value, row[condition.value.column]))
  }

  function Passing(condition: Option<Condition>, rows: seq<Row>): (r: seq<Row>)
    ensures forall x :: x in r ==> x in rows && Passes(condition, x)
  {
    if rows == [] then []
    else
      var before, last := Passing(condition, rows[..|rows| - 1]), rows[|rows| - 1];
      if Passes(condition, last) then before + [last] else before
  }

  lemma {:induction false} PassingIsFilter(plan: Plan, rows: seq<Row>, width: nat)
    requires Accepted(plan, width) && Wide(rows, width)
    ensures Filter(SelectOf(plan).where, rows) == Ok(Passing(plan.condition, rows))
  {
    if rows != [] {
      PassingIsFilter(plan, rows[..|rows| - 1], width);
      if plan.condition.Some? { MatchesIsKeeps(plan.condition.value, rows[|rows| - 1]); }
    }
  }

  // ------------------------------------------------------------------ group keys

  function KeyOf(columns: seq<nat>, row: Row): (key: Row)
    ensures |key| == |columns|
  {
    seq(|columns|, i requires 0 <= i < |columns| => if columns[i] < |row| then row[columns[i]] else Null)
  }

  lemma {:induction false} KeyIsEvaluated(columns: seq<nat>, row: Row)
    requires forall i :: 0 <= i < |columns| ==> columns[i] < |row|
    ensures EvalAll(RefsOf(columns), row) == Ok(KeyOf(columns, row))
  {
    if columns == [] {
      assert RefsOf(columns) == [] && KeyOf(columns, row) == [];
    } else {
      var start := columns[..|columns| - 1];
      KeyIsEvaluated(start, row);
      assert RefsOf(columns)[..|columns| - 1] == RefsOf(start);
      assert KeyOf(columns, row) == KeyOf(start, row) + [row[columns[|columns| - 1]]];
    }
  }

  /** The groups of the rows, starting from these. */
  function GroupsFrom(initial: seq<Group>, columns: seq<nat>, rows: seq<Row>): seq<Group> {
    if rows == [] then initial
    else AddToGroup(GroupsFrom(initial, columns, rows[..|rows| - 1]), KeyOf(columns, rows[|rows| - 1]), rows[|rows| - 1])
  }

  function InitialGroups(plan: Plan): seq<Group> {
    if plan.groupBy == [] then [Group([], [])] else []
  }

  function PlanGroups(plan: Plan, rows: seq<Row>): seq<Group> {
    GroupsFrom(InitialGroups(plan), plan.groupBy, rows)
  }

  lemma {:induction false} GroupsFromIsGroupRows(columns: seq<nat>, rows: seq<Row>, width: nat)
    requires Wide(rows, width) && forall i :: 0 <= i < |columns| ==> columns[i] < width
    ensures GroupRows(RefsOf(columns), rows) == Ok(GroupsFrom([], columns, rows))
  {
    if rows != [] {
      GroupsFromIsGroupRows(columns, rows[..|rows| - 1], width);
      KeyIsEvaluated(columns, rows[|rows| - 1]);
    }
  }

  lemma {:induction false} OneGroupOfAll(rows: seq<Row>)
    ensures GroupsFrom([Group([], [])], [], rows) == [Group([], rows)]
  {
    if rows != [] {
      var start, last := rows[..|rows| - 1], rows[|rows| - 1];
      OneGroupOfAll(start);
      assert KeyOf([], last) == [] && rows == start + [last];
    }
  }

  lemma PlanGroupsAreGroups(plan: Plan, rows: seq<Row>, width: nat)
    requires Accepted(plan, width) && Wide(rows, width)
    ensures GroupsOf(SelectOf(plan), rows) == Ok(PlanGroups(plan, rows))
  {
    if plan.groupBy == [] {
      OneGroupOfAll(rows);
    } else {
      GroupsFromIsGroupRows(plan.groupBy, rows, width);
      assert RefsOf(plan.groupBy) != [];
    }
  }

  // ------------------------------------------------------------------ cells

  /** What a group keeps per projection. */
  datatype Cell = Shown(value: Value) | Kept(state: State)

  function StartCell(p: Projection): Cell {
    if p.Representative? then Shown(Null) else Kept(Empty)
  }

  function StepCell(p: Projection, cell: Cell, row: Row): Result<Cell, EvalError> {
    match p
    case Representative(c) =>
      if cell.Shown? && cell.value.Null? then Ok(Shown(if c < |row| then row[c] else Null)) else Ok(cell)
    case Aggregated(a) =>
      if cell.Shown? then Ok(cell)
      else match Step(a, cell.state, row)
        case Err(x) => Err(x)
        case Ok(s) => Ok(Kept(s))
  }

  function CellOver(p: Projection, rows: seq<Row>): Result<Cell, EvalError> {
    if rows == [] then Ok(StartCell(p))
    else match CellOver(p, rows[..|rows| - 1])
      case Err(x) => Err(x)
      case Ok(cell) => StepCell(p, cell, rows[|rows| - 1])
  }

  function CellValue(p: Projection, cell: Cell): Value {
    match p
    case Representative(_) => if cell.Shown? then cell.value else Null
    case Aggregated(a) => if cell.Kept? then Finished(a, cell.state) else Null
  }

  function KeptCell(s: Result<State, EvalError>): Result<Cell, EvalError> {
    if s.Err? then Err(s.error) else Ok(Kept(s.value))
  }

  /** A projection's value, or the one way to fail. */
  function Projected(p: Projection, cell: Result<Cell, EvalError>): Evaluated {
    if cell.Err? then Err(NotNumeric) else Ok(CellValue(p, cell.value))
  }

  lemma {:induction false} AggregatedCell(a: Aggregate, rows: seq<Row>)
    ensures CellOver(Aggregated(a), rows) == KeptCell(Accumulate(a, rows))
  {
    if rows != [] { AggregatedCell(a, rows[..|rows| - 1]); }
  }

  /** All rows of the group show equal values in the column. */
  predicate Agreeing(rows: seq<Row>, c: nat) {
    forall i :: 0 <= i < |rows| ==> c < |rows[0]| && c < |rows[i]| && Equal(rows[0][c], rows[i][c])
  }

  lemma {:induction false} RepresentativeCell(c: nat, rows: seq<Row>)
    requires Agreeing(rows, c)
    ensures CellOver(Representative(c), rows) == Ok(Shown(if rows == [] then Null else rows[0][c]))
  {
    if rows != [] {
      var start := rows[..|rows| - 1];
      if start != [] { assert start[0] == rows[0]; }
      forall i | 0 <= i < |start| ensures c < |start[i]| && Equal(start[0][c], start[i][c]) {
        assert start[i] == rows[i];
      }
      RepresentativeCell(c, start);
      assert Equal(rows[0][c], rows[|rows| - 1][c]);
    }
  }

  /** A group's projections are what its cells hold at the end. */
  lemma ProjectionValue(plan: Plan, p: Projection, rows: seq<Row>, width: nat)
    requires AcceptedProjection(plan, p, width) && Wide(rows, width)
    requires forall c :: c in plan.groupBy ==> Agreeing(rows, c)
    ensures EvalGrouped(ExprOfProjection(p), rows) == Projected(p, CellOver(p, rows))
  {
    match p
    case Representative(c) =>
      assert Agreeing(rows, c);
      RepresentativeCell(c, rows);
    case Aggregated(a) =>
      AggregatedCell(a, rows);
      AccumulateIsAggregate(a, rows, width);
  }

  // ---------------------------------------------------------- rows of one group

  /** Rows of a group have the group's key. */
  predicate Keyed(columns: seq<nat>, g: Group) {
    forall i :: 0 <= i < |g.rows| ==> SameTuple(g.key, KeyOf(columns, g.rows[i]))
  }

  predicate AllKeyed(columns: seq<nat>, groups: seq<Group>) {
    forall k :: 0 <= k < |groups| ==> Keyed(columns, groups[k])
  }

  lemma SameTupleReflexive(a: Row)
    ensures SameTuple(a, a)
  {
  }

  lemma {:induction false} GroupsKeyed(initial: seq<Group>, columns: seq<nat>, rows: seq<Row>)
    requires AllKeyed(columns, initial)
    ensures AllKeyed(columns, GroupsFrom(initial, columns, rows))
  {
    if rows != [] {
      var start, last := rows[..|rows| - 1], rows[|rows| - 1];
      GroupsKeyed(initial, columns, start);
      var groups, key := GroupsFrom(initial, columns, start), KeyOf(columns, last);
      SameTupleReflexive(key);
      var n, after := FindGroup(groups, key), AddToGroup(groups, key, last);
      forall k | 0 <= k < |after| ensures Keyed(columns, after[k]) {
        if k < |groups| { assert Keyed(columns, groups[k]); }
      }
    }
  }

  /** The rows of the groups are rows of the input. */
  lemma {:induction false} GroupsWide(initial: seq<Group>, columns: seq<nat>, rows: seq<Row>, width: nat)
    requires Wide(rows, width) && forall k :: 0 <= k < |initial| ==> Wide(initial[k].rows, width)
    ensures forall k :: 0 <= k < |GroupsFrom(initial, columns, rows)| ==> Wide(GroupsFrom(initial, columns, rows)[k].rows, width)
  {
    if rows != [] { GroupsWide(initial, columns, rows[..|rows| - 1], width); }
  }

  lemma KeyedAgrees(columns: seq<nat>, g: Group, width: nat, c: nat)
    requires Keyed(columns, g) && Wide(g.rows, width) && c in columns && c < width
    ensures Agreeing(g.rows, c)
  {
    var k :| 0 <= k < |columns| && columns[k] == c;
    forall i | 0 <= i < |g.rows| ensures Equal(g.rows[0][c], g.rows[i][c]) {
      var a, b := KeyOf(columns, g.rows[0]), KeyOf(columns, g.rows[i]);
      assert SameTuple(g.key, a) && SameTuple(g.key, b);
      assert Equal(g.key[k], a[k]) && Equal(g.key[k], b[k]);
      EqualTransitive(g.key[k], a[k], g.key[k]);
      EqualTransitive(a[k], g.key[k], b[k]);
    }
  }

  // -------------------------------------------------------------- the hash path

  datatype GroupState = GroupState(key: Row, cells: seq<Cell>)

  predicate CellsAre(ps: seq<Projection>, rows: seq<Row>, cells: seq<Cell>) {
    |cells| == |ps| && forall i :: 0 <= i < |ps| ==> CellOver(ps[i], rows) == Ok(cells[i])
  }

  /** The states stand for these groups. */
  predicate Mirrors(ps: seq<Projection>, states: seq<GroupState>, groups: seq<Group>) {
    && |states| == |groups|
    && forall k :: 0 <= k < |states| ==> states[k].key == groups[k].key && CellsAre(ps, groups[k].rows, states[k].cells)
  }

  /** A SUM or AVG meets a value that is no number. */
  predicate NonNumber(ps: seq<Projection>, row: Row) {
    exists i :: 0 <= i < |ps| && ps[i].Aggregated? && Sums(ps[i].a.f) && ps[i].a.argument.Some?
                && !ArgumentOf(ps[i].a, row).Null? && !IsNumeric(ArgumentOf(ps[i].a, row))
  }

  method StepCells(ps: seq<Projection>, cells: seq<Cell>, row: Row, ghost rows: seq<Row>)
    returns (r: Result<seq<Cell>, EvalError>)
    requires CellsAre(ps, rows, cells)
    ensures r.Err? <==> NonNumber(ps, row)
    ensures r.Ok? ==> CellsAre(ps, rows + [row], r.value)
  {
    var next: seq<Cell> := [];
    for i := 0 to |ps|
      invariant |next| == i && forall k :: 0 <= k < i ==> CellOver(ps[k], rows + [row]) == Ok(next[k])
      invariant !NonNumber(ps[..i], row)
    {
      CellStep(ps[i], cells[i], row, rows);
      NonNumberUpTo(ps, i, row);
      var cell := StepCell(ps[i], cells[i], row);
      if cell.Err? { return Err(cell.error); }
      next := next + [cell.value];
    }
    assert ps[..|ps|] == ps;
    return Ok(next);
  }

  predicate Unsummable(p: Projection, row: Row) {
    p.Aggregated? && Sums(p.a.f) && p.a.argument.Some? && !ArgumentOf(p.a, row).Null? && !IsNumeric(ArgumentOf(p.a, row))
  }

  lemma CellStep(p: Projection, cell: Cell, row: Row, rows: seq<Row>)
    requires CellOver(p, rows) == Ok(cell)
    ensures CellOver(p, rows + [row]) == StepCell(p, cell, row)
    ensures StepCell(p, cell, row).Err? <==> Unsummable(p, row)
  {
    assert (rows + [row])[..|rows|] == rows;
    if p.Aggregated? {
      AggregatedCell(p.a, rows);
      if Sums(p.a.f) { SeenSummed(p.a, rows); }
    }
  }

  lemma NonNumberUpTo(ps: seq<Projection>, i: nat, row: Row)
    requires i < |ps| && !NonNumber(ps[..i], row)
    ensures NonNumber(ps[..i + 1], row) <==> Unsummable(ps[i], row)
    ensures Unsummable(ps[i], row) ==> NonNumber(ps, row)
  {
    var now := ps[..i + 1];
    assert now[i] == ps[i];
    if NonNumber(now, row) {
      var k :| 0 <= k < |now| && Unsummable(now[k], row);
      if k < i { assert ps[..i][k] == now[k]; }
    }
  }

  method HashAggregate(plan: Plan, rows: seq<Row>) returns (r: Result<seq<GroupState>, EvalError>)
    ensures r.Err? <==> Unsummed(plan, rows)
    ensures r.Ok? ==> Mirrors(plan.projections, r.value, PlanGroups(plan, Passing(plan.condition, rows)))
  {
    var ps := plan.projections;
    var states := if plan.groupBy == [] then [GroupState([], StartCells(ps))] else [];
    ghost var kept: seq<Row>, groups := [], InitialGroups(plan);
    for k := 0 to |rows|
      invariant kept == Passing(plan.condition, rows[..k]) && groups == PlanGroups(plan, kept) && Mirrors(ps, states, groups)
      invariant forall i :: 0 <= i < k ==> !(Passes(plan.condition, rows[i]) && NonNumber(ps, rows[i]))
    {
      PassingNext(plan.condition, rows, k);
      if Passes(plan.condition, rows[k]) {
        var next := AddRow(ps, plan.groupBy, states, rows[k], groups);
        if next.Err? { return Err(next.error); }
        GroupsNext(plan, kept, rows[k]);
        states, kept := next.value, kept + [rows[k]];
        groups := PlanGroups(plan, kept);
      }
    }
    assert rows[..|rows|] == rows;
    return Ok(states);
  }

  lemma PassingNext(condition: Option<Condition>, rows: seq<Row>, k: nat)
    requires k < |rows|
    ensures Passing(condition, rows[..k + 1])
         == Passing(condition, rows[..k]) + if Passes(condition, rows[k]) then [rows[k]] else []
  {
    assert rows[..k + 1][..k] == rows[..k];
  }

  lemma GroupsNext(plan: Plan, kept: seq<Row>, row: Row)
    ensures PlanGroups(plan, kept + [row]) == AddToGroup(PlanGroups(plan, kept), KeyOf(plan.groupBy, row), row)
  {
    assert (kept + [row])[..|kept|] == kept;
  }

  function StartCells(ps: seq<Projection>): (cells: seq<Cell>)
    ensures CellsAre(ps, [], cells)
  {
    seq(|ps|, i requires 0 <= i < |ps| => StartCell(ps[i]))
  }

  method AddRow(ps: seq<Projection>, columns: seq<nat>, states: seq<GroupState>, row: Row, ghost groups: seq<Group>)
    returns (r: Result<seq<GroupState>, EvalError>)
    requires Mirrors(ps, states, groups)
    ensures r.Err? <==> NonNumber(ps, row)
    ensures r.Ok? ==> Mirrors(ps, r.value, AddToGroup(groups, KeyOf(columns, row), row))
  {
    var key := KeyOf(columns, row);
    var n := 0;
    while n < |states| && !SameTuple(states[n].key, key)
      invariant 0 <= n <= |states| && forall i :: 0 <= i < n ==> !SameTuple(groups[i].key, key)
    {
      n := n + 1;
    }
    if n < |states| {
      var cells := StepCells(ps, states[n].cells, row, groups[n].rows);
      if cells.Err? { return Err(cells.error); }
      return Ok(states[n := GroupState(states[n].key, cells.value)]);
    } else {
      var cells := StepCells(ps, StartCells(ps), row, []);
      if cells.Err? { return Err(cells.error); }
      assert [] + [row] == [row];
      return Ok(states + [GroupState(key, cells.value)]);
    }
  }

  // ------------------------------------------------------------------- output

  function OutputRow(ps: seq<Projection>, cells: seq<Cell>): (row: Row)
    requires |cells| == |ps|
    ensures |row| == |ps|
  {
    seq(|ps|, i requires 0 <= i < |ps| => CellValue(ps[i], cells[i]))
  }

  /** All projections of a group at once. */
  lemma GroupProjection(plan: Plan, g: Group, cells: seq<Cell>, width: nat)
    requires Plannable(plan, width) && Wide(g.rows, width) && Keyed(plan.groupBy, g)
    requires CellsAre(plan.projections, g.rows, cells)
    ensures EvalAllGrouped(ColumnsOf(plan.projections), g.rows) == Ok(OutputRow(plan.projections, cells))
  {
    forall c | c in plan.groupBy ensures Agreeing(g.rows, c) {
      KeyedAgrees(plan.groupBy, g, width, c);
    }
    forall i | 0 <= i < |plan.projections|
      ensures EvalGrouped(ColumnsOf(plan.projections)[i], g.rows) == Ok(OutputRow(plan.projections, cells)[i])
    {
      ProjectionValue(plan, plan.projections[i], g.rows, width);
    }
    ProjectedIff(ColumnsOf(plan.projections), g.rows, OutputRow(plan.projections, cells));
  }

  lemma {:induction false} PassingWide(condition: Option<Condition>, rows: seq<Row>, width: nat)
    requires Wide(rows, width)
    ensures Wide(Passing(condition, rows), width)
  {
    if rows != [] { PassingWide(condition, rows[..|rows| - 1], width); }
  }

  lemma SelectGroups(plan: Plan, width: nat)
    requires Accepted(plan, width)
    ensures Grouped(SelectOf(plan))
  {
    var i :| 0 <= i < |plan.projections| && plan.projections[i].Aggregated?;
    assert HasAggregate(SelectOf(plan).columns[i]);
  }

  lemma PlanColumns(plan: Plan, width: nat)
    requires Accepted(plan, width)
    ensures Simple(SelectOf(plan)) && PlainGrouped(SelectOf(plan)) && Wildcard !in SelectOf(plan).columns
  {
    var s := SelectOf(plan);
    forall i | 0 <= i < |s.columns|
      ensures SimpleColumn(s.columns[i]) && s.columns[i] != Wildcard && (!s.columns[i].Call? ==> s.columns[i] in s.groupBy)
    {
      assert AcceptedProjection(plan, plan.projections[i], width) && s.columns[i] == ExprOfProjection(plan.projections[i]);
      if !s.columns[i].Call? {
        var k :| 0 <= k < |plan.groupBy| && plan.groupBy[k] == plan.projections[i].column;
        assert s.groupBy[k] == s.columns[i];
      }
    }
  }

  /** The answer to the query is the projection of its groups. */
  lemma QueryRows(plan: Plan, rows: seq<Row>, width: nat, outs: seq<Row>)
    requires Accepted(plan, width) && Wide(rows, width)
    requires var groups := PlanGroups(plan, Passing(plan.condition, rows));
      |outs| == |groups|
      && forall k :: 0 <= k < |groups| ==> EvalAllGrouped(ColumnsOf(plan.projections), groups[k].rows) == Ok(outs[k])
    ensures Run(SelectOf(plan), rows) == Ok(outs)
  {
    var kept := Passing(plan.condition, rows);
    PassingIsFilter(plan, rows, width);
    PassingWide(plan.condition, rows, width);
    PlanGroupsAreGroups(plan, kept, width);
    PlanColumns(plan, width);
    SelectGroups(plan, width);
    RowsOfGroups(SelectOf(plan), rows, kept, PlanGroups(plan, kept), outs);
  }

  lemma RowsOfGroups(s: Select, rows: seq<Row>, kept: seq<Row>, groups: seq<Group>, outs: seq<Row>)
    requires Bare(s) && Grouped(s) && Wildcard !in s.columns && |outs| == |groups|
    requires Filter(s.where, rows) == Ok(kept) && GroupsOf(s, kept) == Ok(groups)
    requires forall k :: 0 <= k < |groups| ==> EvalAllGrouped(s.columns, groups[k].rows) == Ok(outs[k])
    ensures Run(s, rows) == Ok(outs)
  {
    OutputsIff(s, groups, outs);
    BareFinish(s, GroupOutputs(s, groups).value);
  }

  /** Whatever groups and cells a pass ends with, its output is the answer to the query. */
  lemma PassIsQuery(plan: Plan, rows: seq<Row>, width: nat, states: seq<GroupState>)
    requires Accepted(plan, width) && Wide(rows, width)
    requires Mirrors(plan.projections, states, PlanGroups(plan, Passing(plan.condition, rows)))
    ensures Run(SelectOf(plan), rows) == Ok(OutputRows(plan.projections, states))
  {
    var kept := Passing(plan.condition, rows);
    var groups := PlanGroups(plan, kept);
    PassingWide(plan.condition, rows, width);
    GroupsKeyed(InitialGroups(plan), plan.groupBy, kept);
    GroupsWide(InitialGroups(plan), plan.groupBy, kept, width);
    forall k | 0 <= k < |groups|
      ensures EvalAllGrouped(ColumnsOf(plan.projections), groups[k].rows) == Ok(OutputRows(plan.projections, states)[k])
    {
      GroupProjection(plan, groups[k], states[k].cells, width);
    }
    QueryRows(plan, rows, width, OutputRows(plan.projections, states));
  }

  function OutputRows(ps: seq<Projection>, states: seq<GroupState>): (outs: seq<Row>)
    requires forall k :: 0 <= k < |states| ==> |states[k].cells| == |ps|
    ensures |outs| == |states|
  {
    seq(|states|, k requires 0 <= k < |states| => OutputRow(ps, states[k].cells))
  }

  // --------------------------------------------------------------- failing queries

  /** Some row that passes holds a value that a sum cannot take. */
  predicate Unsummed(plan: Plan, rows: seq<Row>) {
    exists k :: 0 <= k < |rows| && Passes(plan.condition, rows[k]) && NonNumber(plan.projections, rows[k])
  }

  lemma FailingRowIff(plan: Plan, row: Row, width: nat)
    requires Accepted(plan, width) && |row| == width
    ensures RowFails(SelectOf(plan), row) <==> NonNumber(plan.projections, row)
  {
    var s, ps := SelectOf(plan), plan.projections;
    forall k | 0 <= k < |s.groupBy| ensures !ArgumentFails(s.groupBy[k], row) {
      assert s.groupBy[k] == ColumnRef(plan.groupBy[k]);
    }
    forall k | 0 <= k < |ps| ensures CallFails(s.columns[k], row) <==> Unsummable(ps[k], row) {
      assert AcceptedProjection(plan, ps[k], width) && s.columns[k] == ExprOfProjection(ps[k]);
    }
    if NonNumber(ps, row) {
      var k :| 0 <= k < |ps| && Unsummable(ps[k], row);
      assert CallFails(s.columns[k], row);
    }
    if RowFails(s, row) {
      var k :| 0 <= k < |s.columns| && CallFails(s.columns[k], row);
      assert Unsummable(ps[k], row);
    }
  }

  lemma {:induction false} PassingComplete(condition: Option<Condition>, rows: seq<Row>, row: Row)
    requires row in rows && Passes(condition, row)
    ensures row in Passing(condition, rows)
  {
    var n := |rows| - 1;
    if row in rows[..n] {
      PassingComplete(condition, rows[..n], row);
    } else {
      assert row == rows[n];
    }
  }

  /** The query fails exactly then. */
  lemma QueryErrIff(plan: Plan, rows: seq<Row>, width: nat)
    requires Accepted(plan, width) && Wide(rows, width)
    ensures Run(SelectOf(plan), rows).Err? <==> Unsummed(plan, rows)
  {
    var s, kept := SelectOf(plan), Passing(plan.condition, rows);
    PassingIsFilter(plan, rows, width);
    PassingWide(plan.condition, rows, width);
    PlanColumns(plan, width);
    SelectGroups(plan, width);
    OutputsErrIff(s, kept);
    if i :| 0 <= i < |kept| && RowFails(s, kept[i]) {
      FailingRowIff(plan, kept[i], width);
      assert kept[i] in kept;
      var k :| 0 <= k < |rows| && rows[k] == kept[i];
    }
    if k :| 0 <= k < |rows| && Passes(plan.condition, rows[k]) && NonNumber(plan.projections, rows[k]) {
      FailingRowIff(plan, rows[k], width);
      PassingComplete(plan.condition, rows, rows[k]);
      var i :| 0 <= i < |kept| && kept[i] == rows[k];
    }
  }

  /** The general pass. */
  method ScanAndAggregate(plan: Plan, rows: seq<Row>, width: nat) returns (r: Result<seq<Row>, EvalError>)
    requires Accepted(plan, width) && Wide(rows, width)
    ensures r.Ok? ==> Run(SelectOf(plan), rows) == r
    ensures r.Err? <==> Run(SelectOf(plan), rows).Err?
    ensures r.Err? <==> Unsummed(plan, rows)
  {
    QueryErrIff(plan, rows, width);
    var states := HashAggregate(plan, rows);
    if states.Err? { return Err(states.error); }
    PassIsQuery(plan, rows, width, states.value);
    return Ok(OutputRows(plan.projections, states.value));
  }

  /** When the extrema prove that no row passes, the answer needs no scan. */
  method AnswerEmpty(plan: Plan, ghost rows: seq<Row>, ghost width: nat) returns (r: seq<Row>)
    requires Accepted(plan, width) && Wide(rows, width)
    requires forall k :: 0 <= k < |rows| ==> !Passes(plan.condition, rows[k])
    ensures Run(SelectOf(plan), rows) == Ok(r)
  {
    NonePassing(plan.condition, rows);
    var states := if plan.groupBy == [] then [GroupState([], StartCells(plan.projections))] else [];
    PassIsQuery(plan, rows, width, states);
    r := OutputRows(plan.projections, states);
  }

  lemma {:induction false} NonePassing(condition: Option<Condition>, rows: seq<Row>)
    requires forall k :: 0 <= k < |rows| ==> !Passes(condition, rows[k])
    ensures Passing(condition, rows) == []
  {
    if rows != [] { NonePassing(condition, rows[..|rows| - 1]); }
  }

  // -------------------------------------------------------- counting by statistics

  /** A single COUNT over the passing rows, of them all or of the compared column. */
  predicate CountsMatches(plan: Plan) {
    && plan.groupBy == [] && |plan.projections| == 1 && plan.condition.Some?
    && plan.projections[0].Aggregated? && plan.projections[0].a.f.Count?
    && (plan.projections[0].a.argument.None? || plan.projections[0].a.argument.value == plan.condition.value.column)
  }

  lemma {:induction false} CountOfMatches(plan: Plan, rows: seq<Row>, width: nat)
    requires Accepted(plan, width) && CountsMatches(plan) && Wide(rows, width)
    requires forall k :: 0 <= k < |rows| ==> Passes(plan.condition, rows[k])
    ensures Accumulate(plan.projections[0].a, rows) == Ok(Empty.(count := |rows|))
  {
    if rows != [] { CountOfMatches(plan, rows[..|rows| - 1], width); }
  }

  /** It is answered by the number of passing rows, however that is known. */
  lemma CountAnswer(plan: Plan, rows: seq<Row>, width: nat)
    requires Accepted(plan, width) && CountsMatches(plan) && Wide(rows, width)
    ensures Run(SelectOf(plan), rows) == Ok([[Integer(|Passing(plan.condition, rows)|)]])
  {
    var kept, a := Passing(plan.condition, rows), plan.projections[0].a;
    PassingWide(plan.condition, rows, width);
    forall k | 0 <= k < |kept| ensures Passes(plan.condition, kept[k]) {
      assert kept[k] in kept;
    }
    CountOfMatches(plan, kept, width);
    AggregatedCell(a, kept);
    OneGroupOfAll(kept);
    var cells := [Kept(Empty.(count := |kept|))];
    var states := [GroupState([], cells)];
    assert CellsAre(plan.projections, kept, cells);
    PassIsQuery(plan, rows, width, states);
    CountOutput(plan, cells[0].state);
  }

  lemma CountOutput(plan: Plan, s: State)
    requires CountsMatches(plan)
    ensures OutputRows(plan.projections, [GroupState([], [Kept(s)])]) == [[Integer(s.count)]]
  {
    var outs := OutputRows(plan.projections, [GroupState([], [Kept(s)])]);
    assert outs[0] == OutputRow(plan.projections, [Kept(s)]);
    assert outs[0][0] == CellValue(plan.projections[0], Kept(s));
    assert outs[0] == [Integer(s.count)];
  }
}
