/** The generic evaluation of a SELECT over one table's rows (src/native_engine.cpp:1256-1276,
    1486-1577): filter, group, project, remove duplicates, sort, cut. It is the meaning
    that the optimizer and the fast paths have to keep. */
module Query {
  import opened Wrappers
  import opened Values
  import opened Expressions

  datatype OrderKey = OrderKey(expr: Expr, ascending: bool)

  datatype Select = Select(
    columns: seq<Expr>, where: Option<Expr>, groupBy: seq<Expr>, having: Option<Expr>, distinct: bool,
    orderBy: seq<OrderKey>, offset: nat, limit: Option<nat>)

  type Failable<T> = Result<T, EvalError>

  // -------------------------------------------------------------------- rows

  function Keeps(where: Option<Expr>, row: Row): Failable<bool> {
    match where
    case None => Ok(true)
    case Some(e) =>
      match Eval(e, row)
      case Err(x) => Err(x)
      case Ok(v) => Ok(AsBoolean(v))
  }

  function Filter(where: Option<Expr>, rows: seq<Row>): (r: Failable<seq<Row>>)
    ensures r.Ok? ==> forall x :: x in r.value ==> x in rows
  {
    if rows == [] then Ok([])
    else
      var last := rows[|rows| - 1];
      match Filter(where, rows[..|rows| - 1])
      case Err(x) => Err(x)
      case Ok(before) =>
        match Keeps(where, last)
        case Err(x) => Err(x)
        case Ok(keep) => Ok(if keep then before + [last] else before)
  }

  function EvalAll(es: seq<Expr>, row: Row): Failable<Row> {
    if es == [] then Ok([])
    else match EvalAll(es[..|es| - 1], row)
      case Err(x) => Err(x)
      case Ok(before) =>
        match Eval(es[|es| - 1], row)
        case Err(x) => Err(x)
        case Ok(v) => Ok(before + [v])
  }

  /** A wildcard stands for the whole row. */
  function Project(columns: seq<Expr>, row: Row): Failable<Row> {
    if columns == [] then Ok([])
    else match Project(columns[..|columns| - 1], row)
      case Err(x) => Err(x)
      case Ok(before) =>
        var last := columns[|columns| - 1];
        if last.Wildcard? then Ok(before + row)
        else match Eval(last, row)
          case Err(x) => Err(x)
          case Ok(v) => Ok(before + [v])
  }

  // ------------------------------------------------------------------- groups

  datatype Group = Group(key: Row, rows: seq<Row>)

  predicate SameTuple(a: Row, b: Row) {
    |a| == |b| && forall i :: 0 <= i < |a| ==> Equal(a[i], b[i])
  }

  function FindGroup(groups: seq<Group>, key: Row): (n: nat)
    ensures n <= |groups| && (n < |groups| ==> SameTuple(groups[n].key, key))
    ensures forall i :: 0 <= i < n ==> !SameTuple(groups[i].key, key)
  {
    FindGroupFrom(groups, key, 0)
  }

  function FindGroupFrom(groups: seq<Group>, key: Row, k: nat): (n: nat)
    requires k <= |groups|
    ensures k <= n <= |groups| && (n < |groups| ==> SameTuple(groups[n].key, key))
    ensures forall i :: k <= i < n ==> !SameTuple(groups[i].key, key)
    decreases |groups| - k
  {
    if k == |groups| || SameTuple(groups[k].key, key) then k else FindGroupFrom(groups, key, k + 1)
  }

  function AddToGroup(groups: seq<Group>, key: Row, row: Row): seq<Group> {
    var n := FindGroup(groups, key);
    if n < |groups| then groups[n := Group(groups[n].key, groups[n].rows + [row])] else groups + [Group(key, [row])]
  }

  /** Groups in the order of their first rows. */
  function GroupRows(groupBy: seq<Expr>, rows: seq<Row>): Failable<seq<Group>> {
    if rows == [] then Ok([])
    else match GroupRows(groupBy, rows[..|rows| - 1])
      case Err(x) => Err(x)
      case Ok(before) =>
        match EvalAll(groupBy, rows[|rows| - 1])
        case Err(x) => Err(x)
        case Ok(key) => Ok(AddToGroup(before, key, rows[|rows| - 1]))
  }

  function EvalAllGrouped(es: seq<Expr>, rows: seq<Row>): Failable<Row> {
    if es == [] then Ok([])
    else match EvalAllGrouped(es[..|es| - 1], rows)
      case Err(x) => Err(x)
      case Ok(before) =>
        match EvalGrouped(es[|es| - 1], rows)
        case Err(x) => Err(x)
        case Ok(v) => Ok(before + [v])
  }

  /** A wildcard is no projection of a group, whether or not the group has rows. */
  function ProjectGrouped(columns: seq<Expr>, rows: seq<Row>): Failable<Row> {
    if Wildcard in columns then Err(NotScalar) else EvalAllGrouped(columns, rows)
  }

  function KeepsGroup(having: Option<Expr>, rows: seq<Row>): Failable<bool> {
    match having
    case None => Ok(true)
    case Some(e) =>
      match EvalGrouped(e, rows)
      case Err(x) => Err(x)
      case Ok(v) => Ok(AsBoolean(v))
  }

  // ------------------------------------------------------------------- output

  datatype Output = Output(values: Row, keys: Row)

  function KeyExprs(orderBy: seq<OrderKey>): (es: seq<Expr>)
    ensures |es| == |orderBy|
  {
    seq(|orderBy|, i requires 0 <= i < |orderBy| => orderBy[i].expr)
  }

  function RowOutput(s: Select, row: Row): Failable<Output> {
    match Project(s.columns, row)
    case Err(x) => Err(x)
    case Ok(values) =>
      match EvalAll(KeyExprs(s.orderBy), row)
      case Err(x) => Err(x)
      case Ok(keys) => Ok(Output(values, keys))
  }

  function RowOutputs(s: Select, rows: seq<Row>): Failable<seq<Output>> {
    if rows == [] then Ok([])
    else match RowOutputs(s, rows[..|rows| - 1])
      case Err(x) => Err(x)
      case Ok(before) =>
        match RowOutput(s, rows[|rows| - 1])
        case Err(x) => Err(x)
        case Ok(o) => Ok(before + [o])
  }

  function GroupOutput(s: Select, rows: seq<Row>): Failable<seq<Output>> {
    match KeepsGroup(s.having, rows)
    case Err(x) => Err(x)
    case Ok(false) => Ok([])
    case Ok(true) =>
      match ProjectGrouped(s.columns, rows)
      case Err(x) => Err(x)
      case Ok(values) =>
        match EvalAllGrouped(KeyExprs(s.orderBy), rows)
        case Err(x) => Err(x)
        case Ok(keys) => Ok([Output(values, keys)])
  }

  function GroupOutputs(s: Select, groups: seq<Group>): Failable<seq<Output>> {
    if groups == [] then Ok([])
    else match GroupOutputs(s, groups[..|groups| - 1])
      case Err(x) => Err(x)
      case Ok(before) =>
        match GroupOutput(s, groups[|groups| - 1].rows)
        case Err(x) => Err(x)
        case Ok(o) => Ok(before + o)
  }

  predicate SomeAggregate(es: seq<Expr>) {
    exists i :: 0 <= i < |es| && HasAggregate(es[i])
  }

  predicate Grouped(s: Select) {
    s.groupBy != [] || SomeAggregate(s.columns) || (s.having.Some? && HasAggregate(s.having.value))
  }

  function GroupsOf(s: Select, rows: seq<Row>): Failable<seq<Group>> {
    if s.groupBy == [] then Ok([Group([], rows)]) else GroupRows(s.groupBy, rows)
  }

  function Outputs(s: Select, rows: seq<Row>): Failable<seq<Output>> {
    if Grouped(s) then
      match GroupsOf(s, rows)
      case Err(x) => Err(x)
      case Ok(groups) => GroupOutputs(s, groups)
    else RowOutputs(s, rows)
  }

  /** The first of each set of equal tuples. */
  function RemoveDuplicates(os: seq<Output>): seq<Output> {
    if os == [] then []
    else
      var before, last := RemoveDuplicates(os[..|os| - 1]), os[|os| - 1];
      if exists i :: 0 <= i < |before| && SameTuple(before[i].values, last.values) then before else before + [last]
  }

  predicate Precedes(orderBy: seq<OrderKey>, a: Output, b: Output, k: nat)
    requires k <= |orderBy|
    decreases |orderBy| - k
  {
    if k == |orderBy| || k >= |a.keys| || k >= |b.keys| then false
    else
      var c := Compare(a.keys[k], b.keys[k]);
      if c == 0 then Precedes(orderBy, a, b, k + 1) else if orderBy[k].ascending then c < 0 else c > 0
  }

  function InsertStable(orderBy: seq<OrderKey>, sorted: seq<Output>, o: Output): seq<Output> {
    if sorted == [] || !Precedes(orderBy, o, sorted[|sorted| - 1], 0) then sorted + [o]
    else InsertStable(orderBy, sorted[..|sorted| - 1], o) + [sorted[|sorted| - 1]]
  }

  /** Stable sort. */
  function SortOutputs(orderBy: seq<OrderKey>, os: seq<Output>): seq<Output> {
    if os == [] then [] else InsertStable(orderBy, SortOutputs(orderBy, os[..|os| - 1]), os[|os| - 1])
  }

  function Page(os: seq<Output>, offset: nat, limit: Option<nat>): seq<Output> {
    var rest := if offset < |os| then os[offset..] else [];
    if limit.Some? && limit.value < |rest| then rest[..limit.value] else rest
  }

  function ValuesOf(os: seq<Output>): seq<Row> {
    seq(|os|, i requires 0 <= i < |os| => os[i].values)
  }

  function Finish(s: Select, os: seq<Output>): seq<Row> {
    var unique := if s.distinct then RemoveDuplicates(os) else os;
    ValuesOf(Page(if s.orderBy == [] then unique else SortOutputs(s.orderBy, unique), s.offset, s.limit))
  }

  function Run(s: Select, rows: seq<Row>): Failable<seq<Row>> {
    match Filter(s.where, rows)
    case Err(x) => Err(x)
    case Ok(kept) =>
      match Outputs(s, kept)
      case Err(x) => Err(x)
      case Ok(os) => Ok(Finish(s, os))
  }
}
