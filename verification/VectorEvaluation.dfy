/** Evaluating an expression over a batch of rows, a vector per subexpression
    (src/native_vectorized.cpp:277-429): element by element what evaluating it on each row gives. */
module VectorEvaluation {
  import opened Wrappers
  import opened Values
  import opened Expressions
  import opened GroupedQueries
  import opened ColumnPredicates
  import opened TypedVectors

  // ------------------------------------------------------------- static types

  predicate TypedRow(kinds: seq<Kind>, row: Row) {
    |row| == |kinds| && forall c :: 0 <= c < |kinds| ==> OfKind(kinds[c], row[c])
  }

  predicate TypedRows(kinds: seq<Kind>, rows: seq<Row>) {
    forall i :: 0 <= i < |rows| ==> TypedRow(kinds, rows[i])
  }

  /** The type of an expression's values over columns of these types. */
  function StaticKind(e: Expr, kinds: seq<Kind>): Kind {
    match e
    case Literal(v) => KindOf(v)
    case ColumnRef(c) => if c < |kinds| then kinds[c] else NullKind
    case Binary(op, l, r) =>
      (match op
       case Concat => TextKind
       case Computes(_) =>
         if StaticKind(l, kinds) == IntegerKind && StaticKind(r, kinds) == IntegerKind then IntegerKind else RealKind
       case _ => BooleanKind)
    case Unary(op, x) =>
      (match op
       case Not => BooleanKind
       case Neg => if StaticKind(x, kinds) == IntegerKind then IntegerKind else RealKind)
    case _ => NullKind
  }

  lemma {:induction false} EvalKind(e: Expr, kinds: seq<Kind>, row: Row)
    requires TypedRow(kinds, row) && Eval(e, row).Ok?
    ensures OfKind(StaticKind(e, kinds), Eval(e, row).value)
  {
    match e
    case Binary(op, l, r) =>
      EvalKind(l, kinds, row);
      EvalKind(r, kinds, row);
    case Unary(op, x) =>
      EvalKind(x, kinds, row);
    case _ =>
  }

  // ------------------------------------------------------------------ batches

  /** The vector holds the expression's value on every row. */
  ghost predicate Shows(v: TypedVector, e: Expr, rows: seq<Row>)
    reads v
  {
    && v.Valid() && v.size == |rows|
    && forall i :: 0 <= i < |rows| ==> Eval(e, rows[i]) == Ok(v.Contents().values[i])
  }

  /** The decoded columns of the rows, one vector each. */
  ghost predicate Batch(columns: seq<TypedVector>, required: seq<nat>, kinds: seq<Kind>, rows: seq<Row>)
    reads columns
  {
    && |columns| == |required| && TypedRows(kinds, rows)
    && forall k :: 0 <= k < |columns| ==> Shows(columns[k], ColumnRef(required[k]), rows)
  }

  function Everything(width: nat): (all: set<nat>)
    ensures forall c :: c in all <==> 0 <= c < width
  {
    if width == 0 then {} else Everything(width - 1) + {width - 1}
  }

  /** The columns an expression makes the scan decode; a wildcard means all. */
  function Uses(e: Expr, width: nat): set<nat> {
    match e
    case Literal(_) => {}
    case ColumnRef(c) => {c}
    case Wildcard => Everything(width)
    case Binary(_, l, r) => Uses(l, width) + Uses(r, width)
    case Unary(_, x) => Uses(x, width)
    case Call(f, _, args) =>
      if CountsRows(f, args) then {} else set i, c | 0 <= i < |args| && c in Uses(args[i], width) :: c
  }

  predicate Decoded(e: Expr, required: seq<nat>, width: nat) {
    forall c :: c in Uses(e, width) ==> c in required
  }

  method ResolveColumn(column: nat, required: seq<nat>) returns (k: nat)
    requires column in required
    ensures k < |required| && required[k] == column
  {
    k := 0;
    while required[k] != column
      invariant k < |required| && column in required[k..]
      decreases |required| - k
    {
      k := k + 1;
    }
  }

  ghost predicate Fails(e: Expr, rows: seq<Row>) {
    exists i :: 0 <= i < |rows| && Eval(e, rows[i]).Err?
  }

  /** The vector holds the expression's values on the first n rows, all of one type. */
  ghost predicate ShowsUpTo(v: TypedVector, e: Expr, kind: Kind, rows: seq<Row>, n: nat)
    reads v
  {
    && v.Valid() && v.size == n <= |rows| && v.Contents().kind in {NullKind, kind}
    && forall i :: 0 <= i < n ==> Eval(e, rows[i]) == Ok(v.Contents().values[i])
  }

  /** Appends the value on the next row. */
  method AppendNext(v: TypedVector, value: Value, ghost e: Expr, ghost kinds: seq<Kind>, ghost rows: seq<Row>)
    requires TypedRows(kinds, rows) && v.size < |rows| && ShowsUpTo(v, e, StaticKind(e, kinds), rows, v.size)
    requires Eval(e, rows[v.size]) == Ok(value)
    modifies v
    ensures v.size == old(v.size) + 1 && ShowsUpTo(v, e, StaticKind(e, kinds), rows, v.size)
  {
    ghost var before, n := v.Contents(), v.size;
    EvalKind(e, kinds, rows[v.size]);
    OneMoreUniform(StaticKind(e, kinds), before, value);
    var r := v.Append(value);
    assert v.Contents().values == before.values + [value];
  }

  // --------------------------------------------------------------- evaluation

  method EvalVector(e: Expr, columns: seq<TypedVector>, required: seq<nat>, ghost kinds: seq<Kind>, ghost rows: seq<Row>,
                    count: nat)
    returns (r: Result<TypedVector, EvalError>)
    requires Batch(columns, required, kinds, rows) && count == |rows| > 0 && Decoded(e, required, |kinds|)
    ensures r.Ok? ==> Shows(r.value, e, rows)
    ensures r.Err? ==> Fails(e, rows)
    decreases e
  {
    match e
    case Literal(value) =>
      var v := EvalLiteral(value, kinds, rows, count);
      return Ok(v);
    case ColumnRef(c) =>
      var k := ResolveColumn(c, required);
      return Ok(columns[k]);
    case Binary(op, left, right) =>
      if op.Compares? && left.ColumnRef? && right.Literal? {
        assert left.column in Uses(e, |kinds|);
        var k := ResolveColumn(left.column, required);
        var v := CompareColumn(op.c, left.column, right.value, true, columns[k], kinds, rows, count);
        return Ok(v);
      }
      if op.Compares? && right.ColumnRef? && left.Literal? {
        assert right.column in Uses(e, |kinds|);
        var k := ResolveColumn(right.column, required);
        var v := CompareColumn(op.c, right.column, left.value, false, columns[k], kinds, rows, count);
        return Ok(v);
      }
      var l := EvalVector(left, columns, required, kinds, rows, count);
      if l.Err? { FailsBinary(op, left, right, rows); return Err(l.error); }
      var x := EvalVector(right, columns, required, kinds, rows, count);
      if x.Err? { FailsBinary(op, left, right, rows); return Err(x.error); }
      r := BinaryVector(op, l.value, x.value, left, right, kinds, rows, count);
    case Unary(op, operand) =>
      var x := EvalVector(operand, columns, required, kinds, rows, count);
      if x.Err? { FailsUnary(op, operand, rows); return Err(x.error); }
      r := UnaryVector(op, x.value, operand, kinds, rows, count);
    case Wildcard =>
      assert Eval(e, rows[0]).Err?;
      return Err(NotScalar);
    case Call(_, _, _) =>
      assert Eval(e, rows[0]).Err?;
      return Err(NotScalar);
  }

  lemma FailsBinary(op: BinaryOp, left: Expr, right: Expr, rows: seq<Row>)
    requires Fails(left, rows) || Fails(right, rows)
    ensures Fails(Binary(op, left, right), rows)
  {
    if Fails(left, rows) {
      var i :| 0 <= i < |rows| && Eval(left, rows[i]).Err?;
      assert Eval(Binary(op, left, right), rows[i]).Err?;
    } else {
      var i :| 0 <= i < |rows| && Eval(right, rows[i]).Err?;
      assert Eval(Binary(op, left, right), rows[i]).Err?;
    }
  }

  lemma FailsUnary(op: UnaryOp, operand: Expr, rows: seq<Row>)
    requires Fails(operand, rows)
    ensures Fails(Unary(op, operand), rows)
  {
    var i :| 0 <= i < |rows| && Eval(operand, rows[i]).Err?;
    assert Eval(Unary(op, operand), rows[i]).Err?;
  }

  method EvalLiteral(value: Value, ghost kinds: seq<Kind>, ghost rows: seq<Row>, count: nat) returns (v: TypedVector)
    requires TypedRows(kinds, rows) && count == |rows|
    ensures Shows(v, Literal(value), rows)
  {
    v := new TypedVector(KindOf(value));
    for i := 0 to count
      invariant fresh(v) && v.size == i && ShowsUpTo(v, Literal(value), KindOf(value), rows, i)
    {
      AppendNext(v, value, Literal(value), kinds, rows);
    }
  }

  method BinaryVector(op: BinaryOp, l: TypedVector, x: TypedVector, ghost left: Expr, ghost right: Expr,
                      ghost kinds: seq<Kind>, ghost rows: seq<Row>, count: nat)
    returns (r: Result<TypedVector, EvalError>)
    requires TypedRows(kinds, rows) && count == |rows| && Shows(l, left, rows) && Shows(x, right, rows)
    ensures r.Ok? ==> Shows(r.value, Binary(op, left, right), rows)
    ensures r.Err? ==> Fails(Binary(op, left, right), rows)
  {
    ghost var e := Binary(op, left, right);
    var v := new TypedVector(NullKind);
    for i := 0 to count
      invariant fresh(v) && v.size == i && ShowsUpTo(v, e, StaticKind(e, kinds), rows, i)
    {
      var a := l.ValueAt(i);
      var b := x.ValueAt(i);
      var value := ApplyBinary(op, a, b);
      assert Eval(e, rows[i]) == value by { BinaryAt(op, left, right, rows[i], a, b); }
      if value.Err? { return Err(value.error); }
      AppendNext(v, value.value, e, kinds, rows);
    }
    return Ok(v);
  }

  lemma BinaryAt(op: BinaryOp, left: Expr, right: Expr, row: Row, a: Value, b: Value)
    requires Eval(left, row) == Ok(a) && Eval(right, row) == Ok(b)
    ensures Eval(Binary(op, left, right), row) == ApplyBinary(op, a, b)
  {
  }

  method UnaryVector(op: UnaryOp, x: TypedVector, ghost operand: Expr, ghost kinds: seq<Kind>, ghost rows: seq<Row>, count: nat)
    returns (r: Result<TypedVector, EvalError>)
    requires TypedRows(kinds, rows) && count == |rows| && Shows(x, operand, rows)
    ensures r.Ok? ==> Shows(r.value, Unary(op, operand), rows)
    ensures r.Err? ==> Fails(Unary(op, operand), rows)
  {
    ghost var e := Unary(op, operand);
    var v := new TypedVector(NullKind);
    for i := 0 to count
      invariant fresh(v) && v.size == i && ShowsUpTo(v, e, StaticKind(e, kinds), rows, i)
    {
      var a := x.ValueAt(i);
      var value := ApplyUnary(op, a);
      assert Eval(e, rows[i]) == value;
      if value.Err? { return Err(value.error); }
      AppendNext(v, value.value, e, kinds, rows);
    }
    return Ok(v);
  }

  // -------------------------------------------- a column compared with a literal

  function CompareExpr(op: Comparison, column: nat, scalar: Value, columnOnLeft: bool): Expr {
    ExprOf(Condition(column, op, scalar, columnOnLeft))
  }

  method CompareColumn(op: Comparison, column: nat, scalar: Value, columnOnLeft: bool, values: TypedVector,
                       ghost kinds: seq<Kind>, ghost rows: seq<Row>, count: nat)
    returns (v: TypedVector)
    requires TypedRows(kinds, rows) && count == |rows| && Shows(values, ColumnRef(column), rows)
    ensures Shows(v, CompareExpr(op, column, scalar, columnOnLeft), rows)
  {
    ghost var e := CompareExpr(op, column, scalar, columnOnLeft);
    var kind := KindOfStorage(values.storage);
    var numeric := kind != TextKind && kind != BlobKind && kind != NullKind && IsNumeric(scalar);
    v := new TypedVector(BooleanKind);
    for i := 0 to count
      invariant fresh(v) && v.size == i && ShowsUpTo(v, e, BooleanKind, rows, i)
    {
      var current := values.ValueAt(i);
      StoredKind(values, i);
      ComparedAt(op, column, scalar, columnOnLeft, rows[i], current, numeric);
      var value := Compared(op, scalar, columnOnLeft, current, numeric);
      AppendNext(v, value, e, kinds, rows);
    }
  }

  /** One element of the result; numbers are compared as doubles without making a value. */
  function Compared(op: Comparison, scalar: Value, columnOnLeft: bool, current: Value, numeric: bool): Value
    requires numeric ==> IsNumeric(scalar) && (current.Null? || IsNumeric(current))
  {
    if current.Null? || scalar.Null? then Null
    else
      var order := if numeric then Sign(AsReal(current) < AsReal(scalar), AsReal(current) > AsReal(scalar))
                   else Compare(current, scalar);
      Boolean(OrderMatches(op, if columnOnLeft then order else -order))
  }

  lemma ComparedAt(op: Comparison, column: nat, scalar: Value, columnOnLeft: bool, row: Row, current: Value, numeric: bool)
    requires Eval(ColumnRef(column), row) == Ok(current)
    requires numeric ==> IsNumeric(scalar) && (current.Null? || IsNumeric(current))
    ensures Eval(CompareExpr(op, column, scalar, columnOnLeft), row) == Ok(Compared(op, scalar, columnOnLeft, current, numeric))
  {
    CompareEqual(current, scalar);
    CompareEqual(scalar, current);
    if columnOnLeft {
      BinaryAt(Compares(op), ColumnRef(column), Literal(scalar), row, current, scalar);
    } else {
      BinaryAt(Compares(op), Literal(scalar), ColumnRef(column), row, scalar, current);
    }
  }

  lemma StoredKind(v: TypedVector, i: nat)
    requires v.Valid() && i < v.size
    ensures OfKind(KindOfStorage(v.storage), v.Contents().values[i])
  {
  }
}
