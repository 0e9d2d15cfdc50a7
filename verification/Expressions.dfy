/** Scalar and grouped evaluation (src/native_engine.cpp:1860-2109). Integers are unbounded and
    doubles exact; columns are given by their position. */
module Expressions {
  import opened Wrappers
  import opened Values
  import opened Tables

  datatype Comparison = Eq | Ne | Lt | Gt | Le | Ge

  datatype ArithmeticOp = Add | Sub | Mul | Div

  datatype BinaryOp = And | Or | Compares(c: Comparison) | Concat | Computes(a: ArithmeticOp)

  datatype UnaryOp = Not | Neg

  datatype Function = Count | Sum | Average | Maximum | Minimum

  datatype Expr =
    | Literal(value: Value)
    | ColumnRef(column: nat)
    | Wildcard
    | Binary(op: BinaryOp, left: Expr, right: Expr)
    | Unary(uop: UnaryOp, operand: Expr)
    | Call(function_: Function, distinct: bool, args: seq<Expr>)

  /** The last is a vector that was never evaluated, which the program dereferences. */
  datatype EvalError = UnknownColumnError | NotScalar | NotNumeric | MissingArgument | MissingVector

  type Evaluated = Result<Value, EvalError>

  // ---------------------------------------------------------------- operators

  /** C++ integer division truncates toward zero. */
  function Quotient(a: int, b: int): int
    requires b != 0
  {
    if a >= 0 then (if b > 0 then a / b else -(a / -b))
    else (if b > 0 then -(-a / b) else (-a) / (-b))
  }

  function IntegerResult(op: ArithmeticOp, a: int, b: int): Value {
    match op
    case Add => Integer(a + b)
    case Sub => Integer(a - b)
    case Mul => Integer(a * b)
    case Div => if b == 0 then Null else Integer(Quotient(a, b))
  }

  function RealResult(op: ArithmeticOp, a: real, b: real): Value {
    match op
    case Add => Real(a + b)
    case Sub => Real(a - b)
    case Mul => Real(a * b)
    case Div => if b == 0.0 then Null else Real(a / b)
  }

  function Arithmetic(op: ArithmeticOp, a: Value, b: Value): Value
    requires IsNumeric(a) && IsNumeric(b)
  {
    if a.Integer? && b.Integer? then IntegerResult(op, a.i, b.i) else RealResult(op, AsReal(a), AsReal(b))
  }

  predicate Satisfies(c: Comparison, a: Value, b: Value) {
    match c
    case Eq => Equal(a, b)
    case Ne => !Equal(a, b)
    case Lt => Compare(a, b) < 0
    case Gt => Compare(a, b) > 0
    case Le => Compare(a, b) <= 0
    case Ge => Compare(a, b) >= 0
  }

  function ApplyBinary(op: BinaryOp, a: Value, b: Value): Evaluated {
    match op
    case And => Ok(Boolean(AsBoolean(a) && AsBoolean(b)))
    case Or => Ok(Boolean(AsBoolean(a) || AsBoolean(b)))
    case Compares(c) => if a.Null? || b.Null? then Ok(Null) else Ok(Boolean(Satisfies(c, a, b)))
    case Concat => if a.Null? || b.Null? then Ok(Null) else Ok(Text(ToText(a) + ToText(b)))
    case Computes(o) =>
      if a.Null? || b.Null? then Ok(Null)
      else if IsNumeric(a) && IsNumeric(b) then Ok(Arithmetic(o, a, b))
      else Err(NotNumeric)
  }

  function ApplyUnary(op: UnaryOp, a: Value): Evaluated {
    match op
    case Not => Ok(Boolean(!AsBoolean(a)))
    case Neg =>
      if a.Null? then Ok(Null)
      else if a.Integer? then Ok(Integer(-a.i))
      else if IsNumeric(a) then Ok(Real(-AsReal(a)))
      else Err(NotNumeric)
  }

  // ---------------------------------------------------------------- evaluation

  function Eval(e: Expr, row: Row): Evaluated {
    match e
    case Literal(v) => Ok(v)
    case ColumnRef(c) => if c < |row| then Ok(row[c]) else Err(UnknownColumnError)
    case Wildcard => Err(NotScalar)
    case Binary(op, l, r) =>
      (match Eval(l, row)
       case Err(x) => Err(x)
       case Ok(a) =>
         match Eval(r, row)
         case Err(x) => Err(x)
         case Ok(b) => ApplyBinary(op, a, b))
    case Unary(op, x) =>
      (match Eval(x, row)
       case Err(x) => Err(x)
       case Ok(a) => ApplyUnary(op, a))
    case Call(_, _, _) => Err(NotScalar)
  }

  /** The non-NULL values of an argument over the rows, in order. */
  function ArgumentValues(e: Expr, rows: seq<Row>): Result<seq<Value>, EvalError> {
    if rows == [] then Ok([])
    else match ArgumentValues(e, rows[..|rows| - 1])
      case Err(x) => Err(x)
      case Ok(before) =>
        match Eval(e, rows[|rows| - 1])
        case Err(x) => Err(x)
        case Ok(v) => Ok(if v.Null? then before else before + [v])
  }

  /** Each value once, by operator==. */
  function DistinctValues(vs: seq<Value>): seq<Value> {
    if vs == [] then []
    else
      var before, last := DistinctValues(vs[..|vs| - 1]), vs[|vs| - 1];
      if exists i :: 0 <= i < |before| && Equal(before[i], last) then before else before + [last]
  }

  function SumOf(vs: seq<Value>): Result<real, EvalError> {
    if vs == [] then Ok(0.0)
    else match SumOf(vs[..|vs| - 1])
      case Err(x) => Err(x)
      case Ok(s) => if IsNumeric(vs[|vs| - 1]) then Ok(s + AsReal(vs[|vs| - 1])) else Err(NotNumeric)
  }

  predicate AllIntegers(vs: seq<Value>) {
    forall i :: 0 <= i < |vs| ==> vs[i].Integer?
  }

  /** The first value no later one beats. */
  function Best(vs: seq<Value>, largest: bool): Value
    requires vs != []
  {
    if |vs| == 1 then vs[0]
    else
      var before, last := Best(vs[..|vs| - 1], largest), vs[|vs| - 1];
      if (largest && Compare(last, before) > 0) || (!largest && Compare(last, before) < 0) then last else before
  }

  /** An aggregate over the non-NULL values of its argument. */
  function Fold(f: Function, vs: seq<Value>): Evaluated {
    match f
    case Count => Ok(Integer(|vs|))
    case Sum =>
      if vs == [] then Ok(Null)
      else (match SumOf(vs)
            case Err(x) => Err(x)
            case Ok(s) => Ok(if AllIntegers(vs) then Integer(Truncate(s)) else Real(s)))
    case Average =>
      if vs == [] then Ok(Null)
      else (match SumOf(vs)
            case Err(x) => Err(x)
            case Ok(s) => Ok(Real(s / |vs| as real)))
    case Maximum => Ok(if vs == [] then Null else Best(vs, true))
    case Minimum => Ok(if vs == [] then Null else Best(vs, false))
  }

  function AggregateOf(f: Function, distinct: bool, args: seq<Expr>, rows: seq<Row>): Evaluated {
    if f == Count && (args == [] || args[0].Wildcard?) then Ok(Integer(|rows|))
    else if args == [] then Err(MissingArgument)
    else match ArgumentValues(args[0], rows)
      case Err(x) => Err(x)
      case Ok(vs) => Fold(f, if f == Count && distinct then DistinctValues(vs) else vs)
  }

  function EvalGrouped(e: Expr, rows: seq<Row>): Evaluated {
    match e
    case Call(f, distinct, args) => AggregateOf(f, distinct, args, rows)
    case Binary(op, l, r) =>
      (match EvalGrouped(l, rows)
       case Err(x) => Err(x)
       case Ok(a) =>
         match EvalGrouped(r, rows)
         case Err(x) => Err(x)
         case Ok(b) => ApplyBinary(op, a, b))
    case Unary(op, x) =>
      (match EvalGrouped(x, rows)
       case Err(x) => Err(x)
       case Ok(a) => ApplyUnary(op, a))
    case _ => if rows == [] then Ok(Null) else Eval(e, rows[0])
  }

  predicate HasAggregate(e: Expr) {
    match e
    case Call(_, _, _) => true
    case Binary(_, l, r) => HasAggregate(l) || HasAggregate(r)
    case Unary(_, x) => HasAggregate(x)
    case _ => false
  }
}
