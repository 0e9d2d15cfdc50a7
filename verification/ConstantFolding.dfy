/** Constant folding (src/optimizer.cpp:77-215) keeps what expressions mean. */
module ConstantFolding {
  import opened Wrappers
  import opened Values
  import opened Expressions

  predicate NumberLiteral(v: Value) {
    v.Integer? || v.Real?
  }

  /** What an operator on two literals folds to, if anything. */
  function TryFold(op: BinaryOp, a: Value, b: Value): Option<Value> {
    match op
    case And => if a.Boolean? && b.Boolean? then Some(Boolean(a.b && b.b)) else None
    case Or => if a.Boolean? && b.Boolean? then Some(Boolean(a.b || b.b)) else None
    case Concat => if a.Text? && b.Text? then Some(Text(a.text + b.text)) else None
    case Compares(c) => if NumberLiteral(a) && NumberLiteral(b) then Some(Boolean(NumbersSatisfy(c, AsReal(a), AsReal(b)))) else None
    case Computes(o) => if NumberLiteral(a) && NumberLiteral(b) then FoldNumbers(o, a, b) else None
  }

  predicate NumbersSatisfy(c: Comparison, a: real, b: real) {
    match c
    case Eq => a == b
    case Ne => a != b
    case Lt => a < b
    case Gt => a > b
    case Le => a <= b
    case Ge => a >= b
  }

  /** A division by zero is left for evaluation. */
  function FoldNumbers(o: ArithmeticOp, a: Value, b: Value): Option<Value>
    requires NumberLiteral(a) && NumberLiteral(b)
  {
    if o.Div? && AsReal(b) == 0.0 then None
    else if a.Integer? && b.Integer? then
      (match o
       case Add => Some(Integer(a.i + b.i))
       case Sub => Some(Integer(a.i - b.i))
       case Mul => Some(Integer(a.i * b.i))
       case Div => Some(Integer(Quotient(a.i, b.i))))
    else
      (match o
       case Add => Some(Real(AsReal(a) + AsReal(b)))
       case Sub => Some(Real(AsReal(a) - AsReal(b)))
       case Mul => Some(Real(AsReal(a) * AsReal(b)))
       case Div => Some(Real(AsReal(a) / AsReal(b))))
  }

  function TryFoldUnary(op: UnaryOp, a: Value): Option<Value> {
    match op
    case Neg => if a.Integer? then Some(Integer(-a.i)) else if a.Real? then Some(Real(-a.r)) else None
    case Not => if a.Boolean? then Some(Boolean(!a.b)) else None
  }

  function FoldConstants(e: Expr): Expr {
    match e
    case Binary(op, l, r) =>
      var fl, fr := FoldConstants(l), FoldConstants(r);
      if fl.Literal? && fr.Literal? && TryFold(op, fl.value, fr.value).Some?
      then Literal(TryFold(op, fl.value, fr.value).value) else Binary(op, fl, fr)
    case Unary(op, x) =>
      var fx := FoldConstants(x);
      if fx.Literal? && TryFoldUnary(op, fx.value).Some? then Literal(TryFoldUnary(op, fx.value).value) else Unary(op, fx)
    case Call(f, distinct, args) =>
      Call(f, distinct, seq(|args|, i requires 0 <= i < |args| => FoldConstants(args[i])))
    case _ => e
  }

  // ------------------------------------------------------------------ meaning

  /** Folding computes what evaluation would. */
  lemma TryFoldSound(op: BinaryOp, a: Value, b: Value)
    requires TryFold(op, a, b).Some?
    ensures ApplyBinary(op, a, b) == Ok(TryFold(op, a, b).value)
  {
    match op
    case Computes(o) => FoldNumbersSound(o, a, b);
    case Compares(c) => assert IsNumeric(a) && IsNumeric(b);
    case And =>
    case Or =>
    case Concat =>
  }

  lemma FoldNumbersSound(o: ArithmeticOp, a: Value, b: Value)
    requires NumberLiteral(a) && NumberLiteral(b) && FoldNumbers(o, a, b).Some?
    ensures FoldNumbers(o, a, b).value == Arithmetic(o, a, b)
  {
    match o
    case Add =>
    case Sub =>
    case Mul =>
    case Div =>
      if a.Integer? && b.Integer? { ZeroDivisor(b); }
  }

  lemma ZeroDivisor(b: Value)
    requires b.Integer?
    ensures AsReal(b) == 0.0 <==> b.i == 0
  {
  }

  lemma TryFoldUnarySound(op: UnaryOp, a: Value)
    requires TryFoldUnary(op, a).Some?
    ensures ApplyUnary(op, a) == Ok(TryFoldUnary(op, a).value)
  {
  }

  lemma {:induction false} FoldKeepsEval(e: Expr, row: Row)
    ensures Eval(FoldConstants(e), row) == Eval(e, row)
  {
    match e
    case Binary(op, l, r) =>
      FoldKeepsEval(l, row);
      FoldKeepsEval(r, row);
      var fl, fr := FoldConstants(l), FoldConstants(r);
      if fl.Literal? && fr.Literal? && TryFold(op, fl.value, fr.value).Some? { TryFoldSound(op, fl.value, fr.value); }
    case Unary(op, x) =>
      FoldKeepsEval(x, row);
      var fx := FoldConstants(x);
      if fx.Literal? && TryFoldUnary(op, fx.value).Some? { TryFoldUnarySound(op, fx.value); }
    case Call(_, _, _) =>
    case _ =>
  }

  lemma {:induction false} FoldKeepsArguments(e: Expr, rows: seq<Row>)
    ensures ArgumentValues(FoldConstants(e), rows) == ArgumentValues(e, rows)
  {
    if rows != [] {
      FoldKeepsArguments(e, rows[..|rows| - 1]);
      FoldKeepsEval(e, rows[|rows| - 1]);
    }
  }

  /** On a group of rows, too. */
  lemma {:induction false} FoldKeepsGrouped(e: Expr, rows: seq<Row>)
    requires rows != []
    ensures EvalGrouped(FoldConstants(e), rows) == EvalGrouped(e, rows)
  {
    match e
    case Binary(op, l, r) =>
      FoldKeepsGrouped(l, rows);
      FoldKeepsGrouped(r, rows);
      var fl, fr := FoldConstants(l), FoldConstants(r);
      if fl.Literal? && fr.Literal? && TryFold(op, fl.value, fr.value).Some? { TryFoldSound(op, fl.value, fr.value); }
    case Unary(op, x) =>
      FoldKeepsGrouped(x, rows);
      var fx := FoldConstants(x);
      if fx.Literal? && TryFoldUnary(op, fx.value).Some? { TryFoldUnarySound(op, fx.value); }
    case Call(f, distinct, args) =>
      if args != [] { FoldKeepsArguments(args[0], rows); }
    case _ =>
  }

  /** The empty group that an aggregate without GROUP BY has over no rows is the one exception:
      there a literal is NULL, but the operator it was folded from may not be. */
  lemma FoldKeepsGroups(rows: seq<Row>)
    ensures (forall e :: EvalGrouped(FoldConstants(e), rows) == EvalGrouped(e, rows)) <==> rows != []
  {
    if rows != [] {
      forall e ensures EvalGrouped(FoldConstants(e), rows) == EvalGrouped(e, rows) {
        FoldKeepsGrouped(e, rows);
      }
    } else {
      FoldedEmptyGroup(rows);
    }
  }

  lemma FoldedEmptyGroup(rows: seq<Row>)
    requires rows == []
    ensures exists e :: EvalGrouped(FoldConstants(e), rows) != EvalGrouped(e, rows)
  {
    var both := Binary(And, Literal(Boolean(true)), Literal(Boolean(true)));
    assert FoldConstants(both) == Literal(Boolean(true));
    assert EvalGrouped(Literal(Boolean(true)), rows) == Ok(Null);
    assert EvalGrouped(both, rows) == Ok(Boolean(false)) != EvalGrouped(FoldConstants(both), rows);
  }

  /** AND, OR or NOT on top; over no rows these are never NULL. */
  predicate Logical(e: Expr) {
    (e.Binary? && (e.op.And? || e.op.Or?)) || (e.Unary? && e.uop.Not?)
  }

  /** No logical operator outside an aggregate's argument folds away. */
  predicate KeepsLogic(e: Expr) {
    && !(Logical(e) && FoldConstants(e).Literal?)
    && match e
       case Binary(_, l, r) => KeepsLogic(l) && KeepsLogic(r)
       case Unary(_, x) => KeepsLogic(x)
       case _ => true
  }

  /** What folds to a literal and has no logical operator is NULL over no rows, as the literal is. */
  lemma {:induction false} FoldedIsNull(e: Expr)
    requires FoldConstants(e).Literal?
    ensures EvalGrouped(e, []) == Ok(Null) <==> !Logical(e)
    ensures EvalGrouped(FoldConstants(e), []) == Ok(Null)
    ensures EvalGrouped(e, []).Ok? && (Logical(e) ==> FoldConstants(e).value.Boolean?)
  {
    match e
    case Binary(op, l, r) =>
      FoldedIsNull(l);
      FoldedIsNull(r);
    case Unary(op, x) =>
      FoldedIsNull(x);
    case _ =>
  }

  /** For an expression that folds to a literal: over no rows it keeps its value exactly if it has
      no logical operator on top. */
  lemma FoldedLiteralIff(e: Expr)
    requires FoldConstants(e).Literal?
    ensures EvalGrouped(FoldConstants(e), []) == EvalGrouped(e, []) <==> !Logical(e)
  {
    FoldedIsNull(e);
  }

  /** Over no rows folding keeps every expression whose logical operators all stay. */
  lemma {:induction false} FoldKeepsEmptyGroup(e: Expr)
    requires KeepsLogic(e)
    ensures EvalGrouped(FoldConstants(e), []) == EvalGrouped(e, [])
  {
    if FoldConstants(e).Literal? {
      FoldedIsNull(e);
    } else {
      match e
      case Binary(op, l, r) =>
        FoldKeepsEmptyGroup(l);
        FoldKeepsEmptyGroup(r);
      case Unary(op, x) => FoldKeepsEmptyGroup(x);
      case Call(f, distinct, args) =>
        if args != [] { FoldKeepsArguments(args[0], []); }
      case _ =>
    }
  }

  lemma {:induction false} FoldKeepsAggregates(e: Expr)
    ensures HasAggregate(FoldConstants(e)) == HasAggregate(e)
    ensures FoldConstants(e).Wildcard? == e.Wildcard?
  {
    match e
    case Binary(op, l, r) =>
      FoldKeepsAggregates(l);
      FoldKeepsAggregates(r);
    case Unary(op, x) => FoldKeepsAggregates(x);
    case Call(_, _, _) =>
    case _ =>
  }
}
