/** Aggregates kept up to date row by row (src/native_aggregates.cpp:225-281, 640-672, and the
    same states in native_joins.cpp and native_vectorized.cpp): they end where folding the
    whole group would. */
module AggregateStates {
  import opened Wrappers
  import opened Values
  import opened Tables
  import opened Expressions

  /** One aggregate projection; without an argument it counts rows. */
  datatype Aggregate = Aggregate(f: Function, argument: Option<nat>, distinct: bool)

  datatype State = State(count: nat, sum: real, allIntegers: bool, extremum: Option<Value>, seen: seq<Value>)

  const Empty := State(0, 0.0, true, None, [])

  predicate Sums(f: Function) {
    f.Sum? || f.Average?
  }

  /** The value an aggregate takes from a row. */
  function ArgumentOf(a: Aggregate, row: Row): Value {
    if a.argument.Some? && a.argument.value < |row| then row[a.argument.value] else Null
  }

  predicate Beats(f: Function, v: Value, best: Value) {
    (f.Maximum? && Compare(v, best) > 0) || (f.Minimum? && Compare(v, best) < 0)
  }

  function Extremum(f: Function, best: Option<Value>, v: Value): Option<Value> {
    if best.None? || Beats(f, v, best.value) then Some(v) else best
  }

  predicate Seen(vs: seq<Value>, v: Value) {
    exists i :: 0 <= i < |vs| && Equal(vs[i], v)
  }

  /** One more row; summing a value that is no number fails. Only vectors take DISTINCT. */
  function Step(a: Aggregate, s: State, row: Row): Result<State, EvalError> {
    if a.argument.None? then Ok(s.(count := s.count + 1))
    else
      var v := ArgumentOf(a, row);
      if v.Null? || (a.distinct && Seen(s.seen, v)) then Ok(s) else Take(a, s, v)
  }

  function Take(a: Aggregate, s: State, v: Value): Result<State, EvalError> {
    var t := s.(count := s.count + 1, seen := if a.distinct then s.seen + [v] else s.seen);
    if a.f.Count? then Ok(t)
    else if Sums(a.f) then
      if !IsNumeric(v) then Err(NotNumeric)
      else Ok(t.(sum := s.sum + AsReal(v), allIntegers := s.allIntegers && v.Integer?))
    else Ok(t.(extremum := Extremum(a.f, s.extremum, v)))
  }

  function Accumulate(a: Aggregate, rows: seq<Row>): Result<State, EvalError> {
    if rows == [] then Ok(Empty)
    else match Accumulate(a, rows[..|rows| - 1])
      case Err(x) => Err(x)
      case Ok(s) => Step(a, s, rows[|rows| - 1])
  }

  /** What a sum has taken is numbers. */
  lemma {:induction false} SeenSummed(a: Aggregate, rows: seq<Row>)
    requires Accumulate(a, rows).Ok? && Sums(a.f)
    ensures forall v :: Seen(Accumulate(a, rows).value.seen, v) ==> IsNumeric(v)
  {
    if rows != [] { SeenSummed(a, rows[..|rows| - 1]); }
  }

  function Finished(a: Aggregate, s: State): Value {
    match a.f
    case Count => Integer(s.count)
    case Sum => if s.count == 0 then Null else if s.allIntegers then Integer(Truncate(s.sum)) else Real(s.sum)
    case Average => if s.count == 0 then Null else Real(s.sum / s.count as real)
    case Maximum => if s.extremum.Some? then s.extremum.value else Null
    case Minimum => if s.extremum.Some? then s.extremum.value else Null
  }

  function CallOf(a: Aggregate): Expr {
    Call(a.f, a.distinct, if a.argument.None? then [Wildcard] else [ColumnRef(a.argument.value)])
  }

  /** Only COUNT goes without an argument. */
  predicate WellFormed(a: Aggregate, width: nat) {
    (a.argument.None? ==> a.f.Count?) && (a.argument.Some? ==> a.argument.value < width)
  }

  predicate Wide(rows: seq<Row>, width: nat) {
    forall i :: 0 <= i < |rows| ==> |rows[i]| == width
  }

  // ------------------------------------------------------ states and whole groups

  /** The values that count. */
  function Chosen(a: Aggregate, vs: seq<Value>): seq<Value> {
    if a.distinct then DistinctValues(vs) else vs
  }

  /** What the state knows about the values that counted so far. */
  predicate Knows(a: Aggregate, s: State, vs: seq<Value>) {
    && s.count == |vs| && (a.distinct ==> s.seen == vs)
    && (Sums(a.f) ==> SumOf(vs) == Ok(s.sum) && s.allIntegers == AllIntegers(vs))
    && ((a.f.Maximum? || a.f.Minimum?) ==>
         s.extremum == if vs == [] then None else Some(Best(vs, a.f.Maximum?)))
  }

  lemma KnowsMore(a: Aggregate, s: State, vs: seq<Value>, v: Value)
    requires Knows(a, s, vs) && Take(a, s, v).Ok?
    ensures Knows(a, Take(a, s, v).value, vs + [v])
  {
    assert (vs + [v])[..|vs|] == vs;
    if Sums(a.f) {
      forall i | 0 <= i < |vs| ensures (vs + [v])[i] == vs[i] {
      }
      assert (vs + [v])[|vs|] == v;
    }
  }

  lemma {:induction false} NotSummed(vs: seq<Value>, v: Value)
    requires !IsNumeric(v) || SumOf(vs).Err?
    ensures SumOf(vs + [v]).Err?
  {
    assert (vs + [v])[..|vs|] == vs;
  }

  lemma ChosenNext(a: Aggregate, vs: seq<Value>, v: Value)
    ensures Chosen(a, vs + [v]) == if a.distinct && Seen(Chosen(a, vs), v) then Chosen(a, vs) else Chosen(a, vs) + [v]
  {
    assert (vs + [v])[..|vs|] == vs;
  }

  /** The argument values of a column, and the state after as many rows. */
  lemma {:induction false} AccumulateKnows(a: Aggregate, rows: seq<Row>, width: nat)
    requires WellFormed(a, width) && a.argument.Some? && Wide(rows, width)
    ensures ArgumentValues(ColumnRef(a.argument.value), rows).Ok?
    ensures var vs := Chosen(a, ArgumentValues(ColumnRef(a.argument.value), rows).value);
      if Accumulate(a, rows).Ok? then Knows(a, Accumulate(a, rows).value, vs)
      else Sums(a.f) && SumOf(vs).Err? && Accumulate(a, rows).error == NotNumeric
  {
    if rows != [] {
      var start, row := rows[..|rows| - 1], rows[|rows| - 1];
      AccumulateKnows(a, start, width);
      var vs, v := ArgumentValues(ColumnRef(a.argument.value), start).value, row[a.argument.value];
      if !v.Null? {
        ChosenNext(a, vs, v);
        AccumulateTakes(a, start, row, vs, v);
      }
    }
  }

  lemma AccumulateTakes(a: Aggregate, start: seq<Row>, row: Row, vs: seq<Value>, v: Value)
    requires ArgumentOf(a, row) == v && !v.Null? && a.argument.Some?
    requires if Accumulate(a, start).Ok? then Knows(a, Accumulate(a, start).value, Chosen(a, vs))
             else Sums(a.f) && SumOf(Chosen(a, vs)).Err?
    ensures var after, chosen := Accumulate(a, start + [row]), Chosen(a, vs + [v]);
      if after.Ok? then Knows(a, after.value, chosen)
      else Sums(a.f) && SumOf(chosen).Err? && (Accumulate(a, start).Ok? ==> after.error == NotNumeric)
  {
    assert (start + [row])[..|start|] == start;
    ChosenNext(a, vs, v);
    if Accumulate(a, start).Ok? {
      var s := Accumulate(a, start).value;
      if !(a.distinct && Seen(s.seen, v)) {
        if Take(a, s, v).Ok? { KnowsMore(a, s, Chosen(a, vs), v); } else { NotSummed(Chosen(a, vs), v); }
      }
    } else if !(a.distinct && Seen(Chosen(a, vs), v)) {
      NotSummed(Chosen(a, vs), v);
    }
  }

  lemma {:induction false} AccumulateCounts(a: Aggregate, rows: seq<Row>)
    requires a.argument.None?
    ensures Accumulate(a, rows) == Ok(Empty.(count := |rows|))
  {
    if rows != [] { AccumulateCounts(a, rows[..|rows| - 1]); }
  }

  lemma {:induction false} SumFails(vs: seq<Value>)
    requires SumOf(vs).Err?
    ensures SumOf(vs) == Err(NotNumeric) && vs != []
  {
    if vs != [] && SumOf(vs[..|vs| - 1]).Err? { SumFails(vs[..|vs| - 1]); }
  }

  /** Row by row: the aggregate of the values that count, or a failure. */
  lemma AccumulateIsFold(a: Aggregate, rows: seq<Row>, width: nat)
    requires WellFormed(a, width) && Wide(rows, width) && a.argument.Some?
    ensures ArgumentValues(ColumnRef(a.argument.value), rows).Ok?
    ensures Fold(a.f, Chosen(a, ArgumentValues(ColumnRef(a.argument.value), rows).value)) ==
      if Accumulate(a, rows).Ok? then Ok(Finished(a, Accumulate(a, rows).value)) else Err(NotNumeric)
  {
    AccumulateKnows(a, rows, width);
    if Accumulate(a, rows).Err? { SumFails(Chosen(a, ArgumentValues(ColumnRef(a.argument.value), rows).value)); }
  }

  /** Row by row or all at once: the same value, or the same failure. */
  lemma AccumulateIsAggregate(a: Aggregate, rows: seq<Row>, width: nat)
    requires WellFormed(a, width) && Wide(rows, width) && (a.distinct ==> a.f.Count?)
    ensures EvalGrouped(CallOf(a), rows) ==
      if Accumulate(a, rows).Ok? then Ok(Finished(a, Accumulate(a, rows).value)) else Err(NotNumeric)
  {
    if a.argument.None? {
      AccumulateCounts(a, rows);
    } else {
      AccumulateIsFold(a, rows, width);
    }
  }

  // ------------------------------------------------------------------- DISTINCT

  /** The generic path honours DISTINCT for COUNT only; the states honour it for every
      aggregate. On one column of equal values they differ for sums alone. */
  predicate SamePaths(f: Function, distinct: bool, vs: seq<Value>) {
    Fold(f, if distinct then DistinctValues(vs) else vs) == Fold(f, if distinct && f.Count? then DistinctValues(vs) else vs)
  }

  lemma OneAndOne()
    ensures DistinctValues([Integer(1), Integer(1)]) == [Integer(1)] && SumOf([Integer(1)]) == Ok(1.0)
    ensures SumOf([Integer(1), Integer(1)]) == Ok(2.0)
  {
    var one: seq<Value>, two: seq<Value> := [Integer(1)], [Integer(1), Integer(1)];
    assert two == one + [Integer(1)] && one == [] + [Integer(1)];
    DistinctNext([], Integer(1));
    DistinctNext(one, Integer(1));
    assert Equal(one[0], Integer(1));
    SumNext([], Integer(1));
    SumNext(one, Integer(1));
  }

  lemma SumNext(before: seq<Value>, last: Value)
    requires SumOf(before).Ok? && IsNumeric(last)
    ensures SumOf(before + [last]) == Ok(SumOf(before).value + AsReal(last))
  {
    assert (before + [last])[..|before|] == before;
  }

  /** SUM and AVG count an equal value once in the one and each time in the other. */
  lemma SumDistinctDiffers()
    ensures !SamePaths(Sum, true, [Integer(1), Integer(1)])
  {
    var one, two := [Integer(1)], [Integer(1), Integer(1)];
    OneAndOne();
    assert (1.0).Floor == 1 && (2.0).Floor == 2;
    assert Fold(Sum, one) == Ok(Integer(1));
    assert Fold(Sum, two) == Ok(Integer(2));
  }

  lemma AverageDistinctDiffers()
    ensures !SamePaths(Average, true, [Integer(1), Integer(1), Integer(4)])
  {
    var two, vs := [Integer(1), Integer(1)], [Integer(1), Integer(1), Integer(4)];
    OneAndOne();
    assert vs[..2] == two;
    assert DistinctValues(vs) == [Integer(1), Integer(4)];
    assert [Integer(1), Integer(4)][..1] == [Integer(1)];
    assert SumOf([Integer(1), Integer(4)]) == Ok(5.0) && SumOf(vs) == Ok(6.0);
  }

  predicate OneType(vs: seq<Value>) {
    forall i :: 0 <= i < |vs| ==> !vs[i].Null? && Tag(vs[i]) == Tag(vs[0])
  }

  /** Values of one type: Beats is a strict weak order, equal values are not told apart. */
  lemma BeatsOrder(largest: bool, a: Value, b: Value, c: Value)
    requires !a.Null? && Tag(a) == Tag(b) == Tag(c)
    ensures Equal(a, b) <==> a == b
    ensures !Better(largest, a, a) && (Better(largest, a, b) ==> !Better(largest, b, a))
    ensures Better(largest, a, b) && !Better(largest, c, b) ==> Better(largest, a, c)
  {
    if !a.Boolean? {
      ColumnOrder(Tag(a), a, b, c);
      ColumnOrder(Tag(a), c, b, a);
      ColumnOrder(Tag(a), b, a, c);
      ColumnOrder(Tag(a), c, a, b);
      ColumnOrder(Tag(a), a, a, a);
    }
  }

  predicate Better(largest: bool, v: Value, best: Value) {
    (largest && Compare(v, best) > 0) || (!largest && Compare(v, best) < 0)
  }

  lemma {:induction false} DistinctMember(vs: seq<Value>, x: Value)
    requires x in DistinctValues(vs)
    ensures x in vs
  {
    if vs != [] && x in DistinctValues(vs[..|vs| - 1]) { DistinctMember(vs[..|vs| - 1], x); }
  }

  predicate Unbeaten(vs: seq<Value>, best: Value, largest: bool) {
    forall i :: 0 <= i < |vs| ==> !Better(largest, vs[i], best)
  }

  /** Nothing beats the best. */
  lemma {:induction false} BestUnbeaten(vs: seq<Value>, largest: bool)
    requires OneType(vs) && vs != []
    ensures Tag(Best(vs, largest)) == Tag(vs[0]) && !Best(vs, largest).Null? && Unbeaten(vs, Best(vs, largest), largest)
  {
    var n := |vs| - 1;
    var before, last := vs[..n], vs[n];
    BeatsOrder(largest, last, last, last);
    if n > 0 {
      assert before[0] == vs[0];
      BestUnbeaten(before, largest);
      StaysUnbeaten(vs, n, Best(before, largest), last, largest);
    }
  }

  lemma StaysUnbeaten(vs: seq<Value>, n: nat, best: Value, last: Value, largest: bool)
    requires OneType(vs) && |vs| == n + 1 && last == vs[n] && !best.Null? && Tag(best) == Tag(last)
    requires Unbeaten(vs[..n], best, largest)
    ensures Unbeaten(vs, if Better(largest, last, best) then last else best, largest)
  {
    BeatsOrder(largest, last, last, last);
    forall i | 0 <= i < n ensures !Better(largest, vs[i], if Better(largest, last, best) then last else best) {
      assert vs[..n][i] == vs[i];
      if Better(largest, last, best) { NotBoth(largest, vs[i], last, best); }
    }
  }

  /** Dropping repeats keeps the best. */
  lemma {:induction false} DistinctKeepsBest(vs: seq<Value>, largest: bool)
    requires OneType(vs) && vs != []
    ensures DistinctValues(vs) != [] && Best(DistinctValues(vs), largest) == Best(vs, largest)
  {
    var n := |vs| - 1;
    var before, last := vs[..n], vs[n];
    assert vs == before + [last];
    DistinctNext(before, last);
    if n > 0 {
      assert before[0] == vs[0];
      DistinctKeepsBest(before, largest);
      BestUnbeaten(before, largest);
      var ds := DistinctValues(before);
      if i :| 0 <= i < |ds| && Equal(ds[i], last) {
        DistinctMember(before, ds[i]);
        TagIn(vs, before, ds[i]);
        BeatsOrder(largest, ds[i], last, last);
        var k :| 0 <= k < n && before[k] == last;
      } else {
        assert (ds + [last])[..|ds|] == ds;
      }
    }
  }

  lemma TagIn(vs: seq<Value>, before: seq<Value>, x: Value)
    requires OneType(vs) && |before| < |vs| && before == vs[..|before|] && x in before
    ensures !x.Null? && Tag(x) == Tag(vs[0])
  {
    var i :| 0 <= i < |before| && before[i] == x;
    assert vs[i] == x;
  }

  lemma NotBoth(largest: bool, x: Value, last: Value, best: Value)
    requires !x.Null? && Tag(x) == Tag(last) == Tag(best) && !Better(largest, x, best) && Better(largest, last, best)
    ensures !Better(largest, x, last)
  {
    BeatsOrder(largest, last, best, x);
    BeatsOrder(largest, x, last, best);
  }

  lemma DistinctNext(before: seq<Value>, last: Value)
    ensures DistinctValues(before + [last])
         == if Seen(DistinctValues(before), last) then DistinctValues(before) else DistinctValues(before) + [last]
  {
    assert (before + [last])[..|before|] == before;
  }

  /** Exactly SUM and AVG with DISTINCT can tell the two paths apart. */
  lemma DistinctPaths(f: Function, distinct: bool)
    ensures (forall vs :: OneType(vs) ==> SamePaths(f, distinct, vs)) <==> !(distinct && Sums(f))
  {
    if distinct && f.Sum? {
      SumDistinctDiffers();
      assert OneType([Integer(1), Integer(1)]);
    } else if distinct && f.Average? {
      AverageDistinctDiffers();
      assert OneType([Integer(1), Integer(1), Integer(4)]);
    } else {
      forall vs | OneType(vs) ensures SamePaths(f, distinct, vs) {
        if vs != [] { DistinctKeepsBest(vs, f.Maximum?); }
      }
    }
  }
}
