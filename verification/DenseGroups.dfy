/** Grouping by an integer column of small span with an array in place of a hash table
    (src/native_aggregates.cpp:430-605): the same rows, by ascending key. */
module DenseGroups {
  import opened Wrappers
  import opened Values
  import opened Bags
  import opened Expressions
  import opened Query
  import opened AggregateStates
  import opened GroupedQueries
  import opened ColumnPredicates
  import opened DirectAggregates

  /** One integer GROUP BY column; counts, sums and averages only. */
  predicate Dense(plan: Plan) {
    && |plan.groupBy| == 1
    && forall i :: 0 <= i < |plan.projections| ==> DenseProjection(plan.groupBy[0], plan.projections[i])
  }

  predicate DenseProjection(g: nat, p: Projection) {
    match p
    case Representative(c) => c == g
    case Aggregated(a) => a.f.Count? || Sums(a.f)
  }

  predicate IntegerKeys(rows: seq<Row>, g: nat, low: int, high: int) {
    forall i :: 0 <= i < |rows| ==> g < |rows[i]| && rows[i][g].Integer? && low <= rows[i][g].i <= high
  }

  /** The rows with this key. */
  function RowsWith(rows: seq<Row>, g: nat, k: int): seq<Row> {
    if rows == [] then []
    else
      var before, last := RowsWith(rows[..|rows| - 1], g, k), rows[|rows| - 1];
      if g < |last| && last[g] == Integer(k) then before + [last] else before
  }

  // ------------------------------------------------- groups by an integer column

  function KeyNumber(gr: Group): int {
    if |gr.key| == 1 && gr.key[0].Integer? then gr.key[0].i else 0
  }

  ghost predicate IntegerGroup(gr: Group, rows: seq<Row>, g: nat) {
    |gr.key| == 1 && gr.key[0].Integer? && gr.rows == RowsWith(rows, g, KeyNumber(gr)) && gr.rows != []
  }

  ghost predicate AllInteger(groups: seq<Group>, rows: seq<Row>, g: nat) {
    forall k :: 0 <= k < |groups| ==> IntegerGroup(groups[k], rows, g)
  }

  ghost predicate NumbersDiffer(groups: seq<Group>) {
    forall k, l :: 0 <= k < l < |groups| ==> KeyNumber(groups[k]) != KeyNumber(groups[l])
  }

  ghost predicate HasNumber(groups: seq<Group>, k: int) {
    exists n :: 0 <= n < |groups| && KeyNumber(groups[n]) == k
  }

  ghost predicate NumbersCover(groups: seq<Group>, rows: seq<Row>, g: nat) {
    forall k: int :: RowsWith(rows, g, k) != [] ==> HasNumber(groups, k)
  }

  ghost predicate IntegerGroups(groups: seq<Group>, rows: seq<Row>, g: nat) {
    AllInteger(groups, rows, g) && NumbersDiffer(groups) && NumbersCover(groups, rows, g)
  }

  lemma RowsWithNext(rows: seq<Row>, g: nat, k: int, row: Row)
    ensures RowsWith(rows + [row], g, k) == RowsWith(rows, g, k) + if g < |row| && row[g] == Integer(k) then [row] else []
  {
    assert (rows + [row])[..|rows|] == rows;
  }

  lemma {:induction false} GroupedByInteger(rows: seq<Row>, g: nat, low: int, high: int)
    requires IntegerKeys(rows, g, low, high)
    ensures IntegerGroups(GroupsFrom([], [g], rows), rows, g)
  {
    if rows != [] {
      var start, last := rows[..|rows| - 1], rows[|rows| - 1];
      GroupedByInteger(start, g, low, high);
      var groups, key := GroupsFrom([], [g], start), KeyOf([g], last);
      assert key == [Integer(last[g].i)] && rows == start + [last];
      AddedInteger(groups, start, g, last, key, last[g].i);
    }
  }

  /** The group an integer key belongs to is the one with its number. */
  lemma NumberedGroup(groups: seq<Group>, rows: seq<Row>, g: nat, key: Row, number: int)
    requires AllInteger(groups, rows, g) && key == [Integer(number)]
    ensures forall k :: 0 <= k < |groups| ==> (SameTuple(groups[k].key, key) <==> KeyNumber(groups[k]) == number)
  {
    forall k | 0 <= k < |groups| ensures SameTuple(groups[k].key, key) <==> KeyNumber(groups[k]) == number {
      assert IntegerGroup(groups[k], rows, g);
      assert SameTuple(groups[k].key, key) <==> Equal(groups[k].key[0], key[0]);
    }
  }

  lemma AddedInteger(groups: seq<Group>, rows: seq<Row>, g: nat, row: Row, key: Row, number: int)
    requires IntegerGroups(groups, rows, g) && g < |row| && row[g] == Integer(number) && key == [Integer(number)]
    ensures IntegerGroups(AddToGroup(groups, key, row), rows + [row], g)
  {
    NumberedGroup(groups, rows, g, key, number);
    var n := FindGroup(groups, key);
    if n < |groups| {
      GrownGroup(groups, rows, g, row, number, n);
    } else {
      NewGroup(groups, rows, g, row, key, number);
    }
  }

  lemma GrownGroup(groups: seq<Group>, rows: seq<Row>, g: nat, row: Row, number: int, n: nat)
    requires IntegerGroups(groups, rows, g) && g < |row| && row[g] == Integer(number)
    requires n < |groups| && KeyNumber(groups[n]) == number
    ensures IntegerGroups(groups[n := Group(groups[n].key, groups[n].rows + [row])], rows + [row], g)
  {
    var after := groups[n := Group(groups[n].key, groups[n].rows + [row])];
    forall k | 0 <= k < |after| ensures IntegerGroup(after[k], rows + [row], g) && KeyNumber(after[k]) == KeyNumber(groups[k]) {
      assert IntegerGroup(groups[k], rows, g);
      RowsWithNext(rows, g, KeyNumber(groups[k]), row);
    }
    forall k: int | RowsWith(rows + [row], g, k) != [] ensures HasNumber(after, k) {
      RowsWithNext(rows, g, k, row);
      if k == number {
        assert KeyNumber(after[n]) == k;
      } else {
        assert HasNumber(groups, k);
        var m :| 0 <= m < |groups| && KeyNumber(groups[m]) == k;
        assert KeyNumber(after[m]) == k;
      }
    }
  }

  lemma NewGroup(groups: seq<Group>, rows: seq<Row>, g: nat, row: Row, key: Row, number: int)
    requires IntegerGroups(groups, rows, g) && g < |row| && row[g] == Integer(number) && key == [Integer(number)]
    requires forall k :: 0 <= k < |groups| ==> KeyNumber(groups[k]) != number
    ensures IntegerGroups(groups + [Group(key, [row])], rows + [row], g)
  {
    var gr := Group(key, [row]);
    assert RowsWith(rows, g, number) != [] ==> HasNumber(groups, number);
    RowsWithNext(rows, g, number, row);
    forall k | 0 <= k < |groups| ensures IntegerGroup(groups[k], rows + [row], g) {
      assert IntegerGroup(groups[k], rows, g);
      RowsWithNext(rows, g, KeyNumber(groups[k]), row);
    }
    assert IntegerGroup(gr, rows + [row], g);
    NewNumber(groups, rows, g, row, gr);
  }

  lemma NewNumber(groups: seq<Group>, rows: seq<Row>, g: nat, row: Row, gr: Group)
    requires NumbersCover(groups, rows, g) && g < |row| && row[g] == Integer(KeyNumber(gr))
    ensures NumbersCover(groups + [gr], rows + [row], g)
  {
    var after := groups + [gr];
    forall k: int | RowsWith(rows + [row], g, k) != [] ensures HasNumber(after, k) {
      RowsWithNext(rows, g, k, row);
      if k == KeyNumber(gr) {
        assert KeyNumber(after[|groups|]) == k;
      } else {
        assert HasNumber(groups, k);
        var m :| 0 <= m < |groups| && KeyNumber(groups[m]) == k;
        assert KeyNumber(after[m]) == k;
      }
    }
  }

  // ---------------------------------------------------------------- the array

  datatype DenseState = DenseState(present: bool, key: Value, states: seq<State>)

  /** The aggregates of these rows; plain projections keep nothing. */
  predicate StatesAre(ps: seq<Projection>, rows: seq<Row>, states: seq<State>) {
    |states| == |ps| && forall i :: 0 <= i < |ps| && ps[i].Aggregated? ==> Accumulate(ps[i].a, rows) == Ok(states[i])
  }

  method StepStates(ps: seq<Projection>, states: seq<State>, row: Row, ghost rows: seq<Row>)
    returns (r: Result<seq<State>, EvalError>)
    requires StatesAre(ps, rows, states)
    ensures r.Err? ==> NonNumber(ps, row)
    ensures r.Ok? ==> StatesAre(ps, rows + [row], r.value)
  {
    assert (rows + [row])[..|rows|] == rows;
    var next := states;
    for i := 0 to |ps|
      invariant |next| == |ps|
      invariant forall k :: 0 <= k < i && ps[k].Aggregated? ==> Accumulate(ps[k].a, rows + [row]) == Ok(next[k])
      invariant forall k :: i <= k < |ps| ==> next[k] == states[k]
    {
      if ps[i].Aggregated? {
        var s := Step(ps[i].a, next[i], row);
        if s.Err? {
          assert Unsummable(ps[i], row);
          return Err(s.error);
        }
        next := next[i := s.value];
      }
    }
    return Ok(next);
  }

  /** Entry j of the array stands for the rows with key low + j. */
  predicate EntryIs(ps: seq<Projection>, d: DenseState, rows: seq<Row>, g: nat, k: int) {
    && (d.present <==> RowsWith(rows, g, k) != [])
    && d.key == (if d.present then Integer(k) else Null)
    && StatesAre(ps, RowsWith(rows, g, k), d.states)
  }

  predicate TableIs(ps: seq<Projection>, dense: seq<DenseState>, rows: seq<Row>, g: nat, low: int) {
    forall j :: 0 <= j < |dense| ==> EntryIs(ps, dense[j], rows, g, low + j)
  }

  method FillTable(plan: Plan, rows: seq<Row>, low: int, high: int) returns (r: Result<seq<DenseState>, EvalError>)
    requires Dense(plan) && low <= high && IntegerKeys(rows, plan.groupBy[0], low, high)
    ensures r.Err? ==> Unsummed(plan, rows)
    ensures r.Ok? ==> |r.value| == high - low + 1
                      && TableIs(plan.projections, r.value, Passing(plan.condition, rows), plan.groupBy[0], low)
  {
    var ps, g := plan.projections, plan.groupBy[0];
    var dense := seq(high - low + 1, _ => DenseState(false, Null, seq(|ps|, _ => Empty)));
    ghost var kept: seq<Row> := [];
    for k := 0 to |rows|
      invariant kept == Passing(plan.condition, rows[..k]) && |dense| == high - low + 1
      invariant TableIs(ps, dense, kept, g, low)
    {
      PassingNext(plan.condition, rows, k);
      if Passes(plan.condition, rows[k]) {
        var j := rows[k][g].i - low;
        var next := AddToEntry(ps, dense[j], rows[k], g, kept);
        if next.Err? { return Err(next.error); }
        TableNext(ps, dense, kept, g, low, rows[k], j, next.value);
        dense, kept := dense[j := next.value], kept + [rows[k]];
      }
    }
    assert rows[..|rows|] == rows;
    return Ok(dense);
  }

  method AddToEntry(ps: seq<Projection>, d: DenseState, row: Row, g: nat, ghost rows: seq<Row>)
    returns (r: Result<DenseState, EvalError>)
    requires g < |row| && row[g].Integer? && EntryIs(ps, d, rows, g, row[g].i)
    ensures r.Err? ==> NonNumber(ps, row)
    ensures r.Ok? ==> EntryIs(ps, r.value, rows + [row], g, row[g].i)
  {
    RowsWithNext(rows, g, row[g].i, row);
    var states := StepStates(ps, d.states, row, RowsWith(rows, g, row[g].i));
    if states.Err? { return Err(states.error); }
    return Ok(DenseState(true, if d.key.Null? then row[g] else d.key, states.value));
  }

  lemma TableNext(ps: seq<Projection>, dense: seq<DenseState>, rows: seq<Row>, g: nat, low: int, row: Row, j: nat,
                  d: DenseState)
    requires TableIs(ps, dense, rows, g, low) && j < |dense| && g < |row| && row[g] == Integer(low + j)
    requires EntryIs(ps, d, rows + [row], g, low + j)
    ensures TableIs(ps, dense[j := d], rows + [row], g, low)
  {
    var after := dense[j := d];
    forall i | 0 <= i < |after| ensures EntryIs(ps, after[i], rows + [row], g, low + i) {
      if i != j {
        assert EntryIs(ps, dense[i], rows, g, low + i);
        RowsWithNext(rows, g, low + i, row);
      }
    }
  }

  // ------------------------------------------------------------------- output

  function DenseRow(ps: seq<Projection>, d: DenseState): (row: Row)
    requires |d.states| == |ps|
    ensures |row| == |ps|
  {
    seq(|ps|, i requires 0 <= i < |ps| => if ps[i].Aggregated? then Finished(ps[i].a, d.states[i]) else d.key)
  }

  predicate IsWith(row: Row, rows: seq<Row>, g: nat, k: int) {
    g < |row| && row[g] == Integer(k) && row in rows
  }

  lemma {:induction false} RowsWithKey(rows: seq<Row>, g: nat, k: int)
    ensures forall i :: 0 <= i < |RowsWith(rows, g, k)| ==> IsWith(RowsWith(rows, g, k)[i], rows, g, k)
  {
    if rows != [] {
      var start := rows[..|rows| - 1];
      RowsWithKey(start, g, k);
      var before, r := RowsWith(start, g, k), RowsWith(rows, g, k);
      forall i | 0 <= i < |r| ensures IsWith(r[i], rows, g, k) {
        if i < |before| { assert IsWith(before[i], start, g, k); }
      }
    }
  }

  /** What a present entry prints is the projection of its group. */
  lemma EntryProjection(plan: Plan, kept: seq<Row>, width: nat, d: DenseState, k: int)
    requires Accepted(plan, width) && Dense(plan) && Wide(kept, width)
    requires EntryIs(plan.projections, d, kept, plan.groupBy[0], k) && d.present
    ensures EvalAllGrouped(ColumnsOf(plan.projections), RowsWith(kept, plan.groupBy[0], k)) == Ok(DenseRow(plan.projections, d))
  {
    var ps, g, rows := plan.projections, plan.groupBy[0], RowsWith(kept, plan.groupBy[0], k);
    RowsWithKey(kept, g, k);
    forall i | 0 <= i < |rows| ensures |rows[i]| == width && rows[i][g] == Integer(k) {
      assert IsWith(rows[i], kept, g, k);
      var n :| 0 <= n < |kept| && kept[n] == rows[i];
    }
    forall i | 0 <= i < |ps| ensures EvalGrouped(ColumnsOf(ps)[i], rows) == Ok(DenseRow(ps, d)[i]) {
      assert DenseProjection(g, ps[i]) && AcceptedProjection(plan, ps[i], width);
      if ps[i].Aggregated? { AccumulateIsAggregate(ps[i].a, rows, width); }
    }
    ProjectedIff(ColumnsOf(ps), rows, DenseRow(ps, d));
  }

  /** The row of a key, wherever its entry is. */
  function RowOfKey(ps: seq<Projection>, dense: seq<DenseState>, low: int): int -> Row
    requires forall j :: 0 <= j < |dense| ==> |dense[j].states| == |ps|
  {
    (k: int) => if low <= k < low + |dense| then DenseRow(ps, dense[k - low]) else []
  }

  function PresentKeys(dense: seq<DenseState>, low: int, n: nat): (keys: seq<int>)
    requires n <= |dense|
    ensures forall i :: 0 <= i < |keys| ==> low <= keys[i] < low + n && dense[keys[i] - low].present
    ensures forall j :: 0 <= j < n && dense[j].present ==> low + j in keys
    ensures forall i, j :: 0 <= i < j < |keys| ==> keys[i] < keys[j]
  {
    if n == 0 then []
    else
      var before := PresentKeys(dense, low, n - 1);
      if dense[n - 1].present then before + [low + (n - 1)] else before
  }

  lemma PresentNext(ps: seq<Projection>, dense: seq<DenseState>, low: int, j: nat)
    requires j < |dense| && forall i :: 0 <= i < |dense| ==> |dense[i].states| == |ps|
    ensures Map(RowOfKey(ps, dense, low), PresentKeys(dense, low, j + 1))
         == Map(RowOfKey(ps, dense, low), PresentKeys(dense, low, j))
          + if dense[j].present then [DenseRow(ps, dense[j])] else []
  {
    var f := RowOfKey(ps, dense, low);
    MapConcat(f, PresentKeys(dense, low, j), [low + j]);
    assert f(low + j) == DenseRow(ps, dense[j]);
    assert Map(f, [low + j]) == [DenseRow(ps, dense[j])];
  }

  /** The loop over the array at the end. */
  method CollectPresent(ps: seq<Projection>, dense: seq<DenseState>, low: int) returns (outs: seq<Row>)
    requires forall j :: 0 <= j < |dense| ==> |dense[j].states| == |ps|
    ensures outs == Map(RowOfKey(ps, dense, low), PresentKeys(dense, low, |dense|))
  {
    outs := [];
    for j := 0 to |dense|
      invariant outs == Map(RowOfKey(ps, dense, low), PresentKeys(dense, low, j))
    {
      PresentNext(ps, dense, low, j);
      if dense[j].present { outs := outs + [DenseRow(ps, dense[j])]; }
    }
  }

  function NumbersOf(groups: seq<Group>): (numbers: seq<int>)
    ensures |numbers| == |groups| && forall k :: 0 <= k < |groups| ==> numbers[k] == KeyNumber(groups[k])
  {
    seq(|groups|, k requires 0 <= k < |groups| => KeyNumber(groups[k]))
  }

  /** The keys of the groups are the keys present in the array. */
  lemma SameKeys(ps: seq<Projection>, dense: seq<DenseState>, kept: seq<Row>, g: nat, low: int, groups: seq<Group>)
    requires TableIs(ps, dense, kept, g, low) && IntegerGroups(groups, kept, g)
    requires IntegerKeys(kept, g, low, low + |dense| - 1)
    ensures multiset(PresentKeys(dense, low, |dense|)) == multiset(NumbersOf(groups))
  {
    var present, numbers := PresentKeys(dense, low, |dense|), NumbersOf(groups);
    forall k ensures k in present <==> k in numbers {
      if k in present {
        assert EntryIs(ps, dense[k - low], kept, g, low + (k - low));
        assert HasNumber(groups, k);
        var n :| 0 <= n < |groups| && KeyNumber(groups[n]) == k;
        assert numbers[n] == k;
      }
      if k in numbers {
        var n :| 0 <= n < |numbers| && numbers[n] == k;
        assert IntegerGroup(groups[n], kept, g);
        NumberInRange(kept, g, low, low + |dense| - 1, k);
        assert EntryIs(ps, dense[k - low], kept, g, low + (k - low));
        assert low + (k - low) in present;
      }
    }
    DistinctSameBag(present, numbers);
  }

  lemma NumberInRange(rows: seq<Row>, g: nat, low: int, high: int, k: int)
    requires IntegerKeys(rows, g, low, high) && RowsWith(rows, g, k) != []
    ensures low <= k <= high
  {
    RowsWithKey(rows, g, k);
    var r := RowsWith(rows, g, k)[0];
    assert IsWith(r, rows, g, k);
    var i :| 0 <= i < |rows| && rows[i] == r;
  }

  lemma {:induction false} PassingKeys(condition: Option<Condition>, rows: seq<Row>, g: nat, low: int, high: int)
    requires IntegerKeys(rows, g, low, high)
    ensures IntegerKeys(Passing(condition, rows), g, low, high)
  {
    if rows != [] { PassingKeys(condition, rows[..|rows| - 1], g, low, high); }
  }

  lemma DenseIsQuery(plan: Plan, rows: seq<Row>, width: nat, low: int, high: int, dense: seq<DenseState>, outs: seq<Row>)
    requires Accepted(plan, width) && Dense(plan) && Wide(rows, width) && low <= high
    requires IntegerKeys(rows, plan.groupBy[0], low, high) && |dense| == high - low + 1
    requires TableIs(plan.projections, dense, Passing(plan.condition, rows), plan.groupBy[0], low)
    requires (forall j :: 0 <= j < |dense| ==> |dense[j].states| == |plan.projections|)
    requires outs == Map(RowOfKey(plan.projections, dense, low), PresentKeys(dense, low, |dense|))
    ensures Run(SelectOf(plan), rows).Ok? && multiset(outs) == multiset(Run(SelectOf(plan), rows).value)
  {
    var ps, g, kept := plan.projections, plan.groupBy[0], Passing(plan.condition, rows);
    PassingKeys(plan.condition, rows, g, low, high);
    PassingWide(plan.condition, rows, width);
    assert plan.groupBy == [g];
    var groups := PlanGroups(plan, kept);
    GroupedByInteger(kept, g, low, high);
    var f, numbers := RowOfKey(ps, dense, low), NumbersOf(groups);
    forall k | 0 <= k < |groups| ensures EvalAllGrouped(ColumnsOf(ps), groups[k].rows) == Ok(Map(f, numbers)[k]) {
      assert IntegerGroup(groups[k], kept, g);
      NumberInRange(kept, g, low, high, numbers[k]);
      assert EntryIs(ps, dense[numbers[k] - low], kept, g, low + (numbers[k] - low));
      EntryProjection(plan, kept, width, dense[numbers[k] - low], numbers[k]);
    }
    QueryRows(plan, rows, width, Map(f, numbers));
    SameKeys(ps, dense, kept, g, low, groups);
    MapSameBag(f, PresentKeys(dense, low, |dense|), numbers);
  }

  /** The dense pass gives the rows of the query, by ascending key. */
  method DenseAggregate(plan: Plan, rows: seq<Row>, width: nat, low: int, high: int) returns (r: Result<seq<Row>, EvalError>)
    requires Accepted(plan, width) && Dense(plan) && Wide(rows, width) && low <= high
    requires IntegerKeys(rows, plan.groupBy[0], low, high)
    ensures r.Ok? ==> Run(SelectOf(plan), rows).Ok? && multiset(r.value) == multiset(Run(SelectOf(plan), rows).value)
    ensures r.Err? <==> Run(SelectOf(plan), rows).Err?
    ensures r.Err? <==> Unsummed(plan, rows)
  {
    QueryErrIff(plan, rows, width);
    var dense := FillTable(plan, rows, low, high);
    if dense.Err? { return Err(dense.error); }
    forall j | 0 <= j < |dense.value| ensures |dense.value[j].states| == |plan.projections| {
      assert EntryIs(plan.projections, dense.value[j], Passing(plan.condition, rows), plan.groupBy[0], low + j);
    }
    var outs := CollectPresent(plan.projections, dense.value, low);
    DenseIsQuery(plan, rows, width, low, high, dense.value, outs);
    return Ok(outs);
  }
}
