/** The optimizer's rewrites that rest on the primary key (src/optimizer.cpp:217-300, 362-387):
    DISTINCT over a projection of the key, and ORDER BY and LIMIT under a pinned key. */
module KeyRewrites {
  import opened Wrappers
  import opened Values
  import opened Tables
  import opened Expressions
  import opened ConstantFolding
  import opened Query
  import opened Optimizer

  /** The rows of a table: typed, and no two with the same primary key. */
  ghost predicate TableRows(table: Table, rows: seq<Row>) {
    && RowsTyped(table, rows)
    && forall c :: 0 <= c < |table| && table[c].primaryKey ==> KeysApart(rows, c)
  }

  ghost predicate KeysApart(rows: seq<Row>, c: nat) {
    forall i, j :: 0 <= i < j < |rows| ==> KeysDiffer(rows[i], rows[j], c)
  }

  // ------------------------------------------------------------ pinned keys

  /** A conjunct compares the primary key with a literal. */
  predicate PinsKey(table: Table, e: Expr) {
    match e
    case Binary(And, l, r) => PinsKey(table, l) || PinsKey(table, r)
    case Binary(Compares(Eq), l, r) =>
      (IsKey(table, l) && r.Literal?) || (IsKey(table, r) && l.Literal?)
    case _ => false
  }

  predicate IsKey(table: Table, e: Expr) {
    e.ColumnRef? && e.column < |table| && table[e.column].primaryKey
  }

  /** The column and the literal of the pinning conjunct. */
  lemma {:induction false} PinnedValue(table: Table, e: Expr) returns (c: nat, v: Value)
    requires PinsKey(table, e)
    ensures c < |table| && table[c].primaryKey
    ensures forall row: Row :: |row| == |table| && Eval(e, row).Ok? && AsBoolean(Eval(e, row).value) ==>
              !row[c].Null? && Equal(row[c], v)
  {
    match e
    case Binary(And, l, r) =>
      if PinsKey(table, l) { c, v := PinnedValue(table, l); } else { c, v := PinnedValue(table, r); }
    case Binary(Compares(Eq), l, r) =>
      if IsKey(table, l) && r.Literal? {
        c, v := l.column, r.value;
      } else {
        c, v := r.column, l.value;
      }
      forall row: Row | |row| == |table| && Eval(e, row).Ok? && AsBoolean(Eval(e, row).value)
        ensures !row[c].Null? && Equal(row[c], v)
      {
        PinnedRow(e, l, r, c, v, row);
      }
  }

  lemma PinnedRow(e: Expr, l: Expr, r: Expr, c: nat, v: Value, row: Row)
    requires e == Binary(Compares(Eq), l, r) && c < |row|
    requires (l == ColumnRef(c) && r == Literal(v)) || (r == ColumnRef(c) && l == Literal(v))
    requires Eval(e, row).Ok? && AsBoolean(Eval(e, row).value)
    ensures !row[c].Null? && Equal(row[c], v)
  {
    EqualBack(row[c], v);
    var a, b := Eval(l, row).value, Eval(r, row).value;
    assert Eval(e, row) == ApplyBinary(Compares(Eq), a, b);
    assert a == (if l.ColumnRef? then row[c] else v) && b == (if l.ColumnRef? then v else row[c]);
  }

  lemma EqualBack(a: Value, b: Value)
    ensures Equal(a, b) == Equal(b, a)
  {
  }

  /** At most one row of a table satisfies a condition that pins its key. */
  lemma {:induction false} AtMostOne(table: Table, where: Expr, rows: seq<Row>)
    requires TableRows(table, rows) && PinsKey(table, where)
    ensures Filter(Some(where), rows).Ok? ==> |Filter(Some(where), rows).value| <= 1
  {
    if rows != [] && Filter(Some(where), rows).Ok? {
      var start, last := rows[..|rows| - 1], rows[|rows| - 1];
      StartOfTable(table, rows);
      AtMostOne(table, where, start);
      var before := Filter(Some(where), start).value;
      if before != [] && Keeps(Some(where), last).value {
        KeptSatisfies(where, start, before[0]);
        var c, v := PinnedValue(table, where);
        var i :| 0 <= i < |start| && start[i] == before[0];
        assert RowOk(table, rows[i]) && RowOk(table, last);
        assert KeysDiffer(rows[i], rows[|rows| - 1], c);
        EqualBack(last[c], v);
        EqualTransitive(rows[i][c], v, last[c]);
      }
    }
  }

  lemma StartOfTable(table: Table, rows: seq<Row>)
    requires TableRows(table, rows) && rows != []
    ensures TableRows(table, rows[..|rows| - 1])
  {
    var start := rows[..|rows| - 1];
    forall c | 0 <= c < |table| && table[c].primaryKey ensures KeysApart(start, c) {
      assert KeysApart(rows, c);
    }
  }

  lemma {:induction false} KeptSatisfies(where: Expr, rows: seq<Row>, r: Row)
    requires Filter(Some(where), rows).Ok? && r in Filter(Some(where), rows).value
    ensures Keeps(Some(where), r) == Ok(true)
  {
    if rows != [] {
      var start, last := rows[..|rows| - 1], rows[|rows| - 1];
      if r in Filter(Some(where), start).value { KeptSatisfies(where, start, r); }
    }
  }

  // ------------------------------------------- ORDER BY and LIMIT on one row

  predicate TopLevelCall(es: seq<Expr>) {
    exists i :: 0 <= i < |es| && es[i].Call?
  }

  function PointLookup(table: Table, s: Select): Select {
    if s.where.Some? && PinsKey(table, s.where.value) && s.groupBy == [] && s.having.None? && !TopLevelCall(s.columns)
    then s.(orderBy := [], limit := if s.limit.None? then Some(1) else s.limit)
    else s
  }

  lemma {:induction false} UnorderedRows(s: Select, rows: seq<Row>)
    requires RowOutputs(s, rows).Ok?
    ensures var r := RowOutputs(s.(orderBy := []), rows);
      r.Ok? && |r.value| == |RowOutputs(s, rows).value| == |rows|
      && ValuesOf(r.value) == ValuesOf(RowOutputs(s, rows).value)
  {
    var t := s.(orderBy := []);
    assert KeyExprs(t.orderBy) == [];
    if rows != [] {
      UnorderedRows(s, rows[..|rows| - 1]);
      var o, p := RowOutput(s, rows[|rows| - 1]), RowOutput(t, rows[|rows| - 1]);
      assert p.Ok? && p.value.values == o.value.values;
      var before, before' := RowOutputs(s, rows[..|rows| - 1]).value, RowOutputs(t, rows[..|rows| - 1]).value;
      assert ValuesOf(before + [o.value]) == ValuesOf(before) + [o.value.values];
      assert ValuesOf(before' + [p.value]) == ValuesOf(before') + [p.value.values];
    }
  }

  lemma UnorderedGroup(s: Select, rows: seq<Row>)
    requires GroupOutput(s, rows).Ok?
    ensures var r := GroupOutput(s.(orderBy := []), rows);
      r.Ok? && |r.value| == |GroupOutput(s, rows).value| <= 1
      && ValuesOf(r.value) == ValuesOf(GroupOutput(s, rows).value)
  {
    assert KeyExprs([]) == [];
  }

  /** Without ORDER BY the same values come out, at most one row of them. */
  lemma UnorderedOutputs(s: Select, rows: seq<Row>)
    requires s.groupBy == [] && |rows| <= 1 && Outputs(s, rows).Ok?
    ensures var r := Outputs(s.(orderBy := []), rows);
      r.Ok? && |r.value| == |Outputs(s, rows).value| <= 1 && ValuesOf(r.value) == ValuesOf(Outputs(s, rows).value)
  {
    var t := s.(orderBy := []);
    if Grouped(s) {
      OneGroup(s, rows);
      OneGroup(t, rows);
      UnorderedGroup(s, rows);
    } else {
      UnorderedRows(s, rows);
    }
  }

  lemma FinishOne(s: Select, t: Select, os: seq<Output>, os': seq<Output>)
    requires |os| == |os'| <= 1 && ValuesOf(os) == ValuesOf(os')
    requires t.distinct == s.distinct && t.offset == s.offset
    requires t.limit == s.limit || (s.limit.None? && t.limit == Some(1))
    ensures Finish(s, os) == Finish(t, os')
  {
    SmallStays(s, os);
    SmallStays(t, os');
    PageOne(s, t, os, os');
  }

  lemma SmallStays(s: Select, os: seq<Output>)
    requires |os| <= 1
    ensures RemoveDuplicates(os) == os && SortOutputs(s.orderBy, os) == os
  {
    if |os| == 1 {
      assert os[..0] == [];
      assert RemoveDuplicates(os[..0]) == [] && SortOutputs(s.orderBy, os[..0]) == [];
      assert [] + [os[0]] == os;
    }
  }

  lemma PageOne(s: Select, t: Select, os: seq<Output>, os': seq<Output>)
    requires |os| == |os'| <= 1 && ValuesOf(os) == ValuesOf(os') && t.offset == s.offset
    requires t.limit == s.limit || (s.limit.None? && t.limit == Some(1))
    ensures ValuesOf(Page(os, s.offset, s.limit)) == ValuesOf(Page(os', t.offset, t.limit))
  {
    if |os| == 1 {
      assert ValuesOf(os)[0] == ValuesOf(os')[0];
      assert os[0..] == os && os'[0..] == os';
    }
  }

  /** A point lookup gives the same rows without ORDER BY and with LIMIT 1. */
  lemma PointLookupKeepsRun(table: Table, s: Select, rows: seq<Row>)
    requires TableRows(table, rows) && Run(s, rows).Ok?
    ensures Run(PointLookup(table, s), rows) == Run(s, rows)
  {
    var t := PointLookup(table, s);
    if t != s {
      var kept := Filter(s.where, rows).value;
      AtMostOne(table, s.where.value, rows);
      UnorderedOutputs(s, kept);
      assert Outputs(t, kept) == Outputs(s.(orderBy := []), kept) by { SameUnlimited(s.(orderBy := []), t, kept); }
      FinishOne(s, t, Outputs(s, kept).value, Outputs(t, kept).value);
    }
  }

  lemma SameUnlimited(s: Select, t: Select, rows: seq<Row>)
    requires s.groupBy == [] && t == s.(limit := t.limit)
    ensures Outputs(t, rows) == Outputs(s, rows)
  {
    if Grouped(s) {
      OneGroup(s, rows);
      OneGroup(t, rows);
    } else {
      forall i | 0 <= i < |s.columns| ensures SameOn(s.columns[i], t.columns[i], rows) {
      }
      SameRowOutputs(s, t, rows);
    }
  }

  // ----------------------------------------------------- DISTINCT over the key

  predicate ShowsKey(table: Table, e: Expr, c: nat) {
    c < |table| && table[c].primaryKey && Guaranteed(table[c]) && (e == ColumnRef(c) || e.Wildcard?)
  }

  /** Some projected column is the primary key, or all columns are. */
  predicate ProjectsKey(table: Table, es: seq<Expr>) {
    exists i, c :: 0 <= i < |es| && 0 <= c < |table| && ShowsKey(table, es[i], c)
  }

  function RemoveDistinct(table: Table, s: Select): Select {
    if s.distinct && ProjectsKey(table, s.columns) then s.(distinct := false) else s
  }

  /** Where the n-th projected column begins in the projected tuple. */
  function Offset(width: nat, es: seq<Expr>, n: nat): nat
    requires n <= |es|
  {
    if n == 0 then 0 else Offset(width, es, n - 1) + if es[n - 1].Wildcard? then width else 1
  }

  /** The projection of a row contains its key, always at the same place. */
  lemma {:induction false} ProjectedKey(table: Table, es: seq<Expr>, i: nat, c: nat, row: Row, n: nat)
    requires RowOk(table, row) && i < n <= |es| && ShowsKey(table, es[i], c) && Project(es[..n], row).Ok?
    ensures |Project(es[..n], row).value| == Offset(|table|, es, n)
    ensures var at := Offset(|table|, es, i) + if es[i].Wildcard? then c else 0;
      at < |Project(es[..n], row).value| && Project(es[..n], row).value[at] == row[c]
  {
    var start := es[..n][..n - 1];
    assert start == es[..n - 1] && es[..n][n - 1] == es[n - 1];
    ProjectedWidth(table, es, row, n - 1);
    if i < n - 1 { ProjectedKey(table, es, i, c, row, n - 1); }
  }

  lemma {:induction false} ProjectedWidth(table: Table, es: seq<Expr>, row: Row, n: nat)
    requires RowOk(table, row) && n <= |es| && Project(es[..n], row).Ok?
    ensures |Project(es[..n], row).value| == Offset(|table|, es, n)
  {
    if n > 0 {
      assert es[..n][..n - 1] == es[..n - 1];
      ProjectedWidth(table, es, row, n - 1);
    }
  }

  ghost predicate AllDifferent(os: seq<Output>) {
    forall i, j :: 0 <= i < j < |os| ==> !SameTuple(os[i].values, os[j].values)
  }

  lemma {:induction false} NothingRemoved(os: seq<Output>)
    requires AllDifferent(os)
    ensures RemoveDuplicates(os) == os
  {
    if os != [] {
      var start, last := os[..|os| - 1], os[|os| - 1];
      NothingRemoved(start);
      forall i | 0 <= i < |start| ensures !SameTuple(start[i].values, last.values) {
        assert os[i] == start[i];
      }
      assert os == start + [last];
    }
  }

  lemma {:induction false} RowOutputAt(s: Select, rows: seq<Row>, i: nat)
    requires RowOutputs(s, rows).Ok? && i < |rows|
    ensures |RowOutputs(s, rows).value| == |rows| && Project(s.columns, rows[i]) == Ok(RowOutputs(s, rows).value[i].values)
  {
    var start := rows[..|rows| - 1];
    if i < |start| {
      RowOutputAt(s, start, i);
    } else if |start| > 0 {
      RowOutputAt(s, start, 0);
    } else {
      assert RowOutputs(s, start) == Ok([]);
    }
  }

  lemma KeyedRowsDiffer(table: Table, es: seq<Expr>, i: nat, c: nat, a: Row, b: Row)
    requires RowOk(table, a) && RowOk(table, b) && i < |es| && ShowsKey(table, es[i], c) && KeysDiffer(a, b, c)
    requires Project(es, a).Ok? && Project(es, b).Ok?
    ensures !SameTuple(Project(es, a).value, Project(es, b).value)
  {
    assert es[..|es|] == es;
    ProjectedKey(table, es, i, c, a, |es|);
    ProjectedKey(table, es, i, c, b, |es|);
  }

  lemma RowsDifferent(table: Table, s: Select, rows: seq<Row>, i: nat, c: nat)
    requires RowsTyped(table, rows) && KeysApart(rows, c) && i < |s.columns| && ShowsKey(table, s.columns[i], c)
    requires RowOutputs(s, rows).Ok?
    ensures AllDifferent(RowOutputs(s, rows).value)
  {
    var os := RowOutputs(s, rows).value;
    if rows != [] { RowOutputAt(s, rows, 0); } else { assert os == []; }
    forall k, l | 0 <= k < l < |os| ensures !SameTuple(os[k].values, os[l].values) {
      RowOutputAt(s, rows, k);
      RowOutputAt(s, rows, l);
      assert rows[k] in rows && rows[l] in rows;
      KeyedRowsDiffer(table, s.columns, i, c, rows[k], rows[l]);
    }
  }

  lemma {:induction false} FilteredApart(where: Option<Expr>, rows: seq<Row>, c: nat)
    requires KeysApart(rows, c) && Filter(where, rows).Ok?
    ensures KeysApart(Filter(where, rows).value, c)
  {
    if rows != [] {
      var start, last := rows[..|rows| - 1], rows[|rows| - 1];
      FilteredApart(where, start, c);
      var before := Filter(where, start).value;
      forall k | 0 <= k < |before| ensures KeysDiffer(before[k], last, c) {
        assert before[k] in start;
        var i :| 0 <= i < |start| && start[i] == before[k];
        assert KeysDiffer(rows[i], rows[|rows| - 1], c);
      }
    }
  }

  // ------------------------------------------------------------- over groups

  /** Rows of different groups have different keys. */
  ghost predicate GroupsApart(groups: seq<Group>, c: nat) {
    forall a, b :: 0 <= a < b < |groups| ==> RowsApart(groups[a].rows, groups[b].rows, c)
  }

  ghost predicate RowsApart(a: seq<Row>, b: seq<Row>, c: nat) {
    forall r, q :: r in a && q in b ==> KeysDiffer(r, q, c)
  }

  lemma {:induction false} GroupedApart(groupBy: seq<Expr>, rows: seq<Row>, c: nat)
    requires KeysApart(rows, c) && GroupRows(groupBy, rows).Ok?
    ensures GroupsApart(GroupRows(groupBy, rows).value, c)
  {
    if rows != [] {
      var start, last := rows[..|rows| - 1], rows[|rows| - 1];
      GroupedApart(groupBy, start, c);
      GroupsFilled(groupBy, start);
      var before := GroupRows(groupBy, start).value;
      forall r | r in start ensures KeysDiffer(r, last, c) {
        var i :| 0 <= i < |start| && start[i] == r;
        assert KeysDiffer(rows[i], rows[|rows| - 1], c);
      }
      forall g | 0 <= g < |before| ensures RowsApart(before[g].rows, [last], c) && RowsApart([last], before[g].rows, c) {
        assert FilledFrom(before[g].rows, start);
        LastApart(before[g].rows, last, c);
      }
      AddedApart(before, EvalAll(groupBy, last).value, last, c);
    }
  }

  lemma LastApart(rows: seq<Row>, last: Row, c: nat)
    requires forall r :: r in rows ==> KeysDiffer(r, last, c)
    ensures RowsApart(rows, [last], c) && RowsApart([last], rows, c)
  {
    forall r | r in rows ensures KeysDiffer(last, r, c) {
      KeysDifferSymmetric(r, last, c);
    }
  }

  lemma AddedApart(groups: seq<Group>, key: Row, row: Row, c: nat)
    requires GroupsApart(groups, c)
    requires forall g :: 0 <= g < |groups| ==> RowsApart(groups[g].rows, [row], c) && RowsApart([row], groups[g].rows, c)
    ensures GroupsApart(AddToGroup(groups, key, row), c)
  {
    var n, after := FindGroup(groups, key), AddToGroup(groups, key, row);
    forall a, b | 0 <= a < b < |after| ensures RowsApart(after[a].rows, after[b].rows, c) {
      if a == n && n < |groups| {
        JoinApart(groups[n].rows, row, groups[b].rows, c);
      } else if b == n && n < |groups| {
        JoinApart(groups[n].rows, row, groups[a].rows, c);
      }
    }
  }

  lemma JoinApart(a: seq<Row>, row: Row, b: seq<Row>, c: nat)
    requires RowsApart([row], b, c) && RowsApart(b, [row], c)
    ensures RowsApart(a, b, c) ==> RowsApart(a + [row], b, c)
    ensures RowsApart(b, a, c) ==> RowsApart(b, a + [row], c)
  {
    assert row in [row];
  }

  /** The projection of a group contains the key of its first row. */
  lemma {:induction false} GroupedKey(es: seq<Expr>, i: nat, c: nat, rows: seq<Row>, n: nat)
    requires i < n <= |es| && es[i] == ColumnRef(c) && rows != [] && c < |rows[0]| && EvalAllGrouped(es[..n], rows).Ok?
    ensures |EvalAllGrouped(es[..n], rows).value| == n && EvalAllGrouped(es[..n], rows).value[i] == rows[0][c]
  {
    assert es[..n][..n - 1] == es[..n - 1];
    GroupedWidth(es, rows, n - 1);
    if i < n - 1 { GroupedKey(es, i, c, rows, n - 1); }
  }

  lemma {:induction false} GroupedWidth(es: seq<Expr>, rows: seq<Row>, n: nat)
    requires n <= |es| && EvalAllGrouped(es[..n], rows).Ok?
    ensures |EvalAllGrouped(es[..n], rows).value| == n
  {
    if n > 0 {
      assert es[..n][..n - 1] == es[..n - 1];
      GroupedWidth(es, rows, n - 1);
    }
  }

  /** An output of a group shows the key of one of these groups. */
  ghost predicate FromGroups(o: Output, groups: seq<Group>, i: nat, c: nat) {
    exists g :: 0 <= g < |groups| && FromGroup(o, groups[g].rows, i, c)
  }

  ghost predicate FromGroup(o: Output, rows: seq<Row>, i: nat, c: nat) {
    rows != [] && c < |rows[0]| && i < |o.values| && o.values[i] == rows[0][c]
  }

  lemma {:induction false} GroupsDifferent(s: Select, groups: seq<Group>, i: nat, c: nat)
    requires GroupsApart(groups, c) && i < |s.columns| && s.columns[i] == ColumnRef(c)
    requires forall g :: 0 <= g < |groups| ==> groups[g].rows != [] && c < |groups[g].rows[0]|
    requires GroupOutputs(s, groups).Ok?
    ensures AllDifferent(GroupOutputs(s, groups).value)
    ensures forall k :: 0 <= k < |GroupOutputs(s, groups).value| ==> FromGroups(GroupOutputs(s, groups).value[k], groups, i, c)
  {
    if groups != [] {
      var start, last := groups[..|groups| - 1], groups[|groups| - 1];
      GroupsDifferent(s, start, i, c);
      var before, now := GroupOutputs(s, start).value, GroupOutput(s, last.rows).value;
      forall k | 0 <= k < |before| ensures FromGroups(before[k], groups, i, c) {
        var g :| 0 <= g < |start| && FromGroup(before[k], start[g].rows, i, c);
        assert FromGroup(before[k], groups[g].rows, i, c);
      }
      if now != [] {
        assert s.columns[..|s.columns|] == s.columns;
        GroupedKey(s.columns, i, c, last.rows, |s.columns|);
        assert FromGroup(now[0], groups[|groups| - 1].rows, i, c);
        forall k | 0 <= k < |before| ensures !SameTuple(before[k].values, now[0].values) {
          var g :| 0 <= g < |start| && FromGroup(before[k], start[g].rows, i, c);
          assert RowsApart(groups[g].rows, groups[|groups| - 1].rows, c);
          assert groups[g].rows[0] in groups[g].rows && last.rows[0] in last.rows;
          assert KeysDiffer(groups[g].rows[0], last.rows[0], c);
        }
      }
    }
  }

  lemma GroupedDifferent(table: Table, s: Select, rows: seq<Row>, i: nat, c: nat)
    requires RowsTyped(table, rows) && KeysApart(rows, c) && i < |s.columns| && ShowsKey(table, s.columns[i], c)
    requires s.groupBy != [] && Outputs(s, rows).Ok?
    ensures AllDifferent(Outputs(s, rows).value)
  {
    var groups := GroupRows(s.groupBy, rows).value;
    GroupedApart(s.groupBy, rows, c);
    GroupsFilled(s.groupBy, rows);
    forall g | 0 <= g < |groups| ensures groups[g].rows != [] && c < |groups[g].rows[0]| {
      assert FilledFrom(groups[g].rows, rows);
      assert groups[g].rows[0] in groups[g].rows;
      assert RowOk(table, groups[g].rows[0]);
    }
    if s.columns[i].Wildcard? {
      WildcardGroups(s, groups, i);
    } else {
      GroupsDifferent(s, groups, i, c);
    }
  }

  /** A wildcard cannot be projected from a group, so HAVING must have dropped them all. */
  lemma {:induction false} WildcardGroups(s: Select, groups: seq<Group>, i: nat)
    requires i < |s.columns| && s.columns[i].Wildcard?
    requires GroupOutputs(s, groups).Ok?
    ensures GroupOutputs(s, groups).value == []
  {
    if groups != [] {
      var start, last := groups[..|groups| - 1], groups[|groups| - 1];
      WildcardGroups(s, start, i);
      assert s.columns[i] in s.columns;
    }
  }

  /** Projecting the primary key makes DISTINCT redundant. */
  lemma DistinctKeepsRun(table: Table, s: Select, rows: seq<Row>)
    requires TableRows(table, rows) && Run(s, rows).Ok?
    ensures Run(RemoveDistinct(table, s), rows) == Run(s, rows)
  {
    var t := RemoveDistinct(table, s);
    if t != s {
      var i, c :| 0 <= i < |s.columns| && 0 <= c < |table| && ShowsKey(table, s.columns[i], c);
      var kept := Filter(s.where, rows).value;
      FilteredApart(s.where, rows, c);
      var os := Outputs(s, kept).value;
      SameUndistinct(s, t, kept);
      if Grouped(s) && s.groupBy == [] {
        OneGroup(s, kept);
        assert |os| <= 1;
      } else if Grouped(s) {
        GroupedDifferent(table, s, kept, i, c);
      } else {
        RowsDifferent(table, s, kept, i, c);
      }
      NothingRemoved(os);
    }
  }

  lemma SameUndistinct(s: Select, t: Select, rows: seq<Row>)
    requires t == s.(distinct := t.distinct)
    ensures Outputs(t, rows) == Outputs(s, rows)
  {
    forall i | 0 <= i < |s.columns| ensures SameOn(s.columns[i], t.columns[i], rows) {
    }
    forall g: seq<Row> ensures SameGroup(s, t, g) {
      forall i | 0 <= i < |s.columns| ensures SameOnGroup(s.columns[i], t.columns[i], g) {
      }
    }
    OutputsSame(s, t, rows);
  }

  // -------------------------------------------------------------- all passes

  /** What is left to dead-code elimination. */
  function Rewritten(table: Table, s: Select): Select {
    PointLookup(table, RemoveDistinct(table, RewriteSelect(table, FoldSelect(s))))
  }

  /** Optimizer::optimize on a SELECT over one table of the catalog. */
  function Optimize(table: Table, s: Select): Select {
    EliminateDeadCode(Rewritten(table, s))
  }

  lemma SameKept(s: Select, rows: seq<Row>)
    ensures Filter(FoldSelect(s).where, rows) == Filter(s.where, rows)
  {
    forall r | r in rows ensures Keeps(s.where, r) == Keeps(FoldSelect(s).where, r) {
      if s.where.Some? { FoldKeepsEval(s.where.value, r); }
    }
    SameFilter(s.where, FoldSelect(s).where, rows);
  }

  /** The first passes keep the answer. */
  lemma RewrittenKeepsRun(table: Table, s: Select, rows: seq<Row>)
    requires TableRows(table, rows) && Run(s, rows).Ok?
    requires NoEmptyGroup(s, Filter(s.where, rows).value) || Steady(s)
    ensures Run(Rewritten(table, s), rows) == Run(s, rows)
    ensures RewrittenAlike(table, s)
  {
    FoldKeepsRun(s, rows);
    SameKept(s, rows);
    FoldedGrouped(s);
    var s1 := FoldSelect(s);
    RewriteKeepsRun(table, s1, rows);
    RewrittenGrouped(table, s1);
    var s2 := RewriteSelect(table, s1);
    DistinctKeepsRun(table, s2, rows);
    var s3 := RemoveDistinct(table, s2);
    PointLookupKeepsRun(table, s3, rows);
  }

  /** Grouping and the filter stay. */
  predicate RewrittenAlike(table: Table, s: Select) {
    var t := Rewritten(table, s);
    Grouped(t) == Grouped(s) && t.where == FoldSelect(s).where && t.groupBy == s.groupBy
  }

  /** What a caller can tell from the statement and the schema: unless it aggregates without
      GROUP BY, nothing can go wrong over no rows; if it does, no logical operator may fold away
      and no true HAVING may hide an output row. */
  predicate Safe(table: Table, s: Select) {
    Steady(s) && !ShowsRowOfNothing(Rewritten(table, s))
  }

  /** On every table that satisfies its constraints, every query that succeeds gives the same
      rows after optimization if the statement is safe. */
  lemma OptimizeKeepsRun(table: Table, s: Select, rows: seq<Row>)
    requires TableRows(table, rows) && Run(s, rows).Ok? && Safe(table, s)
    ensures Run(Optimize(table, s), rows) == Run(s, rows)
  {
    RewrittenKeepsRun(table, s, rows);
    DeadCodeIff(Rewritten(table, s));
  }

  lemma OptimizeKeepsGroups(table: Table, s: Select, rows: seq<Row>)
    requires TableRows(table, rows) && Run(s, rows).Ok?
    requires NoEmptyGroup(s, Filter(s.where, rows).value)
    ensures Run(Optimize(table, s), rows) == Run(s, rows)
  {
    RewrittenKeepsRun(table, s, rows);
    SameKept(s, rows);
    DeadCodeKeepsRun(Rewritten(table, s), rows);
  }

  /** Every statement, safe or not: optimization keeps its answer on all tables exactly if it
      keeps it on the empty table, or the statement is no aggregate without GROUP BY. */
  lemma EmptyTableDecides(table: Table, s: Select)
    ensures (forall rows :: TableRows(table, rows) && Run(s, rows).Ok? ==> Run(Optimize(table, s), rows) == Run(s, rows))
       <==> (Grouped(s) && s.groupBy == [] && Run(s, []).Ok? ==> Run(Optimize(table, s), []) == Run(s, []))
  {
    if Grouped(s) && s.groupBy == [] && Run(s, []).Ok? && Run(Optimize(table, s), []) != Run(s, []) {
      assert TableRows(table, []);
    } else {
      forall rows | TableRows(table, rows) && Run(s, rows).Ok?
        ensures Run(Optimize(table, s), rows) == Run(s, rows)
      {
        var kept := Filter(s.where, rows).value;
        if NoEmptyGroup(s, kept) {
          OptimizeKeepsGroups(table, s, rows);
        } else {
          SameKept(s, rows);
          OptimizedFilter(table, s, rows);
          OptimizedFilter(table, s, []);
          RunOfKept(s, rows, []);
          RunOfKept(Optimize(table, s), rows, []);
        }
      }
    }
  }

  lemma OptimizedFilter(table: Table, s: Select, rows: seq<Row>)
    ensures Filter(Optimize(table, s).where, rows) == Filter(s.where, rows)
  {
    SameKept(s, rows);
    var t := Rewritten(table, s);
    assert t.where == FoldSelect(s).where;
    forall r | r in rows ensures Keeps(t.where, r) == Keeps(DropTrue(t.where), r) {
    }
    SameFilter(t.where, DropTrue(t.where), rows);
  }
}
