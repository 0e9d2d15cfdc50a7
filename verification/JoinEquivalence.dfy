/** The cost-based joins yield what the joins in source order yield, row for row and each as
    often; only the order of rows and columns may differ. */
module JoinEquivalence {
  import opened Wrappers
  import opened Values
  import opened Bags
  import opened SourceJoins
  import opened JoinPlanner
  import opened JoinExecution

  // -------------------------------------------- all joins of a statement, in order

  /** The right side of a JOIN, its ON clause and its kind. */
  datatype Join = Join(rows: seq<Row>, condition: Condition, joinType: JoinType, width: nat)

  function WidthAfter(width: nat, joins: seq<Join>): nat {
    if joins == [] then width else WidthAfter(width, joins[..|joins| - 1]) + joins[|joins| - 1].width
  }

  predicate WellTyped(width: nat, joins: seq<Join>) {
    forall k :: 0 <= k < |joins| ==>
      && (forall i :: 0 <= i < |joins[k].rows| ==> |joins[k].rows[i]| == joins[k].width)
      && (joins[k].condition.Equality? ==>
            joins[k].condition.leftKey < WidthAfter(width, joins[..k]) && joins[k].condition.rightKey < joins[k].width)
  }

  /** The reference: nested loops over the tables as they are written. */
  function SourceOrderRows(base: seq<Row>, width: nat, joins: seq<Join>): seq<Row> {
    if joins == [] then base
    else
      var before, join := joins[..|joins| - 1], joins[|joins| - 1];
      var left := SourceOrderRows(base, width, before);
      JoinRows(left, join.rows, On(left, join.rows, Meaning(join.condition, WidthAfter(width, before))),
               join.joinType, join.width)
  }

  lemma {:induction false} SourceOrderWidth(base: seq<Row>, width: nat, joins: seq<Join>)
    requires WellTyped(width, joins) && forall i :: 0 <= i < |base| ==> |base[i]| == width
    ensures forall i :: 0 <= i < |SourceOrderRows(base, width, joins)| ==>
              |SourceOrderRows(base, width, joins)[i]| == WidthAfter(width, joins)
  {
    if joins != [] {
      var before, join := joins[..|joins| - 1], joins[|joins| - 1];
      WellTypedUpTo(width, joins, |joins| - 1);
      SourceOrderWidth(base, width, before);
      var left := SourceOrderRows(base, width, before);
      JoinRowsWidth(left, join.rows, On(left, join.rows, Meaning(join.condition, WidthAfter(width, before))),
                    join.joinType, WidthAfter(width, before), join.width);
    }
  }

  lemma JoinRowsWidth(left: seq<Row>, right: seq<Row>, on: (nat, nat) -> bool, joinType: JoinType,
                      leftWidth: nat, width: nat)
    requires forall i :: 0 <= i < |left| ==> |left[i]| == leftWidth
    requires forall i :: 0 <= i < |right| ==> |right[i]| == width
    ensures forall i :: 0 <= i < |JoinRows(left, right, on, joinType, width)| ==>
              |JoinRows(left, right, on, joinType, width)[i]| == leftWidth + width
  {
    var pairs := NestedPairs(on, joinType, |left|, |right|);
    forall i | 0 <= i < |pairs| ensures |Render(left, right, width)(pairs[i])| == leftWidth + width {
      assert pairs[i] in pairs;
      NestedMember(on, joinType, |left|, |right|, pairs[i]);
      PairWidth(left, right, leftWidth, width, pairs[i]);
    }
  }

  lemma PairWidth(left: seq<Row>, right: seq<Row>, leftWidth: nat, width: nat, p: Pair)
    requires forall i :: 0 <= i < |left| ==> |left[i]| == leftWidth
    requires forall i :: 0 <= i < |right| ==> |right[i]| == width
    requires p.left < |left| && (p.right.Some? ==> p.right.value < |right|)
    ensures |RowOf(left, right, width, p)| == leftWidth + width
  {
  }

  // ------------------------------------ a join does not depend on the order of rows

  /** What one left row contributes. */
  function RowsFor(l: Row, right: seq<Row>, condition: Row -> bool, joinType: JoinType, width: nat): seq<Row> {
    Map(Render([l], right, width), Padded(joinType, 0, RowMatches(On([l], right, condition), 0, |right|)))
  }

  function PerRow(right: seq<Row>, condition: Row -> bool, joinType: JoinType, width: nat): Row -> seq<Row> {
    l => RowsFor(l, right, condition, joinType, width)
  }

  function Shift(i: nat): Pair -> Pair {
    (p: Pair) => Pair(i, p.right)
  }

  lemma ShiftOne(i: nat, j: Option<nat>)
    ensures Map(Shift(i), [Pair(0, j)]) == [Pair(i, j)]
  {
    assert [Pair(0, j)][..0] == [];
  }

  lemma {:induction false} ShiftedMatches(left: seq<Row>, right: seq<Row>, condition: Row -> bool, i: nat, n: nat)
    requires i < |left| && n <= |right|
    ensures RowMatches(On(left, right, condition), i, n)
         == Map(Shift(i), RowMatches(On([left[i]], right, condition), 0, n))
  {
    if n > 0 {
      ShiftedMatches(left, right, condition, i, n - 1);
      var before := RowMatches(On([left[i]], right, condition), 0, n - 1);
      MapConcat(Shift(i), before, [Pair(0, Some(n - 1))]);
      ShiftOne(i, Some(n - 1));
    }
  }

  lemma ShiftedPadding(joinType: JoinType, i: nat, ps: seq<Pair>)
    ensures Padded(joinType, i, Map(Shift(i), ps)) == Map(Shift(i), Padded(joinType, 0, ps))
  {
    ShiftOne(i, None);
  }

  lemma RenderShifted(left: seq<Row>, right: seq<Row>, width: nat, i: nat, ps: seq<Pair>)
    requires i < |left| && forall k :: 0 <= k < |ps| ==> ps[k].left == 0
    ensures Map(Render(left, right, width), Map(Shift(i), ps)) == Map(Render([left[i]], right, width), ps)
  {
    forall k | 0 <= k < |ps|
      ensures Render(left, right, width)(Shift(i)(ps[k])) == Render([left[i]], right, width)(ps[k])
    {
      RenderShiftedAt(left, right, width, i, ps[k]);
    }
    MapCompose(Render(left, right, width), Shift(i), Render([left[i]], right, width), ps);
  }

  lemma RenderShiftedAt(left: seq<Row>, right: seq<Row>, width: nat, i: nat, p: Pair)
    requires i < |left| && p.left == 0
    ensures RowOf(left, right, width, Pair(i, p.right)) == RowOf([left[i]], right, width, p)
  {
  }

  lemma LeftRowContributes(left: seq<Row>, right: seq<Row>, condition: Row -> bool, joinType: JoinType, width: nat, i: nat)
    requires i < |left|
    ensures Map(Render(left, right, width), Padded(joinType, i, RowMatches(On(left, right, condition), i, |right|)))
         == RowsFor(left[i], right, condition, joinType, width)
  {
    var on := On([left[i]], right, condition);
    var matches := RowMatches(on, 0, |right|);
    ShiftedMatches(left, right, condition, i, |right|);
    ShiftedPadding(joinType, i, matches);
    PaddedMembers(on, joinType, 0, |right|);
    var padded := Padded(joinType, 0, matches);
    forall k | 0 <= k < |padded| ensures padded[k].left == 0 {
      assert padded[k] in padded;
    }
    RenderShifted(left, right, width, i, padded);
  }

  lemma FlatMapNext<A, B>(f: A -> seq<B>, s: seq<A>, m: nat)
    requires 0 < m <= |s|
    ensures FlatMap(f, s[..m]) == FlatMap(f, s[..m - 1]) + f(s[m - 1])
  {
    assert s[..m][..m - 1] == s[..m - 1];
  }

  /** What the first m left rows contribute. */
  function JoinedUpTo(left: seq<Row>, right: seq<Row>, condition: Row -> bool, joinType: JoinType, width: nat, m: nat)
    : seq<Row>
  {
    Map(Render(left, right, width), NestedPairs(On(left, right, condition), joinType, m, |right|))
  }

  lemma RenderNext(left: seq<Row>, right: seq<Row>, width: nat, on: (nat, nat) -> bool, joinType: JoinType, m: nat,
                   rows: seq<Row>)
    requires m > 0
    requires rows == Map(Render(left, right, width), Padded(joinType, m - 1, RowMatches(on, m - 1, |right|)))
    ensures Map(Render(left, right, width), NestedPairs(on, joinType, m, |right|))
         == Map(Render(left, right, width), NestedPairs(on, joinType, m - 1, |right|)) + rows
  {
    MapConcat(Render(left, right, width), NestedPairs(on, joinType, m - 1, |right|),
              Padded(joinType, m - 1, RowMatches(on, m - 1, |right|)));
  }

  lemma JoinedNext(left: seq<Row>, right: seq<Row>, condition: Row -> bool, joinType: JoinType, width: nat, m: nat,
                   rows: seq<Row>)
    requires 0 < m <= |left| && rows == RowsFor(left[m - 1], right, condition, joinType, width)
    ensures JoinedUpTo(left, right, condition, joinType, width, m)
         == JoinedUpTo(left, right, condition, joinType, width, m - 1) + rows
  {
    LeftRowContributes(left, right, condition, joinType, width, m - 1);
    RenderNext(left, right, width, On(left, right, condition), joinType, m, rows);
  }

  lemma {:induction false} JoinRowsPerRow(left: seq<Row>, right: seq<Row>, condition: Row -> bool, joinType: JoinType,
                                          width: nat, f: Row -> seq<Row>, m: nat)
    requires m <= |left| && forall l :: f(l) == RowsFor(l, right, condition, joinType, width)
    ensures JoinedUpTo(left, right, condition, joinType, width, m) == FlatMap(f, left[..m])
  {
    if m > 0 {
      JoinRowsPerRow(left, right, condition, joinType, width, f, m - 1);
      JoinedNext(left, right, condition, joinType, width, m, f(left[m - 1]));
      FlatMapNext(f, left, m);
    }
  }

  /** Permuting the left rows permutes the joined rows. */
  lemma JoinRowsSameBag(left: seq<Row>, left': seq<Row>, right: seq<Row>, condition: Row -> bool, joinType: JoinType,
                        width: nat)
    requires multiset(left) == multiset(left')
    ensures multiset(JoinRows(left, right, On(left, right, condition), joinType, width))
         == multiset(JoinRows(left', right, On(left', right, condition), joinType, width))
  {
    var f := PerRow(right, condition, joinType, width);
    JoinRowsPerRow(left, right, condition, joinType, width, f, |left|);
    JoinRowsPerRow(left', right, condition, joinType, width, f, |left'|);
    assert left[..|left|] == left && left'[..|left'|] == left';
    FlatMapSameBag(f, left, left');
  }

  /** executeSourceOrderJoins: whichever path each join takes. */
  method SourceOrderJoins(base: seq<Row>, width: nat, joins: seq<Join>) returns (rows: seq<Row>)
    requires WellTyped(width, joins) && forall i :: 0 <= i < |base| ==> |base[i]| == width
    ensures multiset(rows) == multiset(SourceOrderRows(base, width, joins))
  {
    rows := base;
    ghost var reference := base;
    var leftWidth := width;
    for k := 0 to |joins|
      invariant leftWidth == WidthAfter(width, joins[..k]) && reference == SourceOrderRows(base, width, joins[..k])
      invariant multiset(rows) == multiset(reference)
    {
      var join := joins[k];
      PermutedWidth(base, width, joins, k, rows);
      NextJoin(base, width, joins, k);
      JoinRowsSameBag(rows, reference, join.rows, Meaning(join.condition, leftWidth), join.joinType, join.width);
      rows := JoinOne(rows, join.rows, join.condition, join.joinType, leftWidth, join.width);
      reference := SourceOrderRows(base, width, joins[..k + 1]);
      leftWidth := leftWidth + join.width;
    }
    assert joins[..|joins|] == joins;
  }

  lemma NextJoin(base: seq<Row>, width: nat, joins: seq<Join>, k: nat)
    requires k < |joins|
    ensures var left, join := SourceOrderRows(base, width, joins[..k]), joins[k];
      SourceOrderRows(base, width, joins[..k + 1])
        == JoinRows(left, join.rows, On(left, join.rows, Meaning(join.condition, WidthAfter(width, joins[..k]))),
                    join.joinType, join.width)
    ensures WidthAfter(width, joins[..k + 1]) == WidthAfter(width, joins[..k]) + joins[k].width
  {
    assert joins[..k + 1][..k] == joins[..k];
  }

  lemma PermutedWidth(base: seq<Row>, width: nat, joins: seq<Join>, k: nat, rows: seq<Row>)
    requires WellTyped(width, joins) && k <= |joins| && forall i :: 0 <= i < |base| ==> |base[i]| == width
    requires multiset(rows) == multiset(SourceOrderRows(base, width, joins[..k]))
    ensures forall i :: 0 <= i < |rows| ==> |rows[i]| == WidthAfter(width, joins[..k])
  {
    WellTypedUpTo(width, joins, k);
    SourceOrderWidth(base, width, joins[..k]);
    SameWidth(SourceOrderRows(base, width, joins[..k]), rows, WidthAfter(width, joins[..k]));
  }

  lemma WellTypedUpTo(width: nat, joins: seq<Join>, k: nat)
    requires WellTyped(width, joins) && k <= |joins|
    ensures WellTyped(width, joins[..k])
  {
    forall l | 0 <= l < k ensures joins[..k][l] == joins[l] && joins[..k][..l] == joins[..l] {
    }
  }

  lemma SameWidth(rows: seq<Row>, rows': seq<Row>, width: nat)
    requires multiset(rows) == multiset(rows') && forall i :: 0 <= i < |rows| ==> |rows[i]| == width
    ensures forall i :: 0 <= i < |rows'| ==> |rows'[i]| == width
  {
    forall i | 0 <= i < |rows'| ensures |rows'[i]| == width {
      assert rows'[i] in multiset(rows');
      var n := IndexOf(rows, rows'[i]);
    }
  }

  // ------------------------------------- inner joins on one equality per relation

  /** The tables' widths; every row has its table's width. */
  predicate Shaped(rels: Relations, widths: seq<nat>) {
    |widths| == |rels| && forall r, j :: 0 <= r < |rels| && 0 <= j < |rels[r]| ==> |rels[r][j]| == widths[r]
  }

  /** Where a relation's columns begin in a row joined in source order. */
  function Offset(widths: seq<nat>, r: nat): nat
    requires r <= |widths|
  {
    if r == 0 then 0 else Offset(widths, r - 1) + widths[r - 1]
  }

  /** Each ON clause names columns of the tables joined so far, the new one included. */
  predicate InScope(widths: seq<nat>, preds: seq<Predicate>) {
    && |preds| + 1 == |widths|
    && forall k :: 0 <= k < |preds| ==>
         && preds[k].left <= k + 1 && preds[k].right <= k + 1 && preds[k].left != preds[k].right
         && preds[k].leftColumn < widths[preds[k].left] && preds[k].rightColumn < widths[preds[k].right]
  }

  function Column(widths: seq<nat>, row: Row, r: nat, c: nat): Value
    requires r <= |widths|
  {
    if Offset(widths, r) + c < |row| then row[Offset(widths, r) + c] else Null
  }

  function ConditionOf(widths: seq<nat>, p: Predicate, next: nat): Condition
    requires p.left < |widths| && p.right < |widths|
  {
    if p.right == next && p.left < next then Equality(Offset(widths, p.left) + p.leftColumn, p.rightColumn)
    else if p.left == next && p.right < next then Equality(Offset(widths, p.right) + p.rightColumn, p.leftColumn)
    else General(row => KeysAgree(Column(widths, row, p.left, p.leftColumn), Column(widths, row, p.right, p.rightColumn)))
  }

  function JoinsOf(rels: Relations, widths: seq<nat>, preds: seq<Predicate>): (joins: seq<Join>)
    requires Shaped(rels, widths) && InScope(widths, preds)
    ensures |joins| == |preds|
  {
    seq(|preds|, k requires 0 <= k < |preds| =>
      Join(rels[k + 1], ConditionOf(widths, preds[k], k + 1), Inner, widths[k + 1]))
  }

  /** A joined row written out in source order: the columns of the first n relations. */
  function Wide(rels: Relations, n: nat, m: Binding): Row {
    if n == 0 then []
    else Wide(rels, n - 1, m) + if n - 1 < |rels| && n - 1 in m && m[n - 1] < |rels[n - 1]| then rels[n - 1][m[n - 1]] else []
  }

  function WideOf(rels: Relations, n: nat): Binding -> Row {
    (m: Binding) => Wide(rels, n, m)
  }

  /** The joined row has a row of each of the first n relations. */
  ghost predicate Within(rels: Relations, n: nat, m: Binding)
    requires n <= |rels|
  {
    forall r: nat :: r < n ==> r in m && m[r] < |rels[r]|
  }

  lemma {:induction false} WideWidth(rels: Relations, widths: seq<nat>, n: nat, m: Binding)
    requires Shaped(rels, widths) && n <= |rels| && Within(rels, n, m)
    ensures |Wide(rels, n, m)| == Offset(widths, n)
  {
    if n > 0 { WideWidth(rels, widths, n - 1, m); }
  }

  /** Reading a column of the written-out row is reading it from the relation's row. */
  lemma {:induction false} WideColumn(rels: Relations, widths: seq<nat>, n: nat, m: Binding, r: nat, c: nat)
    requires Shaped(rels, widths) && r < n <= |rels| && c < widths[r] && Within(rels, n, m)
    ensures Column(widths, Wide(rels, n, m), r, c) == At(rels, m, r, c)
  {
    WideWidth(rels, widths, n - 1, m);
    WideWidth(rels, widths, n, m);
    if r < n - 1 {
      WideColumn(rels, widths, n - 1, m, r, c);
      OffsetGrows(widths, r + 1, n - 1);
    }
  }

  lemma {:induction false} OffsetGrows(widths: seq<nat>, a: nat, b: nat)
    requires a <= b <= |widths|
    ensures Offset(widths, a) <= Offset(widths, b)
  {
    if a < b { OffsetGrows(widths, a, b - 1); }
  }

  // ---------------------------------------------- the nested loops, by position

  function OnBinding(rels: Relations, p: Predicate, rows: seq<Binding>, next: nat): (nat, nat) -> bool {
    (i: nat, j: nat) => i < |rows| && next < |rels| && j < |rels[next]| && HoldsOf(rels, p, rows[i][next := j])
  }

  function Extend(rows: seq<Binding>, next: nat): Pair -> Binding {
    (p: Pair) => if p.left < |rows| && p.right.Some? then rows[p.left][next := p.right.value] else map[]
  }

  /** Joining one more relation, as the nested loop does. */
  function StepOf(rels: Relations, p: Predicate, rows: seq<Binding>, next: nat): seq<Binding>
    requires next < |rels|
  {
    Map(Extend(rows, next), NestedPairs(OnBinding(rels, p, rows, next), Inner, |rows|, |rels[next]|))
  }

  /** The first n relations joined in source order. */
  function Prefix(rels: Relations, preds: seq<Predicate>, n: nat): seq<Binding>
    requires 0 < n <= |rels| && |preds| + 1 == |rels|
  {
    if n == 1 then seq(|rels[0]|, j => map[0 := j])
    else StepOf(rels, preds[n - 2], Prefix(rels, preds, n - 1), n - 1)
  }

  ghost predicate PrefixMember(rels: Relations, preds: seq<Predicate>, n: nat, m: Binding)
    requires 0 < n <= |rels| && |preds| + 1 == |rels|
  {
    && (forall r: nat :: r in m <==> r < n) && Within(rels, n, m)
    && (forall k :: 0 <= k < n - 1 ==> HoldsOf(rels, preds[k], m))
  }
}
