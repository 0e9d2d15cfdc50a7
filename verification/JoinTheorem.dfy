/** Join reordering preserves meaning: both plans enumerate the same joined rows. */
module JoinTheorem {
  import opened Wrappers
  import opened Values
  import opened Bags
  import opened SourceJoins
  import opened Masks
  import opened JoinPlanner
  import opened JoinExecution
  import opened JoinEquivalence

  // ---------------------------------------------- the nested loops, row by row

  lemma AtKept(rels: Relations, m: Binding, next: nat, j: nat, r: nat, c: nat)
    requires r != next
    ensures At(rels, m[next := j], r, c) == At(rels, m, r, c)
    ensures At(rels, m - {next}, r, c) == At(rels, m, r, c)
  {
  }

  lemma ScopeBelow(widths: seq<nat>, preds: seq<Predicate>, k: nat, n: nat)
    requires InScope(widths, preds) && k + 1 < n && k < |preds|
    ensures preds[k].left < n && preds[k].right < n
  {
  }

  lemma StepMember(rels: Relations, p: Predicate, rows: seq<Binding>, next: nat, i: nat, j: nat)
    requires next < |rels| && i < |rows| && j < |rels[next]| && HoldsOf(rels, p, rows[i][next := j])
    ensures rows[i][next := j] in StepOf(rels, p, rows, next)
  {
    var on, pair := OnBinding(rels, p, rows, next), Pair(i, Some(j));
    NestedMember(on, Inner, |rows|, |rels[next]|, pair);
    MapMember(Extend(rows, next), NestedPairs(on, Inner, |rows|, |rels[next]|), rows[i][next := j]);
    assert Extend(rows, next)(pair) == rows[i][next := j];
  }

  lemma StepOrigin(rels: Relations, p: Predicate, rows: seq<Binding>, next: nat, m: Binding) returns (i: nat, j: nat)
    requires next < |rels| && m in StepOf(rels, p, rows, next)
    ensures i < |rows| && j < |rels[next]| && m == rows[i][next := j] && HoldsOf(rels, p, m)
  {
    var on := OnBinding(rels, p, rows, next);
    var pairs := NestedPairs(on, Inner, |rows|, |rels[next]|);
    MapMember(Extend(rows, next), pairs, m);
    var pair :| pair in pairs && Extend(rows, next)(pair) == m;
    NestedMember(on, Inner, |rows|, |rels[next]|, pair);
    i, j := pair.left, pair.right.value;
  }

  lemma StepDistinct(rels: Relations, p: Predicate, rows: seq<Binding>, next: nat)
    requires next < |rels| && Distinct(rows) && forall i :: 0 <= i < |rows| ==> next !in rows[i]
    ensures Distinct(StepOf(rels, p, rows, next))
  {
    var on := OnBinding(rels, p, rows, next);
    var pairs := NestedPairs(on, Inner, |rows|, |rels[next]|);
    NestedDistinct(on, Inner, |rows|, |rels[next]|);
    forall i, j | 0 <= i < j < |pairs| ensures Extend(rows, next)(pairs[i]) != Extend(rows, next)(pairs[j]) {
      assert pairs[i] in pairs && pairs[j] in pairs;
      NestedMember(on, Inner, |rows|, |rels[next]|, pairs[i]);
      NestedMember(on, Inner, |rows|, |rels[next]|, pairs[j]);
      CombineApart(rows, next, Match(pairs[i].left, pairs[i].right.value), Match(pairs[j].left, pairs[j].right.value));
    }
  }

  lemma {:induction false} PrefixSound(rels: Relations, widths: seq<nat>, preds: seq<Predicate>, n: nat, m: Binding)
    requires Shaped(rels, widths) && InScope(widths, preds) && 0 < n <= |rels|
    requires m in Prefix(rels, preds, n)
    ensures PrefixMember(rels, preds, n, m)
  {
    if n > 1 {
      var rows := Prefix(rels, preds, n - 1);
      var i, j := StepOrigin(rels, preds[n - 2], rows, n - 1, m);
      PrefixSound(rels, widths, preds, n - 1, rows[i]);
      PrefixExtended(rels, widths, preds, n, rows[i], j);
    }
  }

  lemma {:induction false} PrefixComplete(rels: Relations, widths: seq<nat>, preds: seq<Predicate>, n: nat, m: Binding)
    requires Shaped(rels, widths) && InScope(widths, preds) && 0 < n <= |rels|
    requires PrefixMember(rels, preds, n, m)
    ensures m in Prefix(rels, preds, n)
  {
    if n == 1 {
      assert m == map[0 := m[0]];
      assert Prefix(rels, preds, 1)[m[0]] == m;
    } else {
      PrefixReached(rels, widths, preds, n, m);
      PrefixComplete(rels, widths, preds, n - 1, m - {n - 1});
      var rows := Prefix(rels, preds, n - 1);
      var i := IndexOf(rows, m - {n - 1});
      StepMember(rels, preds[n - 2], rows, n - 1, i, m[n - 1]);
    }
  }

  lemma PrefixExtended(rels: Relations, widths: seq<nat>, preds: seq<Predicate>, n: nat, m: Binding, j: nat)
    requires Shaped(rels, widths) && InScope(widths, preds) && 1 < n <= |rels|
    requires PrefixMember(rels, preds, n - 1, m) && j < |rels[n - 1]| && HoldsOf(rels, preds[n - 2], m[n - 1 := j])
    ensures PrefixMember(rels, preds, n, m[n - 1 := j])
  {
    forall k | 0 <= k < n - 1 ensures HoldsOf(rels, preds[k], m[n - 1 := j]) {
      if k < n - 2 {
        ScopeBelow(widths, preds, k, n - 1);
        AtKept(rels, m, n - 1, j, preds[k].left, preds[k].leftColumn);
        AtKept(rels, m, n - 1, j, preds[k].right, preds[k].rightColumn);
        assert HoldsOf(rels, preds[k], m);
      }
    }
  }

  lemma PrefixReached(rels: Relations, widths: seq<nat>, preds: seq<Predicate>, n: nat, m: Binding)
    requires Shaped(rels, widths) && InScope(widths, preds) && 1 < n <= |rels| && PrefixMember(rels, preds, n, m)
    ensures PrefixMember(rels, preds, n - 1, m - {n - 1})
    ensures var start: Binding, last: nat, j: nat := m - {n - 1}, n - 1, m[n - 1];
      start[last := j] == m
  {
    forall k | 0 <= k < n - 2 ensures HoldsOf(rels, preds[k], m - {n - 1}) {
      ScopeBelow(widths, preds, k, n - 1);
      AtKept(rels, m, n - 1, 0, preds[k].left, preds[k].leftColumn);
      AtKept(rels, m, n - 1, 0, preds[k].right, preds[k].rightColumn);
      assert HoldsOf(rels, preds[k], m);
    }
  }

  lemma NestedLeft(on: (nat, nat) -> bool, joinType: JoinType, m: nat, n: nat)
    ensures forall i :: 0 <= i < |NestedPairs(on, joinType, m, n)| ==> NestedPairs(on, joinType, m, n)[i].left < m
  {
    var a := NestedPairs(on, joinType, m, n);
    forall i | 0 <= i < |a| ensures a[i].left < m {
      NestedMember(on, joinType, m, n, a[i]);
    }
  }

  lemma PaddedLeft(on: (nat, nat) -> bool, joinType: JoinType, i: nat, n: nat)
    ensures var a := Padded(joinType, i, RowMatches(on, i, n));
      Distinct(a) && forall k :: 0 <= k < |a| ==> a[k].left == i
  {
    RowMatchesMembers(on, i, n);
    var matches := RowMatches(on, i, n);
    forall k | 0 <= k < |matches| ensures matches[k].left == i {
      assert matches[k] in matches;
    }
  }

  lemma DistinctByLeft(a: seq<Pair>, b: seq<Pair>, i: nat)
    requires Distinct(a) && Distinct(b)
    requires forall k :: 0 <= k < |a| ==> a[k].left < i
    requires forall k :: 0 <= k < |b| ==> b[k].left == i
    ensures Distinct(a + b)
  {
    forall k, l | 0 <= k < l < |a + b| ensures (a + b)[k] != (a + b)[l] {
    }
  }

  lemma {:induction false} NestedDistinct(on: (nat, nat) -> bool, joinType: JoinType, m: nat, n: nat)
    ensures Distinct(NestedPairs(on, joinType, m, n))
  {
    if m > 0 {
      NestedDistinct(on, joinType, m - 1, n);
      NestedLeft(on, joinType, m - 1, n);
      PaddedLeft(on, joinType, m - 1, n);
      var a, b := NestedPairs(on, joinType, m - 1, n), Padded(joinType, m - 1, RowMatches(on, m - 1, n));
      assert forall k :: 0 <= k < |a| ==> a[k].left < m - 1;
      DistinctByLeft(a, b, m - 1);
    }
  }

  lemma {:induction false} PrefixDistinct(rels: Relations, widths: seq<nat>, preds: seq<Predicate>, n: nat)
    requires Shaped(rels, widths) && InScope(widths, preds) && 0 < n <= |rels|
    ensures Distinct(Prefix(rels, preds, n))
  {
    if n == 1 {
      var rows := Prefix(rels, preds, 1);
      forall i, j | 0 <= i < j < |rows| ensures rows[i] != rows[j] {
        assert rows[i][0] != rows[j][0];
      }
    } else {
      PrefixDistinct(rels, widths, preds, n - 1);
      var rows := Prefix(rels, preds, n - 1);
      forall i | 0 <= i < |rows| ensures n - 1 !in rows[i] {
        assert rows[i] in rows;
        PrefixSound(rels, widths, preds, n - 1, rows[i]);
      }
      StepDistinct(rels, preds[n - 2], rows, n - 1);
    }
  }

  /** All predicates apply to complete rows, so being a complete row means the same to both. */
  lemma CompleteRow(rels: Relations, widths: seq<nat>, preds: seq<Predicate>, m: Binding)
    requires Shaped(rels, widths) && InScope(widths, preds) && |rels| > 0
    ensures PrefixMember(rels, preds, |rels|, m)
       <==> Binds(rels, Full(|rels|), m) && Filters(rels, preds, Full(|rels|), m)
  {
    var n := |rels|;
    forall r: nat ensures In(Full(n), r) <==> r < n {
      InFull(n, r);
    }
    forall k | 0 <= k < |preds| ensures Applies(preds[k], Full(n)) {
      ScopeBelow(widths, preds, k, n);
    }
  }

  /** The nested loops in source order produce exactly the join of all relations. */
  lemma SourceOrderResult(rels: Relations, widths: seq<nat>, preds: seq<Predicate>)
    requires Shaped(rels, widths) && InScope(widths, preds) && |rels| > 0
    ensures JoinResult(rels, preds, Full(|rels|), Prefix(rels, preds, |rels|))
  {
    var n := |rels|;
    PrefixDistinct(rels, widths, preds, n);
    forall m ensures m in Prefix(rels, preds, n) <==> Binds(rels, Full(n), m) && Filters(rels, preds, Full(n), m) {
      CompleteRow(rels, widths, preds, m);
      PrefixMembers(rels, widths, preds, n, m);
    }
  }

  lemma PrefixMembers(rels: Relations, widths: seq<nat>, preds: seq<Predicate>, n: nat, m: Binding)
    requires Shaped(rels, widths) && InScope(widths, preds) && 0 < n <= |rels|
    ensures m in Prefix(rels, preds, n) <==> PrefixMember(rels, preds, n, m)
  {
    if m in Prefix(rels, preds, n) { PrefixSound(rels, widths, preds, n, m); }
    if PrefixMember(rels, preds, n, m) { PrefixComplete(rels, widths, preds, n, m); }
  }

  // -------------------------------------------------------- rows written out

  lemma {:induction false} WideIgnores(rels: Relations, n: nat, m: Binding, next: nat, j: nat)
    requires n <= next
    ensures Wide(rels, n, m[next := j]) == Wide(rels, n, m)
  {
    if n > 0 { WideIgnores(rels, n - 1, m, next, j); }
  }

  lemma WideExtended(rels: Relations, next: nat, m: Binding, j: nat)
    requires next < |rels| && j < |rels[next]|
    ensures Wide(rels, next + 1, m[next := j]) == Wide(rels, next, m) + rels[next][j]
  {
    WideIgnores(rels, next, m, next, j);
  }

  /** However the ON clause is written, it compares the two columns. */
  lemma MeaningOf(widths: seq<nat>, p: Predicate, next: nat, row: Row)
    requires next < |widths| && p.left <= next && p.right <= next && p.left != p.right
    requires Offset(widths, p.left) + p.leftColumn < |row| && Offset(widths, p.right) + p.rightColumn < |row|
    ensures Meaning(ConditionOf(widths, p, next), Offset(widths, next))(row)
         == KeysAgree(Column(widths, row, p.left, p.leftColumn), Column(widths, row, p.right, p.rightColumn))
  {
  }

  /** The ON clause over the written-out row is the predicate over the joined row. */
  lemma ConditionAgrees(rels: Relations, widths: seq<nat>, preds: seq<Predicate>, k: nat, m: Binding, j: nat)
    requires Shaped(rels, widths) && InScope(widths, preds) && k < |preds| && j < |rels[k + 1]|
    requires Within(rels, k + 1, m)
    ensures Meaning(ConditionOf(widths, preds[k], k + 1), Offset(widths, k + 1))(Wide(rels, k + 1, m) + rels[k + 1][j])
         == HoldsOf(rels, preds[k], m[k + 1 := j])
  {
    WideExtended(rels, k + 1, m, j);
    WrittenOut(rels, widths, preds[k], k + 2, m[k + 1 := j]);
    MeaningOf(widths, preds[k], k + 1, Wide(rels, k + 2, m[k + 1 := j]));
  }

  lemma WrittenOut(rels: Relations, widths: seq<nat>, p: Predicate, n: nat, m: Binding)
    requires Shaped(rels, widths) && n <= |rels| && Within(rels, n, m)
    requires p.left < n && p.right < n && p.leftColumn < widths[p.left] && p.rightColumn < widths[p.right]
    ensures Offset(widths, p.left) + p.leftColumn < |Wide(rels, n, m)|
    ensures Offset(widths, p.right) + p.rightColumn < |Wide(rels, n, m)|
    ensures KeysAgree(Column(widths, Wide(rels, n, m), p.left, p.leftColumn),
                      Column(widths, Wide(rels, n, m), p.right, p.rightColumn)) == HoldsOf(rels, p, m)
  {
    WideColumn(rels, widths, n, m, p.left, p.leftColumn);
    WideColumn(rels, widths, n, m, p.right, p.rightColumn);
    WideWidth(rels, widths, n, m);
    ColumnInside(widths, n, p.left, p.leftColumn);
    ColumnInside(widths, n, p.right, p.rightColumn);
  }

  lemma ColumnInside(widths: seq<nat>, n: nat, r: nat, c: nat)
    requires r < n <= |widths| && c < widths[r]
    ensures Offset(widths, r) + c < Offset(widths, n)
  {
    OffsetGrows(widths, r + 1, n);
  }

  /** The nested loop over written-out rows takes the same pairs as the one over joined rows. */
  lemma SamePairs(rels: Relations, widths: seq<nat>, preds: seq<Predicate>, k: nat, rows: seq<Binding>, left: seq<Row>)
    requires Shaped(rels, widths) && InScope(widths, preds) && k < |preds|
    requires left == Map(WideOf(rels, k + 1), rows) && forall i :: 0 <= i < |rows| ==> Within(rels, k + 1, rows[i])
    ensures NestedPairs(On(left, rels[k + 1], Meaning(ConditionOf(widths, preds[k], k + 1), Offset(widths, k + 1))),
                        Inner, |left|, |rels[k + 1]|)
         == NestedPairs(OnBinding(rels, preds[k], rows, k + 1), Inner, |rows|, |rels[k + 1]|)
  {
    var on := On(left, rels[k + 1], Meaning(ConditionOf(widths, preds[k], k + 1), Offset(widths, k + 1)));
    var on' := OnBinding(rels, preds[k], rows, k + 1);
    forall i: nat, j: nat ensures on(i, j) == on'(i, j) {
      if i < |rows| && j < |rels[k + 1]| { ConditionAgrees(rels, widths, preds, k, rows[i], j); }
    }
    SameConditionSamePairs(on, on', Inner, |left|, |rels[k + 1]|);
  }

  /** Writing out the extended rows is extending the written-out rows. */
  lemma SameExtension(rels: Relations, next: nat, rows: seq<Binding>, left: seq<Row>, width: nat, pairs: seq<Pair>)
    requires next < |rels| && left == Map(WideOf(rels, next), rows)
    requires forall l :: 0 <= l < |pairs| ==>
      pairs[l].left < |rows| && pairs[l].right.Some? && pairs[l].right.value < |rels[next]|
    ensures Map(Render(left, rels[next], width), pairs) == Map(WideOf(rels, next + 1), Map(Extend(rows, next), pairs))
  {
    forall l | 0 <= l < |pairs|
      ensures WideOf(rels, next + 1)(Extend(rows, next)(pairs[l])) == Render(left, rels[next], width)(pairs[l])
    {
      WideExtended(rels, next, rows[pairs[l].left], pairs[l].right.value);
    }
    MapCompose(WideOf(rels, next + 1), Extend(rows, next), Render(left, rels[next], width), pairs);
  }

  lemma InnerPairs(on: (nat, nat) -> bool, m: nat, n: nat)
    ensures var pairs := NestedPairs(on, Inner, m, n);
      forall l :: 0 <= l < |pairs| ==> pairs[l].left < m && pairs[l].right.Some? && pairs[l].right.value < n
  {
    var pairs := NestedPairs(on, Inner, m, n);
    forall l | 0 <= l < |pairs| ensures pairs[l].left < m && pairs[l].right.Some? && pairs[l].right.value < n {
      NestedMember(on, Inner, m, n, pairs[l]);
    }
  }

  /** One join of the written-out rows is one step of the joined rows. */
  lemma StepRows(rels: Relations, widths: seq<nat>, preds: seq<Predicate>, k: nat, rows: seq<Binding>, left: seq<Row>)
    requires Shaped(rels, widths) && InScope(widths, preds) && k < |preds|
    requires left == Map(WideOf(rels, k + 1), rows) && forall i :: 0 <= i < |rows| ==> Within(rels, k + 1, rows[i])
    ensures JoinRows(left, rels[k + 1],
                     On(left, rels[k + 1], Meaning(ConditionOf(widths, preds[k], k + 1), Offset(widths, k + 1))),
                     Inner, widths[k + 1])
         == Map(WideOf(rels, k + 2), StepOf(rels, preds[k], rows, k + 1))
  {
    SamePairs(rels, widths, preds, k, rows, left);
    var on := OnBinding(rels, preds[k], rows, k + 1);
    InnerPairs(on, |rows|, |rels[k + 1]|);
    SameExtension(rels, k + 1, rows, left, widths[k + 1], NestedPairs(on, Inner, |rows|, |rels[k + 1]|));
  }

  lemma {:induction false} PrefixRows(rels: Relations, widths: seq<nat>, preds: seq<Predicate>, joins: seq<Join>, n: nat)
    requires Shaped(rels, widths) && InScope(widths, preds) && joins == JoinsOf(rels, widths, preds) && 0 < n <= |rels|
    ensures SourceOrderRows(rels[0], widths[0], joins[..n - 1]) == Map(WideOf(rels, n), Prefix(rels, preds, n))
    ensures WidthAfter(widths[0], joins[..n - 1]) == Offset(widths, n)
  {
    if n == 1 {
      FirstRows(rels, preds);
      assert Offset(widths, 1) == Offset(widths, 0) + widths[0];
    } else {
      PrefixRows(rels, widths, preds, joins, n - 1);
      NextRows(rels, widths, preds, joins, n, SourceOrderRows(rels[0], widths[0], joins[..n - 2]));
    }
  }

  lemma NextRows(rels: Relations, widths: seq<nat>, preds: seq<Predicate>, joins: seq<Join>, n: nat, left: seq<Row>)
    requires Shaped(rels, widths) && InScope(widths, preds) && joins == JoinsOf(rels, widths, preds) && 1 < n <= |rels|
    requires left == SourceOrderRows(rels[0], widths[0], joins[..n - 2])
    requires left == Map(WideOf(rels, n - 1), Prefix(rels, preds, n - 1))
    requires WidthAfter(widths[0], joins[..n - 2]) == Offset(widths, n - 1)
    ensures SourceOrderRows(rels[0], widths[0], joins[..n - 1]) == Map(WideOf(rels, n), Prefix(rels, preds, n))
    ensures WidthAfter(widths[0], joins[..n - 1]) == Offset(widths, n)
  {
    PrefixInside(rels, widths, preds, n - 1);
    StepRows(rels, widths, preds, n - 2, Prefix(rels, preds, n - 1), left);
    JoinAt(rels, widths, preds, joins, n - 2);
    NextJoin(rels[0], widths[0], joins, n - 2);
  }

  lemma JoinAt(rels: Relations, widths: seq<nat>, preds: seq<Predicate>, joins: seq<Join>, k: nat)
    requires Shaped(rels, widths) && InScope(widths, preds) && joins == JoinsOf(rels, widths, preds) && k < |joins|
    ensures joins[k] == Join(rels[k + 1], ConditionOf(widths, preds[k], k + 1), Inner, widths[k + 1])
  {
  }

  lemma PrefixInside(rels: Relations, widths: seq<nat>, preds: seq<Predicate>, n: nat)
    requires Shaped(rels, widths) && InScope(widths, preds) && 0 < n <= |rels|
    ensures forall i :: 0 <= i < |Prefix(rels, preds, n)| ==> Within(rels, n, Prefix(rels, preds, n)[i])
  {
    forall i | 0 <= i < |Prefix(rels, preds, n)| ensures Within(rels, n, Prefix(rels, preds, n)[i]) {
      PrefixSound(rels, widths, preds, n, Prefix(rels, preds, n)[i]);
    }
  }

  lemma FirstRows(rels: Relations, preds: seq<Predicate>)
    requires |rels| > 0 && |preds| + 1 == |rels|
    ensures Map(WideOf(rels, 1), Prefix(rels, preds, 1)) == rels[0]
  {
    var rows := Prefix(rels, preds, 1);
    forall j | 0 <= j < |rows| ensures WideOf(rels, 1)(rows[j]) == rels[0][j] {
      assert Wide(rels, 0, rows[j]) == [];
    }
  }

  /** Two enumerations of the join hold the same rows, each as often. */
  lemma SameRows(rels: Relations, widths: seq<nat>, preds: seq<Predicate>, rows: seq<Binding>)
    requires Shaped(rels, widths) && InScope(widths, preds) && |rels| > 0
    requires JoinResult(rels, preds, Full(|rels|), rows)
    ensures multiset(Map(WideOf(rels, |rels|), rows))
         == multiset(SourceOrderRows(rels[0], widths[0], JoinsOf(rels, widths, preds)))
  {
    var n, joins := |rels|, JoinsOf(rels, widths, preds);
    SourceOrderResult(rels, widths, preds);
    DistinctSameBag(rows, Prefix(rels, preds, n));
    MapSameBag(WideOf(rels, n), rows, Prefix(rels, preds, n));
    PrefixRows(rels, widths, preds, joins, n);
    assert joins[..n - 1] == joins;
  }

  lemma InScopeWellFormed(widths: seq<nat>, preds: seq<Predicate>)
    requires InScope(widths, preds)
    ensures WellFormed(|widths|, preds)
  {
  }

  /** Whenever the cost-based plan is used, its rows are those of the nested loops in source
      order, up to the order of rows and columns. */
  method ReorderedJoins(rels: Relations, widths: seq<nat>, preds: seq<Predicate>, stats: Statistics)
    returns (r: Planned<seq<Row>>)
    requires Shaped(rels, widths) && InScope(widths, preds) && |stats.rows| == |rels|
    ensures r.Undefined? <==> |rels| == MaskBits
    ensures r.Joined? <==> 3 <= |rels| < MaskBits && Connected(|rels|, preds)
    ensures r.Joined? ==> multiset(r.rows) == multiset(SourceOrderRows(rels[0], widths[0], JoinsOf(rels, widths, preds)))
  {
    InScopeWellFormed(widths, preds);
    var rows := CostBasedJoins(rels, preds, stats);
    match rows
    case Declined => r := Declined;
    case Undefined => r := Undefined;
    case Joined(bindings) =>
      SameRows(rels, widths, preds, bindings);
      r := Joined(Map(WideOf(rels, |rels|), bindings));
  }
}
