/** Choosing a join order by dynamic programming over sets of relations
    (src/native_joins.cpp:960-1066). */
module JoinPlanner {
  import opened Masks

  /** An ON clause `left.leftColumn = right.rightColumn` between two relations. */
  datatype Predicate = Predicate(left: nat, leftColumn: nat, right: nat, rightColumn: nat)

  datatype Plan = NoPlan | Plan(cost: real, rows: real, order: seq<nat>)

  predicate WellFormed(n: nat, preds: seq<Predicate>) {
    forall k :: 0 <= k < |preds| ==> preds[k].left < n && preds[k].right < n && preds[k].left != preds[k].right
  }

  /** The predicate leads from a joined relation to the next one. */
  predicate Connects(p: Predicate, mask: nat, next: nat) {
    (p.left == next && In(mask, p.right)) || (p.right == next && In(mask, p.left))
  }

  predicate Links(preds: seq<Predicate>, mask: nat, next: nat) {
    exists k :: 0 <= k < |preds| && Connects(preds[k], mask, next)
  }

  // ----------------------------------------------------------- specification

  function MaskOf(order: seq<nat>): nat {
    if order == [] then 0 else With(MaskOf(order[..|order| - 1]), order[|order| - 1])
  }

  /** Relations in an order in which each after the first is linked to the ones before it. */
  predicate Ordered(n: nat, preds: seq<Predicate>, order: seq<nat>) {
    && order != []
    && var last := order[|order| - 1];
       var before := MaskOf(order[..|order| - 1]);
       && last < n && !In(before, last)
       && (|order| > 1 ==> Ordered(n, preds, order[..|order| - 1]) && Links(preds, before, last))
  }

  predicate Crosses(p: Predicate, mask: nat) {
    In(mask, p.left) != In(mask, p.right)
  }

  /** No way to cut the relations in two without cutting a predicate. */
  ghost predicate Connected(n: nat, preds: seq<Predicate>) {
    forall mask: nat :: 0 < mask < Full(n) ==> CutCrossed(preds, mask)
  }

  predicate CutCrossed(preds: seq<Predicate>, mask: nat) {
    exists k :: 0 <= k < |preds| && Crosses(preds[k], mask)
  }

  /** A planned state has an order of exactly its relations. */
  ghost predicate Planned(n: nat, preds: seq<Predicate>, mask: nat, plan: Plan) {
    plan.Plan? ==> Ordered(n, preds, plan.order) && MaskOf(plan.order) == mask
  }

  lemma {:induction false} OrderMask(n: nat, preds: seq<Predicate>, order: seq<nat>)
    requires Ordered(n, preds, order)
    ensures 0 < MaskOf(order) < Pow2(n)
  {
    if |order| > 1 {
      OrderMask(n, preds, order[..|order| - 1]);
    }
    WithBounded(MaskOf(order[..|order| - 1]), order[|order| - 1], n);
    WithGrows(MaskOf(order[..|order| - 1]), order[|order| - 1]);
  }

  lemma {:induction false} OrderMembers(order: seq<nat>, r: nat)
    ensures In(MaskOf(order), r) <==> r in order
  {
    if order == [] {
      InZero(r);
    } else {
      OrderMembers(order[..|order| - 1], r);
      InWith(MaskOf(order[..|order| - 1]), order[|order| - 1], r);
      assert order == order[..|order| - 1] + [order[|order| - 1]];
    }
  }

  /** A full order is a permutation: every relation once. */
  lemma {:induction false} OrderDistinct(n: nat, preds: seq<Predicate>, order: seq<nat>)
    requires Ordered(n, preds, order)
    ensures forall i, j :: 0 <= i < j < |order| ==> order[i] != order[j]
  {
    var start, last := order[..|order| - 1], order[|order| - 1];
    if |order| > 1 { OrderDistinct(n, preds, start); }
    OrderMembers(start, last);
    forall i | 0 <= i < |start| ensures order[i] != last {
      assert start[i] in start;
    }
  }

  // ------------------------------------------------------------- the planner

  /** Row counts and distinct values, as the statistics give them. */
  datatype Statistics = Statistics(rows: seq<nat>, distinct: (nat, nat) -> nat)

  function Max(a: real, b: real): real {
    if a < b then b else a
  }

  function DistinctCount(stats: Statistics, relation: nat, column: nat): (r: real)
    ensures r > 0.0
  {
    var d := stats.distinct(relation, column);
    if d == 0 then 1.0 else d as real
  }

  method Estimate(n: nat, preds: seq<Predicate>, stats: Statistics, mask: nat, next: nat)
    returns (connected: bool, selectivity: real)
    ensures connected == Links(preds, mask, next)
  {
    connected, selectivity := false, 1.0;
    for k := 0 to |preds|
      invariant connected == exists l :: 0 <= l < k && Connects(preds[l], mask, next)
    {
      var p := preds[k];
      if Connects(p, mask, next) {
        connected := true;
        selectivity := selectivity / Max(DistinctCount(stats, p.left, p.leftColumn),
                                         DistinctCount(stats, p.right, p.rightColumn));
      }
    }
  }

  /** Extending the plan of a mask keeps it a plan of the larger mask. */
  lemma ExtendPlan(n: nat, preds: seq<Predicate>, mask: nat, order: seq<nat>, next: nat)
    requires Ordered(n, preds, order) && MaskOf(order) == mask
    requires next < n && !In(mask, next) && Links(preds, mask, next)
    ensures Ordered(n, preds, order + [next]) && MaskOf(order + [next]) == With(mask, next)
  {
    assert (order + [next])[..|order|] == order;
  }

  /** Whatever can be reached from a planned state in one step is planned. */
  ghost predicate Closed(n: nat, preds: seq<Predicate>, plans: seq<Plan>, mask: nat, next: nat)
    requires |plans| == Pow2(n) && mask < Pow2(n) && next < n
  {
    WithBounded(mask, next, n);
    plans[mask].Plan? && !In(mask, next) && Links(preds, mask, next) ==> plans[With(mask, next)].Plan?
  }

  ghost predicate AllPlanned(n: nat, preds: seq<Predicate>, plans: seq<Plan>) {
    |plans| == Pow2(n) && forall m :: 0 <= m < |plans| ==> Planned(n, preds, m, plans[m])
  }

  method ExtendByOne(n: nat, preds: seq<Predicate>, stats: Statistics, plans: seq<Plan>, mask: nat, next: nat)
    returns (plans': seq<Plan>)
    requires |stats.rows| == n && AllPlanned(n, preds, plans) && mask < Pow2(n) && next < n
    requires plans[mask].Plan? && !In(mask, next)
    ensures AllPlanned(n, preds, plans') && Closed(n, preds, plans', mask, next)
    ensures forall m :: 0 <= m < |plans| ==> (plans[m].Plan? ==> plans'[m].Plan?) && (m <= mask ==> plans'[m] == plans[m])
  {
    var connected, selectivity := Estimate(n, preds, stats, mask, next);
    WithBounded(mask, next, n);
    WithGrows(mask, next);
    if !connected { return plans; }
    var plan := plans[mask];
    var nextRows := stats.rows[next] as real;
    var outputRows := Max(plan.rows * nextRows * selectivity, if plan.rows == 0.0 || nextRows == 0.0 then 0.0 else 1.0);
    var cost := plan.cost + plan.rows + nextRows + outputRows;
    var combined := With(mask, next);
    if plans[combined].NoPlan? || cost < plans[combined].cost {
      ExtendPlan(n, preds, mask, plan.order, next);
      return plans[combined := Plan(cost, outputRows, plan.order + [next])];
    }
    return plans;
  }

  method SingleRelations(n: nat, preds: seq<Predicate>, stats: Statistics) returns (plans: seq<Plan>)
    requires |stats.rows| == n
    ensures AllPlanned(n, preds, plans)
    ensures n > 0 ==> plans[With(0, 0)].Plan?
  {
    plans := seq(Pow2(n), _ => NoPlan);
    for r := 0 to n
      invariant AllPlanned(n, preds, plans)
      invariant r > 0 ==> With(0, 0) < |plans| && plans[With(0, 0)].Plan?
    {
      WithBounded(0, r, n);
      InZero(r);
      var rows := stats.rows[r] as real;
      assert [r][..0] == [];
      plans := plans[With(0, r) := Plan(rows, rows, [r])];
    }
  }

  /** Row `mask` of the table is finished. */
  ghost predicate Finished(n: nat, preds: seq<Predicate>, plans: seq<Plan>, mask: nat)
    requires |plans| == Pow2(n) && mask < Pow2(n)
  {
    forall next: nat :: next < n ==> Closed(n, preds, plans, mask, next)
  }

  method ExtendAll(n: nat, preds: seq<Predicate>, stats: Statistics, plans: seq<Plan>, mask: nat)
    returns (plans': seq<Plan>)
    requires |stats.rows| == n && AllPlanned(n, preds, plans) && mask < Pow2(n) && plans[mask].Plan?
    ensures AllPlanned(n, preds, plans') && Finished(n, preds, plans', mask)
    ensures forall m :: 0 <= m < |plans| ==> (plans[m].Plan? ==> plans'[m].Plan?) && (m <= mask ==> plans'[m] == plans[m])
  {
    plans' := plans;
    for next := 0 to n
      invariant AllPlanned(n, preds, plans')
      invariant forall m :: 0 <= m < |plans| ==> (plans[m].Plan? ==> plans'[m].Plan?) && (m <= mask ==> plans'[m] == plans[m])
      invariant forall k: nat :: k < next ==> Closed(n, preds, plans', mask, k)
    {
      if !In(mask, next) {
        ghost var before := plans';
        plans' := ExtendByOne(n, preds, stats, plans', mask, next);
        forall k: nat | k < next ensures Closed(n, preds, plans', mask, k) {
          StaysClosed(n, preds, before, plans', mask, k);
        }
      }
    }
  }

  lemma StaysClosed(n: nat, preds: seq<Predicate>, plans: seq<Plan>, plans': seq<Plan>, mask: nat, next: nat)
    requires |plans| == |plans'| == Pow2(n) && mask < Pow2(n) && next < n
    requires Closed(n, preds, plans, mask, next) && (plans'[mask].Plan? ==> plans[mask].Plan?)
    requires forall m :: 0 <= m < |plans| ==> plans[m].Plan? ==> plans'[m].Plan?
    ensures Closed(n, preds, plans', mask, next)
  {
    WithBounded(mask, next, n);
  }

  /** The plan for all relations exists exactly if the predicates connect them. */
  method PlanJoins(n: nat, preds: seq<Predicate>, stats: Statistics) returns (best: Plan)
    requires n > 0 && |stats.rows| == n && WellFormed(n, preds)
    ensures best.Plan? <==> Connected(n, preds)
    ensures best.Plan? ==> Ordered(n, preds, best.order) && MaskOf(best.order) == Full(n)
  {
    var plans := SingleRelations(n, preds, stats);
    for mask := 1 to Pow2(n)
      invariant AllPlanned(n, preds, plans) && plans[With(0, 0)].Plan?
      invariant forall m: nat :: 0 < m < mask ==> Finished(n, preds, plans, m)
    {
      if plans[mask].Plan? {
        ghost var before := plans;
        plans := ExtendAll(n, preds, stats, plans, mask);
        forall m: nat | 0 < m < mask ensures Finished(n, preds, plans, m) {
          StaysFinished(n, preds, before, plans, m);
        }
      }
    }
    best := plans[Pow2(n) - 1];
    if best.Plan? {
      OrderCrosses(n, preds, best.order);
    } else {
      Unreached(n, preds, plans, With(0, 0));
    }
  }

  lemma StaysFinished(n: nat, preds: seq<Predicate>, plans: seq<Plan>, plans': seq<Plan>, mask: nat)
    requires |plans| == |plans'| == Pow2(n) && mask < Pow2(n) && plans'[mask] == plans[mask]
    requires Finished(n, preds, plans, mask)
    requires forall m :: 0 <= m < |plans| ==> plans[m].Plan? ==> plans'[m].Plan?
    ensures Finished(n, preds, plans', mask)
  {
    forall next: nat | next < n ensures Closed(n, preds, plans', mask, next) {
      StaysClosed(n, preds, plans, plans', mask, next);
    }
  }

  /** From any planned state of a finished table, connected predicates lead to the full one. */
  lemma {:induction false} Unreached(n: nat, preds: seq<Predicate>, plans: seq<Plan>, mask: nat)
    requires |plans| == Pow2(n) && WellFormed(n, preds) && 0 < mask < Pow2(n) && plans[mask].Plan?
    requires forall m: nat :: 0 < m < Pow2(n) ==> Finished(n, preds, plans, m)
    requires plans[Full(n)].NoPlan?
    ensures !Connected(n, preds)
    decreases Pow2(n) - mask
  {
    if CutCrossed(preds, mask) {
      var next := CrossedNext(n, preds, mask);
      WithBounded(mask, next, n);
      WithGrows(mask, next);
      assert Finished(n, preds, plans, mask);
      assert Closed(n, preds, plans, mask, next);
      Unreached(n, preds, plans, With(mask, next));
    }
  }

  lemma CrossedNext(n: nat, preds: seq<Predicate>, mask: nat) returns (next: nat)
    requires WellFormed(n, preds) && CutCrossed(preds, mask)
    ensures next < n && !In(mask, next) && Links(preds, mask, next)
  {
    var k :| 0 <= k < |preds| && Crosses(preds[k], mask);
    next := if In(mask, preds[k].left) then preds[k].right else preds[k].left;
    assert Connects(preds[k], mask, next);
  }

  /** An order of some relations crosses every cut that splits them. */
  lemma {:induction false} OrderCrossesCut(n: nat, preds: seq<Predicate>, order: seq<nat>, cut: nat)
    requires Ordered(n, preds, order)
    requires (exists r :: r in order && In(cut, r)) && (exists r :: r in order && !In(cut, r))
    ensures CutCrossed(preds, cut)
  {
    var start, last := order[..|order| - 1], order[|order| - 1];
    assert order == start + [last];
    if forall r :: r in start ==> In(cut, r) == In(cut, start[0]) {
      if |start| > 0 {
        var k :| 0 <= k < |preds| && Connects(preds[k], MaskOf(start), last);
        var other := if preds[k].left == last then preds[k].right else preds[k].left;
        OrderMembers(start, preds[k].left);
        OrderMembers(start, preds[k].right);
        assert In(cut, last) != In(cut, start[0]);
        assert Crosses(preds[k], cut);
      }
    } else {
      OrderCrossesCut(n, preds, start, cut);
    }
  }

  lemma OrderCrosses(n: nat, preds: seq<Predicate>, order: seq<nat>)
    requires Ordered(n, preds, order) && MaskOf(order) == Full(n)
    ensures Connected(n, preds)
  {
    forall cut: nat | 0 < cut < Full(n) ensures CutCrossed(preds, cut) {
      var a := SomeMember(cut);
      var b := SomeAbsentee(cut, n);
      InBounded(cut, n, a);
      InFull(n, a);
      InFull(n, b);
      OrderMembers(order, a);
      OrderMembers(order, b);
      OrderCrossesCut(n, preds, order, cut);
    }
  }

  // --------------------------------------------------- one predicate per step

  function CountAt(preds: seq<Predicate>, mask: nat, next: nat): nat {
    if preds == [] then 0
    else CountAt(preds[..|preds| - 1], mask, next) + if Connects(preds[|preds| - 1], mask, next) then 1 else 0
  }

  /** Predicates applied by all steps of an order. */
  function CountAll(preds: seq<Predicate>, order: seq<nat>): nat {
    if |order| <= 1 then 0
    else CountAll(preds, order[..|order| - 1]) + CountAt(preds, MaskOf(order[..|order| - 1]), order[|order| - 1])
  }

  lemma LinksSplit(preds: seq<Predicate>, mask: nat, next: nat)
    requires preds != []
    ensures Links(preds, mask, next)
       <==> Links(preds[..|preds| - 1], mask, next) || Connects(preds[|preds| - 1], mask, next)
  {
    var start := preds[..|preds| - 1];
    if Links(preds, mask, next) {
      var k :| 0 <= k < |preds| && Connects(preds[k], mask, next);
      if k < |start| { assert Connects(start[k], mask, next); }
    }
    if Links(start, mask, next) {
      var k :| 0 <= k < |start| && Connects(start[k], mask, next);
      assert Connects(preds[k], mask, next);
    }
  }

  lemma {:induction false} LinkedCount(preds: seq<Predicate>, mask: nat, next: nat)
    ensures CountAt(preds, mask, next) >= 1 <==> Links(preds, mask, next)
  {
    if preds != [] {
      LinkedCount(preds[..|preds| - 1], mask, next);
      LinksSplit(preds, mask, next);
    }
  }

  lemma CountAtSplit(preds: seq<Predicate>, p: Predicate, mask: nat, next: nat)
    ensures CountAt(preds + [p], mask, next) == CountAt(preds, mask, next) + CountAt([p], mask, next)
    ensures CountAt([p], mask, next) == if Connects(p, mask, next) then 1 else 0
  {
    assert (preds + [p])[..|preds|] == preds;
    assert [p][..0] == [];
  }

  lemma {:induction false} CountAllSplit(preds: seq<Predicate>, p: Predicate, order: seq<nat>)
    ensures CountAll(preds + [p], order) == CountAll(preds, order) + CountAll([p], order)
  {
    if |order| > 1 {
      CountAllSplit(preds, p, order[..|order| - 1]);
      CountAtSplit(preds, p, MaskOf(order[..|order| - 1]), order[|order| - 1]);
    }
  }

  /** Each predicate is applied by the one step that joins its second relation. */
  lemma {:induction false} CountedOnce(n: nat, preds: seq<Predicate>, p: Predicate, order: seq<nat>)
    requires Ordered(n, preds, order) && p.left != p.right
    ensures CountAll([p], order) == if In(MaskOf(order), p.left) && In(MaskOf(order), p.right) then 1 else 0
  {
    var start, last := order[..|order| - 1], order[|order| - 1];
    InWith(MaskOf(start), last, p.left);
    InWith(MaskOf(start), last, p.right);
    if |order| > 1 {
      CountedOnce(n, preds, p, start);
      CountAtSplit([], p, MaskOf(start), last);
    } else {
      assert start == [];
      InZero(p.left);
      InZero(p.right);
    }
  }

  lemma {:induction false} CountedAll(n: nat, all: seq<Predicate>, preds: seq<Predicate>, order: seq<nat>)
    requires Ordered(n, all, order) && MaskOf(order) == Full(n) && WellFormed(n, preds)
    ensures CountAll(preds, order) == |preds|
  {
    if preds == [] {
      CountNone(order);
    } else {
      var start, p := preds[..|preds| - 1], preds[|preds| - 1];
      CountedAll(n, all, start, order);
      CountedOnce(n, all, p, order);
      InFull(n, p.left);
      InFull(n, p.right);
      CountAllSplit(start, p, order);
      assert preds == start + [p];
    }
  }

  lemma {:induction false} CountNone(order: seq<nat>)
    ensures CountAll([], order) == 0
  {
    if |order| > 1 { CountNone(order[..|order| - 1]); }
  }

  lemma {:induction false} OrderLength(n: nat, preds: seq<Predicate>, order: seq<nat>)
    requires Ordered(n, preds, order)
    ensures BitCount(MaskOf(order)) == |order|
  {
    if |order| > 1 { OrderLength(n, preds, order[..|order| - 1]); }
    BitCountWith(MaskOf(order[..|order| - 1]), order[|order| - 1]);
  }

  /** With one predicate per join, each step of a full order applies exactly one. */
  lemma OnePredicatePerStep(n: nat, preds: seq<Predicate>, order: seq<nat>, i: nat)
    requires WellFormed(n, preds) && |preds| == n - 1
    requires Ordered(n, preds, order) && MaskOf(order) == Full(n) && 1 <= i < |order|
    ensures |order| == n && CountAt(preds, MaskOf(order[..i]), order[i]) == 1
  {
    OrderLength(n, preds, order);
    BitCountFull(n);
    CountedAll(n, preds, preds, order);
    StepCount(n, preds, order, i);
  }

  lemma {:induction false} AtLeastOneEach(n: nat, preds: seq<Predicate>, order: seq<nat>)
    requires Ordered(n, preds, order)
    ensures CountAll(preds, order) >= |order| - 1
  {
    if |order| > 1 {
      AtLeastOneEach(n, preds, order[..|order| - 1]);
      LinkedCount(preds, MaskOf(order[..|order| - 1]), order[|order| - 1]);
    }
  }

  lemma {:induction false} StepCount(n: nat, preds: seq<Predicate>, order: seq<nat>, i: nat)
    requires Ordered(n, preds, order) && CountAll(preds, order) == |order| - 1 && 1 <= i < |order|
    ensures CountAt(preds, MaskOf(order[..i]), order[i]) == 1
  {
    var start, last := order[..|order| - 1], order[|order| - 1];
    AtLeastOneEach(n, preds, start);
    LinkedCount(preds, MaskOf(start), last);
    if i < |start| {
      StepCount(n, preds, start, i);
      assert start[..i] == order[..i];
    }
  }
}
