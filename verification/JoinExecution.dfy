/** Running a chosen join order (src/native_joins.cpp:1068-1195) and what it must yield. A joined
    row is the row it takes from each relation, known by its position there; which column
    comes first in the output depends on the order, the row does not. */
module JoinExecution {
  import opened Wrappers
  import opened Values
  import opened Bags
  import opened KeyIndex
  import opened Masks
  import opened JoinPlanner

  type Relations = seq<seq<Row>>

  /** From relation to the position of its row. */
  type Binding = map<nat, nat>

  function At(rels: Relations, m: Binding, relation: nat, column: nat): Value {
    if relation in m && relation < |rels| && m[relation] < |rels[relation]|
       && column < |rels[relation][m[relation]]|
    then rels[relation][m[relation]][column] else Null
  }

  predicate KeysAgree(a: Value, b: Value) {
    !a.Null? && !b.Null? && Equal(a, b)
  }

  /** The ON clause holds of the joined row. */
  predicate HoldsOf(rels: Relations, p: Predicate, m: Binding) {
    KeysAgree(At(rels, m, p.left, p.leftColumn), At(rels, m, p.right, p.rightColumn))
  }

  ghost predicate Binds(rels: Relations, mask: nat, m: Binding) {
    && (forall r: nat :: r in m <==> In(mask, r))
    && (forall r: nat :: r in m ==> r < |rels| && m[r] < |rels[r]|)
  }

  predicate Applies(p: Predicate, mask: nat) {
    In(mask, p.left) && In(mask, p.right)
  }

  predicate Filters(rels: Relations, preds: seq<Predicate>, mask: nat, m: Binding) {
    forall k :: 0 <= k < |preds| && Applies(preds[k], mask) ==> HoldsOf(rels, preds[k], m)
  }

  /** Every combination of rows that satisfies the applicable predicates, once. */
  ghost predicate JoinResult(rels: Relations, preds: seq<Predicate>, mask: nat, list: seq<Binding>) {
    && Distinct(list)
    && forall m :: m in list <==> Binds(rels, mask, m) && Filters(rels, preds, mask, m)
  }

  // ------------------------------------------------------------- hash matching

  datatype Match = Match(left: nat, right: nat)

  ghost predicate AllPairs(left: seq<Value>, right: seq<Value>, pairs: seq<Match>, n: nat) {
    && Distinct(pairs)
    && forall p :: p in pairs <==> p.left < |left| && p.right < n && n <= |right| && KeysAgree(left[p.left], right[p.right])
  }

  /** Probes an index over the left keys with each right key. */
  method ProbeRight(left: seq<Value>, right: seq<Value>) returns (pairs: seq<Match>)
    ensures AllPairs(left, right, pairs, |right|)
  {
    var index := Build(left);
    pairs := [];
    for j := 0 to |right|
      invariant index.Valid() && index.keys == left && AllPairs(left, right, pairs, j)
    {
      var found := index.Probe(right[j]);
      var more := seq(|found|, k requires 0 <= k < |found| => Match(found[k], j));
      PairsOneMore(left, right, pairs, j, found, more);
      pairs := pairs + more;
    }
  }

  lemma PairsOneMore(left: seq<Value>, right: seq<Value>, pairs: seq<Match>, j: nat, found: seq<nat>, more: seq<Match>)
    requires j < |right| && AllPairs(left, right, pairs, j) && AllMatches(left, right[j], found)
    requires |more| == |found| && forall k :: 0 <= k < |found| ==> more[k] == Match(found[k], j)
    ensures AllPairs(left, right, pairs + more, j + 1)
  {
    MoreMembers(left, right[j], j, found, more);
    assert forall p :: p in pairs + more <==> p in pairs || p in more;
    DistinctConcat(pairs, more);
  }

  lemma MoreMembers(left: seq<Value>, key: Value, j: nat, found: seq<nat>, more: seq<Match>)
    requires AllMatches(left, key, found)
    requires |more| == |found| && forall k :: 0 <= k < |found| ==> more[k] == Match(found[k], j)
    ensures Distinct(more)
    ensures forall p :: p in more <==> p.right == j && p.left < |left| && KeysAgree(left[p.left], key)
  {
    forall p: Match | p.right == j && p.left < |left| && KeysAgree(left[p.left], key) ensures p in more {
      assert Matches(left, key, p.left);
      var k :| 0 <= k < |found| && found[k] == p.left;
      assert more[k] == p;
    }
    forall p | p in more ensures p.right == j && p.left < |left| && KeysAgree(left[p.left], key) {
      var k :| 0 <= k < |more| && more[k] == p;
      assert Matches(left, key, found[k]);
    }
  }

  lemma DistinctConcat<A(!new)>(a: seq<A>, b: seq<A>)
    requires Distinct(a) && Distinct(b) && forall x :: x in a ==> x !in b
    ensures Distinct(a + b)
  {
    forall i, j | 0 <= i < j < |a + b| ensures (a + b)[i] != (a + b)[j] {
      if i < |a| <= j { assert a[i] in a && b[j - |a|] in b; }
    }
  }

  /** The index is built over the shorter side. */
  method HashMatch(left: seq<Value>, right: seq<Value>) returns (pairs: seq<Match>)
    ensures AllPairs(left, right, pairs, |right|)
  {
    if |left| <= |right| {
      pairs := ProbeRight(left, right);
    } else {
      var flipped := ProbeRight(right, left);
      pairs := seq(|flipped|, k requires 0 <= k < |flipped| => Match(flipped[k].right, flipped[k].left));
      Flipped(left, right, flipped, pairs);
    }
  }

  lemma Flipped(left: seq<Value>, right: seq<Value>, flipped: seq<Match>, pairs: seq<Match>)
    requires AllPairs(right, left, flipped, |left|) && |pairs| == |flipped|
    requires forall k :: 0 <= k < |flipped| ==> pairs[k] == Match(flipped[k].right, flipped[k].left)
    ensures AllPairs(left, right, pairs, |right|)
  {
    forall p ensures p in pairs <==> Match(p.right, p.left) in flipped {
      if p in pairs {
        var k :| 0 <= k < |pairs| && pairs[k] == p;
        assert flipped[k] == Match(p.right, p.left);
      }
      if Match(p.right, p.left) in flipped {
        var k :| 0 <= k < |flipped| && flipped[k] == Match(p.right, p.left);
        assert pairs[k] == p;
      }
    }
  }

  // -------------------------------------------------------------- one more relation

  function Combine(rows: seq<Binding>, next: nat, p: Match): Binding
    requires p.left < |rows|
  {
    rows[p.left][next := p.right]
  }

  /** The matches whose combined row passes every applicable predicate. */
  function Kept(rels: Relations, preds: seq<Predicate>, mask: nat, rows: seq<Binding>, next: nat, pairs: seq<Match>): seq<Binding>
    requires forall k :: 0 <= k < |pairs| ==> pairs[k].left < |rows|
  {
    if pairs == [] then []
    else
      var before := Kept(rels, preds, mask, rows, next, pairs[..|pairs| - 1]);
      var m := Combine(rows, next, pairs[|pairs| - 1]);
      if Filters(rels, preds, mask, m) then before + [m] else before
  }

  lemma {:induction false} KeptMember(rels: Relations, preds: seq<Predicate>, mask: nat, rows: seq<Binding>, next: nat,
                                      pairs: seq<Match>, m: Binding)
    requires forall k :: 0 <= k < |pairs| ==> pairs[k].left < |rows|
    ensures m in Kept(rels, preds, mask, rows, next, pairs)
       <==> Filters(rels, preds, mask, m) && exists k :: 0 <= k < |pairs| && m == Combine(rows, next, pairs[k])
  {
    if pairs != [] {
      var start := pairs[..|pairs| - 1];
      KeptMember(rels, preds, mask, rows, next, start, m);
      if k :| 0 <= k < |pairs| && m == Combine(rows, next, pairs[k]) {
        if k < |start| { assert m == Combine(rows, next, start[k]); }
      }
      if k :| 0 <= k < |start| && m == Combine(rows, next, start[k]) {
        assert m == Combine(rows, next, pairs[k]);
      }
    }
  }

  lemma {:induction false} KeptDistinct(rels: Relations, preds: seq<Predicate>, mask: nat, rows: seq<Binding>, next: nat,
                                        pairs: seq<Match>)
    requires forall k :: 0 <= k < |pairs| ==> pairs[k].left < |rows|
    requires Distinct(rows) && Distinct(pairs) && forall i :: 0 <= i < |rows| ==> next !in rows[i]
    ensures Distinct(Kept(rels, preds, mask, rows, next, pairs))
  {
    if pairs != [] {
      var start, p := pairs[..|pairs| - 1], pairs[|pairs| - 1];
      KeptDistinct(rels, preds, mask, rows, next, start);
      var m := Combine(rows, next, p);
      KeptMember(rels, preds, mask, rows, next, start, m);
      if k :| 0 <= k < |start| && m == Combine(rows, next, start[k]) {
        CombineApart(rows, next, start[k], p);
      }
    }
  }

  lemma CombineApart(rows: seq<Binding>, next: nat, p: Match, q: Match)
    requires p.left < |rows| && q.left < |rows| && p != q
    requires Distinct(rows) && forall i :: 0 <= i < |rows| ==> next !in rows[i]
    ensures Combine(rows, next, p) != Combine(rows, next, q)
  {
    var a: Binding, b: Binding := Combine(rows, next, p), Combine(rows, next, q);
    if p.right == q.right {
      assert rows[p.left] != rows[q.left];
      assert a - {next} == rows[p.left] && b - {next} == rows[q.left];
    } else {
      assert a[next] != b[next];
    }
  }

  function Opposite(p: Predicate, next: nat): (side: (nat, nat)) {
    if p.left == next then (p.right, p.rightColumn) else (p.left, p.leftColumn)
  }

  function Own(p: Predicate, next: nat): nat {
    if p.left == next then p.leftColumn else p.rightColumn
  }

  function JoinedKeys(rels: Relations, rows: seq<Binding>, p: Predicate, next: nat): (keys: seq<Value>)
    ensures |keys| == |rows|
  {
    seq(|rows|, i requires 0 <= i < |rows| => At(rels, rows[i], Opposite(p, next).0, Opposite(p, next).1))
  }

  function NextKeys(rels: Relations, p: Predicate, next: nat): (keys: seq<Value>)
    requires next < |rels|
    ensures |keys| == |rels[next]|
  {
    seq(|rels[next]|, j requires 0 <= j < |rels[next]| => At(rels, map[next := j], next, Own(p, next)))
  }

  /** A combined row satisfies the key predicate exactly if the two keys agree. */
  lemma KeyPredicate(rels: Relations, p: Predicate, mask: nat, rows: seq<Binding>, next: nat, pair: Match)
    requires p.left != p.right && Connects(p, mask, next) && !In(mask, next) && next < |rels|
    requires pair.left < |rows| && pair.right < |rels[next]|
    ensures HoldsOf(rels, p, Combine(rows, next, pair))
       <==> KeysAgree(JoinedKeys(rels, rows, p, next)[pair.left], NextKeys(rels, p, next)[pair.right])
  {
    var m := Combine(rows, next, pair);
    var side := Opposite(p, next);
    assert At(rels, m, side.0, side.1) == JoinedKeys(rels, rows, p, next)[pair.left];
    assert At(rels, m, next, Own(p, next)) == NextKeys(rels, p, next)[pair.right];
  }

  /** Removing the newest relation from a row of the larger result leaves one of the smaller. */
  lemma RestrictedRow(rels: Relations, preds: seq<Predicate>, mask: nat, next: nat, m: Binding)
    requires !In(mask, next) && Binds(rels, With(mask, next), m) && Filters(rels, preds, With(mask, next), m)
    ensures next in m && Binds(rels, mask, m - {next}) && Filters(rels, preds, mask, m - {next})
  {
    var m0 := m - {next};
    forall r: nat ensures r in m <==> r == next || In(mask, r) {
      InWith(mask, next, r);
    }
    forall k | 0 <= k < |preds| && Applies(preds[k], mask) ensures HoldsOf(rels, preds[k], m0) {
      InWith(mask, next, preds[k].left);
      InWith(mask, next, preds[k].right);
      assert HoldsOf(rels, preds[k], m);
      assert At(rels, m0, preds[k].left, preds[k].leftColumn) == At(rels, m, preds[k].left, preds[k].leftColumn);
      assert At(rels, m0, preds[k].right, preds[k].rightColumn) == At(rels, m, preds[k].right, preds[k].rightColumn);
    }
  }

  lemma CombinedBinds(rels: Relations, mask: nat, next: nat, m: Binding, j: nat)
    requires Binds(rels, mask, m) && !In(mask, next) && next < |rels| && j < |rels[next]|
    ensures Binds(rels, With(mask, next), m[next := j])
  {
    forall r: nat ensures r in m[next := j] <==> In(With(mask, next), r) {
      InWith(mask, next, r);
    }
  }

  lemma StepResult(rels: Relations, preds: seq<Predicate>, mask: nat, rows: seq<Binding>, next: nat, k: nat,
                   pairs: seq<Match>)
    requires JoinResult(rels, preds, mask, rows) && !In(mask, next) && next < |rels| && WellFormed(|rels|, preds)
    requires k < |preds| && Connects(preds[k], mask, next)
    requires AllPairs(JoinedKeys(rels, rows, preds[k], next), NextKeys(rels, preds[k], next), pairs, |rels[next]|)
    ensures forall l :: 0 <= l < |pairs| ==> pairs[l].left < |rows|
    ensures JoinResult(rels, preds, With(mask, next), Kept(rels, preds, With(mask, next), rows, next, pairs))
  {
    forall l | 0 <= l < |pairs| ensures pairs[l].left < |rows| && pairs[l].right < |rels[next]| {
      assert pairs[l] in pairs;
    }
    forall i | 0 <= i < |rows| ensures next !in rows[i] && Binds(rels, mask, rows[i]) {
      assert rows[i] in rows;
    }
    var mask', result := With(mask, next), Kept(rels, preds, With(mask, next), rows, next, pairs);
    KeptDistinct(rels, preds, mask', rows, next, pairs);
    forall m ensures m in result <==> Binds(rels, mask', m) && Filters(rels, preds, mask', m) {
      KeptMember(rels, preds, mask', rows, next, pairs, m);
      if m in result {
        var l :| 0 <= l < |pairs| && m == Combine(rows, next, pairs[l]);
        CombinedBinds(rels, mask, next, rows[pairs[l].left], pairs[l].right);
      } else if Binds(rels, mask', m) && Filters(rels, preds, mask', m) {
        StepComplete(rels, preds, mask, rows, next, k, pairs, m);
      }
    }
  }

  /** Every row of the larger result comes from a matching pair. */
  lemma StepComplete(rels: Relations, preds: seq<Predicate>, mask: nat, rows: seq<Binding>, next: nat, k: nat,
                     pairs: seq<Match>, m: Binding)
    requires JoinResult(rels, preds, mask, rows) && !In(mask, next) && next < |rels| && WellFormed(|rels|, preds)
    requires k < |preds| && Connects(preds[k], mask, next)
    requires AllPairs(JoinedKeys(rels, rows, preds[k], next), NextKeys(rels, preds[k], next), pairs, |rels[next]|)
    requires Binds(rels, With(mask, next), m) && Filters(rels, preds, With(mask, next), m)
    ensures exists l :: 0 <= l < |pairs| && pairs[l].left < |rows| && m == Combine(rows, next, pairs[l])
  {
    RestrictedRow(rels, preds, mask, next, m);
    assert m - {next} in rows;
    var i :| 0 <= i < |rows| && rows[i] == m - {next};
    var p := Match(i, m[next]);
    assert m == Combine(rows, next, p);
    InWith(mask, next, preds[k].left);
    InWith(mask, next, preds[k].right);
    assert HoldsOf(rels, preds[k], m);
    KeyPredicate(rels, preds[k], mask, rows, next, p);
    assert p in pairs;
  }

  method FindKeyPredicate(preds: seq<Predicate>, mask: nat, next: nat) returns (k: Option<nat>)
    ensures k.None? ==> !Links(preds, mask, next)
    ensures k.Some? ==> k.value < |preds| && Connects(preds[k.value], mask, next)
  {
    for i := 0 to |preds|
      invariant forall j :: 0 <= j < i ==> !Connects(preds[j], mask, next)
    {
      if Connects(preds[i], mask, next) { return Some(i); }
    }
    return None;
  }

  method JoinNext(rels: Relations, preds: seq<Predicate>, mask: nat, rows: seq<Binding>, next: nat, k: nat)
    returns (joined: seq<Binding>)
    requires JoinResult(rels, preds, mask, rows) && !In(mask, next) && next < |rels| && WellFormed(|rels|, preds)
    requires k < |preds| && Connects(preds[k], mask, next)
    ensures JoinResult(rels, preds, With(mask, next), joined)
  {
    var pairs := HashMatch(JoinedKeys(rels, rows, preds[k], next), NextKeys(rels, preds[k], next));
    StepResult(rels, preds, mask, rows, next, k, pairs);
    joined := [];
    for l := 0 to |pairs|
      invariant joined == Kept(rels, preds, With(mask, next), rows, next, pairs[..l])
    {
      var m := Combine(rows, next, pairs[l]);
      assert pairs[..l + 1][..l] == pairs[..l];
      if Filters(rels, preds, With(mask, next), m) { joined := joined + [m]; }
    }
    assert pairs[..|pairs|] == pairs;
  }

  method StartWith(rels: Relations, preds: seq<Predicate>, first: nat) returns (rows: seq<Binding>)
    requires first < |rels| && WellFormed(|rels|, preds)
    ensures JoinResult(rels, preds, With(0, first), rows)
  {
    rows := seq(|rels[first]|, j => map[first := j]);
    forall r: nat ensures In(With(0, first), r) <==> r == first {
      InWith(0, first, r);
      InZero(r);
    }
    forall i, j | 0 <= i < j < |rows| ensures rows[i] != rows[j] {
      assert rows[i][first] != rows[j][first];
    }
    forall m ensures m in rows <==> Binds(rels, With(0, first), m) && Filters(rels, preds, With(0, first), m) {
      if m in rows {
        var j :| 0 <= j < |rows| && m == rows[j];
      }
      if Binds(rels, With(0, first), m) {
        assert m == map[first := m[first]];
        assert m == rows[m[first]];
      }
    }
  }

  /** Follows an order: the rows are those of the join of all relations, each once. */
  method ExecuteOrder(rels: Relations, preds: seq<Predicate>, order: seq<nat>) returns (rows: seq<Binding>)
    requires WellFormed(|rels|, preds) && Ordered(|rels|, preds, order)
    ensures JoinResult(rels, preds, MaskOf(order), rows)
  {
    PrefixOrdered(|rels|, preds, order, 1);
    rows := StartWith(rels, preds, order[0]);
    var mask := With(0, order[0]);
    assert order[..1] == [order[0]] && order[..1][..0] == [];
    for i := 1 to |order|
      invariant mask == MaskOf(order[..i]) && JoinResult(rels, preds, mask, rows)
    {
      var next := order[i];
      PrefixOrdered(|rels|, preds, order, i + 1);
      assert order[..i + 1][..i] == order[..i];
      var k := FindKeyPredicate(preds, mask, next);
      rows := JoinNext(rels, preds, mask, rows, next, k.value);
      mask := With(mask, next);
    }
    assert order[..|order|] == order;
  }

  lemma {:induction false} PrefixOrdered(n: nat, preds: seq<Predicate>, order: seq<nat>, i: nat)
    requires Ordered(n, preds, order) && 0 < i <= |order|
    ensures Ordered(n, preds, order[..i])
  {
    if i == |order| {
      assert order[..i] == order;
    } else {
      PrefixOrdered(n, preds, order[..|order| - 1], i);
      assert order[..|order| - 1][..i] == order[..i];
    }
  }

  /** Whether the rows were joined by a plan; with 64 relations the number of plan states is one
      shifted by 64 places, which C++ leaves undefined. */
  datatype Planned<T> = Declined | Joined(rows: T) | Undefined

  const MaskBits: nat := 64

  /** executeCostBasedJoins on inner joins with one qualified equality each: it declines exactly
      when there are too few or too many relations or the predicates leave them unconnected, and is
      undefined exactly on 64 relations, which it lets through. */
  method CostBasedJoins(rels: Relations, preds: seq<Predicate>, stats: Statistics) returns (r: Planned<seq<Binding>>)
    requires WellFormed(|rels|, preds) && |stats.rows| == |rels|
    ensures r.Undefined? <==> |rels| == MaskBits
    ensures r.Joined? <==> 3 <= |rels| < MaskBits && Connected(|rels|, preds)
    ensures r.Joined? ==> JoinResult(rels, preds, Full(|rels|), r.rows)
  {
    if |rels| - 1 < 2 || |rels| - 1 >= MaskBits { return Declined; }
    if |rels| >= MaskBits { return Undefined; }
    var best := PlanJoins(|rels|, preds, stats);
    if best.NoPlan? { return Declined; }
    var rows := ExecuteOrder(rels, preds, best.order);
    return Joined(rows);
  }
}
