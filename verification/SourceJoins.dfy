/** Joins in the order they are written (src/native_joins.cpp:88-214): a nested loop, or for a
    column equality a lookup per left row in a hash index behind a Bloom filter. */
module SourceJoins {
  import opened Wrappers
  import opened Values
  import opened Bags
  import opened KeyIndex

  datatype JoinType = Inner | Left

  /** A left row joined with a right row, or padded with NULLs. */
  datatype Pair = Pair(left: nat, right: Option<nat>)

  function Nulls(width: nat): Row {
    seq(width, _ => Null)
  }

  function RowOf(left: seq<Row>, right: seq<Row>, width: nat, p: Pair): Row {
    (if p.left < |left| then left[p.left] else []) +
    match p.right
    case None => Nulls(width)
    case Some(j) => if j < |right| then right[j] else []
  }

  function Render(left: seq<Row>, right: seq<Row>, width: nat): Pair -> Row {
    p => RowOf(left, right, width, p)
  }

  // ------------------------------------------------------------ specification

  /** The matches of one left row among the first n right rows, in order. */
  function RowMatches(on: (nat, nat) -> bool, i: nat, n: nat): seq<Pair> {
    if n == 0 then [] else RowMatches(on, i, n - 1) + if on(i, n - 1) then [Pair(i, Some(n - 1))] else []
  }

  function Padded(joinType: JoinType, i: nat, matches: seq<Pair>): seq<Pair> {
    if matches == [] && joinType == Left then [Pair(i, None)] else matches
  }

  /** What the nested loop yields for the first m left rows. */
  function NestedPairs(on: (nat, nat) -> bool, joinType: JoinType, m: nat, n: nat): seq<Pair> {
    if m == 0 then []
    else NestedPairs(on, joinType, m - 1, n) + Padded(joinType, m - 1, RowMatches(on, m - 1, n))
  }

  function JoinRows(left: seq<Row>, right: seq<Row>, on: (nat, nat) -> bool, joinType: JoinType, width: nat): seq<Row> {
    Map(Render(left, right, width), NestedPairs(on, joinType, |left|, |right|))
  }

  /** A join of two row lists contains exactly these pairs. */
  predicate InJoin(on: (nat, nat) -> bool, joinType: JoinType, m: nat, n: nat, p: Pair) {
    && p.left < m
    && match p.right
       case Some(j) => j < n && on(p.left, j)
       case None => joinType == Left && forall j :: 0 <= j < n ==> !on(p.left, j)
  }

  lemma {:induction false} RowMatchesMembers(on: (nat, nat) -> bool, i: nat, n: nat)
    ensures forall p :: p in RowMatches(on, i, n) <==> p.left == i && p.right.Some? && p.right.value < n && on(i, p.right.value)
    ensures Distinct(RowMatches(on, i, n))
  {
    if n > 0 { RowMatchesMembers(on, i, n - 1); }
  }

  /** The nested loop yields exactly the pairs that belong to the join. */
  lemma {:induction false} NestedMember(on: (nat, nat) -> bool, joinType: JoinType, m: nat, n: nat, p: Pair)
    ensures p in NestedPairs(on, joinType, m, n) <==> InJoin(on, joinType, m, n, p)
  {
    if m > 0 {
      NestedMember(on, joinType, m - 1, n, p);
      PaddedMembers(on, joinType, m - 1, n);
    }
  }

  lemma PaddedMembers(on: (nat, nat) -> bool, joinType: JoinType, i: nat, n: nat)
    ensures forall p :: p in Padded(joinType, i, RowMatches(on, i, n)) <==> p.left == i && InJoin(on, joinType, i + 1, n, p)
  {
    RowMatchesMembers(on, i, n);
    var matches := RowMatches(on, i, n);
    if matches == [] {
      forall j | 0 <= j < n ensures !on(i, j) {
        assert Pair(i, Some(j)) in matches <==> on(i, j);
      }
    } else {
      assert matches[0] in matches;
    }
  }

  // -------------------------------------------------------------- nested loops

  method NestedLoopJoin(left: seq<Row>, right: seq<Row>, condition: Row -> bool, joinType: JoinType, width: nat)
    returns (joined: seq<Row>)
    requires forall i :: 0 <= i < |right| ==> |right[i]| == width
    ensures joined == JoinRows(left, right, On(left, right, condition), joinType, width)
  {
    ghost var on, render := On(left, right, condition), Render(left, right, width);
    joined := [];
    for i := 0 to |left|
      invariant joined == Map(render, NestedPairs(on, joinType, i, |right|))
    {
      var rows := JoinLeftRow(left, right, condition, joinType, i, width);
      MapConcat(render, NestedPairs(on, joinType, i, |right|), Padded(joinType, i, RowMatches(on, i, |right|)));
      joined := joined + rows;
    }
  }

  method JoinLeftRow(left: seq<Row>, right: seq<Row>, condition: Row -> bool, joinType: JoinType, i: nat, width: nat)
    returns (rows: seq<Row>)
    requires i < |left| && forall j :: 0 <= j < |right| ==> |right[j]| == width
    ensures rows == Map(Render(left, right, width), Padded(joinType, i, RowMatches(On(left, right, condition), i, |right|)))
  {
    rows := ScanRight(left, right, condition, i, width);
    if rows == [] && joinType == Left {
      rows := [left[i] + Nulls(if right != [] then |right[0]| else width)];
      RenderOne(left, right, width, Pair(i, None));
    }
  }

  lemma RenderOne(left: seq<Row>, right: seq<Row>, width: nat, p: Pair)
    ensures Map(Render(left, right, width), [p]) == [RowOf(left, right, width, p)]
  {
  }

  /** The inner loop. */
  method ScanRight(left: seq<Row>, right: seq<Row>, condition: Row -> bool, i: nat, width: nat)
    returns (matches: seq<Row>)
    requires i < |left|
    ensures matches == Map(Render(left, right, width), RowMatches(On(left, right, condition), i, |right|))
  {
    ghost var on, render := On(left, right, condition), Render(left, right, width);
    matches := [];
    for j := 0 to |right|
      invariant matches == Map(render, RowMatches(on, i, j))
    {
      var combined := left[i] + right[j];
      RenderOne(left, right, width, Pair(i, Some(j)));
      MapConcat(render, RowMatches(on, i, j), if on(i, j) then [Pair(i, Some(j))] else []);
      if condition(combined) { matches := matches + [combined]; }
    }
  }

  /** The ON condition, evaluated over the combined row. */
  function On(left: seq<Row>, right: seq<Row>, condition: Row -> bool): (nat, nat) -> bool {
    (i: nat, j: nat) => i < |left| && j < |right| && condition(left[i] + right[j])
  }

  // ------------------------------------------------------------------ hash path

  function KeysOf(rows: seq<Row>, column: nat): (keys: seq<Value>)
    requires forall i :: 0 <= i < |rows| ==> column < |rows[i]|
    ensures |keys| == |rows| && forall i :: 0 <= i < |rows| ==> keys[i] == rows[i][column]
  {
    seq(|rows|, i requires 0 <= i < |rows| => rows[i][column])
  }

  function SameKey(leftKeys: seq<Value>, rightKeys: seq<Value>): (nat, nat) -> bool {
    (i: nat, j: nat) => i < |leftKeys| && j < |rightKeys| && Matches(rightKeys, leftKeys[i], j)
  }

  function PairsOf(i: nat, found: seq<nat>): (pairs: seq<Pair>)
    ensures |pairs| == |found| && forall k :: 0 <= k < |found| ==> pairs[k] == Pair(i, Some(found[k]))
  {
    seq(|found|, k requires 0 <= k < |found| => Pair(i, Some(found[k])))
  }

  lemma FoundPairs(leftKeys: seq<Value>, rightKeys: seq<Value>, i: nat, found: seq<nat>)
    requires i < |leftKeys| && AllMatches(rightKeys, leftKeys[i], found)
    ensures multiset(PairsOf(i, found)) == multiset(RowMatches(SameKey(leftKeys, rightKeys), i, |rightKeys|))
  {
    var on, n := SameKey(leftKeys, rightKeys), |rightKeys|;
    RowMatchesMembers(on, i, n);
    var pairs := PairsOf(i, found);
    forall p | p in pairs ensures p in RowMatches(on, i, n) {
      var k :| 0 <= k < |pairs| && pairs[k] == p;
    }
    forall p | p in RowMatches(on, i, n) ensures p in pairs {
      var k :| 0 <= k < |found| && found[k] == p.right.value;
      assert pairs[k] == p;
    }
    DistinctSameBag(pairs, RowMatches(on, i, n));
  }

  method HashJoin(left: seq<Row>, right: seq<Row>, leftKey: nat, rightKey: nat, joinType: JoinType, width: nat)
    returns (joined: seq<Row>)
    requires forall i :: 0 <= i < |left| ==> leftKey < |left[i]|
    requires forall i :: 0 <= i < |right| ==> rightKey < |right[i]|
    ensures multiset(joined) == multiset(JoinRows(left, right, SameKey(KeysOf(left, leftKey), KeysOf(right, rightKey)),
                                                  joinType, width))
  {
    var leftKeys, rightKeys := KeysOf(left, leftKey), KeysOf(right, rightKey);
    ghost var on := SameKey(leftKeys, rightKeys);
    var index := Build(rightKeys);
    var pairs: seq<Pair> := [];
    for i := 0 to |left|
      invariant index.Valid() && index.keys == rightKeys
      invariant multiset(pairs) == multiset(NestedPairs(on, joinType, i, |right|))
    {
      var found := index.Probe(leftKeys[i]);
      FoundPairs(leftKeys, rightKeys, i, found);
      PaddedBag(joinType, i, PairsOf(i, found), RowMatches(on, i, |right|));
      pairs := pairs + Padded(joinType, i, PairsOf(i, found));
    }
    var render := Render(left, right, width);
    MapSameBag(render, pairs, NestedPairs(on, joinType, |left|, |right|));
    joined := Map(render, pairs);
  }

  lemma PaddedBag(joinType: JoinType, i: nat, a: seq<Pair>, b: seq<Pair>)
    requires multiset(a) == multiset(b)
    ensures multiset(Padded(joinType, i, a)) == multiset(Padded(joinType, i, b))
  {
    assert |a| == |multiset(a)| && |b| == |multiset(b)|;
  }

  // ---------------------------------------------------------------- one join

  /** An ON clause is a column equality that the hash path can use, or anything else. */
  datatype Condition =
    | Always
    | Equality(leftKey: nat, rightKey: nat)
    | General(holds: Row -> bool)

  /** Evaluating `left = right` over a row that combines both sides. */
  predicate EqualityHolds(leftWidth: nat, leftKey: nat, rightKey: nat, combined: Row) {
    && leftKey < |combined| && leftWidth + rightKey < |combined|
    && !combined[leftKey].Null? && !combined[leftWidth + rightKey].Null?
    && Equal(combined[leftKey], combined[leftWidth + rightKey])
  }

  function Meaning(condition: Condition, leftWidth: nat): Row -> bool {
    match condition
    case Always => _ => true
    case Equality(l, r) => row => EqualityHolds(leftWidth, l, r, row)
    case General(holds) => holds
  }

  lemma EqualityIsSameKey(left: seq<Row>, right: seq<Row>, leftWidth: nat, width: nat, leftKey: nat, rightKey: nat)
    requires leftKey < leftWidth && rightKey < width
    requires forall i :: 0 <= i < |left| ==> |left[i]| == leftWidth
    requires forall i :: 0 <= i < |right| ==> |right[i]| == width
    ensures forall i: nat, j: nat ::
      On(left, right, Meaning(Equality(leftKey, rightKey), leftWidth))(i, j)
        == SameKey(KeysOf(left, leftKey), KeysOf(right, rightKey))(i, j)
  {
  }

  lemma {:induction false} SameConditionSamePairs(f: (nat, nat) -> bool, g: (nat, nat) -> bool, joinType: JoinType,
                                                  m: nat, n: nat)
    requires forall i: nat, j: nat :: f(i, j) == g(i, j)
    ensures NestedPairs(f, joinType, m, n) == NestedPairs(g, joinType, m, n)
  {
    if m > 0 {
      SameConditionSamePairs(f, g, joinType, m - 1, n);
      SameConditionSameMatches(f, g, m - 1, n);
    }
  }

  lemma {:induction false} SameConditionSameMatches(f: (nat, nat) -> bool, g: (nat, nat) -> bool, i: nat, n: nat)
    requires forall i: nat, j: nat :: f(i, j) == g(i, j)
    ensures RowMatches(f, i, n) == RowMatches(g, i, n)
  {
    if n > 0 { SameConditionSameMatches(f, g, i, n - 1); }
  }

  /** Whichever path is taken, the rows are those of the nested loop, each as often. */
  method JoinOne(left: seq<Row>, right: seq<Row>, condition: Condition, joinType: JoinType,
                 leftWidth: nat, width: nat)
    returns (joined: seq<Row>)
    requires forall i :: 0 <= i < |left| ==> |left[i]| == leftWidth
    requires forall i :: 0 <= i < |right| ==> |right[i]| == width
    requires condition.Equality? ==> condition.leftKey < leftWidth && condition.rightKey < width
    ensures multiset(joined) == multiset(JoinRows(left, right, On(left, right, Meaning(condition, leftWidth)), joinType, width))
  {
    if condition.Equality? {
      joined := HashJoin(left, right, condition.leftKey, condition.rightKey, joinType, width);
      EqualityIsSameKey(left, right, leftWidth, width, condition.leftKey, condition.rightKey);
      SameConditionSamePairs(On(left, right, Meaning(condition, leftWidth)),
                             SameKey(KeysOf(left, condition.leftKey), KeysOf(right, condition.rightKey)),
                             joinType, |left|, |right|);
    } else {
      joined := NestedLoopJoin(left, right, Meaning(condition, leftWidth), joinType, width);
    }
  }
}
