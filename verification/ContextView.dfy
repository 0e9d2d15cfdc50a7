/** The budgeted view of a context and its plan (src/native_prompt.cpp:1255-1385, 1497-1580).
    What the text heuristics say about an atom - its utility for the query, its diversity key,
    the cost of its rendering - is data here. */
module ContextView {

  /** One atom as the scan sees it; its ordinal is its position. */
  datatype Scored<K> = Scored(visible: bool, active: bool, utility: int, diversity: K, cost: nat, redacted: bool)

  predicate Eligible<K>(a: Scored<K>) {
    a.visible && a.active
  }

  // -------------------------------------------------------------- candidates

  /** A higher utility wins, and of equal ones the later atom. */
  predicate Better<K>(atoms: seq<Scored<K>>, i: nat, j: nat)
    requires i < |atoms| && j < |atoms|
  {
    atoms[i].utility > atoms[j].utility || (atoms[i].utility == atoms[j].utility && i > j)
  }

  /** The best eligible atom of each diversity key among the first n. */
  ghost predicate Candidates<K(!new)>(atoms: seq<Scored<K>>, n: nat, active: seq<nat>) {
    && n <= |atoms|
    && (forall k :: 0 <= k < |active| ==> active[k] < n && Eligible(atoms[active[k]]))
    && (forall k, l :: 0 <= k < l < |active| ==> atoms[active[k]].diversity != atoms[active[l]].diversity)
    && Covers(atoms, n, active)
  }

  ghost predicate Covers<K(!new)>(atoms: seq<Scored<K>>, n: nat, active: seq<nat>)
    requires n <= |atoms|
  {
    forall i :: 0 <= i < n && Eligible(atoms[i]) ==> Represented(atoms, active, i)
  }

  /** The candidate of an atom's key is the atom itself or a better one. */
  ghost predicate Represented<K(!new)>(atoms: seq<Scored<K>>, active: seq<nat>, i: nat)
    requires i < |atoms|
  {
    exists k :: 0 <= k < |active| && active[k] < |atoms| && atoms[active[k]].diversity == atoms[i].diversity
                && (active[k] == i || Better(atoms, active[k], i))
  }

  /** Two scans find the same candidates, in whatever order. */
  lemma CandidatesUnique<K(!new)>(atoms: seq<Scored<K>>, a: seq<nat>, b: seq<nat>)
    requires Candidates(atoms, |atoms|, a) && Candidates(atoms, |atoms|, b)
    ensures forall i :: i in a <==> i in b
  {
    forall i | i in a ensures i in b { CandidateIn(atoms, a, b, i); }
    forall i | i in b ensures i in a { CandidateIn(atoms, b, a, i); }
  }

  lemma KeyRepresentative<K(!new)>(atoms: seq<Scored<K>>, a: seq<nat>, k: nat, j: nat)
    requires Candidates(atoms, |atoms|, a) && k < |a| && j < |atoms| && Eligible(atoms[j])
    requires atoms[a[k]].diversity == atoms[j].diversity
    ensures a[k] == j || Better(atoms, a[k], j)
  {
    assert Represented(atoms, a, j);
    var m :| 0 <= m < |a| && a[m] < |atoms| && atoms[a[m]].diversity == atoms[j].diversity
             && (a[m] == j || Better(atoms, a[m], j));
    assert m == k;
  }

  lemma CandidateIn<K(!new)>(atoms: seq<Scored<K>>, a: seq<nat>, b: seq<nat>, i: nat)
    requires Candidates(atoms, |atoms|, a) && Candidates(atoms, |atoms|, b) && i in a
    ensures i in b
  {
    var k :| 0 <= k < |a| && a[k] == i;
    assert Represented(atoms, b, i);
    var l :| 0 <= l < |b| && b[l] < |atoms| && atoms[b[l]].diversity == atoms[i].diversity;
    KeyRepresentative(atoms, b, l, i);
    KeyRepresentative(atoms, a, k, b[l]);
  }

  /** The table from diversity keys to positions in the candidate list. */
  ghost predicate Indexes<K(!new)>(atoms: seq<Scored<K>>, active: seq<nat>, byKey: map<K, nat>) {
    && (forall k :: 0 <= k < |active| ==> active[k] < |atoms|)
    && (forall key :: key in byKey ==> byKey[key] < |active| && atoms[active[byKey[key]]].diversity == key)
    && (forall k :: 0 <= k < |active| ==> atoms[active[k]].diversity in byKey && byKey[atoms[active[k]].diversity] == k)
  }

  /** What considering one more eligible atom does to the list. */
  function Consider<K(!new, ==)>(atoms: seq<Scored<K>>, active: seq<nat>, byKey: map<K, nat>, i: nat): seq<nat>
    requires i < |atoms| && Indexes(atoms, active, byKey)
  {
    var key := atoms[i].diversity;
    if key !in byKey then active + [i]
    else if Better(atoms, i, active[byKey[key]]) then active[byKey[key] := i] else active
  }

  lemma ConsiderIndexes<K(!new)>(atoms: seq<Scored<K>>, active: seq<nat>, byKey: map<K, nat>, i: nat)
    requires i < |atoms| && Indexes(atoms, active, byKey)
    ensures Indexes(atoms, Consider(atoms, active, byKey, i),
                    if atoms[i].diversity in byKey then byKey else byKey[atoms[i].diversity := |active|])
  {
  }

  lemma ConsiderCandidates<K(!new)>(atoms: seq<Scored<K>>, active: seq<nat>, byKey: map<K, nat>, i: nat)
    requires i < |atoms| && Indexes(atoms, active, byKey) && Candidates(atoms, i, active) && Eligible(atoms[i])
    ensures Candidates(atoms, i + 1, Consider(atoms, active, byKey, i))
  {
    ConsiderCovers(atoms, active, byKey, i);
    ConsiderIndexes(atoms, active, byKey, i);
    ConsiderMembers(atoms, active, byKey, i);
  }

  lemma ConsiderMembers<K(!new)>(atoms: seq<Scored<K>>, active: seq<nat>, byKey: map<K, nat>, i: nat)
    requires i < |atoms| && Indexes(atoms, active, byKey) && Eligible(atoms[i])
    requires forall k :: 0 <= k < |active| ==> active[k] < i && Eligible(atoms[active[k]])
    ensures var after := Consider(atoms, active, byKey, i);
      forall k :: 0 <= k < |after| ==> after[k] < i + 1 && Eligible(atoms[after[k]])
  {
  }

  lemma ConsiderCovers<K(!new)>(atoms: seq<Scored<K>>, active: seq<nat>, byKey: map<K, nat>, i: nat)
    requires i < |atoms| && Indexes(atoms, active, byKey) && Covers(atoms, i, active)
    requires forall k :: 0 <= k < |active| ==> active[k] < i
    ensures Covers(atoms, i + 1, Consider(atoms, active, byKey, i))
  {
    var after := Consider(atoms, active, byKey, i);
    forall j | 0 <= j < i + 1 && Eligible(atoms[j]) ensures Represented(atoms, after, j) {
      if j == i {
        NewlyRepresented(atoms, active, byKey, i);
      } else {
        assert Represented(atoms, active, j);
        StaysRepresented(atoms, active, byKey, i, j);
      }
    }
  }

  ghost predicate Scanned<K(!new)>(atoms: seq<Scored<K>>, n: nat, active: seq<nat>, byKey: map<K, nat>) {
    Candidates(atoms, n, active) && Indexes(atoms, active, byKey)
  }

  function NextKeys<K(!new, ==)>(active: seq<nat>, byKey: map<K, nat>, key: K): map<K, nat> {
    if key in byKey then byKey else byKey[key := |active|]
  }

  lemma ScanTakes<K(!new)>(atoms: seq<Scored<K>>, active: seq<nat>, byKey: map<K, nat>, i: nat)
    requires i < |atoms| && Scanned(atoms, i, active, byKey) && Eligible(atoms[i])
    ensures Scanned(atoms, i + 1, Consider(atoms, active, byKey, i), NextKeys(active, byKey, atoms[i].diversity))
  {
    ConsiderCandidates(atoms, active, byKey, i);
    ConsiderIndexes(atoms, active, byKey, i);
  }

  lemma ScanSkips<K(!new)>(atoms: seq<Scored<K>>, active: seq<nat>, byKey: map<K, nat>, i: nat)
    requires i < |atoms| && Scanned(atoms, i, active, byKey) && !Eligible(atoms[i])
    ensures Scanned(atoms, i + 1, active, byKey)
  {
    SkipCandidates(atoms, active, i);
  }

  lemma SkipCandidates<K(!new)>(atoms: seq<Scored<K>>, active: seq<nat>, i: nat)
    requires i < |atoms| && Candidates(atoms, i, active) && !Eligible(atoms[i])
    ensures Candidates(atoms, i + 1, active)
  {
  }

  /** How much one more candidate adds to the full cost. */
  lemma ConsiderCost<K(!new)>(atoms: seq<Scored<K>>, active: seq<nat>, byKey: map<K, nat>, i: nat)
    requires i < |atoms| && Indexes(atoms, active, byKey)
    ensures var key := atoms[i].diversity;
      TotalCost(atoms, Consider(atoms, active, byKey, i)) ==
        if key !in byKey then TotalCost(atoms, active) + atoms[i].cost
        else if Better(atoms, i, active[byKey[key]])
        then TotalCost(atoms, active) - atoms[active[byKey[key]]].cost + atoms[i].cost
        else TotalCost(atoms, active)
  {
    var key := atoms[i].diversity;
    if key !in byKey {
      assert (active + [i])[..|active|] == active;
    } else {
      TotalReplaced(atoms, active, byKey[key], i);
    }
  }

  lemma NewlyRepresented<K(!new)>(atoms: seq<Scored<K>>, active: seq<nat>, byKey: map<K, nat>, i: nat)
    requires i < |atoms| && Indexes(atoms, active, byKey)
    requires forall k :: 0 <= k < |active| ==> active[k] < i
    ensures Represented(atoms, Consider(atoms, active, byKey, i), i)
  {
    var key, after := atoms[i].diversity, Consider(atoms, active, byKey, i);
    var k := if key in byKey then byKey[key] else |active|;
    assert 0 <= k < |after| && after[k] < |atoms| && atoms[after[k]].diversity == key;
  }

  lemma StaysRepresented<K(!new)>(atoms: seq<Scored<K>>, active: seq<nat>, byKey: map<K, nat>, i: nat, j: nat)
    requires i < |atoms| && j < |atoms| && Indexes(atoms, active, byKey) && Represented(atoms, active, j)
    ensures Represented(atoms, Consider(atoms, active, byKey, i), j)
  {
    var after := Consider(atoms, active, byKey, i);
    var k :| 0 <= k < |active| && active[k] < |atoms| && atoms[active[k]].diversity == atoms[j].diversity
             && (active[k] == j || Better(atoms, active[k], j));
    assert after[k] == active[k] || (after[k] == i && Better(atoms, i, active[k]));
  }

  function TotalCost<K>(atoms: seq<Scored<K>>, active: seq<nat>): nat {
    if active == [] then 0
    else TotalCost(atoms, active[..|active| - 1]) + CostOf(atoms, active[|active| - 1])
  }

  function CostOf<K>(atoms: seq<Scored<K>>, i: nat): nat {
    if i < |atoms| then atoms[i].cost else 0
  }

  lemma {:induction false} TotalReplaced<K(!new)>(atoms: seq<Scored<K>>, active: seq<nat>, k: nat, i: nat)
    requires k < |active|
    ensures TotalCost(atoms, active[k := i]) == TotalCost(atoms, active) - CostOf(atoms, active[k]) + CostOf(atoms, i)
  {
    var start := active[..|active| - 1];
    if k < |start| {
      TotalReplaced(atoms, start, k, i);
      assert active[k := i][..|active| - 1] == start[k := i];
    } else {
      assert active[k := i][..|active| - 1] == start;
    }
  }

  /** The scan of the explain plan, which keeps the full cost up to date as it goes. */
  method ScanWithCost<K(!new, ==)>(atoms: seq<Scored<K>>) returns (active: seq<nat>, fullCost: nat)
    ensures Candidates(atoms, |atoms|, active)
    ensures fullCost == TotalCost(atoms, active)
  {
    active, fullCost := [], 0;
    var byKey: map<K, nat> := map[];
    for i := 0 to |atoms|
      invariant Scanned(atoms, i, active, byKey) && fullCost == TotalCost(atoms, active)
    {
      if Eligible(atoms[i]) {
        ScanTakes(atoms, active, byKey, i);
        active, byKey, fullCost := Take(atoms, active, byKey, i, fullCost);
      } else {
        ScanSkips(atoms, active, byKey, i);
      }
    }
  }

  method Take<K(!new, ==)>(atoms: seq<Scored<K>>, active: seq<nat>, byKey: map<K, nat>, i: nat, fullCost: nat)
    returns (active': seq<nat>, byKey': map<K, nat>, fullCost': nat)
    requires i < |atoms| && Indexes(atoms, active, byKey) && fullCost == TotalCost(atoms, active)
    ensures active' == Consider(atoms, active, byKey, i)
    ensures byKey' == NextKeys(active, byKey, atoms[i].diversity)
    ensures fullCost' == TotalCost(atoms, active')
  {
    ConsiderCost(atoms, active, byKey, i);
    active', byKey', fullCost' := active, byKey, fullCost;
    var key := atoms[i].diversity;
    if key !in byKey {
      byKey', active' := byKey[key := |active|], active + [i];
      fullCost' := fullCost + atoms[i].cost;
    } else {
      var k := byKey[key];
      if Better(atoms, i, active[k]) {
        active' := active[k := i];
        fullCost' := fullCost - atoms[active[k]].cost + atoms[i].cost;
      }
    }
  }

  /** The scan of the spill. */
  method Scan<K(!new, ==)>(atoms: seq<Scored<K>>) returns (active: seq<nat>)
    ensures Candidates(atoms, |atoms|, active)
  {
    active := [];
    var byKey: map<K, nat> := map[];
    for i := 0 to |atoms|
      invariant Scanned(atoms, i, active, byKey)
    {
      if Eligible(atoms[i]) {
        ScanTakes(atoms, active, byKey, i);
        var key := atoms[i].diversity;
        if key !in byKey {
          byKey, active := byKey[key := |active|], active + [i];
        } else if Better(atoms, i, active[byKey[key]]) {
          active := active[byKey[key] := i];
        }
      } else {
        ScanSkips(atoms, active, byKey, i);
      }
    }
  }

  // ---------------------------------------------------------------- the budget

  /** Ranked best first. */
  ghost predicate Ranked<K(!new)>(atoms: seq<Scored<K>>, list: seq<nat>) {
    && (forall k :: 0 <= k < |list| ==> list[k] < |atoms|)
    && (forall k, l :: 0 <= k < l < |list| ==> Better(atoms, list[k], list[l]))
  }

  lemma InsertedRanked<K(!new)>(atoms: seq<Scored<K>>, list: seq<nat>, n: nat, i: nat)
    requires Ranked(atoms, list) && i < |atoms| && n <= |list|
    requires forall k :: 0 <= k < n ==> Better(atoms, list[k], i)
    requires n < |list| ==> Better(atoms, i, list[n])
    ensures Ranked(atoms, list[..n] + [i] + list[n..])
  {
    forall k | n <= k < |list| ensures Better(atoms, i, list[k]) {
      if k > n { assert Better(atoms, list[n], list[k]); }
    }
  }

  /** Sorting by the ranking; ordinals are distinct, so there are no ties. */
  method Rank<K(!new)>(atoms: seq<Scored<K>>, list: seq<nat>) returns (r: seq<nat>)
    requires forall k :: 0 <= k < |list| ==> list[k] < |atoms|
    requires forall k, l :: 0 <= k < l < |list| ==> list[k] != list[l]
    ensures Ranked(atoms, r) && multiset(r) == multiset(list)
  {
    r := [];
    for m := 0 to |list|
      invariant Ranked(atoms, r) && multiset(r) == multiset(list[..m])
    {
      NotYetRanked(list, m, r);
      r := InsertByRank(atoms, r, list[m]);
      assert list[..m + 1] == list[..m] + [list[m]];
    }
    assert list[..|list|] == list;
  }

  method InsertByRank<K(!new)>(atoms: seq<Scored<K>>, list: seq<nat>, i: nat) returns (r: seq<nat>)
    requires Ranked(atoms, list) && i < |atoms| && forall k :: 0 <= k < |list| ==> list[k] != i
    ensures Ranked(atoms, r) && multiset(r) == multiset(list) + multiset{i}
  {
    var n := 0;
    while n < |list| && Better(atoms, list[n], i)
      invariant 0 <= n <= |list| && forall k :: 0 <= k < n ==> Better(atoms, list[k], i)
    {
      n := n + 1;
    }
    InsertedRanked(atoms, list, n, i);
    assert list == list[..n] + list[n..];
    r := list[..n] + [i] + list[n..];
  }

  lemma NotYetRanked(list: seq<nat>, m: nat, r: seq<nat>)
    requires m < |list| && multiset(r) == multiset(list[..m])
    requires forall k, l :: 0 <= k < l < |list| ==> list[k] != list[l]
    ensures forall n :: 0 <= n < |r| ==> r[n] != list[m]
  {
    forall n | 0 <= n < |r| ensures r[n] != list[m] {
      assert r[n] in multiset(r);
      assert r[n] in list[..m];
    }
  }

  /** The ranking of a set of atoms is unique. */
  lemma {:induction false} RankedUnique<K(!new)>(atoms: seq<Scored<K>>, a: seq<nat>, b: seq<nat>)
    requires Ranked(atoms, a) && Ranked(atoms, b) && forall i :: i in a <==> i in b
    ensures a == b
    decreases |a|
  {
    if a == [] {
      FirstIn(b);
    } else {
      FirstIn(a);
      FirstIn(b);
      var k :| 0 <= k < |b| && b[k] == a[0];
      var l :| 0 <= l < |a| && a[l] == b[0];
      assert a[0] == b[0];
      forall i ensures i in a[1..] <==> i in b[1..] {
        RestMembers(atoms, a, i);
        RestMembers(atoms, b, i);
      }
      RankedUnique(atoms, a[1..], b[1..]);
      assert a == [a[0]] + a[1..] && b == [b[0]] + b[1..];
    }
  }

  lemma FirstIn(s: seq<nat>)
    ensures s != [] ==> s[0] in s
  {
  }

  lemma RestMembers<K(!new)>(atoms: seq<Scored<K>>, a: seq<nat>, i: nat)
    requires Ranked(atoms, a) && a != []
    ensures i in a[1..] <==> i in a && i != a[0]
  {
    if i in a && i != a[0] {
      var k :| 0 <= k < |a| && a[k] == i;
      assert a[1..][k - 1] == i;
    }
  }

  /** Which of the first n ranked atoms are rendered: those that still fit. */
  function Filled<K>(atoms: seq<Scored<K>>, list: seq<nat>, budget: nat, n: nat): seq<nat>
    requires n <= |list|
  {
    if n == 0 then []
    else
      var before := Filled(atoms, list, budget, n - 1);
      if TotalCost(atoms, before) + CostOf(atoms, list[n - 1]) > budget then before else before + [list[n - 1]]
  }

  /** The rendering fits the budget. */
  lemma {:induction false} FilledFits<K(!new)>(atoms: seq<Scored<K>>, list: seq<nat>, budget: nat, n: nat)
    requires n <= |list|
    ensures TotalCost(atoms, Filled(atoms, list, budget, n)) <= budget
  {
    if n > 0 {
      FilledFits(atoms, list, budget, n - 1);
      TotalAppended(atoms, Filled(atoms, list, budget, n - 1), list[n - 1]);
    }
  }

  lemma FilledGrows<K(!new)>(atoms: seq<Scored<K>>, list: seq<nat>, budget: nat, n: nat)
    requires 0 < n <= |list|
    ensures TotalCost(atoms, Filled(atoms, list, budget, n)) >= TotalCost(atoms, Filled(atoms, list, budget, n - 1))
    ensures forall i :: i in Filled(atoms, list, budget, n - 1) ==> i in Filled(atoms, list, budget, n)
  {
    TotalAppended(atoms, Filled(atoms, list, budget, n - 1), list[n - 1]);
  }

  /** No skipped atom would still fit. */
  lemma {:induction false} SkippedTooLarge<K(!new)>(atoms: seq<Scored<K>>, list: seq<nat>, budget: nat, n: nat, k: nat)
    requires k < n <= |list| && list[k] !in Filled(atoms, list, budget, n)
    ensures TotalCost(atoms, Filled(atoms, list, budget, n)) + CostOf(atoms, list[k]) > budget
  {
    FilledGrows(atoms, list, budget, n);
    if k < n - 1 {
      SkippedTooLarge(atoms, list, budget, n - 1, k);
    } else {
      var before := Filled(atoms, list, budget, n - 1);
      assert (before + [list[k]])[|before|] == list[k];
    }
  }

  lemma TotalAppended<K(!new)>(atoms: seq<Scored<K>>, list: seq<nat>, i: nat)
    ensures TotalCost(atoms, list + [i]) == TotalCost(atoms, list) + CostOf(atoms, i)
  {
    assert (list + [i])[..|list|] == list;
  }

  function RedactedCount<K>(atoms: seq<Scored<K>>, list: seq<nat>): nat {
    if list == [] then 0
    else
      var last := list[|list| - 1];
      RedactedCount(atoms, list[..|list| - 1]) + if last < |atoms| && atoms[last].redacted then 1 else 0
  }

  lemma RedactedAppended<K(!new)>(atoms: seq<Scored<K>>, list: seq<nat>, i: nat)
    requires i < |atoms|
    ensures RedactedCount(atoms, list + [i]) == RedactedCount(atoms, list) + if atoms[i].redacted then 1 else 0
  {
    assert (list + [i])[..|list|] == list;
  }

  /** The ranked candidates of a context, by any scan and sort. */
  ghost predicate RankedCandidates<K(!new)>(atoms: seq<Scored<K>>, list: seq<nat>) {
    Ranked(atoms, list) && exists active: seq<nat> :: Candidates(atoms, |atoms|, active) && multiset(active) == multiset(list)
  }

  lemma RankedCandidatesUnique<K(!new)>(atoms: seq<Scored<K>>, a: seq<nat>, b: seq<nat>)
    requires RankedCandidates(atoms, a) && RankedCandidates(atoms, b)
    ensures a == b
  {
    var x: seq<nat> :| Candidates(atoms, |atoms|, x) && multiset(x) == multiset(a);
    var y: seq<nat> :| Candidates(atoms, |atoms|, y) && multiset(y) == multiset(b);
    SameMembers(x, a);
    SameMembers(y, b);
    CandidatesUnique(atoms, x, y);
    RankedUnique(atoms, a, b);
  }

  lemma SameMembers(a: seq<nat>, b: seq<nat>)
    requires multiset(a) == multiset(b)
    ensures forall i :: i in a <==> i in b
  {
    forall i ensures i in a <==> i in b {
      assert i in multiset(a) <==> i in multiset(b);
    }
  }

  datatype Plan = Plan(candidates: nat, rendered: nat, tokenCost: nat, redacted: nat, fullCost: nat)

  datatype Spill = Spill(candidates: nat, rendered: seq<nat>, tokenCost: nat, redacted: nat)

  /** executeExplainContext, up to the formatting of its answer. */
  method Explain<K(!new, ==)>(atoms: seq<Scored<K>>, budget: nat) returns (plan: Plan, ghost list: seq<nat>)
    ensures RankedCandidates(atoms, list)
    ensures var r := Filled(atoms, list, budget, |list|);
      plan == Plan(|list|, |r|, TotalCost(atoms, r), RedactedCount(atoms, r), TotalCost(atoms, list))
  {
    var active, fullCost := ScanWithCost(atoms);
    var ranked := Rank(atoms, active);
    list := ranked;
    SameTotal(atoms, active, ranked);
    var rendered, tokenCost, redacted := 0, 0, 0;
    for n := 0 to |ranked|
      invariant rendered == |Filled(atoms, ranked, budget, n)|
      invariant tokenCost == TotalCost(atoms, Filled(atoms, ranked, budget, n))
      invariant redacted == RedactedCount(atoms, Filled(atoms, ranked, budget, n))
    {
      var a := atoms[ranked[n]];
      if rendered > 0 && tokenCost + a.cost > budget { continue; }
      if rendered == 0 && a.cost > budget { continue; }
      TotalAppended(atoms, Filled(atoms, ranked, budget, n), ranked[n]);
      RedactedAppended(atoms, Filled(atoms, ranked, budget, n), ranked[n]);
      rendered, tokenCost := rendered + 1, tokenCost + a.cost;
      if a.redacted { redacted := redacted + 1; }
    }
    plan := Plan(|ranked|, rendered, tokenCost, redacted, fullCost);
  }

  /** executeSpillContext, up to the formatting of its answer. */
  method SpillContext<K(!new, ==)>(atoms: seq<Scored<K>>, budget: nat) returns (spill: Spill, ghost list: seq<nat>)
    ensures RankedCandidates(atoms, list)
    ensures var r := Filled(atoms, list, budget, |list|);
      spill == Spill(|list|, r, TotalCost(atoms, r), RedactedCount(atoms, r))
  {
    var active := Scan(atoms);
    var ranked := Rank(atoms, active);
    list := ranked;
    var rendered, tokenCost, redacted := [], 0, 0;
    for n := 0 to |ranked|
      invariant rendered == Filled(atoms, ranked, budget, n)
      invariant tokenCost == TotalCost(atoms, rendered) && redacted == RedactedCount(atoms, rendered)
    {
      var a := atoms[ranked[n]];
      if rendered != [] && tokenCost + a.cost > budget { continue; }
      if rendered == [] && a.cost > budget { continue; }
      TotalAppended(atoms, rendered, ranked[n]);
      RedactedAppended(atoms, rendered, ranked[n]);
      rendered, tokenCost := rendered + [ranked[n]], tokenCost + a.cost;
      if a.redacted { redacted := redacted + 1; }
    }
    spill := Spill(|ranked|, rendered, tokenCost, redacted);
  }

  /** What the plan says is what the spill does. */
  lemma PlanPredictsSpill<K(!new)>(atoms: seq<Scored<K>>, budget: nat, planned: seq<nat>, spilled: seq<nat>,
                                   plan: Plan, spill: Spill)
    requires RankedCandidates(atoms, planned) && RankedCandidates(atoms, spilled)
    requires var r := Filled(atoms, planned, budget, |planned|);
      plan == Plan(|planned|, |r|, TotalCost(atoms, r), RedactedCount(atoms, r), TotalCost(atoms, planned))
    requires var r := Filled(atoms, spilled, budget, |spilled|);
      spill == Spill(|spilled|, r, TotalCost(atoms, r), RedactedCount(atoms, r))
    ensures plan.candidates == spill.candidates && plan.rendered == |spill.rendered|
    ensures plan.tokenCost == spill.tokenCost <= budget && plan.redacted == spill.redacted
    ensures forall i :: i in spilled && i !in spill.rendered ==> spill.tokenCost + CostOf(atoms, i) > budget
  {
    RankedCandidatesUnique(atoms, planned, spilled);
    FilledFits(atoms, spilled, budget, |spilled|);
    forall i | i in spilled && i !in spill.rendered ensures spill.tokenCost + CostOf(atoms, i) > budget {
      var k :| 0 <= k < |spilled| && spilled[k] == i;
      SkippedTooLarge(atoms, spilled, budget, |spilled|, k);
    }
  }

  /** What is rendered are candidates, in their ranking and each once. */
  ghost predicate Picks(rendered: seq<nat>, list: seq<nat>) {
    (forall i :: i in rendered ==> i in list) && forall k, l :: 0 <= k < l < |rendered| ==> rendered[k] != rendered[l]
  }

  lemma {:induction false} FilledPicks<K(!new)>(atoms: seq<Scored<K>>, list: seq<nat>, budget: nat, n: nat)
    requires n <= |list| && forall k, l :: 0 <= k < l < |list| ==> list[k] != list[l]
    ensures Picks(Filled(atoms, list, budget, n), list[..n])
  {
    if n > 0 {
      FilledPicks(atoms, list, budget, n - 1);
      assert list[..n] == list[..n - 1] + [list[n - 1]];
      assert list[n - 1] !in list[..n - 1];
    }
  }

  lemma RankedApart<K(!new)>(atoms: seq<Scored<K>>, list: seq<nat>)
    requires Ranked(atoms, list)
    ensures forall k, l :: 0 <= k < l < |list| ==> list[k] != list[l]
  {
  }

  /** EXPLAIN and then the spill itself: candidates, rendered atoms, cost and redactions agree,
      the budget is kept, and nothing left out would have fitted. */
  method PlanThenSpill<K(!new, ==)>(atoms: seq<Scored<K>>, budget: nat) returns (plan: Plan, spill: Spill, ghost list: seq<nat>)
    ensures RankedCandidates(atoms, list) && |list| == spill.candidates && plan.fullCost == TotalCost(atoms, list)
    ensures spill.rendered == Filled(atoms, list, budget, |list|) && Picks(spill.rendered, list)
    ensures plan.candidates == spill.candidates && plan.rendered == |spill.rendered|
    ensures plan.tokenCost == spill.tokenCost == TotalCost(atoms, spill.rendered) <= budget
    ensures plan.redacted == spill.redacted == RedactedCount(atoms, spill.rendered)
    ensures forall i :: i in list && i !in spill.rendered ==> spill.tokenCost + CostOf(atoms, i) > budget
  {
    ghost var planned;
    plan, planned := Explain(atoms, budget);
    spill, list := SpillContext(atoms, budget);
    RankedCandidatesUnique(atoms, planned, list);
    PlanPredictsSpill(atoms, budget, planned, list, plan, spill);
    RankedApart(atoms, list);
    FilledPicks(atoms, list, budget, |list|);
    assert list[..|list|] == list;
  }

  // ---------------------------------------------- costs of permuted candidates

  lemma {:induction false} SameTotal<K(!new)>(atoms: seq<Scored<K>>, a: seq<nat>, b: seq<nat>)
    requires multiset(a) == multiset(b)
    ensures TotalCost(atoms, a) == TotalCost(atoms, b)
    decreases |a|
  {
    if a == [] {
      assert |multiset(b)| == 0;
      assert b == [];
    } else {
      var last, start := a[|a| - 1], a[..|a| - 1];
      assert a == start + [last];
      assert last in multiset(b);
      var n :| 0 <= n < |b| && b[n] == last;
      var rest := b[..n] + b[n + 1..];
      assert b == b[..n] + [last] + b[n + 1..];
      assert multiset(start) == multiset(a) - multiset{last};
      assert multiset(rest) == multiset(b) - multiset{last};
      SameTotal(atoms, start, rest);
      TotalWithout(atoms, b, n);
    }
  }

  lemma {:induction false} TotalWithout<K(!new)>(atoms: seq<Scored<K>>, b: seq<nat>, n: nat)
    requires n < |b|
    ensures TotalCost(atoms, b) == TotalCost(atoms, b[..n] + b[n + 1..]) + CostOf(atoms, b[n])
  {
    var start, last := b[..|b| - 1], b[|b| - 1];
    if n == |b| - 1 {
      assert b[..n] + b[n + 1..] == start;
    } else {
      TotalWithout(atoms, start, n);
      assert b[..n] + b[n + 1..] == (start[..n] + start[n + 1..]) + [last];
      TotalAppended(atoms, start[..n] + start[n + 1..], last);
    }
  }
}
