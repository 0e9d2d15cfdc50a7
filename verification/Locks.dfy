/** The process-local lock manager of src/native_lock.cpp: how a request list becomes an
    acquisition order, and why threads that follow such orders cannot deadlock. */
module Locks {
  import opened Bytes
  import Lexicographic

  type Name = seq<byte>

  datatype Mode = Shared | Exclusive

  datatype Request = Request(resource: Name, mode: Mode)

  ghost predicate Sorted(rs: seq<Request>) {
    forall i, j :: 0 <= i < j < |rs| ==> !Lexicographic.Less(rs[j].resource, rs[i].resource)
  }

  ghost predicate StrictlyAscending(rs: seq<Request>) {
    forall i, j :: 0 <= i < j < |rs| ==> Lexicographic.Less(rs[i].resource, rs[j].resource)
  }

  ghost predicate Named(plan: seq<Request>) {
    forall k :: 0 <= k < |plan| ==> plan[k].resource != []
  }

  function NamesOf(rs: multiset<Request>): set<Name> {
    set r | r in rs && r.resource != [] :: r.resource
  }

  /** Every named resource with the strongest mode asked for. */
  function Wanted(rs: multiset<Request>): map<Name, Mode> {
    map n | n in NamesOf(rs) :: if Request(n, Exclusive) in rs then Exclusive else Shared
  }

  /** Some sorted rearrangement of the requests; the order among equals is not promised. */
  method Sort(requests: seq<Request>) returns (sorted: seq<Request>)
    ensures Sorted(sorted)
    ensures multiset(sorted) == multiset(requests)
  {
    sorted := [];
    for i := 0 to |requests|
      invariant Sorted(sorted)
      invariant multiset(sorted) == multiset(requests[..i])
    {
      var k := 0;
      while k < |sorted| && !Lexicographic.Less(requests[i].resource, sorted[k].resource)
        invariant 0 <= k <= |sorted|
        invariant forall j :: 0 <= j < k ==> !Lexicographic.Less(requests[i].resource, sorted[j].resource)
      {
        k := k + 1;
      }
      InsertSorted(sorted, k, requests[i]);
      assert requests[..i + 1] == requests[..i] + [requests[i]];
      assert sorted == sorted[..k] + sorted[k..];
      sorted := sorted[..k] + [requests[i]] + sorted[k..];
    }
    assert requests[..|requests|] == requests;
  }

  lemma InsertSorted(s: seq<Request>, k: nat, r: Request)
    requires Sorted(s) && k <= |s|
    requires forall j :: 0 <= j < k ==> !Lexicographic.Less(r.resource, s[j].resource)
    requires k < |s| ==> Lexicographic.Less(r.resource, s[k].resource)
    ensures Sorted(s[..k] + [r] + s[k..])
  {
    forall j | k <= j < |s|
      ensures !Lexicographic.Less(s[j].resource, r.resource)
    {
      if Lexicographic.Less(s[j].resource, r.resource) {
        Lexicographic.Transitive(s[j].resource, r.resource, s[k].resource);
        Lexicographic.Irreflexive(s[j].resource);
      }
    }
  }

  /** The deduplicated acquisition list that acquireAll locks from front to back. */
  method AcquisitionOrder(requests: seq<Request>) returns (plan: seq<Request>)
    ensures StrictlyAscending(plan) && Named(plan)
    ensures Wanted(multiset(plan)) == Wanted(multiset(requests))
  {
    var sorted := Sort(requests);
    plan := Deduplicate(sorted);
    WantedUpToEnd(sorted, |sorted|);
    assert sorted[..|sorted|] == sorted;
  }

  method Deduplicate(sorted: seq<Request>) returns (plan: seq<Request>)
    requires Sorted(sorted)
    ensures StrictlyAscending(plan) && Named(plan)
    ensures Wanted(multiset(plan)) == WantedUpTo(sorted, |sorted|)
  {
    plan := [];
    ghost var last: nat := 0;
    for i := 0 to |sorted|
      invariant StrictlyAscending(plan) && Named(plan)
      invariant Wanted(multiset(plan)) == WantedUpTo(sorted, i)
      invariant plan != [] ==> last < i && plan[|plan| - 1].resource == sorted[last].resource
    {
      var next := Merge(plan, sorted[i]);
      if next != plan { last := i; }
      plan := next;
    }
  }

  function WantedUpTo(rs: seq<Request>, k: nat): map<Name, Mode>
    requires k <= |rs|
  {
    if k == 0 then map[] else Want(WantedUpTo(rs, k - 1), rs[k - 1])
  }

  lemma {:induction false} WantedUpToEnd(rs: seq<Request>, k: nat)
    requires k <= |rs|
    ensures WantedUpTo(rs, k) == Wanted(multiset(rs[..k]))
  {
    if k > 0 {
      WantedUpToEnd(rs, k - 1);
      assert rs[..k] == rs[..k - 1] + [rs[k - 1]];
      AppendWanted(rs[..k - 1], rs[k - 1]);
    }
  }

  /** One turn of the deduplicating loop. */
  method Merge(plan: seq<Request>, request: Request) returns (next: seq<Request>)
    requires StrictlyAscending(plan) && Named(plan)
    requires plan != [] ==> !Lexicographic.Less(request.resource, plan[|plan| - 1].resource)
    ensures StrictlyAscending(next) && Named(next)
    ensures Wanted(multiset(next)) == Want(Wanted(multiset(plan)), request)
    ensures next != [] ==> next[|next| - 1].resource == request.resource || next == plan
  {
    next := plan;
    if request.resource == [] { return; }
    if plan != [] && plan[|plan| - 1].resource == request.resource {
      if request.mode == Exclusive {
        next := plan[|plan| - 1 := Request(request.resource, Exclusive)];
      }
      RepeatLast(plan, request, next);
      return;
    }
    NewName(plan, request);
    next := plan + [request];
  }

  lemma NewName(plan: seq<Request>, r: Request)
    requires StrictlyAscending(plan) && Named(plan) && r.resource != []
    requires plan != [] ==> !Lexicographic.Less(r.resource, plan[|plan| - 1].resource)
                            && plan[|plan| - 1].resource != r.resource
    ensures StrictlyAscending(plan + [r]) && Named(plan + [r])
    ensures Wanted(multiset(plan + [r])) == Want(Wanted(multiset(plan)), r)
  {
    if plan != [] {
      Lexicographic.Connected(plan[|plan| - 1].resource, r.resource);
      AppendAscending(plan, r);
    }
    AppendWanted(plan, r);
  }

  lemma AppendWanted(plan: seq<Request>, r: Request)
    ensures Wanted(multiset(plan + [r])) == Want(Wanted(multiset(plan)), r)
  {
    assert multiset(plan + [r]) == multiset(plan) + multiset{r};
    WantOne(multiset(plan), r);
  }

  function Want(wanted: map<Name, Mode>, r: Request): map<Name, Mode> {
    if r.resource == [] then wanted
    else wanted[r.resource := if r.resource in wanted && wanted[r.resource] == Exclusive
                              then Exclusive else r.mode]
  }

  lemma WantOne(rs: multiset<Request>, r: Request)
    ensures Wanted(rs + multiset{r}) == Want(Wanted(rs), r)
  {
    var next := rs + multiset{r};
    assert NamesOf(next) == NamesOf(rs) + if r.resource == [] then {} else {r.resource};
    forall n | n in NamesOf(next)
      ensures Wanted(next)[n] == Want(Wanted(rs), r)[n]
    {
      var strong := Request(n, Exclusive);
      assert strong in next <==> strong in rs || strong == r;
      if strong in rs { assert strong.resource in NamesOf(rs); }
    }
  }

  /** Meeting the last resource again changes at most its mode. */
  lemma RepeatLast(plan: seq<Request>, r: Request, next: seq<Request>)
    requires plan != [] && StrictlyAscending(plan)
    requires r.resource != [] && plan[|plan| - 1].resource == r.resource
    requires next == if r.mode == Exclusive then plan[|plan| - 1 := r] else plan
    ensures StrictlyAscending(next)
    ensures Wanted(multiset(next)) == Want(Wanted(multiset(plan)), r)
  {
    RepeatLastWanted(plan, r, next);
    RepeatLastOrder(plan, r);
  }

  lemma RepeatLastOrder(plan: seq<Request>, r: Request)
    requires plan != [] && StrictlyAscending(plan) && plan[|plan| - 1].resource == r.resource
    ensures StrictlyAscending(plan[|plan| - 1 := r])
  {
    var next := plan[|plan| - 1 := r];
    assert forall i :: 0 <= i < |plan| ==> next[i].resource == plan[i].resource;
  }

  lemma RepeatLastWanted(plan: seq<Request>, r: Request, next: seq<Request>)
    requires plan != []
    requires r.resource != [] && plan[|plan| - 1].resource == r.resource
    requires next == if r.mode == Exclusive then plan[|plan| - 1 := r] else plan
    ensures Wanted(multiset(next)) == Want(Wanted(multiset(plan)), r)
  {
    var last := |plan| - 1;
    SplitLast(plan);
    WantAgain(Wanted(multiset(plan[..last])), plan[last], r);
    if r.mode == Exclusive {
      SplitLast(next);
      assert next[..last] == plan[..last];
    }
  }

  lemma WantAgain(wanted: map<Name, Mode>, first: Request, r: Request)
    requires r.resource != [] && first.resource == r.resource
    ensures Want(Want(wanted, first), r) == Want(wanted, if r.mode == Exclusive then r else first)
  {
  }

  lemma SplitLast(plan: seq<Request>)
    requires plan != []
    ensures Wanted(multiset(plan)) == Want(Wanted(multiset(plan[..|plan| - 1])), plan[|plan| - 1])
  {
    assert plan == plan[..|plan| - 1] + [plan[|plan| - 1]];
    AppendWanted(plan[..|plan| - 1], plan[|plan| - 1]);
  }

  lemma AppendAscending(plan: seq<Request>, r: Request)
    requires plan != [] && StrictlyAscending(plan)
    requires Lexicographic.Less(plan[|plan| - 1].resource, r.resource)
    ensures StrictlyAscending(plan + [r])
  {
    forall i | 0 <= i < |plan|
      ensures Lexicographic.Less(plan[i].resource, r.resource)
    {
      if i < |plan| - 1 {
        Lexicographic.Transitive(plan[i].resource, plan[|plan| - 1].resource, r.resource);
      }
    }
  }

  // ---------------------------------------------- the order is well determined

  lemma WantedAt(plan: seq<Request>, k: nat)
    requires StrictlyAscending(plan) && Named(plan) && k < |plan|
    ensures plan[k].resource in Wanted(multiset(plan))
    ensures Wanted(multiset(plan))[plan[k].resource] == plan[k].mode
  {
    assert plan[k] in multiset(plan);
    var strong := Request(plan[k].resource, Exclusive);
    if strong in multiset(plan) {
      var j :| 0 <= j < |plan| && plan[j] == strong;
      Lexicographic.Irreflexive(strong.resource);
    }
  }

  lemma LeastFirst(p: seq<Request>, q: seq<Request>)
    requires StrictlyAscending(p) && StrictlyAscending(q) && Named(p) && Named(q)
    requires p != [] && q != []
    requires Wanted(multiset(p)) == Wanted(multiset(q))
    ensures !Lexicographic.Less(p[0].resource, q[0].resource)
  {
    WantedAt(p, 0);
    var r :| r in multiset(q) && r.resource == p[0].resource;
    var k :| 0 <= k < |q| && q[k] == r;
    if Lexicographic.Less(p[0].resource, q[0].resource) {
      if k > 0 {
        Lexicographic.Transitive(p[0].resource, q[0].resource, q[k].resource);
      }
      Lexicographic.Irreflexive(p[0].resource);
    }
  }

  lemma HeadOnce(p: seq<Request>)
    requires p != [] && StrictlyAscending(p)
    ensures p[0].resource !in NamesOf(multiset(p[1..]))
  {
    if p[0].resource in NamesOf(multiset(p[1..])) {
      var r :| r in multiset(p[1..]) && r.resource == p[0].resource;
      var k :| 0 <= k < |p[1..]| && p[1..][k] == r;
      assert p[k + 1] == r;
      Lexicographic.Irreflexive(r.resource);
    }
  }

  lemma WantedWithout(rs: multiset<Request>, r: Request)
    requires r.resource != [] && r.resource !in NamesOf(rs)
    ensures Wanted(rs) == Wanted(rs + multiset{r}) - {r.resource}
  {
    WantOne(rs, r);
    assert Wanted(rs).Keys == NamesOf(rs);
  }

  lemma Tail(p: seq<Request>)
    requires p != [] && StrictlyAscending(p) && Named(p)
    ensures StrictlyAscending(p[1..]) && Named(p[1..])
    ensures Wanted(multiset(p[1..])) == Wanted(multiset(p)) - {p[0].resource}
  {
    HeadOnce(p);
    WantedWithout(multiset(p[1..]), p[0]);
    assert p == [p[0]] + p[1..];
    assert multiset(p) == multiset(p[1..]) + multiset{p[0]};
  }

  lemma SameHead(p: seq<Request>, q: seq<Request>)
    requires StrictlyAscending(p) && StrictlyAscending(q) && Named(p) && Named(q)
    requires p != [] && q != []
    requires Wanted(multiset(p)) == Wanted(multiset(q))
    ensures p[0] == q[0]
  {
    LeastFirst(p, q);
    LeastFirst(q, p);
    Lexicographic.Connected(p[0].resource, q[0].resource);
    WantedAt(p, 0);
    WantedAt(q, 0);
  }

  /** The acquisition order depends on the requests alone, not on how sorting broke ties:
      two threads that want the same resources always lock them in the same order. */
  lemma {:induction false} OrderIsUnique(p: seq<Request>, q: seq<Request>)
    requires StrictlyAscending(p) && StrictlyAscending(q) && Named(p) && Named(q)
    requires Wanted(multiset(p)) == Wanted(multiset(q))
    ensures p == q
    decreases |p|
  {
    if p == [] {
      if q != [] { WantedAt(q, 0); }
    } else if q == [] {
      WantedAt(p, 0);
    } else {
      SameHead(p, q);
      Tail(p);
      Tail(q);
      OrderIsUnique(p[1..], q[1..]);
      SameTail(p, q);
    }
  }

  lemma SameTail(p: seq<Request>, q: seq<Request>)
    requires p != [] && q != [] && p[0] == q[0] && p[1..] == q[1..]
    ensures p == q
  {
    assert p == [p[0]] + p[1..] && q == [q[0]] + q[1..];
  }
}
