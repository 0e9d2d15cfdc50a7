/** Any number of threads executing statements: each takes its engine's operation mutex,
    then its acquisition order front to back, works, and releases in any order. */
module LockSystem {
  import Lexicographic
  import L = Locks

  datatype Resource = Mutex(engine: nat) | Lock(name: L.Name)

  predicate Before(a: Resource, b: Resource) {
    match (a, b)
    case (Mutex(x), Mutex(y)) => x < y
    case (Mutex(_), Lock(_)) => true
    case (Lock(_), Mutex(_)) => false
    case (Lock(x), Lock(y)) => Lexicographic.Less(x, y)
  }

  lemma BeforeIsStrictOrder(a: Resource, b: Resource, c: Resource)
    ensures !Before(a, a)
    ensures Before(a, b) || a == b || Before(b, a)
    ensures Before(a, b) && Before(b, c) ==> Before(a, c)
  {
    if a.Lock? { Lexicographic.Irreflexive(a.name); }
    if a.Lock? && b.Lock? { Lexicographic.Connected(a.name, b.name); }
    if a.Lock? && b.Lock? && c.Lock? && Before(a, b) && Before(b, c) {
      Lexicographic.Transitive(a.name, b.name, c.name);
    }
  }

  datatype Claim = Claim(resource: Resource, mode: L.Mode)

  ghost predicate Ordered(plan: seq<Claim>) {
    forall i, j :: 0 <= i < j < |plan| ==> Before(plan[i].resource, plan[j].resource)
  }

  /** What one call of execute locks. */
  function PlanFor(engine: nat, order: seq<L.Request>): seq<Claim> {
    [Claim(Mutex(engine), L.Exclusive)]
    + seq(|order|, k requires 0 <= k < |order| => Claim(Lock(order[k].resource), order[k].mode))
  }

  lemma PlanIsOrdered(engine: nat, order: seq<L.Request>)
    requires L.StrictlyAscending(order)
    ensures Ordered(PlanFor(engine, order))
  {
  }

  datatype Thread =
    | Acquiring(plan: seq<Claim>, got: nat)
    | Releasing(plan: seq<Claim>, left: set<nat>)

  ghost predicate WellFormed(t: Thread) {
    && Ordered(t.plan)
    && match t
       case Acquiring(plan, got) => got <= |plan|
       case Releasing(plan, left) => forall k :: k in left ==> k < |plan|
  }

  predicate Holds(t: Thread, k: nat) {
    k < |t.plan| && if t.Acquiring? then k < t.got else k in t.left
  }

  predicate Finished(t: Thread) {
    t.Releasing? && t.left == {}
  }

  predicate Waits(t: Thread) {
    t.Acquiring? && t.got < |t.plan|
  }

  function Wanted(t: Thread): Claim
    requires Waits(t)
  {
    t.plan[t.got]
  }

  /** Whatever a statement asks for, what its thread sets out to lock is in order. */
  method StatementThread(engine: nat, requests: seq<L.Request>) returns (t: Thread)
    ensures t.Acquiring? && t.got == 0 && WellFormed(t)
    ensures exists order :: L.StrictlyAscending(order) && t.plan == PlanFor(engine, order)
  {
    var order := L.AcquisitionOrder(requests);
    PlanIsOrdered(engine, order);
    t := Acquiring(PlanFor(engine, order), 0);
  }

  type State = seq<Thread>

  ghost predicate Conflict(a: Claim, b: Claim) {
    a.resource == b.resource && (a.mode == L.Exclusive || b.mode == L.Exclusive)
  }

  /** No present holder stands in the way of thread i. */
  ghost predicate MayAcquire(s: State, i: nat)
    requires i < |s| && Waits(s[i])
  {
    forall j, k: nat :: 0 <= j < |s| && Holds(s[j], k) ==> !Conflict(s[j].plan[k], Wanted(s[i]))
  }

  /** Not even a shared mutex that lets queued writers pass ahead of readers can delay it. */
  ghost predicate MustAcquire(s: State, i: nat)
    requires i < |s| && Waits(s[i])
  {
    && MayAcquire(s, i)
    && (Wanted(s[i]).mode == L.Shared ==>
          forall j :: 0 <= j < |s| && Waits(s[j]) && Wanted(s[j]).resource == Wanted(s[i]).resource ==>
            Wanted(s[j]).mode == L.Shared)
  }

  datatype Step = Acquire(i: nat) | Finish(i: nat) | Release(i: nat, k: nat)

  function Indices(n: nat): (ks: set<nat>)
    ensures |ks| == n
    ensures forall k :: k in ks <==> 0 <= k < n
  {
    if n == 0 then {} else Indices(n - 1) + {n - 1}
  }

  ghost predicate Next(s: State, step: Step, s': State) {
    match step
    case Acquire(i) =>
      && i < |s| && Waits(s[i]) && MayAcquire(s, i)
      && s' == s[i := s[i].(got := s[i].got + 1)]
    case Finish(i) =>
      && i < |s| && s[i].Acquiring? && s[i].got == |s[i].plan|
      && s' == s[i := Releasing(s[i].plan, Indices(|s[i].plan|))]
    case Release(i, k) =>
      && i < |s| && s[i].Releasing? && k in s[i].left
      && s' == s[i := s[i].(left := s[i].left - {k})]
  }

  ghost predicate Init(s: State) {
    forall i :: 0 <= i < |s| ==> s[i].Acquiring? && s[i].got == 0 && Ordered(s[i].plan)
  }

  /** Every thread is sound, and conflicting claims are never held together. */
  ghost predicate Inv(s: State) {
    && (forall i :: 0 <= i < |s| ==> WellFormed(s[i]))
    && (forall i, j, k: nat, l: nat ::
          0 <= i < |s| && 0 <= j < |s| && i != j && Holds(s[i], k) && Holds(s[j], l) ==>
            !Conflict(s[i].plan[k], s[j].plan[l]))
  }

  lemma InvNext(s: State, step: Step, s': State)
    requires Inv(s) && Next(s, step, s')
    ensures Inv(s')
  {
    var i := step.i;
    forall j | 0 <= j < |s'|
      ensures WellFormed(s'[j])
      ensures j != i ==> s'[j] == s[j]
      ensures s'[j].plan == s[j].plan
    {
    }
    forall k: nat | Holds(s'[i], k)
      ensures Holds(s[i], k) || (step.Acquire? && k == s[i].got)
    {
    }
  }

  // ---------------------------------------------------------- deadlock freedom

  ghost predicate IsLast(r: Resource, rs: set<Resource>) {
    r in rs && forall q :: q in rs ==> !Before(r, q)
  }

  lemma {:induction false} LastExists(rs: set<Resource>) returns (last: Resource)
    requires rs != {}
    ensures IsLast(last, rs)
  {
    last :| last in rs;
    if rs != {last} {
      var other := LastExists(rs - {last});
      var first := last;
      forall q | q in rs
        ensures !Before(if Before(first, other) then other else first, q)
      {
        BeforeIsStrictOrder(first, other, q);
        BeforeIsStrictOrder(other, first, q);
        BeforeIsStrictOrder(first, q, other);
        if q != first { assert q in rs - {first}; }
      }
      if Before(first, other) { last := other; }
    } else {
      BeforeIsStrictOrder(last, last, last);
    }
  }

  ghost function HeldBy(t: Thread): set<Resource> {
    set k: nat | k < |t.plan| && Holds(t, k) :: t.plan[k].resource
  }

  ghost function HeldIn(s: State): set<Resource> {
    if s == [] then {} else HeldBy(s[0]) + HeldIn(s[1..])
  }

  lemma {:induction false} HeldInMeaning(s: State, r: Resource)
    ensures r in HeldIn(s) <==> exists j, k: nat :: 0 <= j < |s| && Holds(s[j], k) && s[j].plan[k].resource == r
  {
    if s != [] {
      HeldInMeaning(s[1..], r);
      if r in HeldBy(s[0]) {
        var k: nat :| k < |s[0].plan| && Holds(s[0], k) && s[0].plan[k].resource == r;
        assert Holds(s[0], k);
      }
      if r in HeldIn(s[1..]) {
        var j, k: nat :| 0 <= j < |s[1..]| && Holds(s[1..][j], k) && s[1..][j].plan[k].resource == r;
        assert s[1..][j] == s[j + 1];
      }
      if j, k: nat :| 0 <= j < |s| && Holds(s[j], k) && s[j].plan[k].resource == r {
        if j > 0 { assert s[1..][j - 1] == s[j]; }
      }
    }
  }

  /** If every unfinished thread waits, some waiting thread asks for a resource nobody holds. */
  lemma FreeWanted(s: State) returns (i: nat)
    requires Inv(s)
    requires forall t :: 0 <= t < |s| ==> Finished(s[t]) || Waits(s[t])
    requires exists t :: 0 <= t < |s| && Waits(s[t])
    ensures i < |s| && Waits(s[i])
    ensures Wanted(s[i]).resource !in HeldIn(s)
  {
    if HeldIn(s) == {} {
      i :| 0 <= i < |s| && Waits(s[i]);
    } else {
      var last := LastExists(HeldIn(s));
      HeldInMeaning(s, last);
      var k: nat;
      i, k :| 0 <= i < |s| && Holds(s[i], k) && s[i].plan[k].resource == last;
      assert Before(last, Wanted(s[i]).resource);
    }
  }

  lemma NobodyHolds(s: State, i: nat)
    requires i < |s| && Waits(s[i]) && Wanted(s[i]).resource !in HeldIn(s)
    ensures MayAcquire(s, i)
  {
    HeldInMeaning(s, Wanted(s[i]).resource);
  }

  /** The chosen thread, or a writer queued for the same resource, cannot be delayed. */
  lemma UndelayedThread(s: State) returns (i: nat)
    requires Inv(s)
    requires forall t :: 0 <= t < |s| ==> Finished(s[t]) || Waits(s[t])
    requires exists t :: 0 <= t < |s| && Waits(s[t])
    ensures i < |s| && Waits(s[i]) && MustAcquire(s, i)
  {
    i := FreeWanted(s);
    var free := Wanted(s[i]).resource;
    if w: nat :| w < |s| && Waits(s[w]) && Wanted(s[w]).resource == free
                 && Wanted(s[w]).mode == L.Exclusive {
      i := w;
    }
    NobodyHolds(s, i);
  }

  lemma UndelayedStep(s: State) returns (step: Step, s': State)
    requires Inv(s)
    requires exists t :: 0 <= t < |s| && !Finished(s[t])
    ensures Next(s, step, s')
    ensures step.Acquire? ==> Waits(s[step.i]) && MustAcquire(s, step.i)
  {
    if u: nat :| u < |s| && !Finished(s[u]) && !Waits(s[u]) {
      if s[u].Acquiring? {
        step, s' := Finish(u), s[u := Releasing(s[u].plan, Indices(|s[u].plan|))];
      } else {
        var k: nat :| k in s[u].left;
        step, s' := Release(u, k), s[u := s[u].(left := s[u].left - {k})];
      }
    } else {
      var i := UndelayedThread(s);
      step, s' := Acquire(i), s[i := s[i].(got := s[i].got + 1)];
    }
  }

  /** Deadlock freedom: unless every thread has finished, some thread has a step that no
      other thread and no queueing policy of the mutexes can hold back. */
  lemma DeadlockFree(s: State)
    requires Inv(s)
    requires exists t :: 0 <= t < |s| && !Finished(s[t])
    ensures exists step, s' :: Next(s, step, s')
                               && (step.Acquire? ==> Waits(s[step.i]) && MustAcquire(s, step.i))
  {
    var step, s' := UndelayedStep(s);
  }

  // --------------------------------------------------------------------- runs

  datatype Run = Start(s: State) | Then(before: Run, step: Step, after: State)

  ghost function Final(run: Run): State {
    match run
    case Start(s) => s
    case Then(_, _, s) => s
  }

  ghost predicate IsRun(run: Run) {
    match run
    case Start(s) => Init(s)
    case Then(before, step, after) => IsRun(before) && Next(Final(before), step, after)
  }

  ghost function Origin(run: Run): State {
    match run
    case Start(s) => s
    case Then(before, _, _) => Origin(before)
  }

  ghost function Length(run: Run): nat {
    match run
    case Start(_) => 0
    case Then(before, _, _) => Length(before) + 1
  }

  ghost function StepsLeft(t: Thread): nat {
    match t
    case Acquiring(plan, got) => (if got <= |plan| then |plan| - got else 0) + 1 + |plan|
    case Releasing(_, left) => |left|
  }

  ghost function TotalLeft(s: State): nat {
    if s == [] then 0 else StepsLeft(s[0]) + TotalLeft(s[1..])
  }

  lemma {:induction false} TotalAfterUpdate(s: State, i: nat, t: Thread)
    requires i < |s|
    ensures TotalLeft(s[i := t]) == TotalLeft(s) - StepsLeft(s[i]) + StepsLeft(t)
  {
    if i == 0 {
      assert s[i := t][1..] == s[1..];
    } else {
      TotalAfterUpdate(s[1..], i - 1, t);
      assert s[i := t][1..] == s[1..][i - 1 := t];
    }
  }

  lemma StepUsesOne(s: State, step: Step, s': State)
    requires Inv(s) && Next(s, step, s')
    ensures TotalLeft(s') == TotalLeft(s) - 1
  {
    TotalAfterUpdate(s, step.i, s'[step.i]);
  }

  /** On every run conflicting claims are never held together, and the number of steps is
      bounded from the start: each run that is not cut short finishes every thread. */
  lemma {:induction false} RunsAreSafeAndFinite(run: Run)
    requires IsRun(run)
    ensures Inv(Final(run))
    ensures Length(run) + TotalLeft(Final(run)) == TotalLeft(Origin(run))
  {
    match run
    case Start(s) =>
    case Then(before, step, after) =>
      RunsAreSafeAndFinite(before);
      InvNext(Final(before), step, after);
      StepUsesOne(Final(before), step, after);
  }

  /** A run that cannot be extended has finished every thread. */
  lemma StuckMeansFinished(run: Run)
    requires IsRun(run)
    requires !exists step, s' :: Next(Final(run), step, s')
    ensures forall t :: 0 <= t < |Final(run)| ==> Finished(Final(run)[t])
  {
    RunsAreSafeAndFinite(run);
    if exists t :: 0 <= t < |Final(run)| && !Finished(Final(run)[t]) {
      DeadlockFree(Final(run));
    }
  }
}
