/** Following a function from point to point. */
module Chains {

  function Chain<T>(f: T -> T, t: T, k: nat): T {
    if k == 0 then t else f(Chain(f, t, k - 1))
  }

  /** The end of a chain: a fixed point. */
  predicate Terminal<T(==)>(f: T -> T, t: T) {
    f(t) == t
  }

  ghost predicate EndsWithin<T(!new)>(f: T -> T, t: T, hops: nat) {
    exists k: nat :: k <= hops && Terminal(f, Chain(f, t, k))
  }

  ghost predicate Ends<T(!new)>(f: T -> T, t: T) {
    exists k: nat :: Terminal(f, Chain(f, t, k))
  }

  /** No cycle but self-loops. */
  ghost predicate Acyclic<T(!new)>(f: T -> T) {
    forall t :: Ends(f, t)
  }

  lemma {:induction false} ChainSplit<T>(f: T -> T, t: T, k: nat, l: nat)
    ensures Chain(f, t, k + l) == Chain(f, Chain(f, t, k), l)
  {
    if l > 0 { ChainSplit(f, t, k, l - 1); }
  }

  lemma ChainFromNext<T>(f: T -> T, t: T, k: nat)
    requires k > 0
    ensures Chain(f, t, k) == Chain(f, f(t), k - 1)
  {
    ChainSplit(f, t, 1, k - 1);
    assert Chain(f, t, 1) == f(Chain(f, t, 0));
  }

  lemma {:induction false} TerminalStays<T>(f: T -> T, t: T, k: nat)
    requires Terminal(f, t)
    ensures Chain(f, t, k) == t
  {
    if k > 0 { TerminalStays(f, t, k - 1); }
  }

  /** After the end of the chain nothing changes. */
  lemma ChainEnd<T>(f: T -> T, t: T, k: nat, l: nat)
    requires Terminal(f, Chain(f, t, k)) && k <= l
    ensures Chain(f, t, l) == Chain(f, t, k)
  {
    ChainSplit(f, t, k, l - k);
    TerminalStays(f, Chain(f, t, k), l - k);
  }

  /** A chain that returns to a point before its end never ends. */
  lemma {:induction false} NoReturn<T>(f: T -> T, t: T, i: nat, j: nat, k: nat)
    requires i < j && Chain(f, t, i) == Chain(f, t, j)
    requires Terminal(f, Chain(f, t, k))
    ensures Terminal(f, Chain(f, t, i))
    decreases k
  {
    if k <= i {
      ChainEnd(f, t, k, i);
    } else if k < j {
      ChainEnd(f, t, k, j);
    } else {
      ChainSplit(f, t, j, k - j);
      ChainSplit(f, t, i, k - j);
      NoReturn(f, t, i, j, i + (k - j));
    }
  }

  /** Redirecting one point to an end, or to itself, makes no cycle but a self-loop. */
  lemma {:induction false} StillEnds<T(!new)>(f: T -> T, g: T -> T, a: T, e: T, t: T, k: nat)
    requires forall x :: g(x) == if x == a then e else f(x)
    requires Terminal(f, e) || e == a
    requires Terminal(f, Chain(f, t, k))
    ensures Ends(g, t)
    decreases k
  {
    assert Terminal(g, e);
    if t == a {
      assert Chain(g, t, 1) == g(Chain(g, t, 0));
      assert Terminal(g, Chain(g, t, 1));
    } else if k == 0 {
      assert Terminal(g, Chain(g, t, 0));
    } else {
      ChainFromNext(f, t, k);
      StillEnds(f, g, a, e, f(t), k - 1);
      var l: nat :| Terminal(g, Chain(g, f(t), l));
      ChainFromNext(g, t, l + 1);
      assert Terminal(g, Chain(g, t, l + 1));
    }
  }

  lemma RedirectAcyclic<T(!new)>(f: T -> T, g: T -> T, a: T, e: T)
    requires Acyclic(f) && (Terminal(f, e) || e == a)
    requires forall x :: g(x) == if x == a then e else f(x)
    ensures Acyclic(g)
  {
    forall t ensures Ends(g, t) {
      assert Ends(f, t);
      var k: nat :| Terminal(f, Chain(f, t, k));
      StillEnds(f, g, a, e, t, k);
    }
  }

  /** The chain from this point ends there. */
  ghost predicate EndsAt<T(!new)>(f: T -> T, t: T, e: T) {
    Terminal(f, e) && exists k: nat :: Chain(f, t, k) == e
  }

  lemma EndUnique<T(!new)>(f: T -> T, t: T, a: T, b: T)
    requires EndsAt(f, t, a) && EndsAt(f, t, b)
    ensures a == b
  {
    var k: nat :| Chain(f, t, k) == a;
    var l: nat :| Chain(f, t, l) == b;
    if k <= l { ChainEnd(f, t, k, l); } else { ChainEnd(f, t, l, k); }
  }

  lemma EndHere<T(!new)>(f: T -> T, e: T)
    requires Terminal(f, e)
    ensures EndsAt(f, e, e)
  {
    assert Chain(f, e, 0) == e;
  }

  lemma EndBefore<T(!new)>(f: T -> T, t: T, e: T)
    requires EndsAt(f, f(t), e)
    ensures EndsAt(f, t, e)
  {
    var k: nat :| Chain(f, f(t), k) == e;
    ChainFromNext(f, t, k + 1);
  }

  /** Redirecting one point to an end: chains end where they did, or where they passed the point,
      there. */
  lemma {:induction false} RedirectedEnd<T(!new)>(f: T -> T, g: T -> T, a: T, e: T, t: T, x: T, k: nat)
    requires forall y :: g(y) == if y == a then e else f(y)
    requires Terminal(f, e) && e != a && Terminal(f, x) && Chain(f, t, k) == x
    ensures (EndsAt(g, t, x) && x != a) || (EndsAt(g, t, e) && EndsAt(f, a, x))
    decreases k
  {
    if t == a {
      assert Chain(g, a, 0) == a;
      assert Chain(g, a, 1) == g(Chain(g, a, 0)) == e;
      assert Terminal(g, e);
    } else if k == 0 {
      assert Chain(g, t, 0) == t;
    } else {
      ChainFromNext(f, t, k);
      RedirectedEnd(f, g, a, e, f(t), x, k - 1);
      assert g(t) == f(t);
      if EndsAt(g, f(t), x) && x != a { EndBefore(g, t, x); } else { EndBefore(g, t, e); }
    }
  }

  /** Redirecting a point to one whose chain leads back to it does make a cycle. */
  lemma RedirectCycle<T(!new)>(f: T -> T, g: T -> T, a: T, e: T, k: nat)
    requires a != e && Chain(f, e, k) == a && forall i: nat :: i < k ==> Chain(f, e, i) != a
    requires forall x :: g(x) == if x == a then e else f(x)
    ensures !Acyclic(g)
  {
    SameUntil(f, g, a, e, k);
    if Ends(g, e) {
      var n: nat :| Terminal(g, Chain(g, e, n));
      assert Chain(g, e, k + 1) == Chain(g, e, 0);
      NoReturn(g, e, 0, k + 1, n);
      TerminalStays(g, e, k);
    }
  }

  lemma {:induction false} SameUntil<T(!new)>(f: T -> T, g: T -> T, a: T, e: T, k: nat)
    requires forall x :: g(x) == if x == a then e else f(x)
    requires forall i: nat :: i < k ==> Chain(f, e, i) != a
    ensures Chain(g, e, k) == Chain(f, e, k)
  {
    if k > 0 { SameUntil(f, g, a, e, k - 1); }
  }

  // -------------------------------------------------- short chains

  ghost function Visited<T>(f: T -> T, t: T, k: nat): set<T> {
    if k == 0 then {} else Visited(f, t, k - 1) + {Chain(f, t, k - 1)}
  }

  lemma {:induction false} VisitedMember<T>(f: T -> T, t: T, k: nat, x: T)
    ensures x in Visited(f, t, k) <==> exists i: nat :: i < k && x == Chain(f, t, i)
  {
    if k > 0 {
      VisitedMember(f, t, k - 1, x);
      assert x == Chain(f, t, k - 1) ==> exists i: nat :: i < k && x == Chain(f, t, i);
      if i: nat :| i < k && x == Chain(f, t, i) {
        assert i < k - 1 || i == k - 1;
      }
    }
  }

  /** Before its end a chain visits a new point with each hop, none of them fixed. */
  lemma {:induction false} VisitedSize<T(!new)>(f: T -> T, t: T, k: nat)
    requires Ends(f, t) && forall i: nat :: i < k ==> !Terminal(f, Chain(f, t, i))
    ensures |Visited(f, t, k)| == k
    ensures forall x :: x in Visited(f, t, k) ==> !Terminal(f, x)
  {
    if k > 0 {
      VisitedSize(f, t, k - 1);
      var x := Chain(f, t, k - 1);
      VisitedMember(f, t, k - 1, x);
      if x in Visited(f, t, k - 1) {
        var i: nat :| i < k - 1 && x == Chain(f, t, i);
        var e: nat :| Terminal(f, Chain(f, t, e));
        NoReturn(f, t, i, k - 1, e);
      }
    }
  }

  /** If all points but these are fixed, every chain ends within as many hops. */
  lemma {:induction false} ShortChain<T(!new)>(f: T -> T, moved: set<T>, t: T, k: nat)
    requires Terminal(f, Chain(f, t, k)) && forall x :: !Terminal(f, x) ==> x in moved
    ensures EndsWithin(f, t, |moved|)
    decreases k
  {
    if k > |moved| {
      if forall i: nat :: i < k ==> !Terminal(f, Chain(f, t, i)) {
        VisitedSize(f, t, k);
        SubsetSize(Visited(f, t, k), moved);
      } else {
        var i: nat :| i < k && Terminal(f, Chain(f, t, i));
        ShortChain(f, moved, t, i);
      }
    }
  }

  lemma {:induction false} SubsetSize<T>(a: set<T>, b: set<T>)
    requires a <= b
    ensures |a| <= |b|
  {
    assert b == a + (b - a);
  }
}
