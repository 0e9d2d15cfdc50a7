/** Lists compared as multisets of their elements. */
module Bags {

  function Map<A, B>(f: A -> B, s: seq<A>): (t: seq<B>)
    ensures |t| == |s| && forall i :: 0 <= i < |s| ==> t[i] == f(s[i])
  {
    seq(|s|, i requires 0 <= i < |s| => f(s[i]))
  }

  ghost predicate Distinct<A(!new)>(s: seq<A>) {
    forall i, j :: 0 <= i < j < |s| ==> s[i] != s[j]
  }

  function RemoveAt<A>(s: seq<A>, n: nat): seq<A>
    requires n < |s|
  {
    s[..n] + s[n + 1..]
  }

  lemma BagRemoved<A>(s: seq<A>, n: nat)
    requires n < |s|
    ensures multiset(s) == multiset(RemoveAt(s, n)) + multiset{s[n]}
  {
    assert s == s[..n] + [s[n]] + s[n + 1..];
  }

  lemma BagFirst<A>(s: seq<A>)
    requires s != []
    ensures multiset(s) == multiset{s[0]} + multiset(s[1..])
  {
    assert s == [s[0]] + s[1..];
  }

  lemma {:induction false} MapConcat<A, B>(f: A -> B, a: seq<A>, b: seq<A>)
    ensures Map(f, a + b) == Map(f, a) + Map(f, b)
  {
  }

  lemma CancelOne<A>(x: A, m: multiset<A>, n: multiset<A>)
    requires multiset{x} + m == n + multiset{x}
    ensures m == n
  {
    assert m == (multiset{x} + m) - multiset{x};
    assert n == (n + multiset{x}) - multiset{x};
  }

  lemma FirstMember<A(!new)>(s: seq<A>)
    ensures s != [] ==> s[0] in s
  {
  }

  /** Mapping a function over two lists with the same elements. */
  lemma {:induction false} MapSameBag<A(!new), B>(f: A -> B, a: seq<A>, b: seq<A>)
    requires multiset(a) == multiset(b)
    ensures multiset(Map(f, a)) == multiset(Map(f, b))
    decreases |a|
  {
    if a == [] {
      assert |multiset(b)| == 0;
      assert b == [];
    } else {
      var x := a[0];
      BagFirst(a);
      assert x in multiset(b);
      var n := IndexOf(b, x);
      BagRemoved(b, n);
      CancelOne(x, multiset(a[1..]), multiset(RemoveAt(b, n)));
      MapSameBag(f, a[1..], RemoveAt(b, n));
      MapParts(f, a, b, n);
    }
  }

  lemma IndexOf<A(!new)>(s: seq<A>, x: A) returns (n: nat)
    requires x in s
    ensures n < |s| && s[n] == x
  {
    n :| 0 <= n < |s| && s[n] == x;
  }

  lemma MapParts<A, B>(f: A -> B, a: seq<A>, b: seq<A>, n: nat)
    requires a != [] && n < |b| && b[n] == a[0]
    ensures multiset(Map(f, a)) == multiset{f(a[0])} + multiset(Map(f, a[1..]))
    ensures multiset(Map(f, b)) == multiset{f(a[0])} + multiset(Map(f, RemoveAt(b, n)))
  {
    assert Map(f, a) == [f(a[0])] + Map(f, a[1..]);
    BagFirst(Map(f, a));
    BagRemoved(Map(f, b), n);
    MapRemoved(f, b, n);
  }

  lemma MapRemoved<A, B>(f: A -> B, s: seq<A>, n: nat)
    requires n < |s|
    ensures Map(f, RemoveAt(s, n)) == RemoveAt(Map(f, s), n)
  {
    var a, b := Map(f, RemoveAt(s, n)), RemoveAt(Map(f, s), n);
    assert |a| == |b|;
    forall i | 0 <= i < |a| ensures a[i] == b[i] {
      if i >= n { assert RemoveAt(s, n)[i] == s[i + 1]; }
    }
  }

  /** Lists without repetition and with the same members are permutations of each other. */
  lemma {:induction false} DistinctSameBag<A(!new)>(a: seq<A>, b: seq<A>)
    requires Distinct(a) && Distinct(b)
    requires forall x :: x in a <==> x in b
    ensures multiset(a) == multiset(b)
    decreases |a|
  {
    if a == [] {
      FirstMember(b);
    } else {
      var n := IndexOf(b, a[0]);
      var a', b' := a[1..], RemoveAt(b, n);
      RemovedMembers(a, 0);
      RemovedMembers(b, n);
      assert RemoveAt(a, 0) == a';
      DistinctSameBag(a', b');
      BagFirst(a);
      BagRemoved(b, n);
    }
  }

  lemma RemovedMembers<A(!new)>(s: seq<A>, n: nat)
    requires Distinct(s) && n < |s|
    ensures Distinct(RemoveAt(s, n))
    ensures forall x :: x in RemoveAt(s, n) <==> x in s && x != s[n]
  {
    var t := RemoveAt(s, n);
    forall x | x in s && x != s[n] ensures x in t {
      var i :| 0 <= i < |s| && s[i] == x;
      assert t[if i < n then i else i - 1] == x;
    }
  }

  function FlatMap<A, B>(f: A -> seq<B>, s: seq<A>): seq<B> {
    if s == [] then [] else FlatMap(f, s[..|s| - 1]) + f(s[|s| - 1])
  }

  lemma MapCompose<A, B, C>(f: B -> C, g: A -> B, h: A -> C, s: seq<A>)
    requires forall k :: 0 <= k < |s| ==> f(g(s[k])) == h(s[k])
    ensures Map(f, Map(g, s)) == Map(h, s)
  {
  }

  lemma {:induction false} FlatMapConcat<A, B>(f: A -> seq<B>, a: seq<A>, b: seq<A>)
    ensures FlatMap(f, a + b) == FlatMap(f, a) + FlatMap(f, b)
    decreases |b|
  {
    if b == [] {
      assert a + b == a;
    } else {
      FlatMapConcat(f, a, b[..|b| - 1]);
      assert (a + b)[..|a + b| - 1] == a + b[..|b| - 1];
    }
  }

  lemma FlatMapOne<A, B>(f: A -> seq<B>, x: A)
    ensures FlatMap(f, [x]) == f(x)
  {
    assert [x][..0] == [];
  }

  lemma FlatMapMiddle<A, B>(f: A -> seq<B>, a: seq<A>, x: A, b: seq<A>)
    ensures FlatMap(f, a + ([x] + b)) == FlatMap(f, a) + (f(x) + FlatMap(f, b))
  {
    FlatMapConcat(f, a, [x] + b);
    FlatMapConcat(f, [x], b);
    FlatMapOne(f, x);
  }

  lemma BagMiddle<A>(a: seq<A>, x: seq<A>, b: seq<A>)
    ensures multiset(a + (x + b)) == multiset(x) + multiset(a + b)
  {
  }

  lemma FlatMapAround<A, B>(f: A -> seq<B>, s: seq<A>, n: nat)
    requires n < |s|
    ensures multiset(FlatMap(f, s)) == multiset(f(s[n])) + multiset(FlatMap(f, RemoveAt(s, n)))
  {
    var a, b := s[..n], s[n + 1..];
    assert s == a + ([s[n]] + b);
    FlatMapMiddle(f, a, s[n], b);
    FlatMapConcat(f, a, b);
    BagMiddle(FlatMap(f, a), f(s[n]), FlatMap(f, b));
  }

  lemma {:induction false} FlatMapSameBag<A(!new), B>(f: A -> seq<B>, a: seq<A>, b: seq<A>)
    requires multiset(a) == multiset(b)
    ensures multiset(FlatMap(f, a)) == multiset(FlatMap(f, b))
    decreases |a|
  {
    if a == [] {
      assert |multiset(b)| == 0;
      assert b == [];
    } else {
      assert a[0] in multiset(b);
      var n := IndexOf(b, a[0]);
      BagRemoved(a, 0);
      BagRemoved(b, n);
      CancelOne(a[0], multiset(RemoveAt(a, 0)), multiset(RemoveAt(b, n)));
      FlatMapSameBag(f, RemoveAt(a, 0), RemoveAt(b, n));
      FlatMapAround(f, a, 0);
      FlatMapAround(f, b, n);
    }
  }

  lemma {:induction false} MapMember<A(!new), B(!new)>(f: A -> B, s: seq<A>, y: B)
    ensures y in Map(f, s) <==> exists x :: x in s && f(x) == y
  {
    if y in Map(f, s) {
      var i :| 0 <= i < |s| && Map(f, s)[i] == y;
      assert s[i] in s && f(s[i]) == y;
    }
    if x :| x in s && f(x) == y {
      var i :| 0 <= i < |s| && s[i] == x;
      assert Map(f, s)[i] == y;
    }
  }
}
