/** Tab aliases of a conversation context (src/native_prompt.cpp:673-721, 1164-1253). Tab names
    are taken as already normalised. */
module ContextTabs {
  import opened Wrappers
  import opened Chains

  type Tab = string

  datatype Alias = Alias(alias: Tab, target: Tab)

  const MaxHops: nat := 32

  /** The first alias of a tab. */
  function IndexOf(aliases: seq<Alias>, t: Tab): (n: nat)
    ensures n <= |aliases| && (n < |aliases| ==> aliases[n].alias == t)
    ensures forall i :: 0 <= i < n ==> aliases[i].alias != t
  {
    if aliases == [] || aliases[0].alias == t then 0
    else
      var n := IndexOf(aliases[1..], t);
      assert forall i :: 1 <= i < n + 1 ==> aliases[i] == aliases[1..][i - 1];
      n + 1
  }

  /** One hop; a tab without an alias stays. */
  function Hop(aliases: seq<Alias>, t: Tab): Tab {
    var n := IndexOf(aliases, t);
    if n < |aliases| then aliases[n].target else t
  }

  function Hops(aliases: seq<Alias>): Tab -> Tab {
    t => Hop(aliases, t)
  }

  // --------------------------------------------------------------- resolving

  method FollowAlias(aliases: seq<Alias>, t: Tab) returns (next: Option<Tab>)
    ensures next.None? ==> Terminal(Hops(aliases), t)
    ensures next.Some? ==> next.value == Hops(aliases)(t)
  {
    var n := IndexOf(aliases, t);
    return if n < |aliases| then Some(aliases[n].target) else None;
  }

  /** Following at most so many hops, up to a tab seen before. */
  function Follow(f: Tab -> Tab, t: Tab, seen: set<Tab>, hops: nat): Tab
    decreases hops, t
  {
    if hops == 0 || t in seen then t else Follow(f, f(t), seen + {t}, hops - 1)
  }

  /** The tab that following aliases leads to, whatever they are. */
  function Resolved(aliases: seq<Alias>, t: Tab): Tab {
    Follow(Hops(aliases), t, {}, MaxHops)
  }

  /** It is the end of the chain exactly if the chain ends within 32 hops. */
  lemma ResolvedEnd(aliases: seq<Alias>, t: Tab)
    ensures EndsWithin(Hops(aliases), t, MaxHops) <==> Terminal(Hops(aliases), Resolved(aliases, t))
    ensures EndsWithin(Hops(aliases), t, MaxHops) ==> Resolved(aliases, t) == Chain(Hops(aliases), t, MaxHops)
  {
    FollowEnds(Hops(aliases), t, 0);
  }

  lemma {:induction false} FollowEnds(f: Tab -> Tab, t: Tab, k: nat)
    requires k <= MaxHops
    ensures var r := Follow(f, Chain(f, t, k), Visited(f, t, k), MaxHops - k);
      && (EndsWithin(f, t, MaxHops) <==> Terminal(f, r))
      && (EndsWithin(f, t, MaxHops) ==> r == Chain(f, t, MaxHops))
    decreases MaxHops - k
  {
    if k == MaxHops {
      EndReached(f, t);
    } else if Chain(f, t, k) in Visited(f, t, k) {
      VisitedMember(f, t, k, Chain(f, t, k));
      var i: nat :| i < k && Chain(f, t, k) == Chain(f, t, i);
      SeenAgain(f, t, i, k);
    } else {
      FollowEnds(f, t, k + 1);
      assert Chain(f, t, k + 1) == f(Chain(f, t, k)) && Visited(f, t, k + 1) == Visited(f, t, k) + {Chain(f, t, k)};
    }
  }

  /** At the end of the chain following stays. */
  lemma FollowStays(f: Tab -> Tab, t: Tab, seen: set<Tab>, hops: nat)
    requires Terminal(f, t)
    ensures Follow(f, t, seen, hops) == t
  {
    if hops > 0 && t !in seen { assert Follow(f, t, seen + {t}, hops - 1) == t; }
  }

  /** Follows at most 32 hops, or stops at a tab seen before. It finds the end of the chain
      exactly if the chain ends within 32 hops. */
  method Resolve(aliases: seq<Alias>, t: Tab) returns (r: Tab)
    ensures r == Resolved(aliases, t)
    ensures EndsWithin(Hops(aliases), t, MaxHops) <==> Terminal(Hops(aliases), r)
    ensures EndsWithin(Hops(aliases), t, MaxHops) ==> r == Chain(Hops(aliases), t, MaxHops)
  {
    ResolvedEnd(aliases, t);
    r := t;
    var seen: set<Tab> := {};
    for hop := 0 to MaxHops
      invariant Resolved(aliases, t) == Follow(Hops(aliases), r, seen, MaxHops - hop)
    {
      if r in seen { return; }
      seen := seen + {r};
      var next := FollowAlias(aliases, r);
      if next.None? {
        FollowStays(Hops(aliases), r, seen, MaxHops - hop - 1);
        return;
      }
      r := next.value;
    }
  }

  lemma SeenAgain(f: Tab -> Tab, t: Tab, i: nat, j: nat)
    requires i < j <= MaxHops && Chain(f, t, i) == Chain(f, t, j)
    ensures EndsWithin(f, t, MaxHops) <==> Terminal(f, Chain(f, t, j))
    ensures EndsWithin(f, t, MaxHops) ==> Chain(f, t, j) == Chain(f, t, MaxHops)
  {
    if k: nat :| k <= MaxHops && Terminal(f, Chain(f, t, k)) {
      NoReturn(f, t, i, j, k);
      ChainEnd(f, t, j, MaxHops);
    }
  }

  lemma EndReached(f: Tab -> Tab, t: Tab)
    ensures EndsWithin(f, t, MaxHops) <==> Terminal(f, Chain(f, t, MaxHops))
  {
    if k: nat :| k <= MaxHops && Terminal(f, Chain(f, t, k)) {
      ChainEnd(f, t, k, MaxHops);
    }
  }

  function AliasNames(aliases: seq<Alias>): (names: set<Tab>)
    ensures |names| <= |aliases| && forall i :: 0 <= i < |aliases| ==> aliases[i].alias in names
  {
    if aliases == [] then {}
    else
      var names := AliasNames(aliases[1..]);
      assert forall i :: 1 <= i < |aliases| ==> aliases[i] == aliases[1..][i - 1];
      names + {aliases[0].alias}
  }

  /** With at most 32 aliases and no cycle, resolving always finds the end of the chain. */
  lemma FewAliases(aliases: seq<Alias>, t: Tab)
    requires Acyclic(Hops(aliases)) && |aliases| <= MaxHops
    ensures EndsWithin(Hops(aliases), t, MaxHops)
  {
    var f := Hops(aliases);
    assert Ends(f, t);
    var k: nat :| Terminal(f, Chain(f, t, k));
    forall x | !Terminal(f, x) ensures x in AliasNames(aliases) {
      assert IndexOf(aliases, x) < |aliases|;
    }
    ShortChain(f, AliasNames(aliases), t, k);
  }

  lemma FewResolved(aliases: seq<Alias>, t: Tab)
    requires Acyclic(Hops(aliases)) && |aliases| <= MaxHops
    ensures EndsAt(Hops(aliases), t, Resolved(aliases, t))
  {
    FewAliases(aliases, t);
    ResolvedEnd(aliases, t);
  }

  // ----------------------------------------------------------- adding aliases

  /** setContextTabAlias, once the target is resolved. */
  function SetAlias(aliases: seq<Alias>, alias: Tab, target: Tab): (r: seq<Alias>) {
    var n := IndexOf(aliases, alias);
    if n < |aliases| then aliases[n := Alias(alias, target)] else aliases + [Alias(alias, target)]
  }

  ghost predicate DistinctAliases(aliases: seq<Alias>) {
    forall i, j :: 0 <= i < j < |aliases| ==> aliases[i].alias != aliases[j].alias
  }

  lemma IndexUnique(aliases: seq<Alias>, i: nat)
    requires DistinctAliases(aliases) && i < |aliases|
    ensures IndexOf(aliases, aliases[i].alias) == i
  {
  }

  lemma HopAfterSet(aliases: seq<Alias>, alias: Tab, target: Tab, t: Tab)
    requires DistinctAliases(aliases)
    ensures DistinctAliases(SetAlias(aliases, alias, target))
    ensures Hop(SetAlias(aliases, alias, target), t) == if t == alias then target else Hop(aliases, t)
  {
    var n, r := IndexOf(aliases, alias), SetAlias(aliases, alias, target);
    assert r[n] == Alias(alias, target);
    IndexUnique(r, n);
    var m := IndexOf(aliases, t);
    if m < |aliases| { IndexUnique(r, m); }
  }

  lemma SetAliasAcyclic(aliases: seq<Alias>, alias: Tab, target: Tab)
    requires DistinctAliases(aliases) && Acyclic(Hops(aliases))
    requires Terminal(Hops(aliases), target) || target == alias
    ensures Acyclic(Hops(SetAlias(aliases, alias, target)))
  {
    forall x ensures Hops(SetAlias(aliases, alias, target))(x) == if x == alias then target else Hops(aliases)(x) {
      HopAfterSet(aliases, alias, target, x);
    }
    RedirectAcyclic(Hops(aliases), Hops(SetAlias(aliases, alias, target)), alias, target);
  }

  /** Otherwise, aliasing a tab to one whose chain leads back to it does make a cycle. */
  lemma SetAliasCycle(aliases: seq<Alias>, alias: Tab, target: Tab, k: nat)
    requires DistinctAliases(aliases) && alias != target && Chain(Hops(aliases), target, k) == alias
    requires forall i: nat :: i < k ==> Chain(Hops(aliases), target, i) != alias
    ensures !Acyclic(Hops(SetAlias(aliases, alias, target)))
  {
    forall x ensures Hops(SetAlias(aliases, alias, target))(x) == if x == alias then target else Hops(aliases)(x) {
      HopAfterSet(aliases, alias, target, x);
    }
    RedirectCycle(Hops(aliases), Hops(SetAlias(aliases, alias, target)), alias, target, k);
  }

  /** setContextTabAlias: the target is resolved once more on the way. */
  method PutAlias(aliases: seq<Alias>, alias: Tab, target: Tab) returns (r: seq<Alias>)
    requires DistinctAliases(aliases)
    ensures DistinctAliases(r) && r == SetAlias(aliases, alias, Resolved(aliases, target))
    ensures Acyclic(Hops(aliases)) && EndsWithin(Hops(aliases), target, MaxHops) ==> Acyclic(Hops(r))
  {
    var resolved := Resolve(aliases, target);
    HopAfterSet(aliases, alias, resolved, alias);
    if Acyclic(Hops(aliases)) && EndsWithin(Hops(aliases), target, MaxHops) {
      SetAliasAcyclic(aliases, alias, resolved);
    }
    r := SetAlias(aliases, alias, resolved);
  }

  lemma TerminalResolves(f: Tab -> Tab, t: Tab)
    requires Terminal(f, t)
    ensures EndsWithin(f, t, MaxHops) && Chain(f, t, MaxHops) == t
  {
    assert Terminal(f, Chain(f, t, 0));
    TerminalStays(f, t, MaxHops);
  }

  /** executeAliasTab: the alias leads to what the target leads to, looked up twice. With at most 32
      aliases that is the end of the target's chain, and no cycle is made but a self-loop. */
  method ResolveAndPut(aliases: seq<Alias>, alias: Tab, target: Tab) returns (resolved: Tab, r: seq<Alias>)
    requires DistinctAliases(aliases)
    ensures DistinctAliases(r) && resolved == Resolved(aliases, target)
    ensures r == SetAlias(aliases, alias, Resolved(aliases, resolved))
    ensures Acyclic(Hops(aliases)) && |aliases| <= MaxHops ==>
              Acyclic(Hops(r)) && EndsAt(Hops(aliases), target, resolved) && r == SetAlias(aliases, alias, resolved)
  {
    resolved := Resolve(aliases, target);
    r := PutAlias(aliases, alias, resolved);
    if Acyclic(Hops(aliases)) && |aliases| <= MaxHops {
      FewResolved(aliases, target);
      TerminalResolves(Hops(aliases), resolved);
      ResolvedEnd(aliases, resolved);
    }
  }

  // ---------------------------------------------------- beyond the hop limit

  function Xs(k: nat): (t: Tab)
    ensures |t| == k
  {
    seq(k, _ => 'x')
  }

  /** A chain of n aliases, each tab aliased to the next longer name. */
  function Line(n: nat): (aliases: seq<Alias>)
    ensures |aliases| == n
  {
    seq(n, i requires 0 <= i < n => Alias(Xs(i), Xs(i + 1)))
  }

  lemma LineHop(n: nat, i: nat)
    requires i < n
    ensures Hop(Line(n), Xs(i)) == Xs(i + 1)
  {
    assert Line(n)[i].alias == Xs(i);
    forall j: nat | j < n && j != i ensures Line(n)[j].alias != Xs(i) {
      assert |Xs(j)| == j && |Xs(i)| == i;
    }
  }

  lemma {:induction false} LineChain(n: nat, k: nat)
    requires k <= n
    ensures Chain(Hops(Line(n)), Xs(0), k) == Xs(k)
  {
    if k > 0 {
      LineChain(n, k - 1);
      LineHop(n, k - 1);
    }
  }

  /** With 33 aliases in a line the limit stops one hop before the end. */
  lemma LimitReached()
    ensures !EndsWithin(Hops(Line(33)), Xs(0), MaxHops)
  {
    forall k: nat | k <= MaxHops ensures !Terminal(Hops(Line(33)), Chain(Hops(Line(33)), Xs(0), k)) {
      LineChain(33, k);
      LineHop(33, k);
      assert |Xs(k)| == k && |Xs(k + 1)| == k + 1;
    }
  }
}
