/** The atoms of a conversation context (src/native_prompt.cpp:723-753, 779-900, 902-962,
    1187-1253): appending invalidates atoms one message at a time, retagging and merging
    recompute everything, and both always agree. */
module ContextStore {
  import opened Wrappers
  import opened Chains
  import opened ContextTabs

  datatype Atom = Atom(key: string, value: string, tab: Tab, source: nat, active: bool, invalidatedBy: Option<nat>)

  datatype Message = Message(id: nat, tab: Tab)

  datatype ContextError = DuplicateMessage | UnknownMessage

  // ------------------------------------------------------------ specification

  /** A later atom of the same key and tab with another value. */
  predicate Contradicts(later: Atom, earlier: Atom) {
    later.key == earlier.key && later.tab == earlier.tab && later.value != earlier.value
  }

  /** The first of the atoms i+1..n that contradicts atom i. */
  function Invalidator(atoms: seq<Atom>, i: nat, n: nat): (r: Option<nat>)
    requires i < |atoms| && n <= |atoms|
    ensures r.None? <==> forall j :: i < j < n ==> !Contradicts(atoms[j], atoms[i])
    ensures r.Some? ==> i < r.value < n && Contradicts(atoms[r.value], atoms[i])
                        && forall j :: i < j < r.value ==> !Contradicts(atoms[j], atoms[i])
  {
    if n <= i + 1 then None
    else
      var before := Invalidator(atoms, i, n - 1);
      if before.Some? then before
      else if Contradicts(atoms[n - 1], atoms[i]) then Some(n - 1) else None
  }

  /** The status an atom has once the first n atoms have been taken into account. */
  predicate SettledAt(atoms: seq<Atom>, i: nat, n: nat)
    requires i < |atoms| && n <= |atoms|
  {
    match Invalidator(atoms, i, n)
    case None => atoms[i].active && atoms[i].invalidatedBy == None
    case Some(j) => !atoms[i].active && atoms[i].invalidatedBy == Some(atoms[j].source)
  }

  predicate SettledUpTo(atoms: seq<Atom>, n: nat)
    requires n <= |atoms|
  {
    forall i :: 0 <= i < |atoms| ==> SettledAt(atoms, i, n)
  }

  /** Every status is what batch recomputation assigns. */
  predicate Settled(atoms: seq<Atom>) {
    SettledUpTo(atoms, |atoms|)
  }

  /** Active atoms that share key and tab share one value. */
  lemma OneActiveValue(atoms: seq<Atom>, i: nat, j: nat)
    requires Settled(atoms) && i < j < |atoms| && atoms[i].active
    requires atoms[i].key == atoms[j].key && atoms[i].tab == atoms[j].tab
    ensures atoms[i].value == atoms[j].value
  {
    assert SettledAt(atoms, i, |atoms|);
  }

  predicate SameFacts(a: Atom, b: Atom) {
    a.key == b.key && a.value == b.value && a.tab == b.tab && a.source == b.source
  }

  predicate AllSameFacts(a: seq<Atom>, b: seq<Atom>) {
    |a| == |b| && forall i :: 0 <= i < |a| ==> SameFacts(a[i], b[i])
  }

  lemma {:induction false} InvalidatorSame(a: seq<Atom>, b: seq<Atom>, i: nat, n: nat)
    requires AllSameFacts(a, b) && i < |a| && n <= |a|
    ensures Invalidator(a, i, n) == Invalidator(b, i, n)
  {
    if n > i + 1 { InvalidatorSame(a, b, i, n - 1); }
  }

  // ------------------------------------------------------------- recomputing

  /** One atom is compared with atom n and perhaps invalidated by it. */
  function Challenge(atom: Atom, later: Atom): Atom {
    if atom.active && Contradicts(later, atom) then atom.(active := false, invalidatedBy := Some(later.source)) else atom
  }

  lemma ChallengeSettles(atoms: seq<Atom>, after: seq<Atom>, i: nat, n: nat)
    requires AllSameFacts(atoms, after) && i < n < |atoms|
    requires SettledAt(atoms, i, n) && after[i] == Challenge(atoms[i], atoms[n])
    ensures SettledAt(after, i, n + 1)
  {
    InvalidatorSame(atoms, after, i, n);
  }

  /** recomputeContextAtomStatus */
  method Recompute(atoms: seq<Atom>) returns (r: seq<Atom>)
    ensures AllSameFacts(atoms, r) && Settled(r)
  {
    r := seq(|atoms|, i requires 0 <= i < |atoms| => atoms[i].(active := true, invalidatedBy := None));
    for n := 0 to |r|
      invariant AllSameFacts(atoms, r)
      invariant SettledUpTo(r, n)
    {
      ghost var before := r;
      for prior := 0 to n
        invariant AllSameFacts(before, r)
        invariant forall i :: 0 <= i < |r| ==> r[i] == if i < prior then Challenge(before[i], before[n]) else before[i]
      {
        r := r[prior := Challenge(r[prior], r[n])];
      }
      RoundSettles(before, r, n);
    }
  }

  lemma RoundSettles(before: seq<Atom>, after: seq<Atom>, n: nat)
    requires AllSameFacts(before, after) && n < |before| && SettledUpTo(before, n)
    requires forall i :: 0 <= i < |before| ==> after[i] == if i < n then Challenge(before[i], before[n]) else before[i]
    ensures SettledUpTo(after, n + 1)
  {
    var next := n + 1;
    forall i | 0 <= i < |after| ensures SettledAt(after, i, next) {
      assert SettledAt(before, i, n);
      if i < n { ChallengeSettles(before, after, i, n); }
    }
  }

  // --------------------------------------------------------------- appending

  /** Every atom challenged by the new one, which comes last. */
  lemma AppendSettles(atoms: seq<Atom>, after: seq<Atom>, a: Atom)
    requires Settled(atoms) && a.active && a.invalidatedBy == None
    requires |after| == |atoms| + 1 && after[|atoms|] == a
    requires forall i :: 0 <= i < |atoms| ==> after[i] == Challenge(atoms[i], a)
    ensures Settled(after)
  {
    forall i | 0 <= i < |after| ensures SettledAt(after, i, |after|) {
      if i < |atoms| {
        assert SettledAt(atoms, i, |atoms|);
        SettledInLonger(atoms, atoms + [a], i);
        ChallengeSettles(atoms + [a], after, i, |atoms|);
      }
    }
  }

  lemma SettledInLonger(atoms: seq<Atom>, longer: seq<Atom>, i: nat)
    requires |atoms| < |longer| && longer[..|atoms|] == atoms && i < |atoms| && SettledAt(atoms, i, |atoms|)
    ensures SettledAt(longer, i, |atoms|)
  {
    InvalidatorPrefix(atoms, longer, i, |atoms|);
    assert longer[i] == longer[..|atoms|][i];
    match Invalidator(atoms, i, |atoms|)
    case None =>
    case Some(j) => assert longer[j] == longer[..|atoms|][j];
  }

  lemma {:induction false} InvalidatorPrefix(atoms: seq<Atom>, longer: seq<Atom>, i: nat, n: nat)
    requires |atoms| <= |longer| && longer[..|atoms|] == atoms && i < |atoms| && n <= |atoms|
    ensures Invalidator(longer, i, n) == Invalidator(atoms, i, n)
  {
    if n > i + 1 {
      InvalidatorPrefix(atoms, longer, i, n - 1);
      assert longer[n - 1] == longer[..|atoms|][n - 1] && longer[i] == longer[..|atoms|][i];
    }
  }

  method AppendAtom(atoms: seq<Atom>, a: Atom) returns (r: seq<Atom>)
    requires Settled(atoms) && a.active && a.invalidatedBy == None
    ensures Settled(r) && AllSameFacts(r, atoms + [a])
  {
    r := atoms;
    for k := 0 to |atoms|
      invariant |r| == |atoms|
      invariant forall i :: 0 <= i < |r| ==> r[i] == if i < k then Challenge(atoms[i], a) else atoms[i]
    {
      r := r[k := Challenge(r[k], a)];
    }
    r := r + [a];
    AppendSettles(atoms, r, a);
  }

  // -------------------------------------------------------------------- class

  datatype Extracted = Extracted(key: string, value: string)

  function NewAtoms(source: nat, tab: Tab, extracted: seq<Extracted>): (atoms: seq<Atom>)
    ensures |atoms| == |extracted|
  {
    seq(|extracted|, i requires 0 <= i < |extracted| =>
      Atom(extracted[i].key, extracted[i].value, tab, source, true, None))
  }

  lemma NextAtom(before: seq<Atom>, all: seq<Atom>, k: nat)
    requires k < |all|
    ensures before + all[..k + 1] == before + all[..k] + [all[k]]
  {
  }

  /** The facts after moving some atoms to another tab. */
  predicate MovedFacts(before: seq<Atom>, after: seq<Atom>, moves: Atom -> bool, tab: Tab) {
    && |before| == |after|
    && forall i :: 0 <= i < |before| ==>
         SameFacts(after[i], if moves(before[i]) then before[i].(tab := tab) else before[i])
  }

  predicate FirstWith(messages: seq<Message>, id: nat, n: nat)
    requires n < |messages|
  {
    messages[n].id == id && forall i :: 0 <= i < n ==> messages[i].id != id
  }

  class Context {
    var messages: seq<Message>
    var aliases: seq<Alias>
    var atoms: seq<Atom>

    ghost predicate Valid()
      reads this
    {
      Settled(atoms) && DistinctAliases(aliases)
    }

    constructor ()
      ensures Valid() && messages == [] && aliases == [] && atoms == []
    {
      messages, aliases, atoms := [], [], [];
    }

    predicate HasMessage(id: nat)
      reads this
    {
      exists i :: 0 <= i < |messages| && messages[i].id == id
    }

    /** The extractor's findings are a parameter. */
    method Append(id: nat, tab: Tab, extracted: seq<Extracted>) returns (r: Result<Tab, ContextError>)
      requires Valid()
      modifies this`messages, this`atoms
      ensures Valid()
      ensures r.Err? <==> old(HasMessage(id))
      ensures r.Err? ==> r.error == DuplicateMessage && messages == old(messages) && atoms == old(atoms)
      ensures r.Ok? ==> r.value == Resolved(aliases, tab) && messages == old(messages) + [Message(id, r.value)]
                        && AllSameFacts(atoms, old(atoms) + NewAtoms(id, r.value, extracted))
    {
      if HasMessage(id) { return Err(DuplicateMessage); }
      var resolved := Resolve(aliases, tab);
      messages := messages + [Message(id, resolved)];
      ghost var all := NewAtoms(id, resolved, extracted);
      for k := 0 to |extracted|
        invariant Valid() && messages == old(messages) + [Message(id, resolved)]
        invariant AllSameFacts(atoms, old(atoms) + all[..k])
      {
        var a := Atom(extracted[k].key, extracted[k].value, resolved, id, true, None);
        NextAtom(old(atoms), all, k);
        atoms := AppendAtom(atoms, a);
      }
      assert all[..|extracted|] == all;
      return Ok(resolved);
    }

    /** Moves a message and its atoms to another tab. */
    method Tag(id: nat, tab: Tab) returns (r: Result<Tab, ContextError>)
      requires Valid()
      modifies this`messages, this`atoms
      ensures Valid()
      ensures r.Err? <==> !old(HasMessage(id))
      ensures r.Err? ==> r.error == UnknownMessage && messages == old(messages) && atoms == old(atoms)
      ensures r.Ok? ==> r.value == Resolved(aliases, tab) && MovedFacts(old(atoms), atoms, (a: Atom) => a.source == id, r.value)
      ensures r.Ok? ==> exists n :: 0 <= n < |old(messages)| && FirstWith(old(messages), id, n)
                                    && messages == old(messages)[n := Message(id, r.value)]
    {
      var resolved := Resolve(aliases, tab);
      var n := 0;
      while n < |messages| && messages[n].id != id
        invariant n <= |messages| && forall i :: 0 <= i < n ==> messages[i].id != id
      {
        n := n + 1;
      }
      if n == |messages| { return Err(UnknownMessage); }
      assert FirstWith(messages, id, n);
      messages := messages[n := Message(id, resolved)];
      var moved := MoveAtoms(atoms, (a: Atom) => a.source == id, resolved);
      atoms := Recompute(moved);
      return Ok(resolved);
    }

    /** Everything in a tab moves to another, and the old name becomes an alias of the new: with at
        most 32 aliases, what led to the one leads to the other and all else where it did. */
    method Merge(from: Tab, to: Tab) returns (source: Tab, target: Tab)
      requires Valid()
      modifies this
      ensures Valid() && source == Resolved(old(aliases), from) && target == Resolved(old(aliases), to)
      ensures source == target ==> aliases == old(aliases) && atoms == old(atoms) && messages == old(messages)
      ensures source != target ==> aliases == MergedAliases(old(aliases), source, target)
      ensures source != target && Acyclic(Hops(old(aliases))) && |old(aliases)| <= MaxHops ==>
                EndsAt(Hops(old(aliases)), from, source) && EndsAt(Hops(old(aliases)), to, target)
                && Acyclic(Hops(aliases)) && LeadsOver(old(aliases), aliases, source, target)
      ensures source != target ==> |messages| == |old(messages)| && forall i :: 0 <= i < |messages| ==>
                messages[i] == old(messages)[i].(tab := TabMoved(old(messages)[i].tab, old(aliases), source, target))
      ensures source != target ==> |atoms| == |old(atoms)| && forall i :: 0 <= i < |atoms| ==>
                SameFacts(atoms[i], old(atoms)[i].(tab := TabMoved(old(atoms)[i].tab, old(aliases), source, target)))
    {
      source := Resolve(aliases, from);
      target := Resolve(aliases, to);
      if source == target { return; }
      messages := MoveMessages(messages, aliases, source, target);
      atoms := MergeAtoms(atoms, aliases, source, target);
      if Acyclic(Hops(aliases)) && |aliases| <= MaxHops {
        FewResolved(aliases, from);
        FewResolved(aliases, to);
        MergedLeads(aliases, source, target);
      }
      MergedDistinct(aliases, source, target);
      aliases := MergeAliases(aliases, source, target);
    }

    method AliasTab(alias: Tab, target: Tab) returns (resolved: Tab)
      requires Valid()
      modifies this`aliases
      ensures Valid() && resolved == Resolved(old(aliases), target)
      ensures aliases == SetAlias(old(aliases), alias, Resolved(old(aliases), resolved))
      ensures Acyclic(Hops(old(aliases))) && |old(aliases)| <= MaxHops ==>
                Acyclic(Hops(aliases)) && EndsAt(Hops(old(aliases)), target, resolved)
                && aliases == SetAlias(old(aliases), alias, resolved)
    {
      resolved, aliases := ResolveAndPut(aliases, alias, target);
    }
  }

  // ------------------------------------------------------------------- merging

  /** The first k aliases whose target resolves to the source are redirected to the merge's target. */
  ghost function Redirected(aliases: seq<Alias>, source: Tab, target: Tab, k: nat): (r: seq<Alias>)
    requires k <= |aliases|
    ensures |r| == |aliases|
  {
    if k == 0 then aliases
    else
      Redirect(Redirected(aliases, source, target, k - 1), k - 1, source, target)
  }

  ghost function Redirect(aliases: seq<Alias>, n: nat, source: Tab, target: Tab): (r: seq<Alias>)
    requires n < |aliases|
    ensures |r| == |aliases|
  {
    if Resolved(aliases, aliases[n].target) == source then aliases[n := Alias(aliases[n].alias, target)] else aliases
  }

  ghost function MergedAliases(aliases: seq<Alias>, source: Tab, target: Tab): seq<Alias> {
    var redirected := Redirected(aliases, source, target, |aliases|);
    SetAlias(redirected, source, Resolved(redirected, target))
  }

  /** What led to the source leads to the target, and all else where it did. */
  ghost predicate LeadsOver(aliases: seq<Alias>, after: seq<Alias>, source: Tab, target: Tab) {
    forall t, x :: EndsAt(Hops(aliases), t, x) ==> EndsAt(Hops(after), t, if x == source then target else x)
  }

  lemma {:induction false} RedirectedDistinct(aliases: seq<Alias>, source: Tab, target: Tab, k: nat)
    requires DistinctAliases(aliases) && k <= |aliases|
    ensures DistinctAliases(Redirected(aliases, source, target, k))
  {
    if k > 0 { RedirectedDistinct(aliases, source, target, k - 1); }
  }

  lemma MergedDistinct(aliases: seq<Alias>, source: Tab, target: Tab)
    requires DistinctAliases(aliases)
    ensures DistinctAliases(MergedAliases(aliases, source, target))
  {
    var redirected := Redirected(aliases, source, target, |aliases|);
    RedirectedDistinct(aliases, source, target, |aliases|);
    HopAfterSet(redirected, source, Resolved(redirected, target), source);
  }

  /** Midway: what leads elsewhere is as it was; what led to the source does so or leads to the target. */
  ghost predicate LeadsPartly(aliases: seq<Alias>, after: seq<Alias>, source: Tab, target: Tab) {
    forall t, x :: EndsAt(Hops(aliases), t, x) ==>
      EndsAt(Hops(after), t, x) || (x == source && EndsAt(Hops(after), t, target))
  }

  /** Redirecting one alias as a function on tabs. */
  lemma SetHops(aliases: seq<Alias>, alias: Tab, target: Tab)
    requires DistinctAliases(aliases)
    ensures forall x :: Hops(SetAlias(aliases, alias, target))(x) == if x == alias then target else Hops(aliases)(x)
  {
    forall x ensures Hops(SetAlias(aliases, alias, target))(x) == if x == alias then target else Hops(aliases)(x) {
      HopAfterSet(aliases, alias, target, x);
    }
  }

  lemma {:induction false} RedirectedLeads(aliases: seq<Alias>, source: Tab, target: Tab, k: nat)
    requires DistinctAliases(aliases) && Acyclic(Hops(aliases)) && |aliases| <= MaxHops && k <= |aliases|
    requires source != target && Terminal(Hops(aliases), source) && Terminal(Hops(aliases), target)
    ensures var r := Redirected(aliases, source, target, k);
      DistinctAliases(r) && Acyclic(Hops(r)) && Terminal(Hops(r), target) && LeadsPartly(aliases, r, source, target)
  {
    if k > 0 {
      RedirectedLeads(aliases, source, target, k - 1);
      LeadsNext(aliases, Redirected(aliases, source, target, k - 1), k - 1, source, target);
    }
  }

  lemma LeadsNext(aliases: seq<Alias>, before: seq<Alias>, n: nat, source: Tab, target: Tab)
    requires DistinctAliases(before) && Acyclic(Hops(before)) && n < |before| <= MaxHops && source != target
    requires Terminal(Hops(before), target) && LeadsPartly(aliases, before, source, target)
    ensures var r := Redirect(before, n, source, target);
      DistinctAliases(r) && Acyclic(Hops(r)) && Terminal(Hops(r), target) && LeadsPartly(aliases, r, source, target)
  {
    var a, e := before[n].alias, before[n].target;
    if Resolved(before, e) == source {
      IndexUnique(before, n);
      FewResolved(before, e);
      assert Hops(before)(a) == e;
      EndBefore(Hops(before), a, source);
      RedirectStep(aliases, before, source, target, a);
      assert SetAlias(before, a, target) == before[n := Alias(a, target)];
    }
  }

  lemma RedirectStep(aliases: seq<Alias>, before: seq<Alias>, source: Tab, target: Tab, a: Tab)
    requires DistinctAliases(before) && Acyclic(Hops(before)) && source != target
    requires Terminal(Hops(before), target) && LeadsPartly(aliases, before, source, target)
    requires EndsAt(Hops(before), a, source)
    ensures var r := SetAlias(before, a, target);
      DistinctAliases(r) && Acyclic(Hops(r)) && Terminal(Hops(r), target) && LeadsPartly(aliases, r, source, target)
  {
    var r := SetAlias(before, a, target);
    SetHops(before, a, target);
    HopAfterSet(before, a, target, a);
    SetAliasAcyclic(before, a, target);
    EndHere(Hops(before), target);
    if a == target { EndUnique(Hops(before), a, source, target); }
    forall t, x | EndsAt(Hops(aliases), t, x) ensures EndsAt(Hops(r), t, x) || (x == source && EndsAt(Hops(r), t, target)) {
      LeadStep(before, r, source, target, a, t, if EndsAt(Hops(before), t, x) then x else target);
    }
  }

  lemma LeadStep(before: seq<Alias>, r: seq<Alias>, source: Tab, target: Tab, a: Tab, t: Tab, x: Tab)
    requires a != target && Terminal(Hops(before), target) && EndsAt(Hops(before), a, source) && EndsAt(Hops(before), t, x)
    requires forall y :: Hops(r)(y) == if y == a then target else Hops(before)(y)
    ensures EndsAt(Hops(r), t, x) || (x == source && EndsAt(Hops(r), t, target))
  {
    var k: nat :| Chain(Hops(before), t, k) == x;
    RedirectedEnd(Hops(before), Hops(r), a, target, t, x, k);
    if EndsAt(Hops(before), a, x) { EndUnique(Hops(before), a, x, source); }
  }

  lemma MergedLeads(aliases: seq<Alias>, source: Tab, target: Tab)
    requires DistinctAliases(aliases) && Acyclic(Hops(aliases)) && |aliases| <= MaxHops
    requires source != target && Terminal(Hops(aliases), source) && Terminal(Hops(aliases), target)
    ensures Acyclic(Hops(MergedAliases(aliases, source, target)))
    ensures LeadsOver(aliases, MergedAliases(aliases, source, target), source, target)
  {
    var mid, after := Redirected(aliases, source, target, |aliases|), MergedAliases(aliases, source, target);
    RedirectedLeads(aliases, source, target, |aliases|);
    TerminalResolves(Hops(mid), target);
    ResolvedEnd(mid, target);
    SetHops(mid, source, target);
    SetAliasAcyclic(mid, source, target);
    EndHere(Hops(aliases), source);
    forall t, x | EndsAt(Hops(aliases), t, x) ensures EndsAt(Hops(after), t, if x == source then target else x) {
      LastStep(mid, after, source, target, t, x, if EndsAt(Hops(mid), t, x) then x else target);
    }
  }

  lemma LastStep(mid: seq<Alias>, after: seq<Alias>, source: Tab, target: Tab, t: Tab, x: Tab, y: Tab)
    requires source != target && Terminal(Hops(mid), target) && EndsAt(Hops(mid), t, y)
    requires EndsAt(Hops(mid), source, source) || EndsAt(Hops(mid), source, target)
    requires y == x || (x == source && y == target)
    requires forall z :: Hops(after)(z) == if z == source then target else Hops(mid)(z)
    ensures EndsAt(Hops(after), t, if x == source then target else x)
  {
    var k: nat :| Chain(Hops(mid), t, k) == y;
    RedirectedEnd(Hops(mid), Hops(after), source, target, t, y, k);
    if EndsAt(Hops(mid), source, y) {
      if EndsAt(Hops(mid), source, source) { EndUnique(Hops(mid), source, y, source); } else { EndUnique(Hops(mid), source, y, target); }
    }
  }

  method RedirectOne(aliases: seq<Alias>, n: nat, source: Tab, target: Tab) returns (r: seq<Alias>)
    requires n < |aliases|
    ensures r == Redirect(aliases, n, source, target)
  {
    var resolved := Resolve(aliases, aliases[n].target);
    r := if resolved == source then aliases[n := Alias(aliases[n].alias, target)] else aliases;
  }

  method RedirectAliases(aliases: seq<Alias>, source: Tab, target: Tab) returns (r: seq<Alias>)
    ensures r == Redirected(aliases, source, target, |aliases|)
  {
    r := aliases;
    for k := 0 to |aliases|
      invariant r == Redirected(aliases, source, target, k)
    {
      r := RedirectOne(r, k, source, target);
    }
  }

  method MergeAliases(aliases: seq<Alias>, source: Tab, target: Tab) returns (r: seq<Alias>)
    requires DistinctAliases(aliases)
    ensures r == MergedAliases(aliases, source, target)
  {
    var redirected := RedirectAliases(aliases, source, target);
    RedirectedDistinct(aliases, source, target, |aliases|);
    r := PutAlias(redirected, source, target);
  }

  /** A tab moves exactly if it resolves to the merged one. */
  function TabMoved(tab: Tab, aliases: seq<Alias>, source: Tab, target: Tab): Tab {
    if Resolved(aliases, tab) == source then target else tab
  }

  method MoveOne(tab: Tab, aliases: seq<Alias>, source: Tab, target: Tab) returns (r: Tab)
    ensures r == TabMoved(tab, aliases, source, target)
  {
    var resolved := Resolve(aliases, tab);
    r := if resolved == source then target else tab;
  }

  method MoveMessages(messages: seq<Message>, aliases: seq<Alias>, source: Tab, target: Tab) returns (r: seq<Message>)
    ensures |r| == |messages|
    ensures forall i :: 0 <= i < |r| ==> r[i] == messages[i].(tab := TabMoved(messages[i].tab, aliases, source, target))
  {
    r := messages;
    for k := 0 to |messages|
      invariant |r| == |messages|
      invariant forall i :: 0 <= i < k ==> r[i] == messages[i].(tab := TabMoved(messages[i].tab, aliases, source, target))
      invariant forall i :: k <= i < |r| ==> r[i] == messages[i]
    {
      var tab := MoveOne(messages[k].tab, aliases, source, target);
      r := r[k := messages[k].(tab := tab)];
    }
  }

  method MoveTab(atoms: seq<Atom>, aliases: seq<Alias>, source: Tab, target: Tab) returns (r: seq<Atom>)
    ensures |r| == |atoms|
    ensures forall i :: 0 <= i < |r| ==> r[i] == atoms[i].(tab := TabMoved(atoms[i].tab, aliases, source, target))
  {
    r := [];
    for k := 0 to |atoms|
      invariant |r| == k
      invariant forall i :: 0 <= i < k ==> r[i] == atoms[i].(tab := TabMoved(atoms[i].tab, aliases, source, target))
    {
      var tab := MoveOne(atoms[k].tab, aliases, source, target);
      r := r + [atoms[k].(tab := tab)];
    }
  }

  method MergeAtoms(atoms: seq<Atom>, aliases: seq<Alias>, source: Tab, target: Tab) returns (r: seq<Atom>)
    ensures Settled(r) && |r| == |atoms|
    ensures forall i :: 0 <= i < |r| ==>
      SameFacts(r[i], atoms[i].(tab := TabMoved(atoms[i].tab, aliases, source, target)))
  {
    var moved := MoveTab(atoms, aliases, source, target);
    r := Recompute(moved);
    forall i | 0 <= i < |r| ensures SameFacts(r[i], atoms[i].(tab := TabMoved(atoms[i].tab, aliases, source, target))) {
      assert SameFacts(moved[i], r[i]);
    }
  }

  method MoveAtoms(atoms: seq<Atom>, moves: Atom -> bool, tab: Tab) returns (r: seq<Atom>)
    ensures MovedFacts(atoms, r, moves, tab)
  {
    r := atoms;
    for k := 0 to |atoms|
      invariant |r| == |atoms|
      invariant forall i :: 0 <= i < |r| ==> r[i] == if i < k && moves(atoms[i]) then atoms[i].(tab := tab) else atoms[i]
    {
      if moves(atoms[k]) { r := r[k := atoms[k].(tab := tab)]; }
    }
  }
}
