/**
 * What a group release stands on (graph.rs, node.rs): the subscriptions that active nodes hold on their
 * deps, and the cycle a stuck release would need.
 */
module ReleaseModel {
  import opened Prelude
  import opened Digraph

  type Deps = map<nat, seq<nat>>

  /** The subscriptions held by the active ones of `nodes`: one for each place in a dep list. */
  function Held(nodes: seq<nat>, deps: Deps, active: set<nat>): multiset<nat>
    requires Elements(nodes) <= deps.Keys
  {
    if nodes == [] then multiset{}
    else
      var n := |nodes| - 1;
      Held(Init(nodes), deps, active) + (if nodes[n] in active then multiset(deps[nodes[n]]) else multiset{})
  }

  function Init(s: seq<nat>): (r: seq<nat>)
    requires s != []
    ensures Elements(r) <= Elements(s) && s == r + [s[|s| - 1]]
  {
    s[..|s| - 1]
  }

  /** An inactive node holds nothing. */
  lemma {:induction false} HeldWithout(nodes: seq<nat>, deps: Deps, active: set<nat>, a: nat)
    requires Elements(nodes) <= deps.Keys && Distinct(nodes) && a in active
    ensures Held(nodes, deps, active)
            == Held(nodes, deps, active - {a}) + (if a in nodes then multiset(deps[a]) else multiset{})
  {
    if nodes != [] {
      var n := |nodes| - 1;
      DistinctConcat(Init(nodes), [nodes[n]]);
      HeldWithout(Init(nodes), deps, active, a);
    }
  }

  lemma {:induction false} HeldByNone(nodes: seq<nat>, deps: Deps)
    requires Elements(nodes) <= deps.Keys
    ensures Held(nodes, deps, {}) == multiset{}
  {
    if nodes != [] { HeldByNone(Init(nodes), deps); }
  }

  /** A node has a subscription from a node exactly when an active node lists it as a dep. */
  lemma {:induction false} HeldBySome(nodes: seq<nat>, deps: Deps, active: set<nat>, d: nat)
    requires Elements(nodes) <= deps.Keys
    ensures d in Held(nodes, deps, active) <==> exists a :: a in nodes && a in active && d in deps[a]
  {
    if nodes != [] {
      var init, last := Init(nodes), nodes[|nodes| - 1];
      HeldBySome(init, deps, active, d);
      forall a ensures a in nodes <==> a in init || a == last {}
    }
  }

  lemma {:induction false} HeldSplits(nodes: seq<nat>, deps: Deps, a: set<nat>, b: set<nat>)
    requires Elements(nodes) <= deps.Keys && a !! b
    ensures Held(nodes, deps, a + b) == Held(nodes, deps, a) + Held(nodes, deps, b)
  {
    if nodes != [] { HeldSplits(Init(nodes), deps, a, b); }
  }

  /** Summed over some nodes, or over all nodes restricted to those: the same. */
  lemma {:induction false} HeldRestricted(nodes: seq<nat>, deps: Deps, active: set<nat>, members: seq<nat>)
    requires Elements(nodes) <= deps.Keys && Distinct(nodes)
    requires Elements(members) <= Elements(nodes) && Distinct(members)
    ensures Held(nodes, deps, active * Elements(members)) == Held(members, deps, active)
    decreases |members|
  {
    if members == [] {
      HeldByNone(nodes, deps);
      assert active * Elements(members) == {};
    } else {
      var init, m := Init(members), members[|members| - 1];
      DistinctConcat(init, [m]);
      HeldRestricted(nodes, deps, active, init);
      OneMoreMember(active, init, m, members);
      if m in active { HeldWithout(nodes, deps, active * Elements(members), m); }
    }
  }

  lemma OneMoreMember(active: set<nat>, init: seq<nat>, m: nat, members: seq<nat>)
    requires members == init + [m] && m !in init
    ensures if m in active then m in active * Elements(members) && active * Elements(members) - {m} == active * Elements(init)
            else active * Elements(members) == active * Elements(init)
    ensures m in Elements(members)
  {
    assert Elements(members) == Elements(init) + {m};
  }

  /** When a node has no more subscriptions than the members hold, only members subscribe to it. */
  lemma {:induction false} OnlyMembersSubscribe(nodes: seq<nat>, deps: Deps, active: set<nat>, members: seq<nat>,
                                                others: multiset<nat>, d: nat)
    requires Elements(nodes) <= deps.Keys && Distinct(nodes)
    requires Elements(members) <= Elements(nodes) && Distinct(members)
    requires others[d] + Held(nodes, deps, active)[d] <= Held(members, deps, active)[d]
    ensures others[d] == 0
    ensures forall a :: a in nodes && a in active && d in deps[a] ==> a in members
  {
    var inside, outside := active * Elements(members), active - Elements(members);
    assert active == inside + outside;
    HeldSplits(nodes, deps, inside, outside);
    HeldRestricted(nodes, deps, active, members);
    HeldBySome(nodes, deps, outside, d);
  }

  // ---- cycles ----

  /** The members' dep relation, as far as active members subscribe. */
  ghost function ActiveDeps(members: set<nat>, deps: Deps, active: set<nat>): Graph<nat>
    requires members <= deps.Keys
  {
    map a | a in members && a in active :: set d | d in deps[a] && d in members
  }

  /** The same relation from a dep to its active dependents. */
  ghost function ActiveDependents(members: set<nat>, deps: Deps, active: set<nat>): Graph<nat>
    requires members <= deps.Keys
  {
    map d | d in members :: set a | a in members && a in active && d in deps[a]
  }

  function Backwards(p: seq<nat>): (q: seq<nat>)
    ensures |q| == |p| && forall i :: 0 <= i < |p| ==> q[i] == p[|p| - 1 - i]
  {
    seq(|p|, i requires 0 <= i < |p| => p[|p| - 1 - i])
  }

  lemma TurnedRound(members: set<nat>, deps: Deps, active: set<nat>, p: seq<nat>)
    requires members <= deps.Keys && IsCycle(ActiveDependents(members, deps, active), p)
    ensures IsCycle(ActiveDeps(members, deps, active), Backwards(p))
  {
    var q := Backwards(p);
    forall i | 0 <= i < |q| - 1 ensures Edge(ActiveDeps(members, deps, active), q[i], q[i + 1]) {
      assert Edge(ActiveDependents(members, deps, active), p[|p| - 2 - i], p[|p| - 1 - i]);
    }
  }

  /** Some active node of `s` lists `d` as a dep. */
  ghost predicate DependedOnIn(s: set<nat>, deps: Deps, active: set<nat>, d: nat)
    requires s <= deps.Keys
  {
    exists a :: a in s && a in active && d in deps[a]
  }

  /** Every member of the set has an active dependent in the set. */
  ghost predicate SelfHeld(s: set<nat>, deps: Deps, active: set<nat>) {
    s <= deps.Keys && forall d {:trigger DependedOnIn(s, deps, active, d)} :: d in s ==> DependedOnIn(s, deps, active, d)
  }

  lemma DependentIsExit(members: set<nat>, deps: Deps, active: set<nat>, s: set<nat>, d: nat)
    requires members <= deps.Keys && s <= members && d in s && DependedOnIn(s, deps, active, d)
    ensures HasExitWithin(ActiveDependents(members, deps, active), s, d)
  {
    var a :| a in s && a in active && d in deps[a];
    assert Edge(ActiveDependents(members, deps, active), d, a);
  }

  lemma PendingTrapped(members: set<nat>, deps: Deps, active: set<nat>, pending: set<nat>)
    requires members <= deps.Keys && pending <= members && SelfHeld(pending, deps, active)
    ensures Trapped(ActiveDependents(members, deps, active), pending)
  {
    forall d | d in pending ensures HasExitWithin(ActiveDependents(members, deps, active), pending, d) {
      assert DependedOnIn(pending, deps, active, d);
      DependentIsExit(members, deps, active, pending, d);
    }
  }

  /** Where every pending node still has an active pending dependent, the deps have a cycle. */
  lemma StuckHasCycle(members: set<nat>, deps: Deps, active: set<nat>, pending: set<nat>)
    requires members <= deps.Keys && pending <= members && pending != {}
    requires SelfHeld(pending, deps, active)
    ensures Cyclic(ActiveDeps(members, deps, active))
  {
    PendingTrapped(members, deps, active, pending);
    TrappedSetHasCycle(ActiveDependents(members, deps, active), pending);
    CycleTurnsRound(members, deps, active);
  }

  lemma CycleTurnsRound(members: set<nat>, deps: Deps, active: set<nat>)
    requires members <= deps.Keys && Cyclic(ActiveDependents(members, deps, active))
    ensures Cyclic(ActiveDeps(members, deps, active))
  {
    var p :| IsCycle(ActiveDependents(members, deps, active), p);
    TurnedRound(members, deps, active, p);
  }

  lemma CycleHoldsItself(members: set<nat>, deps: Deps, active: set<nat>, p: seq<nat>)
    requires members <= deps.Keys && IsCycle(ActiveDeps(members, deps, active), p)
    ensures Elements(p) <= members * active && p[0] in Elements(p) && SelfHeld(Elements(p), deps, active)
  {
    forall i | 0 <= i < |p| ensures p[i] in members && p[i] in active { OnCycle(members, deps, active, p, i); }
    forall i | 0 <= i < |p| ensures DependedOnIn(Elements(p), deps, active, p[i]) { OnCycle(members, deps, active, p, i); }
  }

  lemma OnCycle(members: set<nat>, deps: Deps, active: set<nat>, p: seq<nat>, i: nat)
    requires members <= deps.Keys && IsCycle(ActiveDeps(members, deps, active), p) && i < |p|
    ensures p[i] in members && p[i] in active
    ensures exists a :: a in p && a in members && a in active && p[i] in deps[a]
  {
    var g := ActiveDeps(members, deps, active);
    var j := if i == 0 then |p| - 1 else i;
    assert Edge(g, p[j - 1], p[j]);
    if i < |p| - 1 { assert Edge(g, p[i], p[i + 1]); } else { assert Edge(g, p[0], p[1]); }
    assert p[j - 1] in p;
  }

  lemma FewerActiveFewerCycles(members: set<nat>, deps: Deps, active: set<nat>, fewer: set<nat>)
    requires members <= deps.Keys && fewer <= active && Cyclic(ActiveDeps(members, deps, fewer))
    ensures Cyclic(ActiveDeps(members, deps, active))
  {
    var p :| IsCycle(ActiveDeps(members, deps, fewer), p);
    forall i | 0 <= i < |p| - 1 ensures Edge(ActiveDeps(members, deps, active), p[i], p[i + 1]) {
      assert Edge(ActiveDeps(members, deps, fewer), p[i], p[i + 1]);
    }
    assert IsCycle(ActiveDeps(members, deps, active), p);
  }
}
