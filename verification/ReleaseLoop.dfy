/**
 * Releasing the runtimes of a group (graph.rs) as a step function: a repeated scan frees every pending
 * node nobody subscribes to.  Freeing a node drops its subscriptions on its deps; a dep that thereby
 * loses its last subscriber goes inactive and drops its own (node.rs).
 */
module ReleaseLoop {
  import opened Prelude
  import opened Digraph
  import opened ReleaseModel

  datatype World = World(nodes: seq<nat>, deps: Deps, observed: multiset<nat>)

  datatype Runtime = Runtime(active: set<nat>, subs: multiset<nat>)

  /** One release: the node, and who was still active when it went. */
  datatype Release = Release(node: nat, active: set<nat>)

  datatype Progress = Progress(rt: Runtime, pending: seq<nat>, released: seq<Release>)

  ghost predicate WellFormed(w: World) {
    && Distinct(w.nodes) && Elements(w.nodes) == w.deps.Keys
    && forall a, d :: a in w.deps && d in w.deps[a] ==> d in w.deps
  }

  // ---- the cascade ----

  function Subscribers(w: World, rt: Runtime, d: nat): nat {
    rt.subs[d] + w.observed[d]
  }

  /** One subscription on `d` ends; with the last one `d` goes inactive. */
  function Unsubscribed(w: World, rt: Runtime, d: nat): (r: Runtime)
    ensures r.active <= rt.active
    decreases |rt.active|, 1, 0
  {
    var left := rt.(subs := rt.subs - multiset{d});
    if rt.subs[d] > 0 && Subscribers(w, left, d) == 0 then Deactivated(w, left, d) else left
  }

  function Deactivated(w: World, rt: Runtime, d: nat): (r: Runtime)
    ensures r.active <= rt.active && d !in r.active
    decreases |rt.active|, 0, 0
  {
    if d !in rt.active then rt
    else
      var quiet := rt.(active := rt.active - {d});
      assert |quiet.active| < |rt.active|;
      if d in w.deps then AllUnsubscribed(w, quiet, w.deps[d]) else quiet
  }

  function AllUnsubscribed(w: World, rt: Runtime, ds: seq<nat>): (r: Runtime)
    ensures r.active <= rt.active
    decreases |rt.active|, 2, |ds|
  {
    if ds == [] then rt
    else
      var next := Unsubscribed(w, rt, ds[0]);
      FewerOrEqual(next.active, rt.active);
      AllUnsubscribed(w, next, ds[1..])
  }

  lemma FewerOrEqual(a: set<nat>, b: set<nat>)
    requires a <= b
    ensures |a| <= |b|
  {
    if a != b {
      assert |b - a| > 0 || b - a == {};
      assert b == a + (b - a);
    }
  }

  /** The subscriptions are those of outsiders, of active nodes, and those about to be dropped. */
  ghost predicate Sound(w: World, rt: Runtime, others: multiset<nat>, owed: multiset<nat>) {
    && WellFormed(w)
    && rt.subs == others + Held(w.nodes, w.deps, rt.active) + owed
  }

  lemma {:induction false} UnsubscribedSound(w: World, rt: Runtime, d: nat, others: multiset<nat>, owed: multiset<nat>)
    requires Sound(w, rt, others, owed + multiset{d})
    ensures Sound(w, Unsubscribed(w, rt, d), others, owed)
    decreases |rt.active|, 1, 0
  {
    var left := rt.(subs := rt.subs - multiset{d});
    assert left.subs == others + Held(w.nodes, w.deps, rt.active) + owed;
    if Subscribers(w, left, d) == 0 { DeactivatedSound(w, left, d, others, owed); }
  }

  lemma {:induction false} DeactivatedSound(w: World, rt: Runtime, d: nat, others: multiset<nat>, owed: multiset<nat>)
    requires Sound(w, rt, others, owed)
    ensures Sound(w, Deactivated(w, rt, d), others, owed)
    decreases |rt.active|, 0, 0
  {
    if d in rt.active {
      var quiet := rt.(active := rt.active - {d});
      HeldWithout(w.nodes, w.deps, rt.active, d);
      if d in w.deps {
        assert d in w.nodes;
        AllUnsubscribedSound(w, quiet, w.deps[d], others, owed);
      }
    }
  }

  lemma {:induction false} AllUnsubscribedSound(w: World, rt: Runtime, ds: seq<nat>, others: multiset<nat>,
                                                owed: multiset<nat>)
    requires Sound(w, rt, others, owed + multiset(ds))
    ensures Sound(w, AllUnsubscribed(w, rt, ds), others, owed)
    decreases |rt.active|, 2, |ds|
  {
    if ds != [] {
      assert ds == [ds[0]] + ds[1..];
      assert owed + multiset(ds) == owed + multiset(ds[1..]) + multiset{ds[0]};
      UnsubscribedSound(w, rt, ds[0], others, owed + multiset(ds[1..]));
      FewerOrEqual(Unsubscribed(w, rt, ds[0]).active, rt.active);
      AllUnsubscribedSound(w, Unsubscribed(w, rt, ds[0]), ds[1..], others, owed);
    }
  }

  /** Active nodes that hold one another up outlast any cascade. */
  ghost predicate Upheld(w: World, rt: Runtime, s: set<nat>) {
    SelfHeld(s, w.deps, rt.active) && s <= rt.active
  }

  lemma UpheldHasSubscriber(w: World, rt: Runtime, s: set<nat>, d: nat, others: multiset<nat>, owed: multiset<nat>)
    requires Sound(w, rt, others, owed) && Upheld(w, rt, s) && d in s
    ensures rt.subs[d] > 0
  {
    assert DependedOnIn(s, w.deps, rt.active, d);
    var a :| a in s && a in rt.active && d in w.deps[a];
    assert a in w.nodes;
    HeldBySome(w.nodes, w.deps, rt.active, d);
  }

  lemma FewerStillUpheld(w: World, rt: Runtime, s: set<nat>, quiet: Runtime)
    requires Upheld(w, rt, s) && s <= quiet.active
    ensures Upheld(w, quiet, s)
  {
    forall d | d in s ensures DependedOnIn(s, w.deps, quiet.active, d) {
      assert DependedOnIn(s, w.deps, rt.active, d);
    }
  }

  lemma {:induction false} UnsubscribedKeeps(w: World, rt: Runtime, d: nat, s: set<nat>, others: multiset<nat>,
                                             owed: multiset<nat>)
    requires Sound(w, rt, others, owed + multiset{d}) && Upheld(w, rt, s)
    ensures s <= Unsubscribed(w, rt, d).active
    decreases |rt.active|, 1, 0
  {
    var left := rt.(subs := rt.subs - multiset{d});
    assert left.subs == others + Held(w.nodes, w.deps, rt.active) + owed;
    if Subscribers(w, left, d) == 0 {
      if d in s { UpheldHasSubscriber(w, left, s, d, others, owed); }
      DeactivatedKeeps(w, left, d, s, others, owed);
    }
  }

  lemma {:induction false} DeactivatedKeeps(w: World, rt: Runtime, d: nat, s: set<nat>, others: multiset<nat>,
                                            owed: multiset<nat>)
    requires Sound(w, rt, others, owed) && Upheld(w, rt, s) && d !in s
    ensures s <= Deactivated(w, rt, d).active
    decreases |rt.active|, 0, 0
  {
    if d in rt.active {
      var quiet := rt.(active := rt.active - {d});
      HeldWithout(w.nodes, w.deps, rt.active, d);
      FewerStillUpheld(w, rt, s, quiet);
      if d in w.deps {
        assert d in w.nodes;
        AllUnsubscribedKeeps(w, quiet, w.deps[d], s, others, owed);
      }
    }
  }

  lemma {:induction false} AllUnsubscribedKeeps(w: World, rt: Runtime, ds: seq<nat>, s: set<nat>,
                                                others: multiset<nat>, owed: multiset<nat>)
    requires Sound(w, rt, others, owed + multiset(ds)) && Upheld(w, rt, s)
    ensures s <= AllUnsubscribed(w, rt, ds).active
    decreases |rt.active|, 2, |ds|
  {
    if ds != [] {
      var next := Unsubscribed(w, rt, ds[0]);
      assert ds == [ds[0]] + ds[1..];
      assert owed + multiset(ds) == owed + multiset(ds[1..]) + multiset{ds[0]};
      UnsubscribedKeeps(w, rt, ds[0], s, others, owed + multiset(ds[1..]));
      UnsubscribedSound(w, rt, ds[0], others, owed + multiset(ds[1..]));
      FewerStillUpheld(w, rt, s, next);
      FewerOrEqual(next.active, rt.active);
      AllUnsubscribedKeeps(w, next, ds[1..], s, others, owed);
    }
  }

  // ---- the scan ----

  function Without(pending: seq<nat>, i: nat): (r: seq<nat>)
    requires i < |pending|
    ensures |r| == |pending| - 1 && multiset(pending) == multiset(r) + multiset{pending[i]}
  {
    assert pending == pending[..i] + [pending[i]] + pending[i + 1..];
    pending[..i] + pending[i + 1..]
  }

  /** One scan from `index` on. */
  function Pass(w: World, p: Progress, index: nat): (r: Progress)
    ensures |r.pending| <= |p.pending|
    decreases |p.pending| - index
  {
    if index >= |p.pending| then p
    else if Subscribers(w, p.rt, p.pending[index]) != 0 then Pass(w, p, index + 1)
    else Pass(w, Freed(w, p, index), index)
  }

  function Freed(w: World, p: Progress, index: nat): (r: Progress)
    requires index < |p.pending|
    ensures |r.pending| == |p.pending| - 1
  {
    var d := p.pending[index];
    Progress(Deactivated(w, p.rt, d), Without(p.pending, index), p.released + [Release(d, p.rt.active)])
  }

  /** Scans until nothing is pending or one frees nothing. */
  function Passes(w: World, p: Progress): Progress
    decreases |p.pending|
  {
    if p.pending == [] then p
    else
      var next := Pass(w, p, 0);
      if |next.pending| == |p.pending| then next else Passes(w, next)
  }

  // ---- what every step keeps ----

  function Nodes(released: seq<Release>): (r: seq<nat>)
    ensures |r| == |released| && forall i :: 0 <= i < |r| ==> r[i] == released[i].node
  {
    seq(|released|, i requires 0 <= i < |released| => released[i].node)
  }

  /** The checks made before the loop, as the loop uses them. */
  ghost predicate Enclosed(w: World, members: seq<nat>, others: multiset<nat>, active: set<nat>) {
    && WellFormed(w) && Distinct(members) && Elements(members) <= w.deps.Keys
    && (forall d :: d in members ==> others[d] == 0 && w.observed[d] == 0)
    && (forall a, d :: a in active && a in w.deps && d in members && d in w.deps[a] ==> a in members)
  }

  /** No node still active at a release depends on the released one. */
  ghost predicate Quiet(w: World, r: Release) {
    forall a :: a in r.active && a in w.deps ==> r.node !in w.deps[a]
  }

  ghost predicate Good(w: World, p: Progress, members: seq<nat>, others: multiset<nat>, active: set<nat>) {
    && Enclosed(w, members, others, active) && p.rt.active <= active
    && Sound(w, p.rt, others, multiset{})
    && multiset(p.pending) + multiset(Nodes(p.released)) == multiset(members)
    && (forall x :: x in members && x in p.rt.active ==> x in p.pending)
    && (forall i :: 0 <= i < |p.released| ==> Quiet(w, p.released[i]))
  }

  /** A member's subscribers are the active members that depend on it. */
  lemma CountsDependents(w: World, p: Progress, members: seq<nat>, others: multiset<nat>, active: set<nat>, d: nat)
    requires Good(w, p, members, others, active) && d in members
    ensures Subscribers(w, p.rt, d) == 0 <==> Quiet(w, Release(d, p.rt.active))
    ensures Subscribers(w, p.rt, d) > 0 ==>
              exists a :: a in p.pending && a in members && a in p.rt.active && d in w.deps[a]
  {
    HeldBySome(w.nodes, w.deps, p.rt.active, d);
    if Subscribers(w, p.rt, d) > 0 {
      var a :| a in w.nodes && a in p.rt.active && d in w.deps[a];
      assert a in w.deps && a in members;
    } else {
      forall a | a in p.rt.active && a in w.deps ensures d !in w.deps[a] { assert a in w.nodes; }
    }
  }

  lemma NodesGrow(released: seq<Release>, r: Release)
    ensures Nodes(released + [r]) == Nodes(released) + [r.node]
  {
  }

  lemma FreedGood(w: World, p: Progress, index: nat, members: seq<nat>, others: multiset<nat>, active: set<nat>)
    requires Good(w, p, members, others, active)
    requires index < |p.pending| && Subscribers(w, p.rt, p.pending[index]) == 0
    ensures Good(w, Freed(w, p, index), members, others, active)
  {
    var d, next := p.pending[index], Freed(w, p, index);
    assert d in multiset(p.pending) && d in multiset(members);
    CountsDependents(w, p, members, others, active, d);
    DeactivatedSound(w, p.rt, d, others, multiset{});
    NodesGrow(p.released, Release(d, p.rt.active));
    assert multiset(Nodes(next.released)) == multiset(Nodes(p.released)) + multiset{d};
    forall x | x in members && x in next.rt.active ensures x in next.pending {
      assert x in multiset(p.pending) && x != d;
      assert x in multiset(next.pending);
    }
  }

  lemma {:induction false} PassGood(w: World, p: Progress, index: nat, members: seq<nat>, others: multiset<nat>,
                                    active: set<nat>)
    requires Good(w, p, members, others, active)
    ensures Good(w, Pass(w, p, index), members, others, active)
    decreases |p.pending| - index
  {
    if index < |p.pending| {
      if Subscribers(w, p.rt, p.pending[index]) != 0 {
        PassGood(w, p, index + 1, members, others, active);
      } else {
        FreedGood(w, p, index, members, others, active);
        PassGood(w, Freed(w, p, index), index, members, others, active);
      }
    }
  }

  lemma {:induction false} PassesGood(w: World, p: Progress, members: seq<nat>, others: multiset<nat>, active: set<nat>)
    requires Good(w, p, members, others, active)
    ensures Good(w, Passes(w, p), members, others, active)
    decreases |p.pending|
  {
    if p.pending != [] {
      PassGood(w, p, 0, members, others, active);
      var next := Pass(w, p, 0);
      if |next.pending| < |p.pending| { PassesGood(w, next, members, others, active); }
    }
  }

  // ---- success exactly without a cycle ----

  /** A scan that frees nothing leaves everything as it was, and everything has a subscriber. */
  lemma {:induction false} IdlePass(w: World, p: Progress, index: nat)
    requires |Pass(w, p, index).pending| == |p.pending|
    ensures Pass(w, p, index) == p
    ensures forall j :: index <= j < |p.pending| ==> Subscribers(w, p.rt, p.pending[j]) > 0
    decreases |p.pending| - index
  {
    if index < |p.pending| && Subscribers(w, p.rt, p.pending[index]) != 0 { IdlePass(w, p, index + 1); }
  }

  lemma IdleHasCycle(w: World, p: Progress, members: seq<nat>, others: multiset<nat>, active: set<nat>)
    requires Good(w, p, members, others, active) && p.pending != []
    requires forall j :: 0 <= j < |p.pending| ==> Subscribers(w, p.rt, p.pending[j]) > 0
    ensures Cyclic(ActiveDeps(Elements(members), w.deps, active))
  {
    var pending := Elements(p.pending);
    forall d | d in pending ensures d in members {
      assert d in multiset(p.pending) && d in multiset(members);
    }
    forall d | d in pending ensures DependedOnIn(pending, w.deps, p.rt.active, d) {
      CountsDependents(w, p, members, others, active, d);
    }
    assert p.pending[0] in pending;
    StuckHasCycle(Elements(members), w.deps, p.rt.active, pending);
    FewerActiveFewerCycles(Elements(members), w.deps, active, p.rt.active);
  }

  lemma {:induction false} StuckMeansCyclic(w: World, p: Progress, members: seq<nat>, others: multiset<nat>,
                                            active: set<nat>)
    requires Good(w, p, members, others, active) && Passes(w, p).pending != []
    ensures Cyclic(ActiveDeps(Elements(members), w.deps, active))
    decreases |p.pending|
  {
    var next := Pass(w, p, 0);
    PassGood(w, p, 0, members, others, active);
    if |next.pending| == |p.pending| {
      IdlePass(w, p, 0);
      IdleHasCycle(w, p, members, others, active);
    } else {
      StuckMeansCyclic(w, next, members, others, active);
    }
  }

  /** Pending nodes that hold one another up are never freed. */
  ghost predicate PendingUpheld(w: World, p: Progress, s: set<nat>) {
    Upheld(w, p.rt, s) && s <= Elements(p.pending)
  }

  lemma FreedHeld(w: World, p: Progress, index: nat, s: set<nat>, others: multiset<nat>)
    requires Sound(w, p.rt, others, multiset{}) && PendingUpheld(w, p, s)
    requires index < |p.pending| && Subscribers(w, p.rt, p.pending[index]) == 0
    ensures PendingUpheld(w, Freed(w, p, index), s) && Sound(w, Freed(w, p, index).rt, others, multiset{})
  {
    var d, next := p.pending[index], Freed(w, p, index);
    if d in s { UpheldHasSubscriber(w, p.rt, s, d, others, multiset{}); }
    DeactivatedKeeps(w, p.rt, d, s, others, multiset{});
    DeactivatedSound(w, p.rt, d, others, multiset{});
    FewerStillUpheld(w, p.rt, s, next.rt);
    forall x | x in s ensures x in next.pending {
      assert x in p.pending && x in multiset(p.pending) && x != d;
      assert x in multiset(next.pending);
    }
  }

  lemma {:induction false} PassHeld(w: World, p: Progress, index: nat, s: set<nat>, others: multiset<nat>)
    requires Sound(w, p.rt, others, multiset{}) && PendingUpheld(w, p, s)
    ensures PendingUpheld(w, Pass(w, p, index), s) && Sound(w, Pass(w, p, index).rt, others, multiset{})
    decreases |p.pending| - index
  {
    if index < |p.pending| {
      if Subscribers(w, p.rt, p.pending[index]) != 0 {
        PassHeld(w, p, index + 1, s, others);
      } else {
        FreedHeld(w, p, index, s, others);
        PassHeld(w, Freed(w, p, index), index, s, others);
      }
    }
  }

  lemma {:induction false} PassesHeld(w: World, p: Progress, s: set<nat>, others: multiset<nat>)
    requires Sound(w, p.rt, others, multiset{}) && PendingUpheld(w, p, s)
    ensures PendingUpheld(w, Passes(w, p), s)
    decreases |p.pending|
  {
    if p.pending != [] {
      PassHeld(w, p, 0, s, others);
      var next := Pass(w, p, 0);
      if |next.pending| < |p.pending| { PassesHeld(w, next, s, others); }
    }
  }

  /** The loop starts on the members in reverse. */
  function Start(members: seq<nat>, rt: Runtime): Progress {
    Progress(rt, Backwards(members), [])
  }

  lemma BackwardsMultiset(s: seq<nat>)
    ensures multiset(Backwards(s)) == multiset(s)
  {
    if s != [] {
      var n := |s| - 1;
      BackwardsMultiset(s[..n]);
      assert s == s[..n] + [s[n]] && Backwards(s) == [s[n]] + Backwards(s[..n]);
    }
  }

  lemma StartGood(w: World, members: seq<nat>, rt: Runtime, others: multiset<nat>)
    requires Enclosed(w, members, others, rt.active) && Sound(w, rt, others, multiset{})
    ensures Good(w, Start(members, rt), members, others, rt.active)
  {
    BackwardsMultiset(members);
    forall x | x in members ensures x in Backwards(members) {
      assert x in multiset(members) && x in multiset(Backwards(members));
    }
  }

  /** The loop empties the group exactly when the deps of its active members have no cycle. */
  lemma EmptiesIffAcyclic(w: World, members: seq<nat>, rt: Runtime, others: multiset<nat>)
    requires Enclosed(w, members, others, rt.active) && Sound(w, rt, others, multiset{})
    ensures Passes(w, Start(members, rt)).pending == [] <==> !Cyclic(ActiveDeps(Elements(members), w.deps, rt.active))
  {
    var start := Start(members, rt);
    StartGood(w, members, rt, others);
    if Passes(w, start).pending != [] { StuckMeansCyclic(w, start, members, others, rt.active); }
    if Cyclic(ActiveDeps(Elements(members), w.deps, rt.active)) {
      var c: seq<nat> :| IsCycle<nat>(ActiveDeps(Elements(members), w.deps, rt.active), c);
      CycleMeansStuck(w, start, members, others, rt.active, c);
    }
  }

  lemma CycleMeansStuck(w: World, p: Progress, members: seq<nat>, others: multiset<nat>, active: set<nat>, c: seq<nat>)
    requires Good(w, p, members, others, active) && p.rt.active == active
    requires IsCycle(ActiveDeps(Elements(members), w.deps, active), c)
    ensures Passes(w, p).pending != []
  {
    CycleHoldsItself(Elements(members), w.deps, active, c);
    forall x | x in Elements(c) ensures x in p.pending { assert x in members && x in active; }
    PassesHeld(w, p, Elements(c), others);
    assert c[0] in Passes(w, p).pending;
  }

  /** Each member is released once, and at each release no active node depends on the released one. */
  lemma ReleasedOnceAndQuietly(w: World, members: seq<nat>, rt: Runtime, others: multiset<nat>)
    requires Enclosed(w, members, others, rt.active) && Sound(w, rt, others, multiset{})
    requires !Cyclic(ActiveDeps(Elements(members), w.deps, rt.active))
    ensures var end := Passes(w, Start(members, rt));
            && multiset(Nodes(end.released)) == multiset(members)
            && (forall i :: 0 <= i < |end.released| ==> Quiet(w, end.released[i]))
            && end.rt.active !! Elements(members)
            && Sound(w, end.rt, others, multiset{})
  {
    StartGood(w, members, rt, others);
    PassesGood(w, Start(members, rt), members, others, rt.active);
    EmptiesIffAcyclic(w, members, rt, others);
  }

  // ---- dependents first ----

  /** No member comes before a dep of its own in the group's order. */
  ghost predicate DepsFirst(members: seq<nat>, deps: Deps)
    requires Elements(members) <= deps.Keys
  {
    forall i, j :: 0 <= i <= j < |members| ==> members[j] !in deps[members[i]]
  }

  lemma OneFurther(s: seq<nat>, k: nat)
    requires k < |s|
    ensures s[k..][0] == s[k] && s[..k] + [s[k]] == s[..k + 1]
  {
  }

  lemma HeadIsFree(w: World, p: Progress, members: seq<nat>, others: multiset<nat>, active: set<nat>, k: nat)
    requires Good(w, p, members, others, active) && DepsFirst(members, w.deps)
    requires k < |members| && p.pending == Backwards(members)[k..]
    ensures p.pending != [] && Subscribers(w, p.rt, p.pending[0]) == 0
    ensures Freed(w, p, 0).pending == Backwards(members)[k + 1..]
  {
    var d := p.pending[0];
    assert d == members[|members| - 1 - k];
    CountsDependents(w, p, members, others, active, d);
    forall j | 0 <= j < |p.pending| ensures p.pending[j] in w.deps ==> d !in w.deps[p.pending[j]] {
      assert p.pending[j] == members[|members| - 1 - (k + j)];
    }
  }

  lemma {:induction false} PassInOrder(w: World, p: Progress, members: seq<nat>, others: multiset<nat>,
                                       active: set<nat>, k: nat)
    requires Good(w, p, members, others, active) && DepsFirst(members, w.deps)
    requires k <= |members| && p.pending == Backwards(members)[k..] && Nodes(p.released) == Backwards(members)[..k]
    ensures Pass(w, p, 0).pending == [] && Nodes(Pass(w, p, 0).released) == Backwards(members)
    decreases |members| - k
  {
    if k < |members| {
      HeadIsFree(w, p, members, others, active, k);
      FreedGood(w, p, 0, members, others, active);
      NodesGrow(p.released, Release(p.pending[0], p.rt.active));
      OneFurther(Backwards(members), k);
      PassInOrder(w, Freed(w, p, 0), members, others, active, k + 1);
    } else {
      assert Backwards(members)[..k] == Backwards(members);
    }
  }

  /** A group listed with deps before dependents is released in one scan, in the reverse order. */
  lemma ListedInOrder(w: World, members: seq<nat>, rt: Runtime, others: multiset<nat>)
    requires Enclosed(w, members, others, rt.active) && Sound(w, rt, others, multiset{})
    requires DepsFirst(members, w.deps)
    ensures Passes(w, Start(members, rt)).pending == []
    ensures Nodes(Passes(w, Start(members, rt)).released) == Backwards(members)
  {
    StartGood(w, members, rt, others);
    assert Backwards(members)[0..] == Backwards(members) && Backwards(members)[..0] == [];
    if members != [] {
      PassInOrder(w, Start(members, rt), members, others, rt.active, 0);
    } else {
      assert Nodes([]) == [];
    }
  }

  function CascadeWorld(): World {
    World([0, 1, 2], map[0 := [], 1 := [0], 2 := [1]], multiset{})
  }

  /** Node 2 subscribes to node 1, which subscribes to node 0. */
  function CascadeStart(): Runtime {
    Runtime({0, 1, 2}, multiset{0, 1})
  }

  /** Listed otherwise, a dep can go before a dependent that was active when the release began. */
  lemma {:induction false} DepReleasedFirst()
    ensures var rt := CascadeStart();
            && Enclosed(CascadeWorld(), [1, 0, 2], multiset{}, rt.active)
            && Sound(CascadeWorld(), rt, multiset{}, multiset{})
            && 0 in CascadeWorld().deps[1] && 1 in rt.active
            && Passes(CascadeWorld(), Start([1, 0, 2], rt)).pending == []
            && Nodes(Passes(CascadeWorld(), Start([1, 0, 2], rt)).released) == [2, 0, 1]
  {
    CascadeIsEnclosed();
    CascadeIsSound();
    CascadeRuns();
  }

  lemma CascadeIsEnclosed()
    ensures Enclosed(CascadeWorld(), [1, 0, 2], multiset{}, {0, 1, 2})
  {
    assert Elements([0, 1, 2]) == {0, 1, 2};
    assert Elements([1, 0, 2]) == {0, 1, 2};
  }

  lemma {:induction false} CascadeIsSound()
    ensures Sound(CascadeWorld(), CascadeStart(), multiset{}, multiset{})
  {
    CascadeIsEnclosed();
    HeldByThree(0, 1, 2, CascadeWorld().deps, {0, 1, 2});
    assert multiset([0]) + multiset([1]) == multiset{0, 1};
  }

  lemma HeldByThree(a: nat, b: nat, c: nat, deps: Deps, active: set<nat>)
    requires a in deps && b in deps && c in deps
    ensures Elements([a, b, c]) <= deps.Keys
    ensures a in active && b in active && c in active ==>
              Held([a, b, c], deps, active) == multiset(deps[a]) + multiset(deps[b]) + multiset(deps[c])
  {
    HeldOneMore([], a, deps, active);
    HeldOneMore([] + [a], b, deps, active);
    HeldOneMore([] + [a] + [b], c, deps, active);
    assert [] + [a] + [b] + [c] == [a, b, c];
  }

  lemma HeldOneMore(nodes: seq<nat>, a: nat, deps: Deps, active: set<nat>)
    requires Elements(nodes) <= deps.Keys && a in deps
    ensures Elements(nodes + [a]) <= deps.Keys
    ensures Held(nodes + [a], deps, active)
            == Held(nodes, deps, active) + (if a in active then multiset(deps[a]) else multiset{})
  {
    assert Init(nodes + [a]) == nodes;
  }

  lemma {:induction false} CascadeRuns()
    ensures Nodes(Passes(CascadeWorld(), Start([1, 0, 2], CascadeStart())).released) == [2, 0, 1]
    ensures Passes(CascadeWorld(), Start([1, 0, 2], CascadeStart())).pending == []
  {
    var start := Start([1, 0, 2], CascadeStart());
    assert start.pending == [2, 0, 1];
    ReleaseTwo();
    FreeTwo();
    FreeRest();
    var next := Pass(CascadeWorld(), start, 0);
    assert Passes(CascadeWorld(), start) == Passes(CascadeWorld(), next) == next;
  }

  lemma {:induction false} FreeTwo()
    requires Deactivated(CascadeWorld(), CascadeStart(), 2) == Runtime({}, multiset{})
    ensures Pass(CascadeWorld(), Progress(CascadeStart(), [2, 0, 1], []), 0)
            == Pass(CascadeWorld(), Progress(Runtime({}, multiset{}), [0, 1], [Release(2, {0, 1, 2})]), 0)
  {
    var p := Progress(CascadeStart(), [2, 0, 1], []);
    FreesHead(CascadeWorld(), p, [0, 1]);
    assert [] + [Release(2, {0, 1, 2})] == [Release(2, {0, 1, 2})];
  }

  lemma FreesHead(w: World, p: Progress, rest: seq<nat>)
    requires p.pending != [] && p.pending[1..] == rest && Subscribers(w, p.rt, p.pending[0]) == 0
    ensures Pass(w, p, 0)
            == Pass(w, Progress(Deactivated(w, p.rt, p.pending[0]), rest, p.released + [Release(p.pending[0], p.rt.active)]), 0)
  {
    assert Without(p.pending, 0) == rest;
  }

  lemma FreeRest()
    ensures var p := Pass(CascadeWorld(), Progress(Runtime({}, multiset{}), [0, 1], [Release(2, {0, 1, 2})]), 0);
            p.pending == [] && Nodes(p.released) == [2, 0, 1]
  {
    var w, idle := CascadeWorld(), Runtime({}, multiset{});
    var r2, r0, r1 := Release(2, {0, 1, 2}), Release(0, {}), Release(1, {});
    FreesHead(w, Progress(idle, [0, 1], [r2]), [1]);
    FreesHead(w, Progress(idle, [1], [r2] + [r0]), []);
    assert [r2] + [r0] + [r1] == [r2, r0, r1];
  }

  /** A node with one dep, subscribed to by nobody else, takes the dep down with it. */
  lemma Topples(w: World, rt: Runtime, d: nat, e: nat)
    requires d in rt.active && d in w.deps && w.deps[d] == [e] && rt.subs[e] == 1 && w.observed[e] == 0
    ensures Deactivated(w, rt, d) == Deactivated(w, Runtime(rt.active - {d}, rt.subs - multiset{e}), e)
  {
    var quiet := rt.(active := rt.active - {d});
    var next := Unsubscribed(w, quiet, e);
    assert next == Deactivated(w, Runtime(rt.active - {d}, rt.subs - multiset{e}), e);
    assert AllUnsubscribed(w, quiet, [e]) == AllUnsubscribed(w, next, [e][1..]) == next;
  }

  /** Node 2 gives up node 1, which gives up node 0. */
  lemma ReleaseTwo()
    ensures Deactivated(CascadeWorld(), CascadeStart(), 2) == Runtime({}, multiset{})
  {
    var w := CascadeWorld();
    Topples(w, CascadeStart(), 2, 1);
    assert CascadeStart().subs - multiset{1} == multiset{0} && CascadeStart().active - {2} == {0, 1};
    Topples(w, Runtime({0, 1}, multiset{0}), 1, 0);
    assert multiset{0} - multiset{0} == multiset{} && {0, 1} - {1} == {0} && {0} - {0} == {};
    assert AllUnsubscribed(w, Runtime({}, multiset{}), []) == Runtime({}, multiset{});
  }
}
