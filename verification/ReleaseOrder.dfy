/**
 * The order in which a group is released (graph.rs).  Two scans always suffice, and the order is known
 * beforehand: first the members all of whose roots are listed after them, then the rest, each part in the
 * reverse of the list.
 */
module ReleaseOrder {
  import opened Prelude
  import opened Digraph
  import opened ReleaseModel
  import opened ReleaseLoop

  /** A group as a release finds it. */
  datatype Group = Group(members: seq<nat>, deps: Deps, active: set<nat>) {
    ghost predicate WellFormed() {
      Distinct(members) && Elements(members) <= deps.Keys
    }

    ghost function Graph(): Graph<nat>
      requires WellFormed()
    {
      ActiveDeps(Elements(members), deps, active)
    }

    /** An active member that no active member depends on. */
    ghost predicate IsRoot(x: nat)
      requires WellFormed()
    {
      x in members && x in active && forall a :: a in members && a in active ==> x !in deps[a]
    }

    /** A root, other than `x`, from which `x` is reached. */
    ghost predicate RootOver(r: nat, x: nat)
      requires WellFormed()
    {
      IsRoot(r) && r != x && Reaches(Graph(), r, x)
    }

    /** Every root over `x` is listed after it. */
    ghost predicate First(x: nat)
      requires WellFormed()
    {
      forall r :: RootOver(r, x) ==> Before(members, x, r)
    }

    /** The nodes of `s` that are (or are not) first, in order. */
    ghost function Sift(s: seq<nat>, first: bool): seq<nat>
      requires WellFormed()
    {
      if s == [] then []
      else
        var rest := Sift(s[..|s| - 1], first);
        if First(s[|s| - 1]) == first then rest + [s[|s| - 1]] else rest
    }

    /** The first ones, then the others, each in the reverse of the list. */
    ghost function ReleaseOrder(): seq<nat>
      requires WellFormed()
    {
      Sift(Backwards(members), true) + Sift(Backwards(members), false)
    }

    /** Each member active at the start comes before each of its deps in the group. */
    ghost predicate DependentsFirst(order: seq<nat>)
      requires WellFormed()
    {
      forall a, d :: Depends(a, d) ==> Before(order, a, d)
    }

    ghost predicate Depends(a: nat, d: nat)
      requires WellFormed()
    {
      a in members && a in active && d in members && d in deps[a]
    }

    /** What the list must be like: a check on each active member that is not a root and each of its deps. */
    ghost predicate ListedWell()
      requires WellFormed()
    {
      forall a, d :: Depends(a, d) && !IsRoot(a) ==>
        (First(d) ==> First(a)) && (First(a) == First(d) ==> Before(members, d, a))
    }
  }

  ghost predicate Reaches(g: Graph<nat>, a: nat, b: nat) {
    exists p: seq<nat> :: IsPath(g, p) && p[0] == a && p[|p| - 1] == b
  }

  lemma ReachesItself(g: Graph<nat>, a: nat)
    ensures Reaches(g, a, a)
  {
    assert IsPath(g, [a]) && [a][0] == a;
  }

  lemma ReachesFurther(g: Graph<nat>, a: nat, b: nat, c: nat)
    requires Reaches(g, a, b) && Edge(g, b, c)
    ensures Reaches(g, a, c)
    ensures a == c ==> Cyclic(g)
  {
    var p: seq<nat> :| IsPath(g, p) && p[0] == a && p[|p| - 1] == b;
    PathExtends(g, p, c);
    var q := p + [c];
    assert q[0] == a && q[|q| - 1] == c;
    assert a == c ==> IsCycle(g, q);
  }

  // ---- positions ----

  /** `a` stands somewhere before `b`. */
  ghost predicate Before(s: seq<nat>, a: nat, b: nat) {
    s != [] && (Before(s[..|s| - 1], a, b) || (s[|s| - 1] == b && a in s[..|s| - 1]))
  }

  lemma {:induction false} BeforeMembers(s: seq<nat>, a: nat, b: nat)
    requires Before(s, a, b)
    ensures a in s && b in s
  {
    if Before(s[..|s| - 1], a, b) { BeforeMembers(s[..|s| - 1], a, b); }
  }

  lemma {:induction false} BeforeConcat(u: seq<nat>, v: seq<nat>, a: nat, b: nat)
    ensures Before(u + v, a, b) <==> Before(u, a, b) || Before(v, a, b) || (a in u && b in v)
    decreases |v|
  {
    if v == [] {
      assert u + v == u;
    } else {
      var n := |v| - 1;
      assert (u + v)[..|u + v| - 1] == u + v[..n];
      BeforeConcat(u, v[..n], a, b);
      assert v == v[..n] + [v[n]];
    }
  }

  lemma {:induction false} BeforeBackwards(s: seq<nat>, a: nat, b: nat)
    ensures Before(Backwards(s), a, b) <==> Before(s, b, a)
    ensures a in Backwards(s) <==> a in s
  {
    if s != [] {
      var n := |s| - 1;
      BeforeBackwards(s[..n], a, b);
      BackwardsMembers(s[..n], b);
      assert Backwards(s) == [s[n]] + Backwards(s[..n]);
      BeforeConcat([s[n]], Backwards(s[..n]), a, b);
      assert [s[n]][..0] == [];
    }
  }

  lemma {:induction false} BackwardsMembers(s: seq<nat>, a: nat)
    ensures a in Backwards(s) <==> a in s
  {
    var b := Backwards(s);
    if a in s {
      var i :| 0 <= i < |s| && s[i] == a;
      assert b[|s| - 1 - i] == a;
    }
  }

  lemma {:induction false} BeforeAt(s: seq<nat>, k: nat, a: nat)
    requires Distinct(s) && k < |s|
    ensures Before(s, a, s[k]) <==> a in s[..k]
  {
    var n := |s| - 1;
    if k < n {
      BeforeAt(s[..n], k, a);
      assert s[..n][..k] == s[..k];
    } else if Before(s[..n], a, s[n]) {
      BeforeMembers(s[..n], a, s[n]);
    }
  }

  lemma BackwardsDistinct(s: seq<nat>)
    requires Distinct(s)
    ensures Distinct(Backwards(s))
  {
  }

  // ---- sifting ----

  lemma {:induction false} SiftMembers(grp: Group, s: seq<nat>, first: bool, x: nat)
    requires grp.WellFormed()
    ensures x in grp.Sift(s, first) <==> x in s && grp.First(x) == first
  {
    if s != [] { SiftMembers(grp, s[..|s| - 1], first, x); }
  }

  lemma {:induction false} SiftBefore(grp: Group, s: seq<nat>, first: bool, a: nat, b: nat)
    requires grp.WellFormed() && grp.First(a) == grp.First(b) == first
    ensures Before(grp.Sift(s, first), a, b) <==> Before(s, a, b)
  {
    if s != [] {
      var init, last := s[..|s| - 1], s[|s| - 1];
      SiftBefore(grp, init, first, a, b);
      SiftMembers(grp, init, first, a);
      var rest := grp.Sift(init, first);
      assert (rest + [last])[..|rest|] == rest;
    }
  }

  /** Where two nodes of the group stand in the release order. */
  lemma OrderBefore(grp: Group, a: nat, d: nat)
    requires grp.WellFormed() && a in grp.members && d in grp.members
    ensures Before(grp.ReleaseOrder(), a, d) <==>
              (grp.First(a) && !grp.First(d)) || (grp.First(a) == grp.First(d) && Before(grp.members, d, a))
  {
    var s := Backwards(grp.members);
    var u, v := grp.Sift(s, true), grp.Sift(s, false);
    BeforeConcat(u, v, a, d);
    BeforeBackwards(grp.members, a, d);
    BackwardsMembers(grp.members, d);
    SiftMembers(grp, s, true, a);
    SiftMembers(grp, s, false, a);
    SiftMembers(grp, s, true, d);
    SiftMembers(grp, s, false, d);
    if Before(u, a, d) { BeforeMembers(u, a, d); }
    if Before(v, a, d) { BeforeMembers(v, a, d); }
    if grp.First(a) == grp.First(d) { SiftBefore(grp, s, grp.First(a), a, d); }
  }

  // ---- what a cascade leaves ----

  /** Every subscribed node is active: the first subscription activates it, and the last one's end deactivates it. */
  ghost predicate Awake(w: World, rt: Runtime) {
    forall x {:trigger Subscribers(w, rt, x)} :: Subscribers(w, rt, x) > 0 ==> x in rt.active
  }

  /**
   * From `before` to `after` subscriptions only end; a node goes inactive only with its last one, and an
   * active node without subscribers had none before.  The nodes of `top` were set inactive themselves.
   */
  ghost predicate Falls(w: World, before: Runtime, after: Runtime, top: set<nat>) {
    && after.active <= before.active && after.subs <= before.subs
    && (forall x :: x in before.active && before.subs[x] == 0 && x !in top ==> x in after.active)
    && (forall x :: x in after.active && Subscribers(w, after, x) == 0 ==> Subscribers(w, before, x) == 0)
    && (forall x :: x in before.active && x !in after.active ==> Subscribers(w, after, x) == 0)
  }

  lemma FallsThen(w: World, a: Runtime, b: Runtime, c: Runtime, top: set<nat>)
    requires Falls(w, a, b, top) && Falls(w, b, c, {})
    ensures Falls(w, a, c, top)
  {
  }

  lemma {:induction false} UnsubscribedFalls(w: World, rt: Runtime, d: nat)
    ensures Falls(w, rt, Unsubscribed(w, rt, d), {})
    decreases |rt.active|, 1, 0
  {
    var left := rt.(subs := rt.subs - multiset{d});
    if rt.subs[d] > 0 && Subscribers(w, left, d) == 0 { DeactivatedFalls(w, left, d); }
  }

  lemma {:induction false} DeactivatedFalls(w: World, rt: Runtime, d: nat)
    requires Subscribers(w, rt, d) == 0
    ensures Falls(w, rt, Deactivated(w, rt, d), {d})
    decreases |rt.active|, 0, 0
  {
    if d in rt.active {
      var quiet := rt.(active := rt.active - {d});
      assert Falls(w, rt, quiet, {d});
      assert quiet.active + {d} == rt.active;
      if d in w.deps {
        AllUnsubscribedFalls(w, quiet, w.deps[d]);
        FallsThen(w, rt, quiet, Deactivated(w, rt, d), {d});
      }
    }
  }

  lemma {:induction false} AllUnsubscribedFalls(w: World, rt: Runtime, ds: seq<nat>)
    ensures Falls(w, rt, AllUnsubscribed(w, rt, ds), {})
    decreases |rt.active|, 2, |ds|
  {
    if ds != [] {
      var next := Unsubscribed(w, rt, ds[0]);
      UnsubscribedFalls(w, rt, ds[0]);
      FewerOrEqual(next.active, rt.active);
      AllUnsubscribedFalls(w, next, ds[1..]);
      FallsThen(w, rt, next, AllUnsubscribed(w, rt, ds), {});
    }
  }

  lemma FreedAwake(w: World, p: Progress, index: nat)
    requires Awake(w, p.rt) && index < |p.pending| && Subscribers(w, p.rt, p.pending[index]) == 0
    ensures Awake(w, Freed(w, p, index).rt)
  {
    var next := Freed(w, p, index).rt;
    DeactivatedFalls(w, p.rt, p.pending[index]);
    forall x | Subscribers(w, next, x) > 0 ensures x in next.active { assert Subscribers(w, p.rt, x) > 0; }
  }

  lemma {:induction false} PassAwake(w: World, p: Progress, index: nat)
    requires Awake(w, p.rt)
    ensures Awake(w, Pass(w, p, index).rt)
    decreases |p.pending| - index
  {
    if index < |p.pending| {
      if Subscribers(w, p.rt, p.pending[index]) != 0 {
        PassAwake(w, p, index + 1);
      } else {
        FreedAwake(w, p, index);
        PassAwake(w, Freed(w, p, index), index);
      }
    }
  }

  lemma {:induction false} PassesAwake(w: World, p: Progress)
    requires Awake(w, p.rt)
    ensures Awake(w, Passes(w, p).rt)
    decreases |p.pending|
  {
    if p.pending != [] {
      PassAwake(w, p, 0);
      if |Pass(w, p, 0).pending| < |p.pending| { PassesAwake(w, Pass(w, p, 0)); }
    }
  }

  // ---- who is free when ----

  /** During a release: what is active hangs from a root that is still pending. */
  ghost predicate Tidy(w: World, p: Progress, grp: Group, others: multiset<nat>) {
    && grp.WellFormed() && grp.deps == w.deps && !Cyclic(grp.Graph())
    && Good(w, p, grp.members, others, grp.active) && Awake(w, p.rt)
    && (forall x :: x in grp.members && x in p.rt.active && Subscribers(w, p.rt, x) == 0 ==> grp.IsRoot(x))
    && (forall r :: grp.IsRoot(r) && r in p.pending ==> r in p.rt.active)
  }

  lemma RootHasNoSubscriber(w: World, p: Progress, grp: Group, others: multiset<nat>, r: nat)
    requires grp.WellFormed() && grp.deps == w.deps && Good(w, p, grp.members, others, grp.active) && grp.IsRoot(r)
    ensures Subscribers(w, p.rt, r) == 0
  {
    CountsDependents(w, p, grp.members, others, grp.active, r);
  }

  lemma StartTidy(w: World, grp: Group, rt: Runtime, others: multiset<nat>)
    requires Enclosed(w, grp.members, others, rt.active) && Sound(w, rt, others, multiset{}) && Awake(w, rt)
    requires grp.deps == w.deps && grp.active == rt.active && !Cyclic(grp.Graph())
    ensures Tidy(w, Start(grp.members, rt), grp, others)
  {
    var p := Start(grp.members, rt);
    StartGood(w, grp.members, rt, others);
    forall x | x in grp.members && x in rt.active && Subscribers(w, rt, x) == 0 ensures grp.IsRoot(x) {
      CountsDependents(w, p, grp.members, others, rt.active, x);
    }
  }

  lemma {:induction false} DistinctMultiset(s: seq<nat>, x: nat)
    requires Distinct(s)
    ensures multiset(s)[x] <= 1
  {
    if s != [] {
      var n := |s| - 1;
      DistinctMultiset(s[..n], x);
      assert s == s[..n] + [s[n]] && s[n] !in s[..n];
      assert s[n] !in multiset(s[..n]);
    }
  }

  lemma FreedTidy(w: World, p: Progress, index: nat, grp: Group, others: multiset<nat>)
    requires Tidy(w, p, grp, others) && index < |p.pending| && Subscribers(w, p.rt, p.pending[index]) == 0
    ensures Tidy(w, Freed(w, p, index), grp, others)
  {
    var d, next := p.pending[index], Freed(w, p, index);
    FreedGood(w, p, index, grp.members, others, grp.active);
    FreedAwake(w, p, index);
    DeactivatedFalls(w, p.rt, d);
    forall r | grp.IsRoot(r) && r in next.pending ensures r in next.rt.active {
      RootHasNoSubscriber(w, p, grp, others, r);
      DistinctMultiset(grp.members, d);
      assert r in multiset(next.pending) && r in multiset(p.pending);
      assert r != d;
    }
  }

  /** A member has no subscriber exactly when every root over it has been freed. */
  lemma FreeIffRootsGone(w: World, p: Progress, grp: Group, others: multiset<nat>, x: nat)
    requires Tidy(w, p, grp, others) && x in grp.members
    ensures Subscribers(w, p.rt, x) == 0 <==> forall r :: grp.RootOver(r, x) ==> r !in p.pending
  {
    if Subscribers(w, p.rt, x) > 0 {
      CountsDependents(w, p, grp.members, others, grp.active, x);
      var a :| a in p.pending && a in grp.members && a in p.rt.active && x in w.deps[a];
      var r := HangsFromRoot(w, p, grp, others, a);
      assert Edge(grp.Graph(), a, x);
      ReachesFurther(grp.Graph(), r, a, x);
      assert grp.RootOver(r, x);
    }
    forall r | grp.RootOver(r, x) && r in p.pending ensures Subscribers(w, p.rt, x) > 0 {
      PendingRootHolds(w, p, grp, others, r, x);
    }
  }

  lemma PendingRootHolds(w: World, p: Progress, grp: Group, others: multiset<nat>, r: nat, x: nat)
    requires Tidy(w, p, grp, others) && grp.RootOver(r, x) && r in p.pending
    ensures Subscribers(w, p.rt, x) > 0
  {
    var q: seq<nat> :| IsPath(grp.Graph(), q) && q[0] == r && q[|q| - 1] == x;
    ActiveAlong(w, p, grp, others, q, |q| - 1);
  }

  lemma {:induction false} ActiveAlong(w: World, p: Progress, grp: Group, others: multiset<nat>, q: seq<nat>, i: nat)
    requires Tidy(w, p, grp, others) && IsPath(grp.Graph(), q) && i < |q| && q[0] in p.rt.active
    ensures q[i] in p.rt.active && (i > 0 ==> Subscribers(w, p.rt, q[i]) > 0)
  {
    if i > 0 {
      ActiveAlong(w, p, grp, others, q, i - 1);
      assert Edge(grp.Graph(), q[i - 1], q[i]);
      CountsDependents(w, p, grp.members, others, grp.active, q[i]);
    }
  }

  /** The members that a pending root reaches. */
  ghost predicate Hangs(p: Progress, grp: Group, x: nat)
    requires grp.WellFormed()
  {
    exists r :: grp.IsRoot(r) && r in p.pending && Reaches(grp.Graph(), r, x)
  }

  lemma HangsFromRoot(w: World, p: Progress, grp: Group, others: multiset<nat>, a: nat) returns (r: nat)
    requires Tidy(w, p, grp, others) && a in grp.members && a in p.rt.active
    ensures grp.IsRoot(r) && r in p.pending && Reaches(grp.Graph(), r, a)
  {
    if !Hangs(p, grp, a) {
      var loose := set x | x in grp.members && x in p.rt.active && !Hangs(p, grp, x);
      forall x | x in loose ensures DependedOnIn(loose, w.deps, p.rt.active, x) {
        LooseHasLooseDependent(w, p, grp, others, loose, x);
      }
      assert a in loose;
      StuckHasCycle(Elements(grp.members), w.deps, p.rt.active, loose);
      FewerActiveFewerCycles(Elements(grp.members), w.deps, grp.active, p.rt.active);
    }
    r :| grp.IsRoot(r) && r in p.pending && Reaches(grp.Graph(), r, a);
  }

  lemma HangsOn(p: Progress, grp: Group, a: nat, x: nat)
    requires grp.WellFormed() && Hangs(p, grp, a) && Edge(grp.Graph(), a, x)
    ensures Hangs(p, grp, x)
  {
    var r :| grp.IsRoot(r) && r in p.pending && Reaches(grp.Graph(), r, a);
    ReachesFurther(grp.Graph(), r, a, x);
  }

  lemma LooseHasLooseDependent(w: World, p: Progress, grp: Group, others: multiset<nat>, loose: set<nat>, x: nat)
    requires Tidy(w, p, grp, others) && x in loose
    requires loose == set y | y in grp.members && y in p.rt.active && !Hangs(p, grp, y)
    ensures loose <= w.deps.Keys && DependedOnIn(loose, w.deps, p.rt.active, x)
  {
    ReachesItself(grp.Graph(), x);
    assert Subscribers(w, p.rt, x) > 0;
    CountsDependents(w, p, grp.members, others, grp.active, x);
    var a :| a in p.pending && a in grp.members && a in p.rt.active && x in w.deps[a];
    assert Edge(grp.Graph(), a, x);
    assert !Hangs(p, grp, a) by {
      if Hangs(p, grp, a) { HangsOn(p, grp, a, x); }
    }
    assert a in loose;
  }

  // ---- two scans ----

  lemma UnderRootIsNoRoot(grp: Group, r: nat, x: nat)
    requires grp.WellFormed() && grp.RootOver(r, x)
    ensures !grp.IsRoot(x)
  {
    var p: seq<nat> :| IsPath(grp.Graph(), p) && p[0] == r && p[|p| - 1] == x;
    assert Edge(grp.Graph(), p[|p| - 2], p[|p| - 1]);
  }

  lemma RootIsFirst(grp: Group, r: nat)
    requires grp.WellFormed() && grp.IsRoot(r)
    ensures grp.First(r)
  {
    forall q ensures !grp.RootOver(q, r) {
      if grp.RootOver(q, r) { UnderRootIsNoRoot(grp, q, r); }
    }
  }

  /** The first scan has looked at the first `k` nodes of the reversed list and freed the first ones of them. */
  ghost predicate Scanned(p: Progress, grp: Group, k: nat)
    requires grp.WellFormed()
  {
    && k <= |grp.members|
    && p.pending == grp.Sift(Backwards(grp.members)[..k], false) + Backwards(grp.members)[k..]
    && Nodes(p.released) == grp.Sift(Backwards(grp.members)[..k], true)
  }

  /** A root is still pending exactly when the scan has not reached it. */
  lemma RootPending(p: Progress, grp: Group, k: nat, r: nat)
    requires grp.WellFormed() && Scanned(p, grp, k) && k < |grp.members|
    requires grp.IsRoot(r) && r != Backwards(grp.members)[k]
    ensures r !in p.pending <==> Before(grp.members, Backwards(grp.members)[k], r)
  {
    var s := Backwards(grp.members);
    RootIsFirst(grp, r);
    SiftMembers(grp, s[..k], false, r);
    BackwardsMembers(grp.members, r);
    BackwardsDistinct(grp.members);
    BeforeAt(s, k, r);
    BeforeBackwards(grp.members, r, s[k]);
    assert s == s[..k] + s[k..];
    DistinctConcat(s[..k], s[k..]);
  }

  lemma FreeIffFirst(w: World, p: Progress, grp: Group, others: multiset<nat>, k: nat)
    requires Tidy(w, p, grp, others) && Scanned(p, grp, k) && k < |grp.members|
    ensures Subscribers(w, p.rt, Backwards(grp.members)[k]) == 0 <==> grp.First(Backwards(grp.members)[k])
  {
    var x := Backwards(grp.members)[k];
    FreeIffRootsGone(w, p, grp, others, x);
    forall r | grp.RootOver(r, x) ensures r !in p.pending <==> Before(grp.members, x, r) {
      RootPending(p, grp, k, r);
    }
  }

  lemma SiftOneMore(grp: Group, s: seq<nat>, k: nat, first: bool)
    requires grp.WellFormed() && k < |s|
    ensures grp.Sift(s[..k + 1], first) == grp.Sift(s[..k], first) + (if grp.First(s[k]) == first then [s[k]] else [])
  {
    assert s[..k + 1][..k] == s[..k];
  }

  lemma WithoutMiddle(a: seq<nat>, x: nat, b: seq<nat>)
    ensures (a + [x] + b)[|a|] == x && Without(a + [x] + b, |a|) == a + b
  {
  }

  ghost function Kept(grp: Group, k: nat): seq<nat>
    requires grp.WellFormed() && k <= |grp.members|
  {
    grp.Sift(Backwards(grp.members)[..k], false)
  }

  /** The scan moves on by one node: past it, or with it freed. */
  lemma ScanStep(w: World, p: Progress, grp: Group, k: nat)
    requires grp.WellFormed() && Scanned(p, grp, k) && k < |grp.members|
    ensures var x, at := Backwards(grp.members)[k], |Kept(grp, k)|;
            && at < |p.pending| && p.pending[at] == x
            && (if grp.First(x) then |Kept(grp, k + 1)| == at && Scanned(Freed(w, p, at), grp, k + 1)
                else |Kept(grp, k + 1)| == at + 1 && Scanned(p, grp, k + 1))
  {
    var s, kept := Backwards(grp.members), Kept(grp, k);
    SiftOneMore(grp, s, k, false);
    SiftOneMore(grp, s, k, true);
    assert p.pending == kept + [s[k]] + s[k + 1..];
    WithoutMiddle(kept, s[k], s[k + 1..]);
    NodesGrow(p.released, Release(s[k], p.rt.active));
  }

  lemma {:induction false} FirstScan(w: World, p: Progress, grp: Group, others: multiset<nat>, k: nat)
    requires Tidy(w, p, grp, others) && Scanned(p, grp, k)
    ensures var one := Pass(w, p, |Kept(grp, k)|); Tidy(w, one, grp, others) && Scanned(one, grp, |grp.members|)
    decreases |grp.members| - k
  {
    if k < |grp.members| {
      FreeIffFirst(w, p, grp, others, k);
      ScanStep(w, p, grp, k);
      if grp.First(Backwards(grp.members)[k]) {
        FreedTidy(w, p, |Kept(grp, k)|, grp, others);
        FirstScan(w, Freed(w, p, |Kept(grp, k)|), grp, others, k + 1);
      } else {
        FirstScan(w, p, grp, others, k + 1);
      }
    }
  }

  ghost predicate RootsGone(p: Progress, grp: Group)
    requires grp.WellFormed()
  {
    forall r :: grp.IsRoot(r) ==> r !in p.pending
  }

  lemma AllFree(w: World, p: Progress, grp: Group, others: multiset<nat>, j: nat)
    requires Tidy(w, p, grp, others) && j < |p.pending| && RootsGone(p, grp)
    ensures Subscribers(w, p.rt, p.pending[j]) == 0
  {
    assert p.pending[j] in multiset(p.pending) && p.pending[j] in multiset(grp.members);
    FreeIffRootsGone(w, p, grp, others, p.pending[j]);
  }

  lemma FreesFirst(w: World, p: Progress)
    requires p.pending != []
    ensures p.pending == [p.pending[0]] + Freed(w, p, 0).pending
    ensures var next := Freed(w, p, 0); Nodes(next.released) + next.pending == Nodes(p.released) + p.pending
  {
    var next := Freed(w, p, 0);
    NodesGrow(p.released, Release(p.pending[0], p.rt.active));
    assert next.pending == p.pending[1..];
    assert Nodes(p.released) + [p.pending[0]] + p.pending[1..] == Nodes(p.released) + p.pending;
  }

  /** With the roots gone, a scan frees all that is left, in order. */
  lemma {:induction false} SecondScan(w: World, p: Progress, grp: Group, others: multiset<nat>)
    requires Tidy(w, p, grp, others) && RootsGone(p, grp)
    ensures Pass(w, p, 0).pending == [] && Nodes(Pass(w, p, 0).released) == Nodes(p.released) + p.pending
    decreases |p.pending|
  {
    if p.pending != [] {
      AllFree(w, p, grp, others, 0);
      FreedTidy(w, p, 0, grp, others);
      FreesFirst(w, p);
      assert RootsGone(Freed(w, p, 0), grp);
      SecondScan(w, Freed(w, p, 0), grp, others);
      assert Pass(w, p, 0) == Pass(w, Freed(w, p, 0), 0);
    }
  }

  lemma StartScanned(grp: Group, rt: Runtime)
    requires grp.WellFormed()
    ensures Scanned(Start(grp.members, rt), grp, 0) && Kept(grp, 0) == []
  {
    var s := Backwards(grp.members);
    assert s[..0] == [] && s[0..] == s && Nodes([]) == [];
  }

  lemma ScannedAll(p: Progress, grp: Group)
    requires grp.WellFormed() && Scanned(p, grp, |grp.members|)
    ensures p.pending == grp.Sift(Backwards(grp.members), false) && Nodes(p.released) == grp.Sift(Backwards(grp.members), true)
    ensures RootsGone(p, grp)
  {
    var s := Backwards(grp.members);
    assert s[..|s|] == s && s[|s|..] == [];
    forall r | grp.IsRoot(r) ensures r !in p.pending {
      RootIsFirst(grp, r);
      SiftMembers(grp, s, false, r);
    }
  }

  /** What the two scans free. */
  lemma TwoScans(w: World, grp: Group, rt: Runtime, others: multiset<nat>)
    requires Enclosed(w, grp.members, others, rt.active) && Sound(w, rt, others, multiset{}) && Awake(w, rt)
    requires grp.deps == w.deps && grp.active == rt.active && !Cyclic(grp.Graph())
    ensures var one := Pass(w, Start(grp.members, rt), 0);
            var two := Pass(w, one, 0);
            && Nodes(one.released) == grp.Sift(Backwards(grp.members), true)
            && two.pending == [] && Nodes(two.released) == grp.ReleaseOrder()
            && (one.pending != [] ==> |one.pending| < |grp.members|)
  {
    var start := Start(grp.members, rt);
    StartTidy(w, grp, rt, others);
    StartScanned(grp, rt);
    FirstScan(w, start, grp, others, 0);
    var one := Pass(w, start, 0);
    ScannedAll(one, grp);
    SecondScan(w, one, grp, others);
    if one.pending != [] && |one.pending| == |grp.members| {
      AllFree(w, one, grp, others, 0);
      IdlePass(w, start, 0);
    }
  }

  /** The loop ends after at most two scans, with the group released in the order known beforehand. */
  lemma ReleasedInOrder(w: World, grp: Group, rt: Runtime, others: multiset<nat>)
    requires Enclosed(w, grp.members, others, rt.active) && Sound(w, rt, others, multiset{}) && Awake(w, rt)
    requires grp.deps == w.deps && grp.active == rt.active && !Cyclic(grp.Graph())
    ensures Passes(w, Start(grp.members, rt)).pending == []
    ensures Nodes(Passes(w, Start(grp.members, rt)).released) == grp.ReleaseOrder()
  {
    var start := Start(grp.members, rt);
    TwoScans(w, grp, rt, others);
    var one := Pass(w, start, 0);
    var two := Pass(w, one, 0);
    if grp.members == [] {
      assert Nodes([]) == [];
    } else if one.pending == [] {
      assert Passes(w, start) == Passes(w, one) == one;
    } else {
      assert Passes(w, start) == Passes(w, one) == Passes(w, two) == two;
    }
  }

  lemma RootBeforeDep(grp: Group, a: nat, d: nat)
    requires grp.WellFormed() && grp.Depends(a, d) && grp.IsRoot(a) && !Cyclic(grp.Graph())
    ensures grp.First(a) && (grp.First(d) ==> Before(grp.members, d, a))
  {
    RootIsFirst(grp, a);
    ReachesItself(grp.Graph(), a);
    assert Edge(grp.Graph(), a, d);
    ReachesFurther(grp.Graph(), a, a, d);
    assert grp.RootOver(a, d);
  }

  /** Exactly when every member active at the start is released before each of its deps in the group. */
  lemma DependentsFirstIff(grp: Group)
    requires grp.WellFormed() && !Cyclic(grp.Graph())
    ensures grp.DependentsFirst(grp.ReleaseOrder()) <==> grp.ListedWell()
  {
    forall a, d | grp.Depends(a, d)
      ensures Before(grp.ReleaseOrder(), a, d) <==>
                (grp.First(a) && !grp.First(d)) || (grp.First(a) == grp.First(d) && Before(grp.members, d, a))
      ensures grp.IsRoot(a) ==> Before(grp.ReleaseOrder(), a, d)
    {
      OrderBefore(grp, a, d);
      if grp.IsRoot(a) { RootBeforeDep(grp, a, d); }
    }
  }
}
