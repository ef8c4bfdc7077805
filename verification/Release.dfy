/** Group release (graph.rs, `release_nodes`): the checks, the removal from the registry and the scan loop. */
module GroupRelease {
  import opened Prelude
  import opened Digraph
  import opened ReleaseModel
  import opened ReleaseLoop
  import opened ReleaseOrder

  datatype ReleaseError =
    | StillDependsOn(dependent: nat, dep: nat)
    | NotQuiescent(node: nat)
    | LiveSubscribers(node: nat)
    | OrderDidNotQuiesce

  /** The requested nodes that are registered, each at its first mention. */
  function Registered(requested: seq<nat>, entries: seq<nat>): seq<nat> {
    if requested == [] then []
    else
      var last, before := requested[|requested| - 1], requested[..|requested| - 1];
      if last in entries && last !in before then Registered(before, entries) + [last] else Registered(before, entries)
  }

  lemma {:induction false} RegisteredMembers(requested: seq<nat>, entries: seq<nat>)
    ensures Elements(Registered(requested, entries)) == Elements(requested) * Elements(entries)
    ensures Distinct(Registered(requested, entries))
  {
    if requested != [] {
      var last, before := requested[|requested| - 1], requested[..|requested| - 1];
      RegisteredMembers(before, entries);
      assert requested == before + [last];
      ElementsSnoc(before, last);
      ElementsSnoc(Registered(before, entries), last);
      var rest := Registered(before, entries);
      if last in entries && last !in before {
        assert last !in Elements(rest);
        DistinctConcat(rest, [last]);
      }
    }
  }

  /** The group keeps the order of first mention. */
  lemma {:induction false} RegisteredInOrder(requested: seq<nat>, entries: seq<nat>, a: nat, b: nat) returns (j: nat)
    requires a < b < |Registered(requested, entries)|
    ensures j < |requested| && requested[j] == Registered(requested, entries)[b] && requested[j] !in requested[..j]
    ensures Registered(requested, entries)[a] in requested[..j]
  {
    var n := |requested| - 1;
    var before := Registered(requested[..n], entries);
    if b < |before| {
      j := RegisteredInOrder(requested[..n], entries, a, b);
      assert requested[..n][..j] == requested[..j];
    } else {
      j := n;
      RegisteredMembers(requested[..n], entries);
      assert before[a] in Elements(before);
    }
  }

  function Remaining(entries: seq<nat>, members: seq<nat>): seq<nat> {
    if entries == [] then []
    else
      var rest, last := Remaining(entries[..|entries| - 1], members), entries[|entries| - 1];
      if last in members then rest else rest + [last]
  }

  lemma {:induction false} RemainingMembers(entries: seq<nat>, members: seq<nat>)
    requires Distinct(entries)
    ensures Elements(Remaining(entries, members)) == Elements(entries) - Elements(members)
    ensures Distinct(Remaining(entries, members))
  {
    if entries != [] {
      var last, before := entries[|entries| - 1], entries[..|entries| - 1];
      assert entries == before + [last];
      ElementsSnoc(before, last);
      ElementsSnoc(Remaining(before, members), last);
      DistinctConcat(before, [last]);
      RemainingMembers(before, members);
      assert last !in Elements(Remaining(before, members));
      if last !in members { DistinctConcat(Remaining(before, members), [last]); }
    }
  }

  /** What stays registered keeps its order. */
  lemma {:induction false} RemainingInOrder(entries: seq<nat>, members: seq<nat>, a: nat, b: nat) returns (i: nat, j: nat)
    requires Distinct(entries) && a < b < |Remaining(entries, members)|
    ensures i < j < |entries| && entries[i] == Remaining(entries, members)[a] && entries[j] == Remaining(entries, members)[b]
  {
    var n := |entries| - 1;
    var before := Remaining(entries[..n], members);
    if b < |before| {
      i, j := RemainingInOrder(entries[..n], members, a, b);
    } else {
      j := n;
      RemainingMembers(entries[..n], members);
      assert before[a] in Elements(before);
      i :| 0 <= i < n && entries[i] == before[a];
    }
  }

  function Detached(observed: multiset<nat>, members: seq<nat>): multiset<nat> {
    if members == [] then observed else Detached(observed, members[..|members| - 1])[members[|members| - 1] := 0]
  }

  lemma {:induction false} DetachedCounts(observed: multiset<nat>, members: seq<nat>, d: nat)
    ensures Detached(observed, members)[d] == if d in members then 0 else observed[d]
  {
    if members != [] { DetachedCounts(observed, members[..|members| - 1], d); }
  }

  /** A registered node outside the group depends on a member. */
  ghost predicate OutsideDependent(entries: seq<nat>, members: seq<nat>, deps: Deps, a: nat, d: nat) {
    a in entries && a !in members && d in members && a in deps && d in deps[a]
  }

  class GraphRuntime {
    const nodes: seq<nat>
    const deps: Deps
    const quiescent: nat -> bool

    var entries: seq<nat>
    var active: set<nat>
    var subs: multiset<nat>
    var observed: multiset<nat>
    ghost var others: multiset<nat>

    ghost function Here(): World
      reads this`observed
    {
      World(nodes, deps, observed)
    }

    ghost function Now(): Runtime
      reads this`active, this`subs
    {
      Runtime(active, subs)
    }

    /**
     * Every active node subscribes to each of its deps, whatever else subscribes is counted in `others`,
     * and every subscribed node is active.
     */
    ghost predicate Valid()
      reads this
    {
      && Sound(Here(), Now(), others, multiset{}) && Awake(Here(), Now())
      && Distinct(entries) && Elements(entries) <= deps.Keys
    }

    constructor (nodes: seq<nat>, deps: Deps, quiescent: nat -> bool, entries: seq<nat>, rt: Runtime,
                 observed: multiset<nat>, ghost others: multiset<nat>)
      requires Sound(World(nodes, deps, observed), rt, others, multiset{}) && Awake(World(nodes, deps, observed), rt)
      requires Distinct(entries) && Elements(entries) <= deps.Keys
      ensures Valid() && this.nodes == nodes && this.deps == deps && this.quiescent == quiescent
      ensures this.entries == entries && Now() == rt && this.observed == observed && this.others == others
    {
      this.nodes, this.deps, this.quiescent, this.entries := nodes, deps, quiescent, entries;
      this.active, this.subs, this.observed, this.others := rt.active, rt.subs, observed, others;
    }

    method Unsubscribe(d: nat)
      modifies this`active, this`subs
      ensures Now() == Unsubscribed(Here(), old(Now()), d)
      decreases |active|, 1, 0
    {
      var had := subs[d] > 0;
      subs := subs - multiset{d};
      if had && subs[d] + observed[d] == 0 { Deactivate(d); }
    }

    /** An active node drops the subscription behind every place of its dep list. */
    method Deactivate(d: nat)
      modifies this`active, this`subs
      ensures Now() == Deactivated(Here(), old(Now()), d)
      decreases |active|, 0, 0
    {
      if d !in active { return; }
      active := active - {d};
      FewerOrEqual(active + {d}, old(active));
      if d in deps { UnsubscribeAll(deps[d]); }
    }

    method UnsubscribeAll(ds: seq<nat>)
      modifies this`active, this`subs
      ensures Now() == AllUnsubscribed(Here(), old(Now()), ds)
      decreases |active|, 2, |ds|
    {
      for i := 0 to |ds|
        invariant active <= old(active)
        invariant AllUnsubscribed(Here(), old(Now()), ds) == AllUnsubscribed(Here(), Now(), ds[i..])
      {
        FewerOrEqual(active, old(active));
        assert ds[i..][1..] == ds[i + 1..];
        Unsubscribe(ds[i]);
      }
    }

    ghost predicate Enclosable(members: seq<nat>)
      reads this`entries, this`active, this`subs
      requires Elements(members) <= deps.Keys
    {
      && (forall a, d :: !OutsideDependent(entries, members, deps, a, d))
      && (forall d :: d in members ==> quiescent(d))
      && (forall d :: d in members ==> subs[d] <= Held(members, deps, active)[d])
    }

    method CheckDependents(members: seq<nat>) returns (e: Option<ReleaseError>)
      requires Elements(entries) <= deps.Keys
      ensures e.None? <==> forall a, d :: !OutsideDependent(entries, members, deps, a, d)
      ensures e.Some? ==> e.value.StillDependsOn? && OutsideDependent(entries, members, deps, e.value.dependent, e.value.dep)
    {
      for i := 0 to |entries|
        invariant forall j, d :: 0 <= j < i ==> !OutsideDependent(entries, members, deps, entries[j], d)
      {
        var a := entries[i];
        assert a in Elements(entries);
        if a !in members {
          for k := 0 to |deps[a]|
            invariant forall m :: 0 <= m < k ==> deps[a][m] !in members
          {
            if deps[a][k] in members {
              assert OutsideDependent(entries, members, deps, a, deps[a][k]);
              return Some(StillDependsOn(a, deps[a][k]));
            }
          }
        }
      }
      return None;
    }

    /** The subscriptions that active members hold on `core`. */
    method InternalSubscribers(members: seq<nat>, core: nat) returns (n: nat)
      requires Elements(members) <= deps.Keys
      ensures n == Held(members, deps, active)[core]
    {
      n := 0;
      for i := 0 to |members|
        invariant Elements(members[..i]) <= deps.Keys
        invariant n == Held(members[..i], deps, active)[core]
      {
        assert members[i] in Elements(members);
        HeldOneMore(members[..i], members[i], deps, active);
        assert members[..i] + [members[i]] == members[..i + 1];
        if members[i] in active {
          var places := PlacesOf(deps[members[i]], core);
          n := n + places;
        }
      }
      assert members[..|members|] == members;
    }

    method PlacesOf(ds: seq<nat>, core: nat) returns (places: nat)
      ensures places == multiset(ds)[core]
    {
      places := 0;
      for k := 0 to |ds|
        invariant places == multiset(ds[..k])[core]
      {
        assert ds[..k + 1] == ds[..k] + [ds[k]];
        if ds[k] == core { places := places + 1; }
      }
      assert ds[..|ds|] == ds;
    }

    method CheckMembers(members: seq<nat>) returns (e: Option<ReleaseError>)
      requires Elements(members) <= deps.Keys
      ensures e.None? <==> forall d :: d in members ==> quiescent(d) && subs[d] <= Held(members, deps, active)[d]
      ensures e.Some? ==> e.value.NotQuiescent? || e.value.LiveSubscribers?
      ensures e.Some? && e.value.NotQuiescent? ==> e.value.node in members && !quiescent(e.value.node)
      ensures e.Some? && e.value.LiveSubscribers? ==>
                e.value.node in members && subs[e.value.node] > Held(members, deps, active)[e.value.node]
    {
      for i := 0 to |members|
        invariant forall j :: 0 <= j < i ==> quiescent(members[j]) && subs[members[j]] <= Held(members, deps, active)[members[j]]
      {
        if !quiescent(members[i]) { return Some(NotQuiescent(members[i])); }
        var internal := InternalSubscribers(members, members[i]);
        if subs[members[i]] > internal { return Some(LiveSubscribers(members[i])); }
      }
      return None;
    }

    lemma {:induction false} ChecksEnclose(members: seq<nat>, detached: World)
      requires Valid() && Distinct(members) && Elements(members) <= Elements(entries) && Enclosable(members)
      requires detached == World(nodes, deps, Detached(observed, members))
      ensures Enclosed(detached, members, others, active) && Sound(detached, Now(), others, multiset{})
    {
      forall d | d in members
        ensures others[d] == 0 && detached.observed[d] == 0
        ensures forall a :: a in active && a in deps && d in deps[a] ==> a in members
      {
        DetachedCounts(observed, members, d);
        OnlyMembersSubscribe(nodes, deps, active, members, others, d);
        forall a | a in active && a in deps && d in deps[a] ensures a in members { assert a in Elements(nodes); }
      }
    }

    /**
     * Releases the registered ones of `requested`, or reports the check that failed, leaving everything as
     * it was.  Past the checks it fails exactly when the deps of the active members have a cycle.
     */
    method ReleaseNodes(requested: seq<nat>) returns (r: Result<seq<nat>, ReleaseError>)
      requires Valid()
      modifies this`entries, this`active, this`subs, this`observed
      ensures Valid()
      ensures var members := Registered(requested, old(entries));
              && Elements(members) <= deps.Keys
              && (r.Ok? <==> old(Enclosable(members)) && !Cyclic(ActiveDeps(Elements(members), deps, old(active))))
              && (r == Err(OrderDidNotQuiesce) <==>
                    old(Enclosable(members)) && Cyclic(ActiveDeps(Elements(members), deps, old(active))))
              && (!old(Enclosable(members)) ==>
                    r.Err? && entries == old(entries) && Now() == old(Now()) && observed == old(observed))
              && (old(Enclosable(members)) ==> entries == Remaining(old(entries), members))
      ensures r.Ok? ==>
                var grp := Group(Registered(requested, old(entries)), deps, old(active));
                && grp.WellFormed() && r.value == grp.ReleaseOrder()
                && (grp.DependentsFirst(r.value) <==> grp.ListedWell())
      ensures r.Ok? ==>
                var members := Registered(requested, old(entries));
                var end := Passes(Here(), Start(members, old(Now())));
                && multiset(r.value) == multiset(members) && r.value == Nodes(end.released)
                && Now() == end.rt && active !! Elements(members)
                && observed == Detached(old(observed), members)
                && forall i :: 0 <= i < |end.released| ==> Quiet(Here(), end.released[i])
    {
      var members := FindRegistered(requested);
      RegisteredMembers(requested, entries);
      var failed := Check(members);
      if failed.Some? { return Err(failed.value); }
      LoopEnds(members);
      OrderKnown(members);
      RemainingMembers(entries, members);
      r := ReleaseChecked(members);
    }

    lemma OrderKnown(members: seq<nat>)
      requires Distinct(members) && Elements(members) <= deps.Keys
      ensures var grp := Group(members, deps, active);
              !Cyclic(ActiveDeps(Elements(members), deps, active)) ==>
                grp.WellFormed() && (grp.DependentsFirst(grp.ReleaseOrder()) <==> grp.ListedWell())
    {
      if !Cyclic(ActiveDeps(Elements(members), deps, active)) { DependentsFirstIff(Group(members, deps, active)); }
    }

    method FindRegistered(requested: seq<nat>) returns (members: seq<nat>)
      ensures members == Registered(requested, entries)
    {
      members := [];
      for i := 0 to |requested|
        invariant members == Registered(requested[..i], entries) && forall x :: x in members <==> x in requested[..i] && x in entries
      {
        assert requested[..i + 1][..i] == requested[..i];
        if requested[i] !in members && requested[i] in entries { members := members + [requested[i]]; }
      }
      assert requested[..|requested|] == requested;
    }

    /** All the checks; an error names an offender. */
    method Check(members: seq<nat>) returns (e: Option<ReleaseError>)
      requires Elements(entries) <= deps.Keys && Elements(members) <= deps.Keys
      ensures e.None? <==> Enclosable(members)
      ensures e.Some? ==> !e.value.OrderDidNotQuiesce?
      ensures e.Some? && e.value.StillDependsOn? ==> OutsideDependent(entries, members, deps, e.value.dependent, e.value.dep)
      ensures e.Some? && e.value.NotQuiescent? ==> e.value.node in members && !quiescent(e.value.node)
      ensures e.Some? && e.value.LiveSubscribers? ==>
                e.value.node in members && subs[e.value.node] > Held(members, deps, active)[e.value.node]
    {
      e := CheckDependents(members);
      if e.None? { e := CheckMembers(members); }
    }

    /** The release once the checks have passed. */
    method ReleaseChecked(members: seq<nat>) returns (r: Result<seq<nat>, ReleaseError>)
      modifies this`entries, this`active, this`subs, this`observed
      ensures entries == Remaining(old(entries), members) && observed == Detached(old(observed), members)
      ensures var end := Passes(Here(), Start(members, old(Now())));
              && Now() == end.rt
              && r == if end.pending == [] then Ok(Nodes(end.released)) else Err(OrderDidNotQuiesce)
    {
      Deregister(members);
      Detach(members);
      var pending, released := ScanLoop(members);
      r := if pending == [] then Ok(released) else Err(OrderDidNotQuiesce);
    }

    lemma StillAwake(members: seq<nat>, detached: World)
      requires Valid() && detached == World(nodes, deps, Detached(observed, members))
      ensures Awake(detached, Now())
    {
      forall x | Subscribers(detached, Now(), x) > 0 ensures x in active {
        DetachedCounts(observed, members, x);
        assert Subscribers(Here(), Now(), x) > 0;
      }
    }

    /** What the loop will have done. */
    lemma {:induction false} LoopEnds(members: seq<nat>)
      requires Valid() && Distinct(members) && Elements(members) <= Elements(entries) && Enclosable(members)
      ensures var w := World(nodes, deps, Detached(observed, members));
              var end := Passes(w, Start(members, Now()));
              && Sound(w, end.rt, others, multiset{}) && Awake(w, end.rt)
              && (end.pending == [] ==> Nodes(end.released) == Group(members, deps, active).ReleaseOrder())
              && (end.pending == [] <==> !Cyclic(ActiveDeps(Elements(members), deps, active)))
              && (end.pending == [] ==>
                    && multiset(Nodes(end.released)) == multiset(members) && end.rt.active !! Elements(members)
                    && forall i :: 0 <= i < |end.released| ==> Quiet(w, end.released[i]))
    {
      var w := World(nodes, deps, Detached(observed, members));
      ChecksEnclose(members, w);
      StartGood(w, members, Now(), others);
      PassesGood(w, Start(members, Now()), members, others, active);
      EmptiesIffAcyclic(w, members, Now(), others);
      StillAwake(members, w);
      PassesAwake(w, Start(members, Now()));
      if Passes(w, Start(members, Now())).pending == [] {
        ReleasedOnceAndQuietly(w, members, Now(), others);
        ReleasedInOrder(w, Group(members, deps, active), Now(), others);
      }
    }

    method Deregister(members: seq<nat>)
      modifies this`entries
      ensures entries == Remaining(old(entries), members)
    {
      var kept: seq<nat> := [];
      for i := 0 to |entries|
        invariant kept == Remaining(entries[..i], members)
        modifies {}
      {
        assert entries[..i + 1][..i] == entries[..i];
        if entries[i] !in members { kept := kept + [entries[i]]; }
      }
      assert entries[..|entries|] == entries;
      entries := kept;
    }

    method Detach(members: seq<nat>)
      modifies this`observed
      ensures observed == Detached(old(observed), members)
    {
      for i := 0 to |members|
        invariant observed == Detached(old(observed), members[..i])
      {
        assert members[..i + 1][..i] == members[..i];
        observed := observed[members[i] := 0];
      }
      assert members[..|members|] == members;
    }

    /** The repeated scan: the loop that the step functions describe. */
    method ScanLoop(members: seq<nat>) returns (pending: seq<nat>, released: seq<nat>)
      modifies this`active, this`subs
      ensures var end := Passes(Here(), Start(members, old(Now())));
              Now() == end.rt && pending == end.pending && released == Nodes(end.released)
    {
      pending, released := Backwards(members), [];
      ghost var log: seq<Release> := [];
      ghost var start := Start(members, Now());
      while pending != []
        invariant Passes(Here(), start) == Passes(Here(), Progress(Now(), pending, log)) && released == Nodes(log)
        decreases |pending|
      {
        ghost var began := Progress(Now(), pending, log);
        var before := |pending|;
        var index := 0;
        while index < |pending|
          invariant index <= |pending| <= before
          invariant Pass(Here(), began, 0) == Pass(Here(), Progress(Now(), pending, log), index)
          invariant Passes(Here(), start) == Passes(Here(), began) && released == Nodes(log)
          decreases |pending| - index
        {
          if subs[pending[index]] + observed[pending[index]] != 0 {
            index := index + 1;
            continue;
          }
          ghost var at := Progress(Now(), pending, log);
          var core := pending[index];
          NodesGrow(log, Release(core, active));
          log, released := log + [Release(core, active)], released + [core];
          pending := Without(pending, index);
          Deactivate(core);
          assert Progress(Now(), pending, log) == Freed(Here(), at, index);
        }
        assert Progress(Now(), pending, log) == Pass(Here(), began, 0);
        if |pending| == before { break; }
      }
    }
  }

  lemma {:induction false} AllRegistered(members: seq<nat>, entries: seq<nat>)
    requires Distinct(members) && forall x :: x in members ==> x in entries
    ensures Registered(members, entries) == members
  {
    if members != [] {
      var last, before := members[|members| - 1], members[..|members| - 1];
      AllRegistered(before, entries);
      assert members == before + [last] && last !in before;
    }
  }

  lemma CascadeFound()
    ensures Registered([1, 0, 2], [0, 1, 2]) == [1, 0, 2]
  {
    AllRegistered([1, 0, 2], [0, 1, 2]);
  }

  /** The world before the graph's own observer of node 2 is detached. */
  function ObservedWorld(): World {
    CascadeWorld().(observed := multiset{2})
  }

  lemma CascadeDetached()
    ensures ObservedWorld().(observed := Detached(multiset{2}, [1, 0, 2])) == CascadeWorld()
  {
    forall d ensures Detached(multiset{2}, [1, 0, 2])[d] == 0 { DetachedCounts(multiset{2}, [1, 0, 2], d); }
  }

  lemma {:induction false} CascadeStands()
    ensures Sound(ObservedWorld(), CascadeStart(), multiset{}, multiset{}) && Awake(ObservedWorld(), CascadeStart())
    ensures Elements([0, 1, 2]) <= ObservedWorld().deps.Keys && Distinct([0, 1, 2])
    ensures Elements([1, 0, 2]) <= ObservedWorld().deps.Keys
    ensures !Cyclic(ActiveDeps(Elements([1, 0, 2]), ObservedWorld().deps, CascadeStart().active))
    ensures CascadeStart().subs <= Held([1, 0, 2], ObservedWorld().deps, CascadeStart().active)
  {
    CascadeIsEnclosed();
    CascadeIsSound();
    CascadeRuns();
    EmptiesIffAcyclic(CascadeWorld(), [1, 0, 2], CascadeStart(), multiset{});
    HeldByThree(1, 0, 2, CascadeWorld().deps, {0, 1, 2});
  }

  lemma CascadeEnclosable(graph: GraphRuntime)
    requires graph.deps == ObservedWorld().deps && graph.Now() == CascadeStart() && graph.entries == [0, 1, 2]
    requires forall d :: graph.quiescent(d)
    ensures Elements([1, 0, 2]) <= graph.deps.Keys && graph.Enclosable([1, 0, 2])
  {
    CascadeStands();
  }

  /** Node 1 is active and depends on node 0, and goes after it. */
  method ReleaseCascade() returns (r: Result<seq<nat>, ReleaseError>)
    ensures r == Ok([2, 0, 1])
  {
    CascadeStands();
    CascadeFound();
    CascadeDetached();
    CascadeRuns();
    var w := ObservedWorld();
    var graph := new GraphRuntime(w.nodes, w.deps, _ => true, [0, 1, 2], CascadeStart(), w.observed, multiset{});
    CascadeEnclosable(graph);
    r := graph.ReleaseNodes([1, 0, 2]);
  }
}
