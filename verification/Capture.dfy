/**
 * Taking a checkpoint (checkpoint.rs, `checkpoint_graph`): the worklist that discovers unregistered
 * deps, the recorded edges, and exactly when the result passes the validation of its own restore.
 */
module Capture {
  import opened Prelude
  import opened Digraph
  import opened Checkpoint

  /** A node to be recorded; unregistered ones are found through the deps of others. */
  datatype Entry = Entry(id: string, core: nat, unregistered: bool)

  /** The live deps of every core; deps of known cores are known. */
  type LiveDeps = map<nat, seq<nat>>

  predicate DepsKnown(deps: LiveDeps) {
    forall c, d | c in deps && d in deps[c] :: d in deps
  }

  function CoreGraph(deps: LiveDeps): Graph<nat> {
    map c | c in deps :: Elements(deps[c])
  }

  function Cores(entries: seq<Entry>): (cs: seq<nat>)
    ensures |cs| == |entries| && forall i :: 0 <= i < |entries| ==> cs[i] == entries[i].core
  {
    seq(|entries|, i requires 0 <= i < |entries| => entries[i].core)
  }

  ghost predicate ReachedFrom(g: Graph<nat>, start: seq<nat>, c: nat) {
    exists p :: IsPath(g, p) && p[0] in start && p[|p| - 1] == c
  }

  lemma ReachedStep(g: Graph<nat>, start: seq<nat>, c: nat, d: nat)
    requires ReachedFrom(g, start, c) && Edge(g, c, d)
    ensures ReachedFrom(g, start, d)
  {
    var p :| IsPath(g, p) && p[0] in start && p[|p| - 1] == c;
    PathExtends(g, p, d);
    assert (p + [d])[0] == p[0] && (p + [d])[|p|] == d;
  }

  lemma {:induction false} ClosedHoldsPaths(g: Graph<nat>, s: seq<nat>, p: seq<nat>, i: nat)
    requires IsPath(g, p) && p[0] in s && i < |p|
    requires forall c, d :: c in s && Edge(g, c, d) ==> d in s
    ensures p[i] in s
  {
    if i > 0 {
      ClosedHoldsPaths(g, s, p, i - 1);
      assert Edge(g, p[i - 1], p[i]);
    }
  }

  /** A stage of the search: registered nodes first, then reachable cores under synthetic ids, none twice. */
  ghost predicate Found(registered: seq<Entry>, entries: seq<Entry>, deps: LiveDeps, synthetic: nat -> string) {
    && registered <= entries && Distinct(Cores(entries))
    && (forall c :: c in Cores(entries) ==> c in deps && ReachedFrom(CoreGraph(deps), Cores(registered), c))
    && (forall k :: |registered| <= k < |entries| ==>
          entries[k] == Entry(synthetic(entries[k].core), entries[k].core, true))
  }

  lemma RegisteredAreFound(registered: seq<Entry>, deps: LiveDeps, synthetic: nat -> string)
    requires Distinct(Cores(registered)) && forall c :: c in Cores(registered) ==> c in deps
    ensures Found(registered, registered, deps, synthetic)
  {
    forall c | c in Cores(registered) ensures ReachedFrom(CoreGraph(deps), Cores(registered), c) {
      assert IsPath(CoreGraph(deps), [c]);
    }
  }

  lemma FoundExtends(registered: seq<Entry>, entries: seq<Entry>, deps: LiveDeps, synthetic: nat -> string, core: nat,
                     d: nat)
    requires Found(registered, entries, deps, synthetic) && DepsKnown(deps)
    requires core in Cores(entries) && d in deps[core] && d !in Cores(entries)
    ensures Found(registered, entries + [Entry(synthetic(d), d, true)], deps, synthetic)
    ensures Cores(entries + [Entry(synthetic(d), d, true)]) == Cores(entries) + [d]
  {
    assert Edge(CoreGraph(deps), core, d);
    ReachedStep(CoreGraph(deps), Cores(registered), core, d);
  }

  /** The deps of the first `n` entries are all listed. */
  ghost predicate Expanded(entries: seq<Entry>, n: nat, deps: LiveDeps)
    requires n <= |entries|
  {
    forall k :: 0 <= k < n ==> DepsListed(Cores(entries), Cores(entries)[k], deps)
  }

  ghost predicate DepsListed(cores: seq<nat>, c: nat, deps: LiveDeps) {
    forall d :: Edge(CoreGraph(deps), c, d) ==> d in cores
  }

  lemma ExpandedGrows(before: seq<Entry>, entries: seq<Entry>, n: nat, deps: LiveDeps)
    requires before <= entries && n < |before| && Expanded(before, n, deps)
    requires DepsListed(Cores(entries), Cores(before)[n], deps)
    ensures Expanded(entries, n + 1, deps)
  {
    assert Cores(before) == Cores(entries)[..|before|];
    forall k | 0 <= k < n + 1 ensures DepsListed(Cores(entries), Cores(entries)[k], deps) {
      assert Cores(entries)[k] == Cores(before)[k];
      if k < n {
        assert DepsListed(Cores(before), Cores(before)[k], deps);
        ListedGrows(Cores(before), Cores(entries), Cores(before)[k], deps);
      }
    }
  }

  lemma ListedGrows(a: seq<nat>, b: seq<nat>, c: nat, deps: LiveDeps)
    requires DepsListed(a, c, deps) && a <= b
    ensures DepsListed(b, c, deps)
  {
    forall d | Edge(CoreGraph(deps), c, d) ensures d in b {
      assert d in a;
    }
  }

  lemma FoundFits(registered: seq<Entry>, entries: seq<Entry>, deps: LiveDeps, synthetic: nat -> string)
    requires Found(registered, entries, deps, synthetic)
    ensures |entries| <= |deps.Keys|
  {
    DistinctFits(Cores(entries), deps.Keys);
  }

  /** When every entry's deps are listed, everything reachable is. */
  lemma FoundIsComplete(registered: seq<Entry>, entries: seq<Entry>, deps: LiveDeps, synthetic: nat -> string)
    requires Found(registered, entries, deps, synthetic)
    requires Expanded(entries, |entries|, deps)
    ensures forall c :: c in Cores(entries) <==> ReachedFrom(CoreGraph(deps), Cores(registered), c)
  {
    forall c, d | c in Cores(entries) && Edge(CoreGraph(deps), c, d) ensures d in Cores(entries) {
      var k :| 0 <= k < |entries| && Cores(entries)[k] == c;
      assert DepsListed(Cores(entries), Cores(entries)[k], deps);
    }
    forall c | ReachedFrom(CoreGraph(deps), Cores(registered), c) ensures c in Cores(entries) {
      var p :| IsPath(CoreGraph(deps), p) && p[0] in Cores(registered) && p[|p| - 1] == c;
      assert forall k :: 0 <= k < |registered| ==> Cores(entries)[k] == Cores(registered)[k];
      ClosedHoldsPaths(CoreGraph(deps), Cores(entries), p, |p| - 1);
    }
  }

  /** The registered nodes first, then each core reachable from them once, under its synthetic id. */
  method CollectEntries(registered: seq<Entry>, deps: LiveDeps, synthetic: nat -> string) returns (entries: seq<Entry>)
    requires DepsKnown(deps) && Distinct(Cores(registered))
    requires forall c :: c in Cores(registered) ==> c in deps
    ensures registered <= entries && Distinct(Cores(entries))
    ensures forall i :: |registered| <= i < |entries| ==> entries[i] == Entry(synthetic(entries[i].core), entries[i].core, true)
    ensures forall c :: c in Cores(entries) <==> ReachedFrom(CoreGraph(deps), Cores(registered), c)
  {
    entries := registered;
    RegisteredAreFound(registered, deps, synthetic);
    FoundFits(registered, entries, deps, synthetic);
    var i := 0;
    while i < |entries|
      invariant i <= |entries| <= |deps.Keys| && Found(registered, entries, deps, synthetic)
      invariant Expanded(entries, i, deps)
      decreases |deps.Keys| - i
    {
      ghost var before := entries;
      entries := AddMissing(registered, entries, deps, synthetic, i);
      FoundFits(registered, entries, deps, synthetic);
      ExpandedGrows(before, entries, i, deps);
      i := i + 1;
    }
    FoundIsComplete(registered, entries, deps, synthetic);
  }

  /** Appends the deps of entry `i` that are not listed yet. */
  method AddMissing(ghost registered: seq<Entry>, before: seq<Entry>, deps: LiveDeps, synthetic: nat -> string, i: nat)
    returns (entries: seq<Entry>)
    requires DepsKnown(deps) && i < |before| && Found(registered, before, deps, synthetic)
    ensures before <= entries && Found(registered, entries, deps, synthetic)
    ensures DepsListed(Cores(entries), Cores(before)[i], deps)
  {
    entries := before;
    var core := before[i].core;
    assert core == Cores(before)[i];
    for j := 0 to |deps[core]|
      invariant before <= entries && Found(registered, entries, deps, synthetic)
      invariant forall k :: 0 <= k < j ==> deps[core][k] in Cores(entries)
    {
      var d := deps[core][j];
      if d !in Cores(entries) {
        assert Cores(entries)[i] == core;
        FoundExtends(registered, entries, deps, synthetic, core, d);
        entries := entries + [Entry(synthetic(d), d, true)];
      }
    }
  }

  // ---- recorded edges ----

  function EdgesInto(n: Node): (es: seq<EdgeRecord>)
    ensures |es| == |n.deps| && forall i :: 0 <= i < |es| ==> es[i] == EdgeRecord(n.deps[i], n.id)
  {
    seq(|n.deps|, i requires 0 <= i < |n.deps| => EdgeRecord(n.deps[i], n.id))
  }

  /** `edges.extend(..)` over the nodes: one edge for each dep of each node, repeats included. */
  function RecordedEdges(nodes: seq<Node>): seq<EdgeRecord> {
    if nodes == [] then []
    else RecordedEdges(nodes[..|nodes| - 1]) + EdgesInto(nodes[|nodes| - 1])
  }

  lemma {:induction false} RecordedEdgesMembers(nodes: seq<Node>, a: string, b: string)
    ensures EdgeRecord(a, b) in RecordedEdges(nodes) <==>
            exists i :: 0 <= i < |nodes| && nodes[i].id == b && a in nodes[i].deps
  {
    if nodes != [] {
      var init, last := nodes[..|nodes| - 1], nodes[|nodes| - 1];
      RecordedEdgesMembers(init, a, b);
      if i :| 0 <= i < |init| && init[i].id == b && a in init[i].deps { assert nodes[i] == init[i]; }
      if i :| 0 <= i < |nodes| && nodes[i].id == b && a in nodes[i].deps {
        if i < |init| { assert init[i] == nodes[i]; } else { assert nodes[i] == last; }
      }
      if a in last.deps && last.id == b {
        var j :| 0 <= j < |last.deps| && last.deps[j] == a;
        assert EdgesInto(last)[j] == EdgeRecord(a, b);
      }
    }
  }

  ghost predicate NoRepeatedDep(nodes: seq<Node>) {
    forall i :: 0 <= i < |nodes| ==> Distinct(nodes[i].deps)
  }

  /** With distinct ids, an edge is recorded twice only when one node lists one dep twice. */
  lemma {:induction false} RecordedEdgesDistinct(nodes: seq<Node>)
    requires Distinct(Ids(nodes))
    ensures Distinct(RecordedEdges(nodes)) <==> NoRepeatedDep(nodes)
  {
    if nodes != [] {
      var init, last := nodes[..|nodes| - 1], nodes[|nodes| - 1];
      assert Ids(init) == Ids(nodes)[..|nodes| - 1];
      RecordedEdgesDistinct(init);
      DistinctConcat(RecordedEdges(init), EdgesInto(last));
      forall e | e in RecordedEdges(init) ensures e !in EdgesInto(last) {
        RecordedEdgesMembers(init, e.source, e.target);
        var i :| 0 <= i < |init| && init[i].id == e.target && e.source in init[i].deps;
        assert Ids(nodes)[i] != Ids(nodes)[|nodes| - 1];
      }
      assert Distinct(EdgesInto(last)) <==> Distinct(last.deps) by {
        if Distinct(EdgesInto(last)) {
          forall i, j | 0 <= i < j < |last.deps| ensures last.deps[i] != last.deps[j] {
            assert EdgesInto(last)[i] != EdgesInto(last)[j];
          }
        }
      }
      assert forall i :: 0 <= i < |init| ==> init[i] == nodes[i];
    }
  }

  /**
   * The recorded edges of a graph pass the edge validation of its own restore exactly when no node
   * lists the same dep twice.
   */
  lemma OwnEdgesAcceptedIff(nodes: seq<Node>)
    requires Distinct(Ids(nodes))
    ensures EdgesMatch(RecordedEdges(nodes), NodeMap(nodes)) <==>
            NoRepeatedDep(nodes)
  {
    RecordedEdgesDistinct(nodes);
    var m, edges := NodeMap(nodes), RecordedEdges(nodes);
    forall a, b ensures EdgeRecord(a, b) in edges <==> b in m && a in m[b].deps {
      RecordedEdgesAreDeps(nodes, a, b);
    }
    assert EdgesMatch(edges, m) <==> Distinct(edges);
  }

  lemma RecordedEdgesAreDeps(nodes: seq<Node>, a: string, b: string)
    requires Distinct(Ids(nodes))
    ensures EdgeRecord(a, b) in RecordedEdges(nodes) <==> b in NodeMap(nodes) && a in NodeMap(nodes)[b].deps
  {
    RecordedEdgesMembers(nodes, a, b);
    if i :| 0 <= i < |nodes| && nodes[i].id == b && a in nodes[i].deps { NodeMapAt(nodes, i); }
    NodeMapKeys(nodes);
    if b in NodeMap(nodes) {
      var i :| 0 <= i < |nodes| && nodes[i] == NodeMap(nodes)[b];
    }
  }

  lemma {:induction false} NodeMapAt(nodes: seq<Node>, i: nat)
    requires Distinct(Ids(nodes)) && i < |nodes|
    ensures nodes[i].id in NodeMap(nodes) && NodeMap(nodes)[nodes[i].id] == nodes[i]
  {
    if i < |nodes| - 1 {
      assert Ids(nodes[..|nodes| - 1]) == Ids(nodes)[..|nodes| - 1];
      NodeMapAt(nodes[..|nodes| - 1], i);
      assert Ids(nodes)[i] != Ids(nodes)[|nodes| - 1];
    }
  }

  /** A node that uses one dep twice: its graph's own checkpoint is refused. */
  lemma RepeatedDepIsRefused(registry: set<string>)
    requires "state" in registry
    ensures var a := Node("a", RegistryRef("state"), "settled", [], NotTerminal, None, None, []);
            var b := Node("b", RegistryRef("state"), "settled", ["a", "a"], NotTerminal, None, None, []);
            !Acceptable(Checkpoint(GRAPH_CHECKPOINT_VERSION, [a, b], RecordedEdges([a, b]), []), registry, None)
  {
    var a := Node("a", RegistryRef("state"), "settled", [], NotTerminal, None, None, []);
    var b := Node("b", RegistryRef("state"), "settled", ["a", "a"], NotTerminal, None, None, []);
    var nodes := [a, b];
    assert Ids(nodes) == ["a", "b"];
    assert !Distinct(nodes[1].deps) by { assert b.deps[0] == b.deps[1]; }
    OwnEdgesAcceptedIff(nodes);
  }
}
