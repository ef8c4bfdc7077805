/** Indexing a described topology and explaining a path through it (diagnostics.rs, `explain_path`). */
module DiagnosticsExplain {
  import opened Prelude
  import opened Digraph
  import opened Bfs
  import opened Diagnostics
  import opened DiagnosticsCycle
  import opened Snapshots

  datatype SnapshotIndex = SnapshotIndex(nodes: map<string, DescribedNode>, outgoing: Ids, incoming: Ids)

  // ---- the index ----

  /** One direction of the index holds the reversed edges of the other, over the indexed nodes. */
  ghost predicate Mirrored(idx: SnapshotIndex) {
    && idx.outgoing.Keys == idx.nodes.Keys == idx.incoming.Keys
    && Closed(idx.outgoing) && Closed(idx.incoming)
    && forall a, b :: Edge(idx.outgoing, a, b) <==> Edge(idx.incoming, b, a)
  }

  function AddEdge(g: Ids, a: string, b: string): Ids
    requires a in g
  {
    g[a := g[a] + {b}]
  }

  /** Adds `a -> b` to both directions when both ends are indexed. */
  function Link(idx: SnapshotIndex, a: string, b: string): SnapshotIndex
    requires Mirrored(idx)
  {
    if a in idx.nodes && b in idx.nodes then
      idx.(outgoing := AddEdge(idx.outgoing, a, b), incoming := AddEdge(idx.incoming, b, a))
    else idx
  }

  lemma AddEdgeAddsOne(g: Ids, a: string, b: string)
    requires a in g
    ensures forall x, y :: Edge(AddEdge(g, a, b), x, y) <==> Edge(g, x, y) || (x == a && y == b)
  {
  }

  lemma LinkAddsOneEdge(idx: SnapshotIndex, a: string, b: string)
    requires Mirrored(idx)
    ensures Mirrored(Link(idx, a, b)) && Link(idx, a, b).nodes == idx.nodes
    ensures forall x, y :: Edge(Link(idx, a, b).outgoing, x, y) <==>
              Edge(idx.outgoing, x, y) || (x == a && y == b && a in idx.nodes && b in idx.nodes)
  {
    if a in idx.nodes && b in idx.nodes {
      AddEdgeAddsOne(idx.outgoing, a, b);
      AddEdgeAddsOne(idx.incoming, b, a);
    }
  }

  ghost predicate EdgeListed(edges: seq<DescribedEdge>, a: string, b: string) {
    DescribedEdge(a, b) in edges
  }

  /** `n` is the last of the nodes with the id `k`. */
  ghost predicate LastWithId(flat: seq<DescribedNode>, k: string, n: DescribedNode) {
    exists i :: 0 <= i < |flat| && flat[i] == n && n.id == k && forall j :: i < j < |flat| ==> flat[j].id != k
  }

  ghost predicate IndexesNodes(nodes: map<string, DescribedNode>, s: Snapshot) {
    (forall k :: k in nodes <==> HasId(s, k)) && forall k :: k in nodes ==> LastOf(s, k, nodes[k])
  }

  /**
   * The index of a snapshot and all its subgraphs: every node by its id, of several the last in their order;
   * and the recorded deps and explicit edges, between indexed nodes.
   */
  ghost predicate IndexesSnapshot(idx: SnapshotIndex, s: Snapshot) {
    && Mirrored(idx)
    && IndexesNodes(idx.nodes, s)
    && forall a, b :: Edge(idx.outgoing, a, b) <==>
         a in idx.nodes && b in idx.nodes && (a in idx.nodes[b].deps || EdgeIn(s, DescribedEdge(a, b)))
  }

  lemma IndexedByPlace(s: Snapshot, nodes: map<string, DescribedNode>)
    requires forall k :: k in nodes <==> exists i :: 0 <= i < |AllNodes(s)| && AllNodes(s)[i].id == k
    requires forall k :: k in nodes ==> LastWithId(AllNodes(s), k, nodes[k])
    ensures IndexesNodes(nodes, s)
  {
    forall k ensures k in nodes <==> HasId(s, k) { IdFlatIff(s, k); }
    forall k | k in nodes ensures LastOf(s, k, nodes[k]) {
      var i :| 0 <= i < |AllNodes(s)| && AllNodes(s)[i] == nodes[k] && nodes[k].id == k
               && forall j :: i < j < |AllNodes(s)| ==> AllNodes(s)[j].id != k;
      LastFlatIsLast(s, k, i);
    }
  }

  /** `index_snapshot`: nodes by id (a later one replaces an earlier), then dep edges, then explicit edges. */
  method IndexSnapshot(s: Snapshot) returns (idx: SnapshotIndex)
    ensures IndexesSnapshot(idx, s)
  {
    var nodes := NodesById(AllNodes(s));
    IndexedByPlace(s, nodes);
    idx := IndexEdges(s, nodes);
  }

  method IndexEdges(s: Snapshot, nodes: map<string, DescribedNode>) returns (idx: SnapshotIndex)
    requires IndexesNodes(nodes, s)
    ensures IndexesSnapshot(idx, s)
  {
    var bare := SnapshotIndex(nodes, map k | k in nodes :: {}, map k | k in nodes :: {});
    var linked := LinkDeps(bare);
    idx := LinkEdges(linked, AllEdges(s));
    forall a, b ensures EdgeListed(AllEdges(s), a, b) <==> EdgeIn(s, DescribedEdge(a, b)) {
      EdgeFlatIff(s, DescribedEdge(a, b));
    }
  }

  method LinkEdges(start: SnapshotIndex, edges: seq<DescribedEdge>) returns (idx: SnapshotIndex)
    requires Mirrored(start)
    ensures LinkedWith(idx, start, edges)
  {
    idx := start;
    for i := 0 to |edges|
      invariant LinkedWith(idx, start, edges[..i])
    {
      LinkOneMore(idx, start, edges[..i], edges[i]);
      assert edges[..i + 1] == edges[..i] + [edges[i]];
      idx := Link(idx, edges[i].source, edges[i].target);
    }
    assert edges[..|edges|] == edges;
  }

  ghost predicate LinkedWith(idx: SnapshotIndex, start: SnapshotIndex, edges: seq<DescribedEdge>) {
    && Mirrored(idx) && idx.nodes == start.nodes
    && forall a, b :: Edge(idx.outgoing, a, b) <==>
         Edge(start.outgoing, a, b) || (a in idx.nodes && b in idx.nodes && EdgeListed(edges, a, b))
  }

  lemma LinkOneMore(idx: SnapshotIndex, start: SnapshotIndex, edges: seq<DescribedEdge>, e: DescribedEdge)
    requires LinkedWith(idx, start, edges)
    ensures LinkedWith(Link(idx, e.source, e.target), start, edges + [e])
  {
    LinkAddsOneEdge(idx, e.source, e.target);
    forall a, b ensures EdgeListed(edges + [e], a, b) <==> EdgeListed(edges, a, b) || e == DescribedEdge(a, b) {}
  }

  method NodesById(flat: seq<DescribedNode>) returns (nodes: map<string, DescribedNode>)
    ensures forall k :: k in nodes <==> exists i :: 0 <= i < |flat| && flat[i].id == k
    ensures forall k :: k in nodes ==> LastWithId(flat, k, nodes[k])
  {
    nodes := map[];
    for i := 0 to |flat|
      invariant forall k :: k in nodes <==> exists j :: 0 <= j < i && flat[j].id == k
      invariant forall k :: k in nodes ==> LastWithId(flat[..i], k, nodes[k])
    {
      OneMoreNode(flat[..i], flat[i], nodes);
      assert flat[..i + 1] == flat[..i] + [flat[i]];
      nodes := nodes[flat[i].id := flat[i]];
    }
    assert flat[..|flat|] == flat;
  }

  lemma OneMoreNode(flat: seq<DescribedNode>, n: DescribedNode, nodes: map<string, DescribedNode>)
    requires forall k :: k in nodes ==> LastWithId(flat, k, nodes[k])
    ensures var after := nodes[n.id := n]; forall k :: k in after ==> LastWithId(flat + [n], k, after[k])
  {
    var all := flat + [n];
    assert all[|flat|] == n;
    forall k | k in nodes && k != n.id ensures LastWithId(all, k, nodes[k]) {
      var i :| 0 <= i < |flat| && flat[i] == nodes[k] && nodes[k].id == k && forall j :: i < j < |flat| ==> flat[j].id != k;
      assert all[i] == nodes[k];
    }
  }

  method LinkDeps(start: SnapshotIndex) returns (idx: SnapshotIndex)
    requires Mirrored(start) && forall a, b :: !Edge(start.outgoing, a, b)
    requires forall k :: k in start.nodes ==> start.nodes[k].id == k
    ensures Mirrored(idx) && idx.nodes == start.nodes
    ensures forall a, b :: Edge(idx.outgoing, a, b) <==> a in idx.nodes && b in idx.nodes && a in idx.nodes[b].deps
  {
    idx := start;
    var left := start.nodes.Keys;
    while left != {}
      invariant Mirrored(idx) && idx.nodes == start.nodes && left <= idx.nodes.Keys
      invariant forall a, b :: Edge(idx.outgoing, a, b) <==>
                  a in idx.nodes && b in idx.nodes && b !in left && a in idx.nodes[b].deps
      decreases left
    {
      var k :| k in left;
      var deps := idx.nodes[k].deps;
      for i := 0 to |deps|
        invariant Mirrored(idx) && idx.nodes == start.nodes
        invariant forall a, b :: Edge(idx.outgoing, a, b) <==>
                    a in idx.nodes && b in idx.nodes
                    && ((b !in left && a in idx.nodes[b].deps) || (b == k && a in deps[..i]))
      {
        LinkAddsOneEdge(idx, deps[i], k);
        assert deps[..i + 1] == deps[..i] + [deps[i]];
        idx := Link(idx, deps[i], k);
      }
      assert deps[..|deps|] == deps;
      left := left - {k};
    }
  }

  // ---- explanations ----

  datatype Reason = PathFound | NoSuchFrom | NoSuchTo | NoPath | MaxDepthExceeded

  /** One node of an explained path; `depIndices` are where the next node lists it as a dep. */
  datatype CausalStep = CausalStep(id: string, hop: nat, depIndices: seq<nat>)

  datatype CausalChain = CausalChain(reason: Reason, steps: seq<CausalStep>)

  /** The positions of `prev` among `deps`, in order. */
  function DepIndices(deps: seq<string>, prev: string): (r: seq<nat>)
    ensures forall i :: i in r <==> 0 <= i < |deps| && deps[i] == prev
    ensures forall i, j :: 0 <= i < j < |r| ==> r[i] < r[j]
  {
    if deps == [] then []
    else
      var init := DepIndices(deps[..|deps| - 1], prev);
      assert forall k :: 0 <= k < |init| ==> init[k] in init;
      if deps[|deps| - 1] == prev then init + [|deps| - 1] else init
  }

  function StepFor(idx: SnapshotIndex, path: seq<string>, i: nat): CausalStep
    requires i < |path|
  {
    CausalStep(path[i], i,
      if i + 1 < |path| && path[i + 1] in idx.nodes then DepIndices(idx.nodes[path[i + 1]].deps, path[i]) else [])
  }

  function MaterializePath(idx: SnapshotIndex, path: seq<string>): (steps: seq<CausalStep>)
    ensures |steps| == |path| && forall i :: 0 <= i < |path| ==> steps[i] == StepFor(idx, path, i)
  {
    seq(|path|, i requires 0 <= i < |path| => StepFor(idx, path, i))
  }

  function StepIds(steps: seq<CausalStep>): (ids: seq<string>)
    ensures |ids| == |steps| && forall i :: 0 <= i < |steps| ==> ids[i] == steps[i].id
  {
    seq(|steps|, i requires 0 <= i < |steps| => steps[i].id)
  }

  /** Step `i` has hop `i` and, in order, the places where the node of the next step lists it as a dep. */
  ghost predicate StepOk(idx: SnapshotIndex, steps: seq<CausalStep>, i: nat)
    requires i < |steps|
  {
    var listed := steps[i].depIndices;
    && steps[i].hop == i
    && (forall a, b :: 0 <= a < b < |listed| ==> listed[a] < listed[b])
    && forall j: nat :: j in listed <==>
         i + 1 < |steps| && steps[i + 1].id in idx.nodes && j < |idx.nodes[steps[i + 1].id].deps|
         && idx.nodes[steps[i + 1].id].deps[j] == steps[i].id
  }

  lemma MaterializedOk(idx: SnapshotIndex, path: seq<string>, i: nat)
    requires i < |path|
    ensures StepIds(MaterializePath(idx, path)) == path
    ensures StepOk(idx, MaterializePath(idx, path), i)
  {
    var steps := MaterializePath(idx, path);
    assert steps[i] == StepFor(idx, path, i);
    if i + 1 < |path| { assert steps[i + 1] == StepFor(idx, path, i + 1); }
  }

  ghost predicate StepsOk(idx: SnapshotIndex, steps: seq<CausalStep>) {
    forall i :: 0 <= i < |steps| ==> StepOk(idx, steps, i)
  }

  lemma AllMaterializedOk(idx: SnapshotIndex, path: seq<string>)
    ensures StepIds(MaterializePath(idx, path)) == path && StepsOk(idx, MaterializePath(idx, path))
  {
    forall i | 0 <= i < |path| ensures StepOk(idx, MaterializePath(idx, path), i) { MaterializedOk(idx, path, i); }
  }

  /** What `explain_path` says about two different indexed nodes. */
  ghost predicate ExplainsPath(g: Ids, from: string, to: string, max: Option<nat>, chain: CausalChain) {
    && (chain.reason == PathFound <==> ConnectedWithin(g, from, to, max))
    && (chain.reason == PathFound ==>
          var p := StepIds(chain.steps);
          |p| >= 1 && Walk(g, p, from, to, |p| - 1) && WithinDepth(|p| - 1, max) && NoneShorter(g, from, to, |p| - 1))
    && (chain.reason != PathFound ==> chain.steps == [] && chain.reason in {NoPath, MaxDepthExceeded})
    && (chain.reason == NoPath <==>
          !ConnectedWithin(g, from, to, max) && (max == Some(0) || !(max.Some? && StopsShort(g, from, max.value))))
    && (chain.reason == NoPath && max != Some(0) ==> !Connected(g, from, to))
  }

  /** `explain_path`, with the index it was answered from. */
  method ExplainPath(s: Snapshot, from: string, to: string, max: Option<nat>, findCycle: bool)
    returns (chain: CausalChain, idx: SnapshotIndex)
    ensures IndexesSnapshot(idx, s)
    ensures chain.reason == NoSuchFrom <==> from !in idx.nodes
    ensures chain.reason == NoSuchTo <==> from in idx.nodes && to !in idx.nodes
    ensures from in idx.nodes && to in idx.nodes && from != to ==> ExplainsPath(idx.outgoing, from, to, max, chain)
    ensures from in idx.nodes && from == to && !findCycle ==> chain == CausalChain(PathFound, [CausalStep(from, 0, [])])
    ensures from in idx.nodes && from == to && findCycle ==>
              if ReturnsWithin(idx.outgoing, from, max)
              then chain.reason == PathFound && ShortestReturn(idx.outgoing, from, max, StepIds(chain.steps))
              else if max.Some? && StopsShort(idx.outgoing, from, max.value) then chain == CausalChain(MaxDepthExceeded, [])
              else chain == CausalChain(PathFound, [CausalStep(from, 0, [])]) && !CanReturn(idx.outgoing, from)
    ensures StepsOk(idx, chain.steps)
  {
    idx := IndexSnapshot(s);
    if from !in idx.nodes { return CausalChain(NoSuchFrom, []), idx; }
    if to !in idx.nodes { return CausalChain(NoSuchTo, []), idx; }
    var g := idx.outgoing;
    if from == to {
      chain := ExplainCycle(idx, from, max, findCycle);
    } else {
      chain := ExplainDistinct(idx, from, to, max);
    }
  }

  method ExplainDistinct(idx: SnapshotIndex, from: string, to: string, max: Option<nat>) returns (chain: CausalChain)
    requires Mirrored(idx) && from in idx.nodes && to in idx.nodes && from != to
    ensures ExplainsPath(idx.outgoing, from, to, max, chain)
    ensures StepsOk(idx, chain.steps)
  {
    var g := idx.outgoing;
    if max == Some(0) {
      NothingWithinZero(g, from);
      return CausalChain(NoPath, []);
    }
    var found := ShortestPath(g, from, to, max);
    if found.Some? && found.value.0 != [] {
      chain := CausalChain(PathFound, MaterializePath(idx, found.value.0));
      AllMaterializedOk(idx, found.value.0);
    } else if found.Some? {
      chain := CausalChain(MaxDepthExceeded, []);
    } else {
      chain := CausalChain(NoPath, []);
    }
  }

  method ExplainCycle(idx: SnapshotIndex, from: string, max: Option<nat>, findCycle: bool) returns (chain: CausalChain)
    requires Mirrored(idx) && from in idx.nodes
    ensures chain.reason in {PathFound, MaxDepthExceeded}
    ensures !findCycle ==> chain == CausalChain(PathFound, [CausalStep(from, 0, [])])
    ensures findCycle ==>
              if ReturnsWithin(idx.outgoing, from, max)
              then chain.reason == PathFound && ShortestReturn(idx.outgoing, from, max, StepIds(chain.steps))
              else if max.Some? && StopsShort(idx.outgoing, from, max.value) then chain == CausalChain(MaxDepthExceeded, [])
              else chain == CausalChain(PathFound, [CausalStep(from, 0, [])]) && !CanReturn(idx.outgoing, from)
    ensures StepsOk(idx, chain.steps)
  {
    chain := CausalChain(PathFound, MaterializePath(idx, [from]));
    assert chain.steps == [CausalStep(from, 0, [])];
    AllMaterializedOk(idx, [from]);
    if findCycle {
      var found := ShortestCycle(idx.outgoing, from, max);
      if found.Some? && found.value.0 != [] {
        chain := CausalChain(PathFound, MaterializePath(idx, found.value.0));
        AllMaterializedOk(idx, found.value.0);
        assert ReturnsWithin(idx.outgoing, from, max) by {
          assert Returns(idx.outgoing, from, |found.value.0| - 1);
        }
      } else if found.Some? {
        chain := CausalChain(MaxDepthExceeded, []);
      }
    }
  }

  // ---- reachability over a snapshot ----

  /** The neighbours a search follows: dependents, deps, or both. */
  function Adjacency(idx: SnapshotIndex, downstream: bool, both: bool): (g: Ids)
    requires idx.outgoing.Keys == idx.nodes.Keys == idx.incoming.Keys
    ensures g.Keys == idx.nodes.Keys
    ensures forall a, b :: Edge(g, a, b) <==>
              ((both || downstream) && Edge(idx.outgoing, a, b)) || ((both || !downstream) && Edge(idx.incoming, a, b))
  {
    map k | k in idx.nodes ::
      if both then idx.incoming[k] + idx.outgoing[k] else if downstream then idx.outgoing[k] else idx.incoming[k]
  }

  /** `reachable`: exact shortest depths within the limit, and whether something lies beyond it. */
  method ReachableIn(s: Snapshot, from: string, downstream: bool, both: bool, max: Option<nat>)
    returns (depths: map<string, nat>, truncated: bool, idx: SnapshotIndex)
    ensures IndexesSnapshot(idx, s)
    ensures from == "" || from !in idx.nodes ==> depths == map[] && !truncated
    ensures from != "" && from in idx.nodes ==>
              var g := Adjacency(idx, downstream, both);
              DepthsExact(g, from, max, depths) && (truncated <==> max.Some? && StopsShort(g, from, max.value))
  {
    idx := IndexSnapshot(s);
    if from == "" { return map[], false, idx; }
    depths, truncated := Reachable(Adjacency(idx, downstream, both), from, max);
  }

  // ---- where the reasons mislead ----

  /** With a limit of 0, NoPath is reported even across a direct edge. */
  lemma ZeroDepthHidesEdge()
    ensures var g: Ids := map["a" := {"b"}, "b" := {}];
            Connected(g, "a", "b")
            && forall chain :: ExplainsPath(g, "a", "b", Some(0), chain) ==> chain.reason == NoPath
  {
    var g: Ids := map["a" := {"b"}, "b" := {}];
    assert Edge(g, "a", "b");
    assert Walk(g, ["a", "b"], "a", "b", 1) && HasWalk(g, "a", "b", 1);
    forall n: nat | WithinDepth(n, Some(0)) ensures !HasWalk(g, "a", "b", n) {
      forall p ensures !Walk(g, p, "a", "b", n) {}
    }
  }

  /** MaxDepthExceeded does not promise that a longer path exists. */
  lemma ExceededWithoutPath()
    ensures var g: Ids := map["a" := {"b"}, "b" := {"c"}, "c" := {}, "d" := {}];
            !Connected(g, "a", "d")
            && forall chain :: ExplainsPath(g, "a", "d", Some(1), chain) ==> chain.reason == MaxDepthExceeded
  {
    var g: Ids := map["a" := {"b"}, "b" := {"c"}, "c" := {}, "d" := {}];
    forall n: nat ensures !HasWalk(g, "a", "d", n) {
      forall p ensures !Walk(g, p, "a", "d", n) {
        if n >= 1 && |p| == n + 1 { assert IsPath(g, p) ==> Edge(g, p[n - 1], p[n]); }
      }
    }
    assert Edge(g, "a", "b");
    assert Walk(g, ["a", "b"], "a", "b", 1) && HasWalk(g, "a", "b", 1);
    assert "c" in g["b"];
    forall m: nat | HasWalk(g, "a", "b", m) ensures 1 <= m { var p :| Walk(g, p, "a", "b", m); }
    assert StopsShort(g, "a", 1);
  }
}
