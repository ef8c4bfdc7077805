/** Checkpoint validation and the recursive rebuild of the dependency graph (checkpoint.rs). */
module Checkpoint {
  import opened Prelude
  import opened Digraph
  import Json
  import NodeVersions

  const GRAPH_CHECKPOINT_VERSION := "graphrefly.checkpoint.v1"

  // ---- data ----

  datatype Factory = LocalOnly | RegistryRef(ref: string)

  datatype Terminal = NotTerminal | Complete | ErrorTerminal

  datatype Status = Sentinel | Pending | Dirty | Settled | Resolved | Completed | Errored

  /**
   * One recorded node: its data if it holds any, its runtime version if it has one, and in `payloads` its
   * other JSON fields (config, context state, backend state, metadata, error).
   */
  datatype Node = Node(
    id: string,
    factory: Factory,
    status: string,
    deps: seq<string>,
    terminal: Terminal,
    value: Option<Json.Value>,
    version: Option<Json.Value>,
    payloads: seq<Json.Value>)

  datatype EdgeRecord = EdgeRecord(source: string, target: string)

  datatype Mount = Mount(at: string, checkpoint: Checkpoint)

  datatype Checkpoint = Checkpoint(version: string, nodes: seq<Node>, edges: seq<EdgeRecord>, mounts: seq<Mount>)

  datatype Prepared = Prepared(nodes: map<string, Node>, mounts: seq<(string, Prepared)>)

  datatype RestoreError =
    | UnsupportedVersion | DuplicateNode | MountPrefixedId | LocalOnlyFactory | MissingDescriptor
    | InvalidStatus | NotQuiescent | PayloadNotStrict | MissingDep | DuplicateEdge | EdgeToMissingNode
    | EdgeNotADep | DepWithoutEdge | EmptyMountPath | DuplicateMountPath | InvalidVersion
    | DependencyCycle | UndefinedNode | DepsMismatch | TerminalMismatch | ErrorPayloadUnavailable
    | VersionRefused(why: NodeVersions.VersionError)

  function StatusFromString(s: string): Option<Status> {
    if s == "sentinel" then Some(Sentinel)
    else if s == "pending" then Some(Pending)
    else if s == "dirty" then Some(Dirty)
    else if s == "settled" then Some(Settled)
    else if s == "resolved" then Some(Resolved)
    else if s == "completed" then Some(Completed)
    else if s == "errored" then Some(Errored)
    else None
  }

  /** The recorded names. */
  lemma StatusNames(s: string)
    ensures StatusFromString("sentinel") == Some(Sentinel) && StatusFromString("pending") == Some(Pending)
    ensures StatusFromString("dirty") == Some(Dirty) && StatusFromString("settled") == Some(Settled)
    ensures StatusFromString("resolved") == Some(Resolved) && StatusFromString("completed") == Some(Completed)
    ensures StatusFromString("errored") == Some(Errored)
    ensures StatusFromString(s).Some? ==>
              s in {"sentinel", "pending", "dirty", "settled", "resolved", "completed", "errored"}
  {
  }

  // ---- what validation accepts ----

  /** The checks on one node by itself. */
  function NodeProblem(n: Node, registry: set<string>, mountAt: Option<string>): Option<RestoreError> {
    if mountAt.Some? && mountAt.value + "::" <= n.id then Some(MountPrefixedId)
    else if n.factory.LocalOnly? then Some(LocalOnlyFactory)
    else if n.factory.ref !in registry then Some(MissingDescriptor)
    else if StatusFromString(n.status).None? then Some(InvalidStatus)
    else if StatusFromString(n.status).value in {Pending, Dirty} then Some(NotQuiescent)
    else if !(n.value.Some? ==> Json.Strict(n.value.value)) then Some(PayloadNotStrict)
    else if exists i | 0 <= i < |n.payloads| :: !Json.Strict(n.payloads[i]) then Some(PayloadNotStrict)
    else if n.version.Some? && NodeVersions.FromJson(n.version.value).None? then Some(InvalidVersion)
    else None
  }

  /** The recorded name of a status that is not in motion. */
  predicate AtRest(status: string) {
    status in {"sentinel", "settled", "resolved", "completed", "errored"}
  }

  /** What a node must be by itself: outside the mount's prefix, restorable, at rest, all its JSON strict. */
  ghost predicate Passes(n: Node, registry: set<string>, mountAt: Option<string>) {
    && (mountAt.Some? ==> !(mountAt.value + "::" <= n.id))
    && (exists ref :: n.factory == RegistryRef(ref) && ref in registry)
    && AtRest(n.status)
    && (forall v :: v in n.payloads || n.value == Some(v) ==> Json.Strict(v))
    && (n.version.Some? ==> exists v :: NodeVersions.Sound(v) && n.version.value == NodeVersions.ToJson(v))
  }

  lemma VersionFormIff(j: Json.Value)
    ensures NodeVersions.FromJson(j).Some? <==> exists v :: NodeVersions.Sound(v) && j == NodeVersions.ToJson(v)
  {
    if NodeVersions.FromJson(j).Some? { NodeVersions.VersionReadFrom(j); }
    forall v | NodeVersions.Sound(v) && j == NodeVersions.ToJson(v) ensures NodeVersions.FromJson(j).Some? {
      NodeVersions.VersionReads(v);
    }
  }

  lemma NodeProblemMeans(n: Node, registry: set<string>, mountAt: Option<string>)
    ensures NodeProblem(n, registry, mountAt) == None <==> Passes(n, registry, mountAt)
  {
    if n.version.Some? { VersionFormIff(n.version.value); }
    if NodeProblem(n, registry, mountAt) == None {
      forall v | v in n.payloads || n.value == Some(v) ensures Json.Strict(v) {}
    }
  }

  function Ids(nodes: seq<Node>): (ids: seq<string>)
    ensures |ids| == |nodes| && forall i :: 0 <= i < |nodes| ==> ids[i] == nodes[i].id
  {
    seq(|nodes|, i requires 0 <= i < |nodes| => nodes[i].id)
  }

  /** The nodes by id. */
  function NodeMap(nodes: seq<Node>): map<string, Node> {
    if nodes == [] then map[]
    else NodeMap(nodes[..|nodes| - 1])[nodes[|nodes| - 1].id := nodes[|nodes| - 1]]
  }

  lemma {:induction false} NodeMapKeys(nodes: seq<Node>)
    ensures forall k :: k in NodeMap(nodes) <==> k in Ids(nodes)
    ensures forall k :: k in NodeMap(nodes) ==> NodeMap(nodes)[k] in nodes && NodeMap(nodes)[k].id == k
  {
    if nodes != [] {
      var init := nodes[..|nodes| - 1];
      NodeMapKeys(init);
      assert Ids(nodes) == Ids(init) + [nodes[|nodes| - 1].id];
    }
  }

  lemma NodeMapNext(nodes: seq<Node>, i: nat)
    requires i < |nodes|
    ensures NodeMap(nodes[..i + 1]) == NodeMap(nodes[..i])[nodes[i].id := nodes[i]]
    ensures Distinct(Ids(nodes[..i])) ==> (Distinct(Ids(nodes[..i + 1])) <==> nodes[i].id !in NodeMap(nodes[..i]))
    ensures Distinct(Ids(nodes)) ==> Distinct(Ids(nodes[..i + 1]))
  {
    NodeMapKeys(nodes[..i]);
    assert nodes[..i + 1][..i] == nodes[..i];
    assert Ids(nodes[..i + 1]) == Ids(nodes[..i]) + [nodes[i].id];
    assert Ids(nodes[..i + 1]) == Ids(nodes)[..i + 1];
  }

  ghost predicate DepsClosed(m: map<string, Node>) {
    forall k, d :: k in m && d in m[k].deps ==> d in m
  }

  /** The recorded edges are the dep relation, each edge once. */
  ghost predicate EdgesMatch(edges: seq<EdgeRecord>, m: map<string, Node>) {
    && Distinct(edges)
    && forall a, b :: EdgeRecord(a, b) in edges <==> b in m && a in m[b].deps
  }

  function MountPaths(mounts: seq<Mount>): (paths: seq<string>)
    ensures |paths| == |mounts| && forall i :: 0 <= i < |mounts| ==> paths[i] == mounts[i].at
  {
    seq(|mounts|, i requires 0 <= i < |mounts| => mounts[i].at)
  }

  /** Everything `prepare_checkpoint` demands, down through the mounts. */
  ghost predicate Acceptable(c: Checkpoint, registry: set<string>, mountAt: Option<string>) {
    && c.version == GRAPH_CHECKPOINT_VERSION
    && Distinct(Ids(c.nodes))
    && (forall i :: 0 <= i < |c.nodes| ==> Passes(c.nodes[i], registry, mountAt))
    && DepsClosed(NodeMap(c.nodes))
    && EdgesMatch(c.edges, NodeMap(c.nodes))
    && Distinct(MountPaths(c.mounts))
    && forall i :: 0 <= i < |c.mounts| ==>
         c.mounts[i].at != "" && Acceptable(c.mounts[i].checkpoint, registry, Some(c.mounts[i].at))
  }

  function PreparedOf(c: Checkpoint): Prepared {
    Prepared(NodeMap(c.nodes), seq(|c.mounts|, i requires 0 <= i < |c.mounts| =>
      (c.mounts[i].at, PreparedOf(c.mounts[i].checkpoint))))
  }

  // ---- which error ----

  /** The first problem of the nodes, in order: a repeated id or the node's own. */
  function NodesProblem(nodes: seq<Node>, registry: set<string>, mountAt: Option<string>): Option<RestoreError> {
    if nodes == [] then None
    else
      var init, last := nodes[..|nodes| - 1], nodes[|nodes| - 1];
      var earlier := NodesProblem(init, registry, mountAt);
      if earlier.Some? then earlier
      else if last.id in Ids(init) then Some(DuplicateNode)
      else NodeProblem(last, registry, mountAt)
  }

  lemma {:induction false} NodesProblemIff(nodes: seq<Node>, registry: set<string>, mountAt: Option<string>)
    ensures NodesProblem(nodes, registry, mountAt) == None <==>
            Distinct(Ids(nodes)) && forall i :: 0 <= i < |nodes| ==> NodeProblem(nodes[i], registry, mountAt) == None
  {
    if nodes != [] {
      var init, last := nodes[..|nodes| - 1], nodes[|nodes| - 1];
      NodesProblemIff(init, registry, mountAt);
      assert Ids(nodes) == Ids(init) + [last.id];
      DistinctConcat(Ids(init), [last.id]);
      assert forall i :: 0 <= i < |init| ==> nodes[i] == init[i];
    }
  }

  /** The first problem is the problem of every longer list. */
  lemma {:induction false} NodesProblemStays(nodes: seq<Node>, i: nat, registry: set<string>, mountAt: Option<string>)
    requires i <= |nodes| && NodesProblem(nodes[..i], registry, mountAt).Some?
    ensures NodesProblem(nodes, registry, mountAt) == NodesProblem(nodes[..i], registry, mountAt)
    decreases |nodes|
  {
    if i == |nodes| {
      assert nodes[..i] == nodes;
    } else {
      var init := nodes[..|nodes| - 1];
      assert init[..i] == nodes[..i];
      NodesProblemStays(init, i, registry, mountAt);
    }
  }

  function EdgeProblem(e: EdgeRecord, before: seq<EdgeRecord>, m: map<string, Node>): Option<RestoreError> {
    if e in before then Some(DuplicateEdge)
    else if e.target !in m then Some(EdgeToMissingNode)
    else if e.source !in m || e.source !in m[e.target].deps then Some(EdgeNotADep)
    else None
  }

  /** The first problem of the recorded edges, in order. */
  function EdgesProblem(edges: seq<EdgeRecord>, m: map<string, Node>): Option<RestoreError> {
    if edges == [] then None
    else
      var init := edges[..|edges| - 1];
      var earlier := EdgesProblem(init, m);
      if earlier.Some? then earlier else EdgeProblem(edges[|edges| - 1], init, m)
  }

  lemma {:induction false} EdgesProblemIff(edges: seq<EdgeRecord>, m: map<string, Node>)
    requires DepsClosed(m)
    ensures EdgesProblem(edges, m) == None <==>
            Distinct(edges) && forall e :: e in edges ==> e.target in m && e.source in m[e.target].deps
  {
    if edges != [] {
      var init, last := edges[..|edges| - 1], edges[|edges| - 1];
      EdgesProblemIff(init, m);
      DistinctConcat(init, [last]);
      assert edges == init + [last];
    }
  }

  lemma {:induction false} EdgesProblemStays(edges: seq<EdgeRecord>, i: nat, m: map<string, Node>)
    requires i <= |edges| && EdgesProblem(edges[..i], m).Some?
    ensures EdgesProblem(edges, m) == EdgesProblem(edges[..i], m)
    decreases |edges|
  {
    if i == |edges| {
      assert edges[..i] == edges;
    } else {
      var init := edges[..|edges| - 1];
      assert init[..i] == edges[..i];
      EdgesProblemStays(init, i, m);
    }
  }

  /** Every recorded dep has its edge. */
  ghost predicate EdgesCover(edges: seq<EdgeRecord>, m: map<string, Node>) {
    forall k, d :: k in m && d in m[k].deps ==> EdgeRecord(d, k) in edges
  }

  ghost function EdgesError(edges: seq<EdgeRecord>, m: map<string, Node>): Option<RestoreError> {
    if EdgesProblem(edges, m).Some? then EdgesProblem(edges, m)
    else if !EdgesCover(edges, m) then Some(DepWithoutEdge)
    else None
  }

  lemma EdgesErrorIff(edges: seq<EdgeRecord>, m: map<string, Node>)
    requires DepsClosed(m)
    ensures EdgesError(edges, m) == None <==> EdgesMatch(edges, m)
  {
    EdgesProblemIff(edges, m);
    if EdgesMatch(edges, m) {
      forall e | e in edges ensures e.target in m && e.source in m[e.target].deps {
        assert EdgeRecord(e.source, e.target) in edges;
      }
    }
  }

  /** What `prepare_checkpoint` finds first, mount after mount. */
  ghost function Problem(c: Checkpoint, registry: set<string>, mountAt: Option<string>): Option<RestoreError>
    decreases c, 1
  {
    var m := NodeMap(c.nodes);
    if c.version != GRAPH_CHECKPOINT_VERSION then Some(UnsupportedVersion)
    else if NodesProblem(c.nodes, registry, mountAt).Some? then NodesProblem(c.nodes, registry, mountAt)
    else if !DepsClosed(m) then Some(MissingDep)
    else if EdgesError(c.edges, m).Some? then EdgesError(c.edges, m)
    else MountsProblem(c, |c.mounts|, registry)
  }

  /** The first problem of the first `k` mounts. */
  ghost function MountsProblem(c: Checkpoint, k: nat, registry: set<string>): Option<RestoreError>
    requires k <= |c.mounts|
    decreases c, 0, k
  {
    if k == 0 then None
    else
      var earlier, last := MountsProblem(c, k - 1, registry), c.mounts[k - 1];
      if earlier.Some? then earlier
      else if last.at == "" then Some(EmptyMountPath)
      else if last.at in MountPaths(c.mounts)[..k - 1] then Some(DuplicateMountPath)
      else Problem(last.checkpoint, registry, Some(last.at))
  }

  lemma {:induction false} MountsProblemStays(c: Checkpoint, k: nat, n: nat, registry: set<string>)
    requires k <= n <= |c.mounts| && MountsProblem(c, k, registry).Some?
    ensures MountsProblem(c, n, registry) == MountsProblem(c, k, registry)
    decreases n
  {
    if k < n { MountsProblemStays(c, k, n - 1, registry); }
  }

  ghost predicate MountsAcceptable(mounts: seq<Mount>, registry: set<string>) {
    && Distinct(MountPaths(mounts))
    && forall i :: 0 <= i < |mounts| ==>
         mounts[i].at != "" && Acceptable(mounts[i].checkpoint, registry, Some(mounts[i].at))
  }

  lemma {:induction false} MountsProblemIff(c: Checkpoint, k: nat, registry: set<string>)
    requires k <= |c.mounts|
    ensures MountsProblem(c, k, registry) == None <==> MountsAcceptable(c.mounts[..k], registry)
    decreases c, 0, k
  {
    if k > 0 {
      var last := c.mounts[k - 1];
      MountsProblemIff(c, k - 1, registry);
      ProblemIff(last.checkpoint, registry, Some(last.at));
      OneMoreMountOk(c.mounts, k - 1, registry);
    }
  }

  lemma OneMoreMountOk(mounts: seq<Mount>, k: nat, registry: set<string>)
    requires k < |mounts|
    ensures MountsAcceptable(mounts[..k + 1], registry) <==>
            && MountsAcceptable(mounts[..k], registry) && mounts[k].at != "" && mounts[k].at !in MountPaths(mounts)[..k]
            && Acceptable(mounts[k].checkpoint, registry, Some(mounts[k].at))
  {
    var more := mounts[..k + 1];
    assert MountPaths(more) == MountPaths(mounts[..k]) + [mounts[k].at];
    assert MountPaths(mounts[..k]) == MountPaths(mounts)[..k];
    DistinctConcat(MountPaths(mounts[..k]), [mounts[k].at]);
    assert forall i :: 0 <= i < k ==> more[i] == mounts[..k][i];
    assert more[k] == mounts[k];
  }

  /** No problem is found exactly in what is acceptable. */
  lemma {:induction false} ProblemIff(c: Checkpoint, registry: set<string>, mountAt: Option<string>)
    ensures Problem(c, registry, mountAt) == None <==> Acceptable(c, registry, mountAt)
    decreases c, 1
  {
    var m := NodeMap(c.nodes);
    NodesProblemIff(c.nodes, registry, mountAt);
    forall i | 0 <= i < |c.nodes|
      ensures NodeProblem(c.nodes[i], registry, mountAt) == None <==> Passes(c.nodes[i], registry, mountAt)
    {
      NodeProblemMeans(c.nodes[i], registry, mountAt);
    }
    if DepsClosed(m) { EdgesErrorIff(c.edges, m); }
    MountsProblemIff(c, |c.mounts|, registry);
    assert c.mounts[..|c.mounts|] == c.mounts;
  }

  // ---- validation ----

  /** Accepts exactly what is acceptable, and otherwise reports the problem found first. */
  method PrepareCheckpoint(c: Checkpoint, registry: set<string>, mountAt: Option<string>)
    returns (r: Result<Prepared, RestoreError>)
    ensures r.Ok? <==> Acceptable(c, registry, mountAt)
    ensures r.Ok? ==> r.value == PreparedOf(c)
    ensures r.Err? ==> Problem(c, registry, mountAt) == Some(r.error)
    decreases c, 2
  {
    ProblemIff(c, registry, mountAt);
    if c.version != GRAPH_CHECKPOINT_VERSION { return Err(UnsupportedVersion); }
    var collected := CollectNodes(c.nodes, registry, mountAt);
    if collected.Err? { return Err(collected.error); }
    var nodes := collected.value;
    var problem := CheckDeps(nodes);
    if problem.Some? { return Err(problem.value); }
    problem := CheckEdges(c.edges, nodes);
    if problem.Some? { return Err(problem.value); }
    var mounts := PrepareMounts(c, registry);
    if mounts.Err? { return Err(mounts.error); }
    r := Ok(Prepared(nodes, mounts.value));
  }

  method PrepareMounts(c: Checkpoint, registry: set<string>) returns (r: Result<seq<(string, Prepared)>, RestoreError>)
    ensures r.Ok? <==> MountsProblem(c, |c.mounts|, registry) == None
    ensures r.Ok? ==> r.value == PreparedOf(c).mounts
    ensures r.Err? ==> MountsProblem(c, |c.mounts|, registry) == Some(r.error)
    decreases c, 1
  {
    var mounts: seq<(string, Prepared)> := [];
    var paths: seq<string> := [];
    for i := 0 to |c.mounts|
      invariant paths == MountPaths(c.mounts)[..i] && MountsProblem(c, i, registry) == None
      invariant mounts == PreparedOf(c).mounts[..i]
    {
      var mount := c.mounts[i];
      var child := PrepareMount(c, i, paths, registry);
      if child.Err? {
        MountsProblemStays(c, i + 1, |c.mounts|, registry);
        return Err(child.error);
      }
      PreparedMounts(c, i);
      paths := paths + [mount.at];
      mounts := mounts + [(mount.at, child.value)];
    }
    r := Ok(mounts);
  }

  lemma PreparedMounts(c: Checkpoint, i: nat)
    requires i < |c.mounts|
    ensures PreparedOf(c).mounts[..i + 1] == PreparedOf(c).mounts[..i] + [(c.mounts[i].at, PreparedOf(c.mounts[i].checkpoint))]
    ensures MountPaths(c.mounts)[..i + 1] == MountPaths(c.mounts)[..i] + [c.mounts[i].at]
  {
  }

  method PrepareMount(c: Checkpoint, i: nat, paths: seq<string>, registry: set<string>)
    returns (r: Result<Prepared, RestoreError>)
    requires i < |c.mounts| && paths == MountPaths(c.mounts)[..i] && MountsProblem(c, i, registry) == None
    ensures r.Ok? <==> MountsProblem(c, i + 1, registry) == None
    ensures r.Ok? ==> r.value == PreparedOf(c.mounts[i].checkpoint)
    ensures r.Err? ==> MountsProblem(c, i + 1, registry) == Some(r.error)
    decreases c, 0
  {
    var mount := c.mounts[i];
    if mount.at == "" { return Err(EmptyMountPath); }
    if mount.at in paths { return Err(DuplicateMountPath); }
    ProblemIff(mount.checkpoint, registry, Some(mount.at));
    r := PrepareCheckpoint(mount.checkpoint, registry, Some(mount.at));
  }

  method CollectNodes(nodes: seq<Node>, registry: set<string>, mountAt: Option<string>)
    returns (r: Result<map<string, Node>, RestoreError>)
    ensures r.Ok? <==> NodesProblem(nodes, registry, mountAt) == None
    ensures r.Ok? ==> r.value == NodeMap(nodes)
    ensures r.Err? ==> NodesProblem(nodes, registry, mountAt) == Some(r.error)
  {
    var m: map<string, Node> := map[];
    for i := 0 to |nodes|
      invariant m == NodeMap(nodes[..i]) && NodesProblem(nodes[..i], registry, mountAt) == None
    {
      assert nodes[..i + 1][..i] == nodes[..i];
      NodeMapKeys(nodes[..i]);
      if nodes[i].id in m {
        NodesProblemStays(nodes, i + 1, registry, mountAt);
        return Err(DuplicateNode);
      }
      var problem := NodeProblem(nodes[i], registry, mountAt);
      if problem.Some? {
        NodesProblemStays(nodes, i + 1, registry, mountAt);
        return Err(problem.value);
      }
      m := m[nodes[i].id := nodes[i]];
    }
    assert nodes[..|nodes|] == nodes;
    r := Ok(m);
  }

  method CheckDeps(m: map<string, Node>) returns (problem: Option<RestoreError>)
    ensures problem == if DepsClosed(m) then None else Some(MissingDep)
  {
    var left := m.Keys;
    while left != {}
      invariant left <= m.Keys
      invariant forall k, d :: k in m && k !in left && d in m[k].deps ==> d in m
      decreases left
    {
      var k :| k in left;
      left := left - {k};
      for i := 0 to |m[k].deps|
        invariant forall j :: 0 <= j < i ==> m[k].deps[j] in m
      {
        if m[k].deps[i] !in m { return Some(MissingDep); }
      }
    }
    problem := None;
  }

  /** The recorded edges against the dep relation: the first problem, if there is one. */
  method CheckEdges(edges: seq<EdgeRecord>, m: map<string, Node>) returns (problem: Option<RestoreError>)
    requires DepsClosed(m)
    ensures problem.None? <==> EdgesMatch(edges, m)
    ensures problem == EdgesError(edges, m)
  {
    EdgesErrorIff(edges, m);
    problem := CheckListed(edges, m);
    if problem.None? { problem := CheckCovered(Elements(edges), edges, m); }
  }

  method CheckListed(edges: seq<EdgeRecord>, m: map<string, Node>) returns (problem: Option<RestoreError>)
    ensures problem == EdgesProblem(edges, m)
  {
    var keys: set<EdgeRecord> := {};
    for i := 0 to |edges|
      invariant keys == Elements(edges[..i]) && EdgesProblem(edges[..i], m) == None
    {
      var e := edges[i];
      assert edges[..i + 1][..i] == edges[..i];
      problem := if e in keys then Some(DuplicateEdge)
                 else if e.target !in m then Some(EdgeToMissingNode)
                 else if e.source !in m || e.source !in m[e.target].deps then Some(EdgeNotADep)
                 else None;
      assert problem == EdgesProblem(edges[..i + 1], m);
      if problem.Some? {
        EdgesProblemStays(edges, i + 1, m);
        return;
      }
      keys := keys + {e};
    }
    assert edges[..|edges|] == edges;
    problem := None;
  }

  method CheckCovered(keys: set<EdgeRecord>, ghost edges: seq<EdgeRecord>, m: map<string, Node>)
    returns (problem: Option<RestoreError>)
    requires keys == Elements(edges)
    ensures problem == if EdgesCover(edges, m) then None else Some(DepWithoutEdge)
  {
    var left := m.Keys;
    while left != {}
      invariant left <= m.Keys
      invariant forall k, d :: k in m && k !in left && d in m[k].deps ==> EdgeRecord(d, k) in keys
      decreases left
    {
      var k :| k in left;
      left := left - {k};
      for i := 0 to |m[k].deps|
        invariant forall j :: 0 <= j < i ==> EdgeRecord(m[k].deps[j], k) in keys
      {
        if EdgeRecord(m[k].deps[i], k) !in keys { return Some(DepWithoutEdge); }
      }
    }
    problem := None;
  }
}
