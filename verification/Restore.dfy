/** The rebuild: each prepared node is constructed after its deps, or a cycle is reported (checkpoint.rs). */
module Restore {
  import opened Prelude
  import opened Digraph
  import opened Checkpoint
  import opened NodeVersions
  import Json

  /** What a registry descriptor answers for a node: nothing, or how it registers it. */
  datatype Definition = Fails | StateJson | NodeJson | Custom(depIds: seq<string>)

  /** A constructed node; its core is its position in the construction log. */
  datatype Record = Record(id: string, deps: seq<nat>)

  type Descriptors = Node -> Definition

  ghost predicate KeyedById(nodes: map<string, Node>) {
    forall k :: k in nodes ==> nodes[k].id == k
  }

  /** Each node points at its recorded deps. */
  function DepGraph(nodes: map<string, Node>): Graph<string> {
    map k | k in nodes :: Elements(nodes[k].deps)
  }

  /** The descriptor defines the node and registers it with the recorded deps. */
  predicate Defines(define: Descriptors, n: Node) {
    match define(n)
    case Fails => false
    case StateJson => n.deps == []
    case NodeJson => true
    case Custom(ids) => ids == n.deps
  }

  predicate AllDefined(define: Descriptors, nodes: map<string, Node>) {
    forall k | k in nodes :: Defines(define, nodes[k])
  }

  /** The log holds distinct ids, each after its deps, with the deps the checkpoint recorded. */
  ghost predicate WellBuilt(log: seq<Record>, nodes: map<string, Node>) {
    && (forall i :: 0 <= i < |log| ==> log[i].id in nodes && BuiltFrom(log, i, nodes[log[i].id].deps))
    && (forall i, j :: 0 <= i < j < |log| ==> log[i].id != log[j].id)
  }

  /** Record `i` has the deps `ids`, in order, all of them earlier in the log. */
  ghost predicate BuiltFrom(log: seq<Record>, i: nat, ids: seq<string>)
    requires i < |log|
  {
    && |log[i].deps| == |ids|
    && forall j :: 0 <= j < |ids| ==> log[i].deps[j] < i && log[log[i].deps[j]].id == ids[j]
  }

  lemma WellBuiltExtends(log: seq<Record>, nodes: map<string, Node>, r: Record)
    requires WellBuilt(log, nodes) && r.id in nodes && forall i :: 0 <= i < |log| ==> log[i].id != r.id
    requires BuiltFrom(log + [r], |log|, nodes[r.id].deps)
    ensures WellBuilt(log + [r], nodes)
  {
    forall i | 0 <= i < |log| ensures BuiltFrom(log + [r], i, nodes[log[i].id].deps) {
      assert BuiltFrom(log, i, nodes[log[i].id].deps);
    }
  }

  lemma {:induction false} LogRank(log: seq<Record>, nodes: map<string, Node>) returns (rank: map<string, int>)
    requires WellBuilt(log, nodes)
    ensures forall i :: 0 <= i < |log| ==> log[i].id in rank && rank[log[i].id] == i
  {
    rank := map[];
    for n := 0 to |log|
      invariant forall i :: 0 <= i < n ==> log[i].id in rank && rank[log[i].id] == i
    {
      rank := rank[log[n].id := n];
    }
  }

  /** A complete log is a topological order, so there is no cycle. */
  lemma CompleteLogMeansAcyclic(log: seq<Record>, nodes: map<string, Node>)
    requires WellBuilt(log, nodes) && forall k :: k in nodes ==> exists i :: 0 <= i < |log| && log[i].id == k
    ensures !Cyclic(DepGraph(nodes))
  {
    var rank := LogRank(log, nodes);
    var g := DepGraph(nodes);
    forall a, b | Edge(g, a, b) ensures a in rank && b in rank && rank[b] < rank[a] {
      var i :| 0 <= i < |log| && log[i].id == a;
      assert BuiltFrom(log, i, nodes[a].deps);
      var j :| 0 <= j < |nodes[a].deps| && nodes[a].deps[j] == b;
    }
    RankedIsAcyclic(g, rank);
  }

  class GraphBuilder {
    const nodes: map<string, Node>
    const define: Descriptors
    var log: seq<Record>
    var built: map<string, nat>
    var visiting: set<string>

    constructor (nodes: map<string, Node>, define: Descriptors)
      ensures this.nodes == nodes && this.define == define
      ensures log == [] && built == map[] && visiting == {}
    {
      this.nodes, this.define := nodes, define;
      log, built, visiting := [], map[], {};
    }

    /** `built` indexes the log. */
    ghost predicate Indexed()
      reads this
    {
      && WellBuilt(log, nodes)
      && (forall k :: k in built ==> built[k] < |log| && log[built[k]].id == k && Defines(define, nodes[k]))
      && (forall i :: 0 <= i < |log| ==> log[i].id in built && built[log[i].id] == i)
    }

    ghost predicate Valid()
      reads this
    {
      && DepsClosed(nodes) && KeyedById(nodes)
      && Indexed()
      && visiting <= nodes.Keys
      && built.Keys !! visiting
    }

    /** The calls in progress: a path in the dep graph, from the outermost node to the innermost. */
    ghost predicate IsCallStack(stack: seq<string>)
      reads this
    {
      && (forall x :: x in stack <==> x in visiting)
      && (stack != [] ==> IsPath(DepGraph(nodes), stack))
    }

    /**
     * Builds `id` and, first, everything it depends on.  It gives up only where the dep graph has a
     * cycle or a descriptor does not define its node.
     */
    method BuildNode(id: string, ghost stack: seq<string>) returns (r: Result<nat, RestoreError>)
      requires Valid() && id in nodes && IsCallStack(stack)
      requires stack != [] ==> Edge(DepGraph(nodes), stack[|stack| - 1], id)
      modifies this
      ensures r.Err? ==> Cyclic(DepGraph(nodes)) || !AllDefined(define, nodes)
      ensures r.Ok? ==> Valid() && visiting == old(visiting)
      ensures r.Ok? ==> old(log) <= log && (forall k :: k in old(built) ==> k in built)
      ensures r.Ok? ==> id in built && built[id] == r.value
      decreases nodes.Keys - visiting, 0
    {
      if id in built { return Ok(built[id]); }
      if id in visiting {
        TurningBackIsCycle(DepGraph(nodes), stack, id);
        return Err(DependencyCycle);
      }
      visiting := visiting + {id};
      var item := nodes[id];
      ghost var inner := stack + [id];
      PathExtends(DepGraph(nodes), stack, id);
      var cores := BuildDeps(item, inner);
      if cores.Err? { return Err(cores.error); }
      var registered := Register(item, cores.value);
      if registered.Err? { return Err(registered.error); }
      visiting := visiting - {id};
      r := registered;
    }

    method BuildDeps(item: Node, ghost stack: seq<string>) returns (r: Result<seq<nat>, RestoreError>)
      requires Valid() && item.id in nodes && nodes[item.id].deps == item.deps && IsCallStack(stack)
      requires stack != [] && stack[|stack| - 1] == item.id
      modifies this
      ensures r.Err? ==> Cyclic(DepGraph(nodes)) || !AllDefined(define, nodes)
      ensures r.Ok? ==> Valid() && visiting == old(visiting)
      ensures r.Ok? ==> old(log) <= log && (forall k :: k in old(built) ==> k in built)
      ensures r.Ok? ==> |r.value| == |item.deps|
      ensures r.Ok? ==> forall j :: 0 <= j < |item.deps| ==> r.value[j] < |log| && log[r.value[j]].id == item.deps[j]
      decreases nodes.Keys - visiting, 1
    {
      var cores: seq<nat> := [];
      for i := 0 to |item.deps|
        invariant Valid() && visiting == old(visiting)
        invariant old(log) <= log && (forall k :: k in old(built) ==> k in built)
        invariant |cores| == i
        invariant forall j :: 0 <= j < i ==> cores[j] < |log| && log[cores[j]].id == item.deps[j]
      {
        var core := BuildNode(item.deps[i], stack);
        if core.Err? { return Err(core.error); }
        cores := cores + [core.value];
      }
      r := Ok(cores);
    }

    /** Asks the descriptor, registers the node and checks its deps against the recorded ones. */
    method Register(item: Node, deps: seq<nat>) returns (r: Result<nat, RestoreError>)
      requires Valid() && item.id in nodes && nodes[item.id] == item && item.id !in built
      requires |deps| == |item.deps| && forall j :: 0 <= j < |deps| ==> deps[j] < |log| && log[deps[j]].id == item.deps[j]
      modifies this`log, this`built
      ensures r.Ok? <==> Defines(define, item)
      ensures r.Ok? ==> Indexed() && log == old(log) + [Record(item.id, deps)]
      ensures r.Ok? ==> r.value == |old(log)| && built == old(built)[item.id := r.value]
    {
      match define(item) {
        case Fails => return Err(UndefinedNode);
        case StateJson =>
          if deps != [] { return Err(DepsMismatch); }
        case NodeJson =>
        case Custom(ids) =>
          if ids != item.deps { return Err(DepsMismatch); }
      }
      WellBuiltExtends(log, nodes, Record(item.id, deps));
      built := built[item.id := |log|];
      log := log + [Record(item.id, deps)];
      r := Ok(|log| - 1);
    }

    /** Builds every node, in any order of the ids. */
    method BuildAll() returns (r: Result<seq<Record>, RestoreError>)
      requires DepsClosed(nodes) && KeyedById(nodes) && log == [] && built == map[] && visiting == {}
      modifies this
      ensures r.Ok? <==> !Cyclic(DepGraph(nodes)) && AllDefined(define, nodes)
      ensures r.Ok? ==> WellBuilt(r.value, nodes)
      ensures r.Ok? ==> forall k :: k in nodes ==> exists i :: 0 <= i < |r.value| && r.value[i].id == k
    {
      var left := nodes.Keys;
      while left != {}
        invariant Valid() && visiting == {} && left <= nodes.Keys
        invariant nodes.Keys - left <= built.Keys
        decreases left
      {
        var id :| id in left;
        left := left - {id};
        var core := BuildNode(id, []);
        if core.Err? { return Err(core.error); }
      }
      assert forall k :: k in nodes ==> k in built && log[built[k]].id == k;
      CompleteLogMeansAcyclic(log, nodes);
      r := Ok(log);
    }
  }

  // ---- whole checkpoints ----

  /** What a restored node holds. */
  datatype Runtime = Runtime(value: Option<Json.Value>, status: Status, terminal: bool, version: Option<Version>)

  datatype Restored = Restored(log: seq<Record>, runtimes: map<string, Runtime>, mounts: seq<(string, Restored)>)

  /** The versioning policy of the node that a descriptor registers. */
  type Policies = Node -> Policy

  /** A terminal record and its status must agree, and an ERROR payload cannot be restored. */
  predicate TerminalAgrees(n: Node) {
    match n.terminal
    case NotTerminal => StatusFromString(n.status) !in {None, Some(Completed), Some(Errored)}
    case Complete => StatusFromString(n.status) == Some(Completed)
    case ErrorTerminal => false
  }

  /** The recorded version fits the policy the node is restored under, and its data. */
  ghost predicate VersionAgrees(policies: Policies, n: Node) {
    Verifies(policies(n), n.version, n.value)
  }

  function RuntimeOf(n: Node): Runtime
    requires TerminalAgrees(n)
  {
    Runtime(n.value, StatusFromString(n.status).value, n.terminal.Complete?,
            if n.version.Some? then FromJson(n.version.value) else None)
  }

  /** Every node holds what was recorded of it. */
  ghost predicate Holds(runtimes: map<string, Runtime>, nodes: map<string, Node>) {
    runtimes.Keys == nodes.Keys && forall k :: k in nodes ==> TerminalAgrees(nodes[k]) && runtimes[k] == RuntimeOf(nodes[k])
  }

  /** What it takes to rebuild a prepared checkpoint and its mounts. */
  ghost predicate Restorable(p: Prepared, define: Descriptors, policies: Policies) {
    && !Cyclic(DepGraph(p.nodes))
    && AllDefined(define, p.nodes)
    && (forall k :: k in p.nodes ==> TerminalAgrees(p.nodes[k]) && VersionAgrees(policies, p.nodes[k]))
    && forall i :: 0 <= i < |p.mounts| ==> Restorable(p.mounts[i].1, define, policies)
  }

  /** The recorded terminal and status belong together. */
  predicate TerminalFits(n: Node) {
    || (n.terminal.Complete? && n.status == "completed")
    || (n.terminal.NotTerminal? && n.status in {"sentinel", "pending", "dirty", "settled", "resolved"})
  }

  /**
   * What a node needs to come back: a descriptor that registers it with its recorded deps, a terminal that fits
   * its status, and a version record that names the recorded value under the node's policy.
   */
  ghost predicate ComesBack(define: Descriptors, policies: Policies, n: Node) {
    && !define(n).Fails? && (define(n).StateJson? ==> n.deps == []) && (define(n).Custom? ==> define(n).depIds == n.deps)
    && TerminalFits(n)
    && Verifies(policies(n), n.version, n.value)
  }

  lemma ComesBackIff(define: Descriptors, policies: Policies, n: Node)
    ensures ComesBack(define, policies, n) <==> Defines(define, n) && TerminalAgrees(n) && VersionAgrees(policies, n)
  {
  }

  /** Every node can come back, and no dep cycle stands in the way, down through the mounts. */
  ghost predicate AllComeBack(p: Prepared, define: Descriptors, policies: Policies) {
    && !Cyclic(DepGraph(p.nodes))
    && (forall k :: k in p.nodes ==> ComesBack(define, policies, p.nodes[k]))
    && forall i :: 0 <= i < |p.mounts| ==> AllComeBack(p.mounts[i].1, define, policies)
  }

  /** Exactly then the checkpoint can be restored. */
  lemma {:induction false} RestorableIff(p: Prepared, define: Descriptors, policies: Policies)
    ensures Restorable(p, define, policies) <==> AllComeBack(p, define, policies)
  {
    forall k | k in p.nodes
      ensures ComesBack(define, policies, p.nodes[k])
              <==> Defines(define, p.nodes[k]) && TerminalAgrees(p.nodes[k]) && VersionAgrees(policies, p.nodes[k])
    {
      ComesBackIff(define, policies, p.nodes[k]);
    }
    forall i | 0 <= i < |p.mounts|
      ensures Restorable(p.mounts[i].1, define, policies) <==> AllComeBack(p.mounts[i].1, define, policies)
    {
      RestorableIff(p.mounts[i].1, define, policies);
    }
  }

  ghost predicate WellFormed(p: Prepared) {
    DepsClosed(p.nodes) && KeyedById(p.nodes) && forall i :: 0 <= i < |p.mounts| ==> WellFormed(p.mounts[i].1)
  }

  /** The rebuilt graph has every node of the checkpoint exactly once, deps first, as recorded, at every mount. */
  ghost predicate Rebuilds(r: Restored, p: Prepared) {
    && WellBuilt(r.log, p.nodes) && Holds(r.runtimes, p.nodes)
    && (forall k :: k in p.nodes ==> exists i :: 0 <= i < |r.log| && r.log[i].id == k)
    && |r.mounts| == |p.mounts|
    && forall i :: 0 <= i < |r.mounts| ==> r.mounts[i].0 == p.mounts[i].0 && Rebuilds(r.mounts[i].1, p.mounts[i].1)
  }

  lemma {:induction false} AcceptedIsWellFormed(c: Checkpoint, registry: set<string>, mountAt: Option<string>)
    requires Acceptable(c, registry, mountAt)
    ensures WellFormed(PreparedOf(c))
  {
    NodeMapKeys(c.nodes);
    forall i | 0 <= i < |c.mounts| ensures WellFormed(PreparedOf(c).mounts[i].1) {
      AcceptedIsWellFormed(c.mounts[i].checkpoint, registry, Some(c.mounts[i].at));
    }
  }

  method ConstructPrepared(p: Prepared, define: Descriptors, policies: Policies) returns (r: Result<Restored, RestoreError>)
    requires WellFormed(p)
    ensures r.Ok? <==> Restorable(p, define, policies)
    ensures r.Ok? ==> Rebuilds(r.value, p)
    decreases p, 1
  {
    var builder := new GraphBuilder(p.nodes, define);
    var log := builder.BuildAll();
    if log.Err? { return Err(log.error); }
    var mounts := ConstructMounts(p, define, policies);
    if mounts.Err? { return Err(mounts.error); }
    var runtimes := RestoreRuntimes(p.nodes, policies);
    if runtimes.Err? { return Err(runtimes.error); }
    r := Ok(Restored(log.value, runtimes.value, mounts.value));
  }

  method ConstructMounts(p: Prepared, define: Descriptors, policies: Policies)
    returns (r: Result<seq<(string, Restored)>, RestoreError>)
    requires WellFormed(p)
    ensures r.Ok? <==> forall i :: 0 <= i < |p.mounts| ==> Restorable(p.mounts[i].1, define, policies)
    ensures r.Ok? ==> |r.value| == |p.mounts| && forall i :: 0 <= i < |r.value| ==>
              r.value[i].0 == p.mounts[i].0 && Rebuilds(r.value[i].1, p.mounts[i].1)
    decreases p, 0
  {
    var mounts: seq<(string, Restored)> := [];
    for i := 0 to |p.mounts|
      invariant |mounts| == i
      invariant forall j :: 0 <= j < i ==> Restorable(p.mounts[j].1, define, policies)
      invariant forall j :: 0 <= j < i ==> mounts[j].0 == p.mounts[j].0 && Rebuilds(mounts[j].1, p.mounts[j].1)
    {
      var child := ConstructPrepared(p.mounts[i].1, define, policies);
      if child.Err? { return Err(child.error); }
      mounts := mounts + [(p.mounts[i].0, child.value)];
    }
    r := Ok(mounts);
  }

  /** Gives every built node its recorded runtime back. */
  method RestoreRuntimes(nodes: map<string, Node>, policies: Policies) returns (r: Result<map<string, Runtime>, RestoreError>)
    ensures r.Ok? <==> forall k :: k in nodes ==> TerminalAgrees(nodes[k]) && VersionAgrees(policies, nodes[k])
    ensures r.Ok? ==> Holds(r.value, nodes)
  {
    var runtimes: map<string, Runtime> := map[];
    var left := nodes.Keys;
    while left != {}
      invariant left <= nodes.Keys && runtimes.Keys == nodes.Keys - left
      invariant forall k :: k in runtimes ==>
                  TerminalAgrees(nodes[k]) && VersionAgrees(policies, nodes[k]) && runtimes[k] == RuntimeOf(nodes[k])
      decreases left
    {
      var k :| k in left;
      left := left - {k};
      if !TerminalAgrees(nodes[k]) { return Err(TerminalMismatch); }
      var version := VerifyVersion(policies(nodes[k]), nodes[k].version, nodes[k].value);
      if version.Err? { return Err(VersionRefused(version.error)); }
      var status := StatusFromString(nodes[k].status).value;
      runtimes := runtimes[k := Runtime(nodes[k].value, status, nodes[k].terminal.Complete?, version.value)];
    }
    r := Ok(runtimes);
  }

  /** `restore_graph`: validate, then rebuild. */
  method RestoreGraph(c: Checkpoint, registry: set<string>, define: Descriptors, policies: Policies)
    returns (r: Result<Restored, RestoreError>)
    ensures r.Ok? <==> Acceptable(c, registry, None) && AllComeBack(PreparedOf(c), define, policies)
    ensures r.Ok? ==> Rebuilds(r.value, PreparedOf(c))
    ensures !Acceptable(c, registry, None) ==> r.Err? && Problem(c, registry, None) == Some(r.error)
  {
    var prepared := PrepareCheckpoint(c, registry, None);
    if prepared.Err? { return Err(prepared.error); }
    AcceptedIsWellFormed(c, registry, None);
    RestorableIff(prepared.value, define, policies);
    r := ConstructPrepared(prepared.value, define, policies);
  }
}
