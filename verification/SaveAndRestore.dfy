/**
 * Writing the checkpoint of a live graph (checkpoint.rs, `checkpoint_graph`) and restoring it: exactly when
 * that works, and that it gives back the same nodes, deps, values, statuses and versions.
 */
module SaveAndRestore {
  import opened Prelude
  import opened Digraph
  import opened Checkpoint
  import opened Capture
  import opened Restore
  import opened NodeVersions
  import Json

  /** What a node was registered to be restored with. */
  datatype RestoreMeta = RestoreMeta(ref: string, config: seq<Json.Value>)

  /**
   * A value to be recorded: JSON that the writer validates, a machine integer, which it writes unvalidated,
   * or one without a JSON form.
   */
  datatype LiveValue = Checked(json: Json.Value) | Integer(n: int) | Opaque

  /** What a node's collection contributes: nothing, its state, or an error. */
  datatype Backend = NoBackend | State(json: Json.Value) | Fails

  /** A live node; a `helper` is a derived view of a collection, whose values are not recorded. */
  datatype LiveNode = LiveNode(
    restore: Option<RestoreMeta>,
    factory: string,
    status: Status,
    terminated: bool,
    helper: bool,
    cache: Option<LiveValue>,
    context: Option<LiveValue>,
    backend: Backend,
    version: Option<Version>)

  datatype LiveMount = LiveMount(at: string, graph: LiveGraph)

  datatype LiveGraph = LiveGraph(
    registered: seq<Entry>,
    deps: LiveDeps,
    live: map<nat, LiveNode>,
    synthetic: nat -> string,
    mounts: seq<LiveMount>)

  /** Registered nodes are live, each once, and deps of live nodes are live. */
  ghost predicate Proper(g: LiveGraph) {
    && DepsKnown(g.deps) && g.deps.Keys <= g.live.Keys
    && Distinct(Cores(g.registered)) && (forall c :: c in Cores(g.registered) ==> c in g.deps)
    && (forall i :: 0 <= i < |g.registered| ==> !g.registered[i].unregistered)
    && forall i :: 0 <= i < |g.mounts| ==> Proper(g.mounts[i].graph)
  }

  // ---- one node ----

  function EntryIds(entries: seq<Entry>): (ids: seq<string>)
    ensures |ids| == |entries| && forall i :: 0 <= i < |ids| ==> ids[i] == entries[i].id
  {
    seq(|entries|, i requires 0 <= i < |entries| => entries[i].id)
  }

  /** The place of the entry for `core`. */
  function PlaceOf(entries: seq<Entry>, core: nat): (k: nat)
    requires core in Cores(entries)
    ensures k < |entries| && entries[k].core == core
  {
    if entries[|entries| - 1].core == core then |entries| - 1
    else
      var init := entries[..|entries| - 1];
      assert core in Cores(init) by {
        var k :| 0 <= k < |entries| && Cores(entries)[k] == core;
        assert Cores(init)[k] == core;
      }
      PlaceOf(init, core)
  }

  function IdOf(entries: seq<Entry>, core: nat): string
    requires core in Cores(entries)
  {
    entries[PlaceOf(entries, core)].id
  }

  function DepIds(entries: seq<Entry>, ds: seq<nat>): (ids: seq<string>)
    requires forall d :: d in ds ==> d in Cores(entries)
    ensures |ids| == |ds| && forall k :: 0 <= k < |ds| ==> ids[k] == IdOf(entries, ds[k])
  {
    seq(|ds|, k requires 0 <= k < |ds| => IdOf(entries, ds[k]))
  }

  function StatusToString(s: Status): (name: string)
    ensures StatusFromString(name) == Some(s)
  {
    match s
    case Sentinel => "sentinel"
    case Pending => "pending"
    case Dirty => "dirty"
    case Settled => "settled"
    case Resolved => "resolved"
    case Completed => "completed"
    case Errored => "errored"
  }

  /** The registry entry a node names: its restore metadata, or the built-in one for state nodes. */
  function MetaOf(e: Entry, n: LiveNode): Option<RestoreMeta> {
    if e.unregistered then None
    else if n.restore.Some? then n.restore
    else if n.factory == "state" then Some(RestoreMeta("state", []))
    else None
  }

  function FactoryOf(e: Entry, n: LiveNode): Factory {
    if MetaOf(e, n).Some? then RegistryRef(MetaOf(e, n).value.ref) else LocalOnly
  }

  predicate AllStrict(values: seq<Json.Value>) {
    forall i | 0 <= i < |values| :: Json.Strict(values[i])
  }

  /** `any_to_json`: validated JSON, an integer as it is, or nothing. */
  function ToValue(v: LiveValue): Option<Json.Value> {
    match v
    case Checked(json) => if Json.Strict(json) then Some(json) else None
    case Integer(n) => Some(Json.Number(n))
    case Opaque => None
  }

  predicate Encodes(v: Option<LiveValue>) {
    v.Some? ==> ToValue(v.value).Some?
  }

  function Kept(n: LiveNode, v: Option<LiveValue>): Option<LiveValue> {
    if n.helper then None else v
  }

  /** What is recorded of a value: a helper's are not. */
  function Recording(n: LiveNode, v: Option<LiveValue>): Option<Json.Value> {
    if Kept(n, v).None? then None else ToValue(v.value)
  }

  /** What the writer itself refuses: a node in motion, a value it cannot encode, an ERROR terminal. */
  predicate Recordable(n: LiveNode) {
    && n.status !in {Pending, Dirty} && !(n.terminated && n.status == Errored)
    && Encodes(Kept(n, n.cache)) && Encodes(Kept(n, n.context))
    && !n.backend.Fails? && (n.backend.State? ==> Json.Strict(n.backend.json))
  }

  function AsList(v: Option<Json.Value>): seq<Json.Value> {
    if v.Some? then [v.value] else []
  }

  function OtherPayloads(n: LiveNode): seq<Json.Value> {
    AsList(Recording(n, n.context)) + AsList(if n.backend.State? then Some(n.backend.json) else None)
  }

  function ConfigOf(e: Entry, n: LiveNode): seq<Json.Value> {
    if MetaOf(e, n).Some? then MetaOf(e, n).value.config else []
  }

  function NodeOf(e: Entry, n: LiveNode, deps: seq<string>): Node {
    Node(e.id, FactoryOf(e, n), StatusToString(n.status), deps,
         if n.terminated && n.status == Completed then Complete else NotTerminal,
         Recording(n, n.cache), VersionToJson(n.version), ConfigOf(e, n) + OtherPayloads(n))
  }

  // ---- what is written, field by field ----

  /** The JSON form of a value that has one. */
  predicate Shows(v: Option<LiveValue>, j: Option<Json.Value>) {
    match v
    case None => j.None?
    case Some(Checked(json)) => j == Some(json)
    case Some(Integer(n)) => j == Some(Json.Number(n))
    case Some(Opaque) => false
  }

  /** The value can be written: strict JSON, or an integer of any size. */
  predicate Writable(v: Option<LiveValue>) {
    v.None? || v.value.Integer? || (v.value.Checked? && Json.Strict(v.value.json))
  }

  /** At rest, without an ERROR terminal, and everything to be recorded of it can be written. */
  lemma RecordableIff(n: LiveNode)
    ensures Recordable(n) <==>
            && n.status in {Sentinel, Settled, Resolved, Completed, Errored} && (n.terminated ==> n.status != Errored)
            && (!n.helper ==> Writable(n.cache) && Writable(n.context))
            && (n.backend == NoBackend || (n.backend.State? && Json.Strict(n.backend.json)))
  {
    match n.status
    case Pending | Dirty =>
    case Sentinel | Settled | Resolved | Completed | Errored =>
  }

  /**
   * A node's record: its own restore metadata, or that of a plain state node, unless it was only reached through
   * deps; its status and version; COMPLETE if it has terminated so; its value, and with what else it carries its
   * context, unless it is a helper.
   */
  lemma RecordTells(e: Entry, n: LiveNode, deps: seq<string>)
    requires Recordable(n)
    ensures var r := NodeOf(e, n, deps);
            && r.id == e.id && r.deps == deps && StatusFromString(r.status) == Some(n.status)
            && (r.terminal == if n.terminated && n.status == Completed then Complete else NotTerminal)
            && Shows(if n.helper then None else n.cache, r.value)
            && (n.version.None? <==> r.version.None?)
            && (n.version.Some? ==> r.version == Some(NodeVersions.ToJson(n.version.value)))
    ensures var r, named := NodeOf(e, n, deps), !e.unregistered && n.restore.Some?;
            && (named ==> r.factory == RegistryRef(n.restore.value.ref))
            && (!e.unregistered && n.restore.None? && n.factory == "state" ==> r.factory == RegistryRef("state"))
            && (e.unregistered || (n.restore.None? && n.factory != "state") ==> r.factory == LocalOnly)
            && exists context: seq<Json.Value> ::
                 && (if n.helper || n.context.None? then context == [] else |context| == 1 && Shows(n.context, Some(context[0])))
                 && r.payloads == (if named then n.restore.value.config else []) + context
                                  + (if n.backend.State? then [n.backend.json] else [])
  {
    var r, named := NodeOf(e, n, deps), !e.unregistered && n.restore.Some?;
    var context := AsList(Recording(n, n.context));
    assert r.payloads == (if named then n.restore.value.config else []) + context
                         + (if n.backend.State? then [n.backend.json] else []);
  }

  // ---- the nodes of one graph ----

  /** All that is to be recorded, each core once, registered ones first. */
  ghost predicate Listing(entries: seq<Entry>, g: LiveGraph) {
    && g.registered <= entries && Distinct(Cores(entries))
    && (forall i :: |g.registered| <= i < |entries| ==> entries[i].unregistered)
    && forall c :: c in Cores(entries) <==> ReachedFrom(CoreGraph(g.deps), Cores(g.registered), c)
  }

  /** The entries are live, and so are their deps, which are entries. */
  ghost predicate Recorded(entries: seq<Entry>, g: LiveGraph) {
    forall c :: c in Cores(entries) ==> c in g.deps && c in g.live && forall d :: d in g.deps[c] ==> d in Cores(entries)
  }

  lemma {:induction false} ReachedIsKnown(g: LiveGraph, p: seq<nat>, i: nat)
    requires Proper(g) && IsPath(CoreGraph(g.deps), p) && p[0] in Cores(g.registered) && i < |p|
    ensures p[i] in g.deps
  {
    if i > 0 {
      ReachedIsKnown(g, p, i - 1);
      assert Edge(CoreGraph(g.deps), p[i - 1], p[i]);
    }
  }

  lemma ListingIsRecorded(entries: seq<Entry>, g: LiveGraph)
    requires Proper(g) && Listing(entries, g)
    ensures Recorded(entries, g)
  {
    forall c | c in Cores(entries)
      ensures c in g.deps && c in g.live && forall d :: d in g.deps[c] ==> d in Cores(entries)
    {
      var p :| IsPath(CoreGraph(g.deps), p) && p[0] in Cores(g.registered) && p[|p| - 1] == c;
      ReachedIsKnown(g, p, |p| - 1);
      forall d | d in g.deps[c] ensures d in Cores(entries) {
        assert Edge(CoreGraph(g.deps), c, d);
        ReachedStep(CoreGraph(g.deps), Cores(g.registered), c, d);
      }
    }
  }

  function NodesOf(entries: seq<Entry>, g: LiveGraph): (nodes: seq<Node>)
    requires Recorded(entries, g)
    ensures |nodes| == |entries| && forall i :: 0 <= i < |entries| ==> nodes[i] == RecordOf(entries, g, i)
  {
    seq(|entries|, i requires 0 <= i < |entries| && Recorded(entries, g) => RecordOf(entries, g, i))
  }

  function RecordOf(entries: seq<Entry>, g: LiveGraph, i: nat): (n: Node)
    requires Recorded(entries, g) && i < |entries|
    ensures n.id == entries[i].id && |n.deps| == |g.deps[entries[i].core]|
  {
    assert entries[i].core == Cores(entries)[i];
    NodeOf(entries[i], g.live[entries[i].core], DepIds(entries, g.deps[entries[i].core]))
  }

  // ---- writing ----

  /** Whatever the writer reaches can be recorded. */
  ghost predicate NodesSavable(g: LiveGraph) {
    forall c :: ReachedFrom(CoreGraph(g.deps), Cores(g.registered), c) ==> c in g.live && Recordable(g.live[c])
  }

  /** The writer gets through, in the mounted graphs too. */
  ghost predicate Savable(g: LiveGraph) {
    NodesSavable(g) && forall i :: 0 <= i < |g.mounts| ==> Savable(g.mounts[i].graph)
  }

  ghost predicate NodesRecord(nodes: seq<Node>, g: LiveGraph) {
    exists entries :: Listing(entries, g) && Recorded(entries, g) && nodes == NodesOf(entries, g)
  }

  /** `c` is a checkpoint of `g` and its mounts. */
  ghost predicate Records(c: Checkpoint, g: LiveGraph) {
    && c.version == GRAPH_CHECKPOINT_VERSION && c.edges == RecordedEdges(c.nodes) && NodesRecord(c.nodes, g)
    && |c.mounts| == |g.mounts|
    && forall i :: 0 <= i < |c.mounts| ==>
         c.mounts[i].at == g.mounts[i].at && Records(c.mounts[i].checkpoint, g.mounts[i].graph)
  }

  ghost predicate MountSavable(m: LiveMount) {
    Savable(m.graph)
  }

  ghost predicate MountRecorded(m: Mount, of: LiveMount) {
    m.at == of.at && Records(m.checkpoint, of.graph)
  }

  /** `checkpoint_graph`. */
  method CheckpointGraph(g: LiveGraph) returns (r: Result<Checkpoint, RestoreError>)
    requires Proper(g)
    ensures r.Ok? <==> Savable(g)
    ensures r.Ok? ==> Records(r.value, g)
    decreases g, 1
  {
    SavableParts(g);
    var recorded := CheckpointNodes(g);
    if recorded.Err? { return Err(recorded.error); }
    var mounts := CheckpointMounts(g);
    if mounts.Err? { return Err(mounts.error); }
    r := Ok(Checkpoint(GRAPH_CHECKPOINT_VERSION, recorded.value.0, recorded.value.1, mounts.value));
    RecordsParts(r.value, g);
  }

  ghost predicate AllSavable(ms: seq<LiveMount>) {
    forall i :: 0 <= i < |ms| ==> MountSavable(ms[i])
  }

  ghost predicate AllRecorded(mounts: seq<Mount>, ms: seq<LiveMount>) {
    |mounts| == |ms| && forall i :: 0 <= i < |ms| ==> MountRecorded(mounts[i], ms[i])
  }

  lemma OneMoreMount(mounts: seq<Mount>, ms: seq<LiveMount>, m: Mount, lm: LiveMount)
    ensures AllSavable(ms + [lm]) <==> AllSavable(ms) && MountSavable(lm)
    ensures AllRecorded(mounts, ms) && MountRecorded(m, lm) ==> AllRecorded(mounts + [m], ms + [lm])
  {
    var all := ms + [lm];
    assert all[|ms|] == lm && forall i :: 0 <= i < |ms| ==> all[i] == ms[i];
  }

  lemma TakeAll<T>(s: seq<T>)
    ensures s[..|s|] == s
  {
  }

  lemma TakeOneMore<T>(s: seq<T>, i: nat)
    requires i < |s|
    ensures s[..i + 1] == s[..i] + [s[i]]
  {
  }

  lemma SavableParts(g: LiveGraph)
    ensures Savable(g) <==> NodesSavable(g) && AllSavable(g.mounts)
  {
  }

  lemma RecordsParts(c: Checkpoint, g: LiveGraph)
    ensures Records(c, g) <==>
            c.version == GRAPH_CHECKPOINT_VERSION && c.edges == RecordedEdges(c.nodes) && NodesRecord(c.nodes, g)
            && AllRecorded(c.mounts, g.mounts)
  {
  }

  method CheckpointMounts(g: LiveGraph) returns (r: Result<seq<Mount>, RestoreError>)
    requires Proper(g)
    ensures r.Ok? <==> AllSavable(g.mounts)
    ensures r.Ok? ==> AllRecorded(r.value, g.mounts)
    decreases g, 0
  {
    var mounts: seq<Mount> := [];
    for i := 0 to |g.mounts|
      invariant AllSavable(g.mounts[..i]) && AllRecorded(mounts, g.mounts[..i])
    {
      var child := CheckpointGraph(g.mounts[i].graph);
      if child.Err? {
        assert !MountSavable(g.mounts[i]);
        return Err(child.error);
      }
      var mount := Mount(g.mounts[i].at, child.value);
      OneMoreMount(mounts, g.mounts[..i], mount, g.mounts[i]);
      TakeOneMore(g.mounts, i);
      mounts := mounts + [mount];
    }
    TakeAll(g.mounts);
    r := Ok(mounts);
  }

  method CheckpointNodes(g: LiveGraph) returns (r: Result<(seq<Node>, seq<EdgeRecord>), RestoreError>)
    requires Proper(g)
    ensures r.Ok? <==> NodesSavable(g)
    ensures r.Ok? ==> NodesRecord(r.value.0, g) && r.value.1 == RecordedEdges(r.value.0)
  {
    var entries := CollectEntries(g.registered, g.deps, g.synthetic);
    assert Listing(entries, g);
    ListingIsRecorded(entries, g);
    AllRecordable(entries, g);
    r := RecordNodes(entries, g);
    if r.Ok? { assert NodesRecord(r.value.0, g); }
  }

  ghost predicate RecordableAt(entries: seq<Entry>, g: LiveGraph, i: nat)
    requires Recorded(entries, g) && i < |entries|
  {
    assert Cores(entries)[i] in Cores(entries);
    Recordable(g.live[Cores(entries)[i]])
  }

  ghost predicate FirstRecordable(entries: seq<Entry>, g: LiveGraph, n: nat)
    requires Recorded(entries, g) && n <= |entries|
  {
    forall i :: 0 <= i < n ==> RecordableAt(entries, g, i)
  }

  /** The nodes and, dep by dep, the edges into them. */
  method RecordNodes(entries: seq<Entry>, g: LiveGraph) returns (r: Result<(seq<Node>, seq<EdgeRecord>), RestoreError>)
    requires Recorded(entries, g)
    ensures r.Ok? <==> FirstRecordable(entries, g, |entries|)
    ensures r.Ok? ==> r.value.0 == NodesOf(entries, g) && r.value.1 == RecordedEdges(r.value.0)
  {
    var nodes: seq<Node> := [];
    var edges: seq<EdgeRecord> := [];
    ghost var all := NodesOf(entries, g);
    for i := 0 to |entries|
      invariant nodes == all[..i] && edges == RecordedEdges(nodes) && FirstRecordable(entries, g, i)
    {
      var node := RecordNode(entries, g, i);
      if node.Err? { return Err(node.error); }
      TakeOneMore(all, i);
      EdgesGrow(nodes, node.value);
      nodes, edges := nodes + [node.value], edges + EdgesInto(node.value);
    }
    TakeAll(all);
    r := Ok((nodes, edges));
  }

  lemma EdgesGrow(nodes: seq<Node>, n: Node)
    ensures RecordedEdges(nodes + [n]) == RecordedEdges(nodes) + EdgesInto(n)
  {
    assert (nodes + [n])[..|nodes|] == nodes;
  }

  method RecordNode(entries: seq<Entry>, g: LiveGraph, i: nat) returns (r: Result<Node, RestoreError>)
    requires Recorded(entries, g) && i < |entries|
    ensures r.Ok? <==> RecordableAt(entries, g, i)
    ensures r.Ok? ==> r.value == RecordOf(entries, g, i)
  {
    assert entries[i].core == Cores(entries)[i];
    var live := g.live[entries[i].core];
    if live.status in {Pending, Dirty} { return Err(NotQuiescent); }
    if live.backend.Fails? || (live.backend.State? && !Json.Strict(live.backend.json)) { return Err(PayloadNotStrict); }
    if !Encodes(Kept(live, live.cache)) { return Err(PayloadNotStrict); }
    if live.terminated && live.status == Errored { return Err(ErrorPayloadUnavailable); }
    if !Encodes(Kept(live, live.context)) { return Err(PayloadNotStrict); }
    r := Ok(RecordOf(entries, g, i));
  }

  lemma AllRecordable(entries: seq<Entry>, g: LiveGraph)
    requires Recorded(entries, g) && Listing(entries, g)
    ensures NodesSavable(g) <==> FirstRecordable(entries, g, |entries|)
  {
    if FirstRecordable(entries, g, |entries|) {
      forall c | ReachedFrom(CoreGraph(g.deps), Cores(g.registered), c) ensures c in g.live && Recordable(g.live[c]) {
        var i :| 0 <= i < |entries| && Cores(entries)[i] == c;
        assert RecordableAt(entries, g, i);
      }
    }
  }

  // ---- what its restore accepts ----

  /** An integer that is recorded lies within the safe range of JSON numbers. */
  predicate SafeInteger(v: Option<LiveValue>) {
    v.Some? && v.value.Integer? ==> -Json.MAX_SAFE_INTEGER <= v.value.n <= Json.MAX_SAFE_INTEGER
  }

  /** What a registered node needs for the validation of its graph's own checkpoint. */
  ghost predicate EntryClean(e: Entry, n: LiveNode, ds: seq<nat>, registry: set<string>, mountAt: Option<string>) {
    && !(mountAt.Some? && mountAt.value + "::" <= e.id)
    && MetaOf(e, n).Some? && MetaOf(e, n).value.ref in registry && AllStrict(MetaOf(e, n).value.config)
    && SafeInteger(Kept(n, n.cache)) && SafeInteger(Kept(n, n.context))
    && (n.version.Some? ==> Sound(n.version.value))
    && Distinct(ds)
  }

  /** Every dep of a registered node is registered. */
  ghost predicate DepsRegistered(g: LiveGraph) {
    forall c, d :: c in Cores(g.registered) && Edge(CoreGraph(g.deps), c, d) ==> d in Cores(g.registered)
  }

  ghost predicate CleanAt(g: LiveGraph, i: nat, registry: set<string>, mountAt: Option<string>)
    requires i < |g.registered|
  {
    var e := g.registered[i];
    e.core in g.live && e.core in g.deps && EntryClean(e, g.live[e.core], g.deps[e.core], registry, mountAt)
  }

  ghost predicate NodesClean(g: LiveGraph, registry: set<string>, mountAt: Option<string>) {
    && DepsRegistered(g) && Distinct(EntryIds(g.registered))
    && forall i :: 0 <= i < |g.registered| ==> CleanAt(g, i, registry, mountAt)
  }

  function LivePaths(mounts: seq<LiveMount>): (paths: seq<string>)
    ensures |paths| == |mounts| && forall i :: 0 <= i < |mounts| ==> paths[i] == mounts[i].at
  {
    seq(|mounts|, i requires 0 <= i < |mounts| => mounts[i].at)
  }

  ghost predicate Clean(g: LiveGraph, registry: set<string>, mountAt: Option<string>) {
    && NodesClean(g, registry, mountAt)
    && Distinct(LivePaths(g.mounts))
    && forall i :: 0 <= i < |g.mounts| ==>
         g.mounts[i].at != "" && Clean(g.mounts[i].graph, registry, Some(g.mounts[i].at))
  }

  /** With nothing unregistered to record, the entries are the registered ones. */
  lemma OnlyRegistered(entries: seq<Entry>, g: LiveGraph)
    requires Proper(g) && Listing(entries, g)
    ensures DepsRegistered(g) <==> entries == g.registered
    ensures entries != g.registered ==> |entries| > |g.registered| && entries[|g.registered|].unregistered
  {
    if DepsRegistered(g) {
      forall c | ReachedFrom(CoreGraph(g.deps), Cores(g.registered), c) ensures c in Cores(g.registered) {
        var p :| IsPath(CoreGraph(g.deps), p) && p[0] in Cores(g.registered) && p[|p| - 1] == c;
        ClosedHoldsPaths(CoreGraph(g.deps), Cores(g.registered), p, |p| - 1);
      }
      NoneBeyond(entries, g);
    }
    if entries == g.registered {
      forall c, d | c in Cores(g.registered) && Edge(CoreGraph(g.deps), c, d) ensures d in Cores(g.registered) {
        ReachedStep(CoreGraph(g.deps), Cores(g.registered), c, d);
      }
    }
  }

  lemma NoneBeyond(entries: seq<Entry>, g: LiveGraph)
    requires Listing(entries, g) && forall c :: c in Cores(entries) ==> c in Cores(g.registered)
    ensures entries == g.registered
  {
    DistinctFits(Cores(entries), Elements(Cores(g.registered)));
    ElementsFit(Cores(g.registered));
  }

  lemma {:induction false} ElementsFit<T>(s: seq<T>)
    ensures |Elements(s)| <= |s|
  {
    if s != [] {
      var init := s[..|s| - 1];
      assert s == init + [s[|s| - 1]];
      ElementsSnoc(init, s[|s| - 1]);
      ElementsFit(init);
    }
  }

  lemma StrictConcat(a: seq<Json.Value>, b: seq<Json.Value>)
    ensures AllStrict(a + b) <==> AllStrict(a) && AllStrict(b)
  {
    var all := a + b;
    assert forall i :: 0 <= i < |a| ==> all[i] == a[i];
    assert forall i :: 0 <= i < |b| ==> all[|a| + i] == b[i];
  }

  lemma NodeProblemParts(n: Node, registry: set<string>, mountAt: Option<string>)
    ensures NodeProblem(n, registry, mountAt) == None <==>
            && !(mountAt.Some? && mountAt.value + "::" <= n.id)
            && n.factory.RegistryRef? && n.factory.ref in registry
            && StatusFromString(n.status).Some? && StatusFromString(n.status).value !in {Pending, Dirty}
            && (n.value.Some? ==> Json.Strict(n.value.value)) && AllStrict(n.payloads)
            && (n.version.Some? ==> FromJson(n.version.value).Some?)
  {
  }

  /** What was encoded is strict exactly when it is no integer out of range. */
  lemma EncodedIsStrictIff(n: LiveNode, v: Option<LiveValue>)
    requires Encodes(Kept(n, v))
    ensures AllStrict(AsList(Recording(n, v))) <==> SafeInteger(Kept(n, v))
    ensures (Recording(n, v).Some? ==> Json.Strict(Recording(n, v).value)) <==> SafeInteger(Kept(n, v))
  {
    var r := Recording(n, v);
    if r.Some? { assert AsList(r)[0] == r.value; }
  }

  lemma OthersStrictIff(n: LiveNode)
    requires Recordable(n)
    ensures AllStrict(OtherPayloads(n)) <==> SafeInteger(Kept(n, n.context))
  {
    EncodedIsStrictIff(n, n.context);
    StrictConcat(AsList(Recording(n, n.context)), AsList(if n.backend.State? then Some(n.backend.json) else None));
  }

  lemma VersionPartIff(v: Option<Version>)
    ensures (VersionToJson(v).Some? ==> FromJson(VersionToJson(v).value).Some?) <==> (v.Some? ==> Sound(v.value))
  {
    if v.Some? { VersionReads(v.value); }
  }

  /** One recorded node passes the checks on nodes exactly when its entry is clean, its deps aside. */
  lemma NodeProblemIff(e: Entry, n: LiveNode, deps: seq<string>, registry: set<string>, mountAt: Option<string>)
    requires Recordable(n)
    ensures NodeProblem(NodeOf(e, n, deps), registry, mountAt) == None <==> EntryClean(e, n, [], registry, mountAt)
  {
    NodeProblemParts(NodeOf(e, n, deps), registry, mountAt);
    StrictConcat(ConfigOf(e, n), OtherPayloads(n));
    OthersStrictIff(n);
    EncodedIsStrictIff(n, n.cache);
    VersionPartIff(n.version);
  }

  /** Distinct ids make dep ids as distinct as the deps. */
  lemma DepIdsDistinct(entries: seq<Entry>, ds: seq<nat>)
    requires Distinct(EntryIds(entries)) && forall d :: d in ds ==> d in Cores(entries)
    ensures Distinct(DepIds(entries, ds)) <==> Distinct(ds)
  {
    forall i, j | 0 <= i < j < |ds| ensures DepIds(entries, ds)[i] == DepIds(entries, ds)[j] <==> ds[i] == ds[j] {
      IdsTellCores(entries, ds[i], ds[j]);
    }
  }

  lemma IdsTellCores(entries: seq<Entry>, c: nat, d: nat)
    requires Distinct(EntryIds(entries)) && c in Cores(entries) && d in Cores(entries)
    ensures IdOf(entries, c) == IdOf(entries, d) <==> c == d
  {
    var i, j := PlaceOf(entries, c), PlaceOf(entries, d);
    assert EntryIds(entries)[i] == IdOf(entries, c) && EntryIds(entries)[j] == IdOf(entries, d);
  }

  lemma PlaceIsOwn(entries: seq<Entry>, i: nat)
    requires Distinct(Cores(entries)) && i < |entries|
    ensures Cores(entries)[i] in Cores(entries) && PlaceOf(entries, entries[i].core) == i
  {
    var k := PlaceOf(entries, entries[i].core);
    assert Cores(entries)[k] == Cores(entries)[i];
  }

  lemma RecordedDepsClosed(entries: seq<Entry>, g: LiveGraph)
    requires Recorded(entries, g)
    ensures DepsClosed(NodeMap(NodesOf(entries, g)))
  {
    var nodes := NodesOf(entries, g);
    NodeMapKeys(nodes);
    forall k, d | k in NodeMap(nodes) && d in NodeMap(nodes)[k].deps ensures d in NodeMap(nodes) {
      var i :| 0 <= i < |nodes| && nodes[i] == NodeMap(nodes)[k];
      assert entries[i].core == Cores(entries)[i];
      var ds := g.deps[entries[i].core];
      var m :| 0 <= m < |ds| && d == IdOf(entries, ds[m]);
      assert Ids(nodes)[PlaceOf(entries, ds[m])] == d;
    }
  }

  ghost predicate AllPass(nodes: seq<Node>, registry: set<string>, mountAt: Option<string>) {
    forall i :: 0 <= i < |nodes| ==> Passes(nodes[i], registry, mountAt)
  }

  /** The validation of the nodes, deps and edges of `g`'s own checkpoint. */
  ghost predicate NodesAccepted(nodes: seq<Node>, registry: set<string>, mountAt: Option<string>) {
    && Distinct(Ids(nodes)) && AllPass(nodes, registry, mountAt)
    && DepsClosed(NodeMap(nodes)) && EdgesMatch(RecordedEdges(nodes), NodeMap(nodes))
  }

  lemma OneAcceptedIff(g: LiveGraph, i: nat, registry: set<string>, mountAt: Option<string>)
    requires NodesSavable(g) && Listing(g.registered, g) && Recorded(g.registered, g) && i < |g.registered|
    requires Distinct(EntryIds(g.registered))
    ensures var node := NodesOf(g.registered, g)[i];
            Passes(node, registry, mountAt) && Distinct(node.deps) <==> CleanAt(g, i, registry, mountAt)
  {
    var e := g.registered[i];
    assert e.core == Cores(g.registered)[i];
    DepIdsDistinct(g.registered, g.deps[e.core]);
    NodeProblemIff(e, g.live[e.core], DepIds(g.registered, g.deps[e.core]), registry, mountAt);
    NodeProblemMeans(NodesOf(g.registered, g)[i], registry, mountAt);
  }

  lemma AllAcceptedIff(g: LiveGraph, registry: set<string>, mountAt: Option<string>)
    requires NodesSavable(g) && Listing(g.registered, g) && Recorded(g.registered, g)
    requires Distinct(EntryIds(g.registered))
    ensures var nodes := NodesOf(g.registered, g);
            AllPass(nodes, registry, mountAt) && NoRepeatedDep(nodes)
            <==> forall i :: 0 <= i < |g.registered| ==> CleanAt(g, i, registry, mountAt)
  {
    var nodes := NodesOf(g.registered, g);
    forall i | 0 <= i < |nodes|
      ensures Passes(nodes[i], registry, mountAt) && Distinct(nodes[i].deps) <==> CleanAt(g, i, registry, mountAt)
    {
      OneAcceptedIff(g, i, registry, mountAt);
    }
  }

  lemma RegisteredAcceptedIff(g: LiveGraph, registry: set<string>, mountAt: Option<string>)
    requires Proper(g) && NodesSavable(g) && Listing(g.registered, g) && Recorded(g.registered, g)
    ensures NodesAccepted(NodesOf(g.registered, g), registry, mountAt) <==> NodesClean(g, registry, mountAt)
  {
    var nodes := NodesOf(g.registered, g);
    OnlyRegistered(g.registered, g);
    assert Ids(nodes) == EntryIds(g.registered);
    RecordedDepsClosed(g.registered, g);
    if Distinct(Ids(nodes)) {
      OwnEdgesAcceptedIff(nodes);
      AllAcceptedIff(g, registry, mountAt);
    }
  }

  lemma UnregisteredIsRefused(entries: seq<Entry>, g: LiveGraph, registry: set<string>, mountAt: Option<string>)
    requires Recorded(entries, g) && |entries| > |g.registered| && entries[|g.registered|].unregistered
    ensures !AllPass(NodesOf(entries, g), registry, mountAt)
  {
    var node := NodesOf(entries, g)[|g.registered|];
    assert node.factory == LocalOnly;
    assert !Passes(node, registry, mountAt);
  }

  lemma NodesAcceptedIff(nodes: seq<Node>, g: LiveGraph, registry: set<string>, mountAt: Option<string>)
    requires Proper(g) && NodesSavable(g) && NodesRecord(nodes, g)
    ensures NodesAccepted(nodes, registry, mountAt) <==> NodesClean(g, registry, mountAt)
    ensures NodesClean(g, registry, mountAt) ==> Recorded(g.registered, g) && nodes == NodesOf(g.registered, g)
  {
    var entries :| Listing(entries, g) && Recorded(entries, g) && nodes == NodesOf(entries, g);
    OnlyRegistered(entries, g);
    if entries == g.registered {
      RegisteredAcceptedIff(g, registry, mountAt);
    } else {
      UnregisteredIsRefused(entries, g, registry, mountAt);
    }
  }

  /** A checkpoint passes the validation of its own restore exactly when its graph is clean. */
  lemma {:induction false} OwnCheckpointAcceptedIff(c: Checkpoint, g: LiveGraph, registry: set<string>, mountAt: Option<string>)
    requires Proper(g) && Savable(g) && Records(c, g)
    ensures Acceptable(c, registry, mountAt) <==> Clean(g, registry, mountAt)
  {
    NodesAcceptedIff(c.nodes, g, registry, mountAt);
    assert LivePaths(g.mounts) == MountPaths(c.mounts);
    forall i | 0 <= i < |c.mounts|
      ensures Acceptable(c.mounts[i].checkpoint, registry, Some(c.mounts[i].at))
              <==> Clean(g.mounts[i].graph, registry, Some(g.mounts[i].at))
    {
      OwnCheckpointAcceptedIff(c.mounts[i].checkpoint, g.mounts[i].graph, registry, Some(c.mounts[i].at));
    }
  }

  // ---- what comes back ----

  /** The deps of the registered nodes. */
  ghost function OwnDeps(g: LiveGraph): Graph<nat> {
    map c | c in Cores(g.registered) && c in g.deps :: Elements(g.deps[c])
  }

  /** A terminal status is recorded only of a node that is terminal. */
  predicate TerminalRecorded(n: LiveNode) {
    n.status in {Completed, Errored} ==> n.terminated
  }

  lemma TerminalAgreesIff(e: Entry, n: LiveNode, deps: seq<string>)
    requires Recordable(n)
    ensures TerminalAgrees(NodeOf(e, n, deps)) <==> TerminalRecorded(n)
  {
  }

  /** A node's version fits the policy it would be restored under, and the data that is recorded with it. */
  ghost predicate VersionFits(policy: Policy, n: LiveNode) {
    match policy
    case Disabled => n.version.None?
    case Level0 => n.version.Some? && n.version.value.V0?
    case Level1(hash) =>
      n.version.Some? && n.version.value.V1?
      && NamesHeld(hash, n.version.value.counter, n.version.value.cid, Recording(n, n.cache))
  }

  lemma FitsIff(policy: Policy, n: LiveNode)
    ensures VersionFits(policy, n) <==>
            if n.version.None? then policy.Disabled? else Mismatch(policy, n.version.value, Recording(n, n.cache)).None?
  {
    if n.version.Some? && n.version.value.V1? && policy.Level1? {
      NamedIff(policy.hash, n.version.value, Recording(n, n.cache));
    }
  }

  lemma VersionAgreesIff(policies: Policies, e: Entry, n: LiveNode, deps: seq<string>)
    requires n.version.Some? ==> Sound(n.version.value)
    ensures VersionAgrees(policies, NodeOf(e, n, deps)) <==> VersionFits(policies(NodeOf(e, n, deps)), n)
  {
    var node := NodeOf(e, n, deps);
    FitsIff(policies(node), n);
    VerifiesIff(policies(node), node.version, node.value);
    if n.version.Some? { SoundProblem(policies(node), n.version.value, Recording(n, n.cache)); }
  }

  /** It fits under the policy that made it, while the node holds what it was made from. */
  lemma OwnVersionFits(policy: Policy, initial: Option<Json.Value>, data: seq<Json.Value>, n: LiveNode)
    requires AfterData(policy, initial, data).Ok? && n.version == AfterData(policy, initial, data).value
    requires Recording(n, n.cache) == Latest(initial, data)
    ensures VersionFits(policy, n) && (n.version.Some? ==> Sound(n.version.value))
  {
    VersionCounts(policy, initial, data);
    OwnVersionVerifies(policy, initial, data);
    FitsIff(policy, n);
    if n.version.Some? { SoundProblem(policy, n.version.value, Recording(n, n.cache)); }
  }

  ghost predicate RebuildableAt(g: LiveGraph, define: Descriptors, policies: Policies, i: nat)
    requires Recorded(g.registered, g) && i < |g.registered|
  {
    var e, node := g.registered[i], RecordOf(g.registered, g, i);
    && e.core in g.live && Defines(define, node) && TerminalRecorded(g.live[e.core])
    && VersionFits(policies(node), g.live[e.core])
  }

  ghost predicate NodesRebuildable(g: LiveGraph, define: Descriptors, policies: Policies) {
    && !Cyclic(OwnDeps(g)) && Recorded(g.registered, g)
    && forall i :: 0 <= i < |g.registered| ==> RebuildableAt(g, define, policies, i)
  }

  /** No cycle, and the descriptors define every node as it was, down through the mounts. */
  ghost predicate Rebuildable(g: LiveGraph, define: Descriptors, policies: Policies) {
    NodesRebuildable(g, define, policies) && forall i :: 0 <= i < |g.mounts| ==> Rebuildable(g.mounts[i].graph, define, policies)
  }

  lemma DepIdsIff(entries: seq<Entry>, ds: seq<nat>, j: nat)
    requires Distinct(EntryIds(entries)) && Distinct(Cores(entries)) && j < |entries|
    requires forall d :: d in ds ==> d in Cores(entries)
    ensures entries[j].id in DepIds(entries, ds) <==> entries[j].core in ds
  {
    PlaceIsOwn(entries, j);
    if entries[j].core in ds {
      var k :| 0 <= k < |ds| && ds[k] == entries[j].core;
      assert DepIds(entries, ds)[k] == entries[j].id;
    }
    if entries[j].id in DepIds(entries, ds) {
      var k :| 0 <= k < |ds| && DepIds(entries, ds)[k] == entries[j].id;
      IdsTellCores(entries, ds[k], entries[j].core);
    }
  }

  lemma EdgeOfIds(g: LiveGraph, i: nat, j: nat)
    requires Recorded(g.registered, g) && Distinct(EntryIds(g.registered)) && Distinct(Cores(g.registered))
    requires i < |g.registered| && j < |g.registered|
    ensures Edge(DepGraph(NodeMap(NodesOf(g.registered, g))), g.registered[i].id, g.registered[j].id)
            <==> Edge(OwnDeps(g), g.registered[i].core, g.registered[j].core)
  {
    var entries, nodes := g.registered, NodesOf(g.registered, g);
    assert Ids(nodes) == EntryIds(entries);
    NodeMapAt(nodes, i);
    assert entries[i].core == Cores(entries)[i];
    DepIdsIff(entries, g.deps[entries[i].core], j);
  }

  ghost function PlaceOfId(entries: seq<Entry>, id: string): (k: nat)
    requires id in EntryIds(entries)
    ensures k < |entries| && entries[k].id == id
  {
    var k: nat :| k < |entries| && EntryIds(entries)[k] == id;
    k
  }

  /** The nodes that `g`'s checkpoint records when nothing unregistered is reached. */
  ghost predicate Own(g: LiveGraph) {
    Recorded(g.registered, g) && Distinct(EntryIds(g.registered)) && Distinct(Cores(g.registered))
  }

  lemma IdsOnPath(g: LiveGraph, p: seq<string>, i: nat)
    requires Own(g) && IsPath(DepGraph(NodeMap(NodesOf(g.registered, g))), p) && |p| >= 2 && i < |p|
    ensures p[i] in EntryIds(g.registered)
  {
    var nodes := NodesOf(g.registered, g);
    assert Ids(nodes) == EntryIds(g.registered);
    NodeMapKeys(nodes);
    RecordedDepsClosed(g.registered, g);
    if i < |p| - 1 {
      assert Edge(DepGraph(NodeMap(nodes)), p[i], p[i + 1]);
    } else {
      assert Edge(DepGraph(NodeMap(nodes)), p[i - 1], p[i]);
    }
  }

  lemma CoresOnPath(g: LiveGraph, p: seq<nat>, i: nat)
    requires Own(g) && IsPath(OwnDeps(g), p) && |p| >= 2 && i < |p|
    ensures p[i] in Cores(g.registered)
  {
    if i < |p| - 1 {
      assert Edge(OwnDeps(g), p[i], p[i + 1]);
    } else {
      assert Edge(OwnDeps(g), p[i - 1], p[i]);
    }
  }

  lemma CycleOfIds(g: LiveGraph, p: seq<string>)
    requires Own(g) && IsCycle(DepGraph(NodeMap(NodesOf(g.registered, g))), p)
    ensures Cyclic(OwnDeps(g))
  {
    var entries := g.registered;
    forall i | 0 <= i < |p| ensures p[i] in EntryIds(entries) { IdsOnPath(g, p, i); }
    var q: seq<nat> := seq(|p|, i requires 0 <= i < |p| && p[i] in EntryIds(entries) => entries[PlaceOfId(entries, p[i])].core);
    forall i | 0 <= i < |q| - 1 ensures Edge(OwnDeps(g), q[i], q[i + 1]) {
      assert Edge(DepGraph(NodeMap(NodesOf(entries, g))), p[i], p[i + 1]);
      EdgeOfIds(g, PlaceOfId(entries, p[i]), PlaceOfId(entries, p[i + 1]));
    }
    assert q[0] == q[|q| - 1] && IsCycle<nat>(OwnDeps(g), q);
  }

  lemma CycleOfCores(g: LiveGraph, p: seq<nat>)
    requires Own(g) && IsCycle(OwnDeps(g), p)
    ensures Cyclic(DepGraph(NodeMap(NodesOf(g.registered, g))))
  {
    var entries, dg := g.registered, DepGraph(NodeMap(NodesOf(g.registered, g)));
    forall i | 0 <= i < |p| ensures p[i] in Cores(entries) { CoresOnPath(g, p, i); }
    var q := seq(|p|, i requires 0 <= i < |p| && p[i] in Cores(entries) => IdOf(entries, p[i]));
    forall i | 0 <= i < |q| - 1 ensures Edge(dg, q[i], q[i + 1]) {
      assert Edge(OwnDeps(g), p[i], p[i + 1]);
      EdgeOfIds(g, PlaceOf(entries, p[i]), PlaceOf(entries, p[i + 1]));
    }
    assert IsCycle(dg, q);
  }

  lemma CyclicIff(g: LiveGraph)
    requires Own(g)
    ensures Cyclic(DepGraph(NodeMap(NodesOf(g.registered, g)))) <==> Cyclic(OwnDeps(g))
  {
    if Cyclic(OwnDeps(g)) {
      var p: seq<nat> :| IsCycle<nat>(OwnDeps(g), p);
      CycleOfCores(g, p);
    }
    if Cyclic(DepGraph(NodeMap(NodesOf(g.registered, g)))) {
      var p: seq<string> :| IsCycle<string>(DepGraph(NodeMap(NodesOf(g.registered, g))), p);
      CycleOfIds(g, p);
    }
  }

  ghost predicate NodesRestorable(m: map<string, Node>, define: Descriptors, policies: Policies) {
    !Cyclic(DepGraph(m)) && AllDefined(define, m) && forall k :: k in m ==> TerminalAgrees(m[k]) && VersionAgrees(policies, m[k])
  }

  ghost predicate Restores(define: Descriptors, policies: Policies, n: Node) {
    Defines(define, n) && TerminalAgrees(n) && VersionAgrees(policies, n)
  }

  ghost predicate MapRestores(define: Descriptors, policies: Policies, m: map<string, Node>) {
    forall k :: k in m ==> Restores(define, policies, m[k])
  }

  ghost predicate AllRestore(define: Descriptors, policies: Policies, nodes: seq<Node>) {
    forall i :: 0 <= i < |nodes| ==> Restores(define, policies, nodes[i])
  }

  lemma MapMember(nodes: seq<Node>, k: string) returns (i: nat)
    requires k in NodeMap(nodes)
    ensures i < |nodes| && nodes[i] == NodeMap(nodes)[k]
  {
    NodeMapKeys(nodes);
    i :| 0 <= i < |nodes| && nodes[i] == NodeMap(nodes)[k];
  }

  lemma MapRestoresIff(nodes: seq<Node>, define: Descriptors, policies: Policies)
    requires Distinct(Ids(nodes))
    ensures MapRestores(define, policies, NodeMap(nodes)) <==> AllRestore(define, policies, nodes)
  {
    if MapRestores(define, policies, NodeMap(nodes)) {
      forall i | 0 <= i < |nodes| ensures Restores(define, policies, nodes[i]) { NodeMapAt(nodes, i); }
    }
    if AllRestore(define, policies, nodes) {
      forall k | k in NodeMap(nodes) ensures Restores(define, policies, NodeMap(nodes)[k]) {
        var i := MapMember(nodes, k);
      }
    }
  }

  lemma NodesRestorableParts(m: map<string, Node>, define: Descriptors, policies: Policies)
    ensures NodesRestorable(m, define, policies) <==> !Cyclic(DepGraph(m)) && MapRestores(define, policies, m)
  {
  }

  ghost predicate VersionsSound(g: LiveGraph)
    requires Recorded(g.registered, g)
  {
    forall i {:trigger Cores(g.registered)[i]} :: 0 <= i < |g.registered| ==>
      var n := LiveAt(g, i); n.version.Some? ==> Sound(n.version.value)
  }

  ghost function LiveAt(g: LiveGraph, i: nat): LiveNode
    requires Recorded(g.registered, g) && i < |g.registered|
  {
    assert Cores(g.registered)[i] in Cores(g.registered);
    g.live[Cores(g.registered)[i]]
  }

  lemma RestoresIff(g: LiveGraph, define: Descriptors, policies: Policies, i: nat)
    requires Own(g) && NodesSavable(g) && VersionsSound(g) && i < |g.registered|
    requires ReachedFrom(CoreGraph(g.deps), Cores(g.registered), g.registered[i].core)
    ensures Restores(define, policies, NodesOf(g.registered, g)[i]) <==> RebuildableAt(g, define, policies, i)
  {
    var e := g.registered[i];
    assert e.core == Cores(g.registered)[i] && LiveAt(g, i) == g.live[e.core];
    TerminalAgreesIff(e, g.live[e.core], DepIds(g.registered, g.deps[e.core]));
    VersionAgreesIff(policies, e, g.live[e.core], DepIds(g.registered, g.deps[e.core]));
  }

  lemma AllRestoreIff(g: LiveGraph, define: Descriptors, policies: Policies)
    requires Own(g) && NodesSavable(g) && VersionsSound(g)
    requires forall c :: c in Cores(g.registered) ==> ReachedFrom(CoreGraph(g.deps), Cores(g.registered), c)
    ensures AllRestore(define, policies, NodesOf(g.registered, g))
            <==> forall i :: 0 <= i < |g.registered| ==> RebuildableAt(g, define, policies, i)
  {
    forall i | 0 <= i < |g.registered|
      ensures Restores(define, policies, NodesOf(g.registered, g)[i]) <==> RebuildableAt(g, define, policies, i)
    {
      assert g.registered[i].core == Cores(g.registered)[i];
      RestoresIff(g, define, policies, i);
    }
  }

  lemma NodesRestorableIff(g: LiveGraph, define: Descriptors, policies: Policies)
    requires Own(g) && NodesSavable(g) && VersionsSound(g)
    requires forall c :: c in Cores(g.registered) ==> ReachedFrom(CoreGraph(g.deps), Cores(g.registered), c)
    ensures NodesRestorable(NodeMap(NodesOf(g.registered, g)), define, policies) <==> NodesRebuildable(g, define, policies)
  {
    var nodes := NodesOf(g.registered, g);
    CyclicIff(g);
    assert Ids(nodes) == EntryIds(g.registered);
    NodesRestorableParts(NodeMap(nodes), define, policies);
    MapRestoresIff(nodes, define, policies);
    AllRestoreIff(g, define, policies);
  }

  lemma RestorableParts(c: Checkpoint, define: Descriptors, policies: Policies)
    ensures Restorable(PreparedOf(c), define, policies) <==>
            NodesRestorable(NodeMap(c.nodes), define, policies)
            && forall i :: 0 <= i < |c.mounts| ==> Restorable(PreparedOf(c.mounts[i].checkpoint), define, policies)
  {
    var p := PreparedOf(c);
    assert forall i :: 0 <= i < |c.mounts| ==> p.mounts[i].1 == PreparedOf(c.mounts[i].checkpoint);
  }

  lemma CleanIsOwn(c: Checkpoint, g: LiveGraph, registry: set<string>, mountAt: Option<string>)
    requires Proper(g) && Savable(g) && Records(c, g) && Clean(g, registry, mountAt)
    ensures Own(g) && NodesSavable(g) && VersionsSound(g) && c.nodes == NodesOf(g.registered, g)
    ensures forall c :: c in Cores(g.registered) ==> ReachedFrom(CoreGraph(g.deps), Cores(g.registered), c)
  {
    NodesAcceptedIff(c.nodes, g, registry, mountAt);
    RegisteredAreFound(g.registered, g.deps, g.synthetic);
    forall i | 0 <= i < |g.registered|
      ensures LiveAt(g, i).version.Some? ==> Sound(LiveAt(g, i).version.value)
    {
      assert CleanAt(g, i, registry, mountAt) && g.registered[i].core == Cores(g.registered)[i];
    }
  }

  /** What is accepted is rebuilt exactly when the graph's own deps and descriptors allow it. */
  lemma {:induction false} OwnCheckpointRestorableIff(c: Checkpoint, g: LiveGraph, registry: set<string>,
                                                      mountAt: Option<string>, define: Descriptors, policies: Policies)
    requires Proper(g) && Savable(g) && Records(c, g) && Clean(g, registry, mountAt)
    ensures Restorable(PreparedOf(c), define, policies) <==> Rebuildable(g, define, policies)
  {
    CleanIsOwn(c, g, registry, mountAt);
    NodesRestorableIff(g, define, policies);
    RestorableParts(c, define, policies);
    forall i | 0 <= i < |c.mounts|
      ensures Restorable(PreparedOf(c.mounts[i].checkpoint), define, policies) <==> Rebuildable(g.mounts[i].graph, define, policies)
    {
      OwnCheckpointRestorableIff(c.mounts[i].checkpoint, g.mounts[i].graph, registry, Some(g.mounts[i].at), define, policies);
    }
  }

  // ---- the restored graph ----

  /** Record `j` stands for registered entry `i`: its id, and its deps in order. */
  ghost predicate StandsFor(log: seq<Record>, j: nat, g: LiveGraph, i: nat)
    requires Recorded(g.registered, g) && j < |log| && i < |g.registered|
  {
    var e := g.registered[i];
    && e.core in g.deps && log[j].id == e.id && |log[j].deps| == |g.deps[e.core]|
    && forall k :: 0 <= k < |log[j].deps| ==>
         && log[j].deps[k] < |log| && g.deps[e.core][k] in Cores(g.registered)
         && log[log[j].deps[k]].id == IdOf(g.registered, g.deps[e.core][k])
  }

  /** What a node holds, as far as it is recorded. */
  function HeldBy(n: LiveNode): Runtime {
    Runtime(Recording(n, n.cache), n.status, n.terminated && n.status == Completed, n.version)
  }

  /** The restored graph has a node for each registered one, once, with the same deps and holding the same. */
  ghost predicate Mirrors(r: Restored, g: LiveGraph) {
    && NodesMirror(r.log, g) && RuntimesMirror(r.runtimes, g)
    && |r.mounts| == |g.mounts|
    && forall i :: 0 <= i < |r.mounts| ==> r.mounts[i].0 == g.mounts[i].at && Mirrors(r.mounts[i].1, g.mounts[i].graph)
  }

  ghost predicate NodesMirror(log: seq<Record>, g: LiveGraph) {
    && Recorded(g.registered, g) && |log| == |g.registered|
    && (forall j, k :: 0 <= j < k < |log| ==> log[j].id != log[k].id)
    && forall i :: 0 <= i < |g.registered| ==> HasRecord(log, g, i)
  }

  ghost predicate RuntimesMirror(runtimes: map<string, Runtime>, g: LiveGraph)
    requires Recorded(g.registered, g)
  {
    forall i :: 0 <= i < |g.registered| ==> HoldsAt(runtimes, g, i)
  }

  ghost predicate HoldsAt(runtimes: map<string, Runtime>, g: LiveGraph, i: nat)
    requires Recorded(g.registered, g) && i < |g.registered|
  {
    g.registered[i].id in runtimes && runtimes[g.registered[i].id] == HeldBy(LiveAt(g, i))
  }

  lemma HeldAgain(e: Entry, n: LiveNode, deps: seq<string>)
    requires n.version.Some? ==> Sound(n.version.value)
    requires TerminalAgrees(NodeOf(e, n, deps))
    ensures RuntimeOf(NodeOf(e, n, deps)) == HeldBy(n)
  {
    if n.version.Some? { VersionReads(n.version.value); }
  }

  lemma HoldsMirrors(runtimes: map<string, Runtime>, g: LiveGraph)
    requires Own(g) && VersionsSound(g) && Holds(runtimes, NodeMap(NodesOf(g.registered, g)))
    ensures RuntimesMirror(runtimes, g)
  {
    var nodes := NodesOf(g.registered, g);
    assert Ids(nodes) == EntryIds(g.registered);
    forall i | 0 <= i < |g.registered| ensures HoldsAt(runtimes, g, i) {
      var e := g.registered[i];
      NodeMapAt(nodes, i);
      assert e.core == Cores(g.registered)[i] && LiveAt(g, i) == g.live[e.core];
      HeldAgain(e, g.live[e.core], DepIds(g.registered, g.deps[e.core]));
    }
  }

  ghost predicate HasRecord(log: seq<Record>, g: LiveGraph, i: nat)
    requires Recorded(g.registered, g) && i < |g.registered|
  {
    exists j :: 0 <= j < |log| && StandsFor(log, j, g, i)
  }

  lemma BuiltStandsFor(log: seq<Record>, j: nat, g: LiveGraph, i: nat)
    requires Own(g) && WellBuilt(log, NodeMap(NodesOf(g.registered, g))) && j < |log| && i < |g.registered|
    requires log[j].id == g.registered[i].id
    ensures StandsFor(log, j, g, i)
  {
    var nodes, e := NodesOf(g.registered, g), g.registered[i];
    assert Ids(nodes) == EntryIds(g.registered);
    NodeMapAt(nodes, i);
    assert e.core == Cores(g.registered)[i];
    assert BuiltFrom(log, j, nodes[i].deps);
    assert nodes[i].deps == DepIds(g.registered, g.deps[e.core]);
  }

  function LogIds(log: seq<Record>): (ids: seq<string>)
    ensures |ids| == |log| && forall i :: 0 <= i < |ids| ==> ids[i] == log[i].id
  {
    seq(|log|, i requires 0 <= i < |log| => log[i].id)
  }

  lemma {:induction false} SameSize<T>(a: seq<T>, b: seq<T>)
    requires Distinct(a) && Distinct(b) && forall x :: x in a <==> x in b
    ensures |a| == |b|
  {
    DistinctFits(a, Elements(b));
    DistinctFits(b, Elements(a));
    ElementsFit(a);
    ElementsFit(b);
  }

  ghost predicate LogsAll(log: seq<Record>, nodes: seq<Node>) {
    && WellBuilt(log, NodeMap(nodes))
    && forall k :: k in NodeMap(nodes) ==> exists i :: 0 <= i < |log| && log[i].id == k
  }

  lemma LoggedIffRecorded(log: seq<Record>, nodes: seq<Node>, x: string)
    requires LogsAll(log, nodes)
    ensures x in LogIds(log) <==> x in Ids(nodes)
  {
    NodeMapKeys(nodes);
    if x in Ids(nodes) {
      var j :| 0 <= j < |log| && log[j].id == x;
      assert LogIds(log)[j] == x;
    }
    if x in LogIds(log) {
      var j :| 0 <= j < |log| && LogIds(log)[j] == x;
      assert log[j].id in NodeMap(nodes);
    }
  }

  lemma AllHaveRecords(log: seq<Record>, g: LiveGraph, i: nat)
    requires Own(g) && LogsAll(log, NodesOf(g.registered, g)) && i < |g.registered|
    ensures HasRecord(log, g, i)
  {
    var nodes := NodesOf(g.registered, g);
    assert Ids(nodes)[i] == g.registered[i].id;
    LoggedIffRecorded(log, nodes, g.registered[i].id);
    var j :| 0 <= j < |log| && LogIds(log)[j] == g.registered[i].id;
    BuiltStandsFor(log, j, g, i);
  }

  lemma BuiltMirrors(log: seq<Record>, g: LiveGraph)
    requires Own(g) && LogsAll(log, NodesOf(g.registered, g))
    ensures NodesMirror(log, g)
  {
    var nodes := NodesOf(g.registered, g);
    assert Ids(nodes) == EntryIds(g.registered);
    forall i | 0 <= i < |g.registered| ensures HasRecord(log, g, i) { AllHaveRecords(log, g, i); }
    forall x ensures x in LogIds(log) <==> x in Ids(nodes) { LoggedIffRecorded(log, nodes, x); }
    SameSize(LogIds(log), Ids(nodes));
  }

  lemma {:induction false} RebuiltMirrors(r: Restored, c: Checkpoint, g: LiveGraph, registry: set<string>, mountAt: Option<string>)
    requires Proper(g) && Savable(g) && Records(c, g) && Clean(g, registry, mountAt) && Rebuilds(r, PreparedOf(c))
    ensures Mirrors(r, g)
    decreases g
  {
    CleanIsOwn(c, g, registry, mountAt);
    BuiltMirrors(r.log, g);
    HoldsMirrors(r.runtimes, g);
    forall i | 0 <= i < |r.mounts| ensures r.mounts[i].0 == g.mounts[i].at && Mirrors(r.mounts[i].1, g.mounts[i].graph) {
      RebuiltMirrors(r.mounts[i].1, c.mounts[i].checkpoint, g.mounts[i].graph, registry, Some(g.mounts[i].at));
    }
  }

  /**
   * A checkpoint taken and restored: it works exactly when the writer gets through, every node it reaches is
   * registered and clean, the deps are acyclic and defined, and the versions fit; what comes back has the same
   * nodes with the same deps, holding the same values, statuses and versions.
   */
  method SaveThenRestore(g: LiveGraph, registry: set<string>, define: Descriptors, policies: Policies)
    returns (r: Result<Restored, RestoreError>)
    requires Proper(g)
    ensures r.Ok? <==> Savable(g) && Clean(g, registry, None) && Rebuildable(g, define, policies)
    ensures r.Ok? ==> Mirrors(r.value, g)
  {
    var saved := CheckpointGraph(g);
    if saved.Err? { return Err(saved.error); }
    var c := saved.value;
    OwnCheckpointAcceptedIff(c, g, registry, None);
    if Clean(g, registry, None) { OwnCheckpointRestorableIff(c, g, registry, None, define, policies); }
    RestorableIff(PreparedOf(c), define, policies);
    r := RestoreGraph(c, registry, define, policies);
    if r.Ok? { RebuiltMirrors(r.value, c, g, registry, None); }
  }

  // ---- an integer out of range ----

  /** A graph of one state node that holds `n`. */
  function IntegerGraph(n: int): LiveGraph {
    var node := LiveNode(None, "state", Settled, false, false, Some(Integer(n)), None, NoBackend, Some(V0(0)));
    LiveGraph([Entry("n", 0, false)], map[0 := []], map[0 := node], _ => "", [])
  }

  lemma IntegerGraphStands(n: int)
    ensures Proper(IntegerGraph(n)) && Savable(IntegerGraph(n))
    ensures forall p: seq<nat> :: IsPath(CoreGraph(IntegerGraph(n).deps), p) && p[0] in Cores(IntegerGraph(n).registered) ==> p == [0]
  {
    var g := IntegerGraph(n);
    assert Cores(g.registered) == [0];
    forall p: seq<nat> | IsPath(CoreGraph(g.deps), p) && p[0] in Cores(g.registered) ensures p == [0] {
      assert |p| > 1 ==> !Edge(CoreGraph(g.deps), p[0], p[1]);
    }
  }

  /** It is always written, and the checkpoint is accepted exactly when the integer is in range. */
  lemma IntegerAcceptedIff(n: int, registry: set<string>, c: Checkpoint)
    requires "state" in registry && Records(c, IntegerGraph(n))
    ensures Savable(IntegerGraph(n))
    ensures Acceptable(c, registry, None) <==> -Json.MAX_SAFE_INTEGER <= n <= Json.MAX_SAFE_INTEGER
  {
    var g := IntegerGraph(n);
    IntegerGraphStands(n);
    OwnCheckpointAcceptedIff(c, g, registry, None);
    IntegerCleanIff(n, registry);
  }

  lemma IntegerCleanIff(n: int, registry: set<string>)
    requires "state" in registry
    ensures Clean(IntegerGraph(n), registry, None) <==> -Json.MAX_SAFE_INTEGER <= n <= Json.MAX_SAFE_INTEGER
  {
    var g := IntegerGraph(n);
    assert DepsRegistered(g) && EntryIds(g.registered) == ["n"];
    assert CleanAt(g, 0, registry, None) <==> SafeInteger(Some(Integer(n)));
  }

  /** The first integer past the range: written without complaint, and refused by its own restore. */
  method RefusedInteger(registry: set<string>, define: Descriptors, policies: Policies)
    returns (saved: Result<Checkpoint, RestoreError>, restored: Result<Restored, RestoreError>)
    requires "state" in registry
    ensures saved.Ok? && restored.Err?
  {
    var n := Json.MAX_SAFE_INTEGER + 2;
    IntegerGraphStands(n);
    saved := CheckpointGraph(IntegerGraph(n));
    IntegerAcceptedIff(n, registry, saved.value);
    restored := RestoreGraph(saved.value, registry, define, policies);
  }
}
