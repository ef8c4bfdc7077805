/** Graph diagnostics over a topology snapshot (diagnostics.rs): shortest paths, cycles and reachability. */
module Diagnostics {
  import opened Prelude
  import opened Digraph
  import opened Bfs

  // ---- shortest path ----

  function Reverse<T>(s: seq<T>): (r: seq<T>)
    ensures |r| == |s| && forall i :: 0 <= i < |s| ==> r[i] == s[|s| - 1 - i]
  {
    seq(|s|, i requires 0 <= i < |s| => s[|s| - 1 - i])
  }

  /** Every found node but the start knows the node it was found from, one step nearer. */
  ghost predicate PredecessorsStep(g: Ids, from: string, dist: map<string, nat>, pred: map<string, string>) {
    forall v :: v in dist && v != from ==>
      v in pred && pred[v] in dist && dist[pred[v]] + 1 == dist[v] && Edge(g, pred[v], v)
  }

  lemma PredecessorsGrow(g: Ids, from: string, dist: map<string, nat>, pred: map<string, string>, id: string, w: string)
    requires PredecessorsStep(g, from, dist, pred) && id in dist && w !in dist && Edge(g, id, w)
    ensures PredecessorsStep(g, from, dist[w := dist[id] + 1], pred[w := id])
  {
  }

  /** Follows predecessors back from `to` and turns the list around. */
  method TracePath(g: Ids, from: string, to: string, ghost dist: map<string, nat>, pred: map<string, string>)
    returns (path: seq<string>)
    requires PredecessorsStep(g, from, dist, pred) && to in dist && from in dist && dist[from] == 0
    ensures Walk(g, path, from, to, dist[to])
  {
    path := [to];
    var p := to;
    while p != from
      invariant p in dist && path != [] && path[|path| - 1] == p && path[0] == to
      invariant |path| + dist[p] == dist[to] + 1
      invariant forall i :: 0 <= i < |path| - 1 ==> Edge(g, path[i + 1], path[i])
      decreases dist[p]
    {
      p := pred[p];
      path := path + [p];
    }
    ghost var back := path;
    path := Reverse(path);
    forall i | 0 <= i < |path| - 1 ensures Edge(g, path[i], path[i + 1]) {
      assert Edge(g, back[|path| - 2 - i + 1], back[|path| - 2 - i]);
    }
  }

  /** What the search holds between two entries of the queue. */
  ghost predicate PathSearch(g: Ids, from: string, to: string, max: Option<nat>, seen: set<string>,
                             pred: map<string, string>, dist: map<string, nat>, q: Queue, cut: set<string>, lo: nat) {
    && Searching(g, from, max, dist, q, cut, lo)
    && PredecessorsStep(g, from, dist, pred)
    && seen == dist.Keys && to !in seen
  }

  ghost predicate NodeSearch(g: Ids, from: string, to: string, max: Option<nat>, pred: map<string, string>,
                             dist: map<string, nat>, q: Queue, cut: set<string>, depth: nat, id: string,
                             left: set<string>) {
    && Expanding(g, from, max, dist, q, cut, depth, id, left)
    && PredecessorsStep(g, from, dist, pred)
    && to !in dist
  }

  /** The target's depth and predecessors once it is found. */
  ghost predicate TargetFound(g: Ids, from: string, to: string, max: Option<nat>, pred: map<string, string>,
                              dist: map<string, nat>, depth: nat) {
    && PredecessorsStep(g, from, dist, pred) && from in dist && dist[from] == 0
    && to in dist && dist[to] == depth + 1 && WithinDepth(depth + 1, max)
    && NoneShorter(g, from, to, depth + 1)
  }

  lemma {:induction false} VisitTarget(g: Ids, from: string, to: string, max: Option<nat>, pred: map<string, string>,
                                       dist: map<string, nat>, q: Queue, cut: set<string>, depth: nat, id: string,
                                       left: set<string>)
    requires NodeSearch(g, from, to, max, pred, dist, q, cut, depth, id, left) && to in left && from != to
    ensures TargetFound(g, from, to, max, pred[to := id], dist[to := depth + 1], depth)
  {
    PredecessorsGrow(g, from, dist, pred, id, to);
    NextIsNearest(g, from, to, max, dist, q, cut, depth, id, left);
  }

  lemma VisitOther(g: Ids, from: string, to: string, max: Option<nat>, pred: map<string, string>,
                   dist: map<string, nat>, q: Queue, cut: set<string>, depth: nat, id: string, left: set<string>,
                   w: string)
    requires NodeSearch(g, from, to, max, pred, dist, q, cut, depth, id, left) && Closed(g) && w in left
    ensures w in dist ==> NodeSearch(g, from, to, max, pred, dist, q, cut, depth, id, left - {w})
    ensures w !in dist && w != to ==>
              NodeSearch(g, from, to, max, pred[w := id], dist[w := depth + 1], q + [(w, depth + 1)], cut, depth, id, left - {w})
  {
    if w in dist {
      VisitSeen(g, from, max, dist, q, cut, depth, id, left, w);
    } else {
      PredecessorsGrow(g, from, dist, pred, id, w);
      VisitNew(g, from, max, dist, q, cut, depth, id, left, w);
    }
  }

  /** Visits the successors of `id`; stops at the target, which is then at depth `depth + 1` and no nearer. */
  method ExpandNode(g: Ids, from: string, to: string, ghost max: Option<nat>, seen0: set<string>,
                    pred0: map<string, string>, queue0: Queue, id: string, depth: nat, ghost dist0: map<string, nat>,
                    ghost cut: set<string>)
    returns (seen: set<string>, pred: map<string, string>, queue: Queue, found: bool, ghost dist: map<string, nat>)
    requires Closed(g) && id in g && from != to && seen0 == dist0.Keys
    requires NodeSearch(g, from, to, max, pred0, dist0, queue0, cut, depth, id, g[id])
    ensures !found ==> NodeSearch(g, from, to, max, pred, dist, queue, cut, depth, id, {}) && seen == dist.Keys
    ensures !found ==> seen0 < seen || (seen0 == seen && queue == queue0)
    ensures found ==> TargetFound(g, from, to, max, pred, dist, depth)
  {
    seen, pred, queue, found, dist := seen0, pred0, queue0, false, dist0;
    var left := g[id];
    while left != {}
      invariant NodeSearch(g, from, to, max, pred, dist, queue, cut, depth, id, left) && seen == dist.Keys
      invariant seen0 < seen || (seen0 == seen && queue == queue0)
      decreases left
    {
      var w :| w in left;
      VisitOther(g, from, to, max, pred, dist, queue, cut, depth, id, left, w);
      if w !in seen {
        if w == to {
          VisitTarget(g, from, to, max, pred, dist, queue, cut, depth, id, left);
          return seen + {w}, pred[w := id], queue, true, dist[w := depth + 1];
        }
        seen := seen + {w};
        pred := pred[w := id];
        dist := dist[w := depth + 1];
        queue := queue + [(w, depth + 1)];
      }
      left := left - {w};
    }
  }

  /** The frontier lies at `depth` or deeper, so an unfound target is farther than `depth`. */
  lemma NextIsNearest(g: Ids, from: string, to: string, max: Option<nat>, dist: map<string, nat>, q: Queue,
                      cut: set<string>, depth: nat, id: string, left: set<string>)
    requires Expanding(g, from, max, dist, q, cut, depth, id, left) && to !in dist
    ensures NoneShorter(g, from, to, depth + 1)
  {
    forall m: nat | HasWalk(g, from, to, m) ensures depth + 1 <= m {
      UnfoundIsFar(g, from, dist, QueueIds(q) + cut + {id}, depth, to, m);
    }
  }

  /**
   * `shortest_path`: a shortest walk if there is one within the limit; otherwise an empty path when the
   * limit cut something off, and nothing when the whole region was searched.
   */
  method ShortestPath(g: Ids, from: string, to: string, max: Option<nat>) returns (r: Option<(seq<string>, bool)>)
    requires Closed(g) && from in g && from != to
    ensures r.Some? && r.value.0 != [] ==>
              var n := |r.value.0| - 1;
              Walk(g, r.value.0, from, to, n) && WithinDepth(n, max) && NoneShorter(g, from, to, n)
    ensures r.Some? && r.value.0 == [] ==>
              r.value.1 && !ConnectedWithin(g, from, to, max) && max.Some? && StopsShort(g, from, max.value)
    ensures r.None? ==> !Connected(g, from, to) && (max.Some? ==> !StopsShort(g, from, max.value))
  {
    var pred: map<string, string> := map[];
    var seen := {from};
    var queue: Queue := [(from, 0)];
    var truncated := false;
    ghost var dist: map<string, nat> := map[from := 0];
    ghost var cut: set<string> := {};
    ghost var lo: nat := 0;
    StartSearch(g, from, max);
    while queue != []
      invariant PathSearch(g, from, to, max, seen, pred, dist, queue, cut, lo)
      invariant truncated <==> exists v :: v in cut && v in g && g[v] != {}
      decreases g.Keys - seen, |queue|
    {
      Dequeue(g, from, max, dist, queue, cut, lo);
      var (id, depth) := queue[0];
      queue := queue[1..];
      lo := depth;
      if max.Some? && depth >= max.value {
        if g[id] != {} { truncated := true; }
        cut := cut + {id};
      } else {
        var found: bool;
        seen, pred, queue, found, dist := ExpandNode(g, from, to, max, seen, pred, queue, id, depth, dist, cut);
        if !found { Expanded(g, from, max, dist, queue, cut, depth, id); }
        if found {
          var path := TracePath(g, from, to, dist, pred);
          return Some((path, truncated));
        }
      }
    }
    CutMeansStopsShort(g, from, max, dist, cut, lo);
    ExhaustedMisses(g, from, max, dist, cut, lo, to);
    r := if truncated then Some(([], true)) else None;
  }

  // ---- reachability ----

  /** The found depths of everything but the start. */
  ghost predicate DepthsRecorded(from: string, depths: map<string, nat>, dist: map<string, nat>) {
    from in dist && depths == dist - {from}
  }

  lemma RecordDepth(from: string, depths: map<string, nat>, dist: map<string, nat>, w: string, d: nat)
    requires DepthsRecorded(from, depths, dist) && w !in dist
    ensures DepthsRecorded(from, depths[w := d], dist[w := d])
  {
  }

  lemma VisitForReach(g: Ids, from: string, max: Option<nat>, dist: map<string, nat>, q: Queue, cut: set<string>,
                      depth: nat, id: string, left: set<string>, w: string)
    requires Expanding(g, from, max, dist, q, cut, depth, id, left) && Closed(g) && w in left
    ensures w in dist ==> Expanding(g, from, max, dist, q, cut, depth, id, left - {w})
    ensures w !in dist ==> Expanding(g, from, max, dist[w := depth + 1], q + [(w, depth + 1)], cut, depth, id, left - {w})
  {
    if w in dist {
      VisitSeen(g, from, max, dist, q, cut, depth, id, left, w);
    } else {
      VisitNew(g, from, max, dist, q, cut, depth, id, left, w);
    }
  }

  method ExpandReached(g: Ids, from: string, ghost max: Option<nat>, seen0: set<string>, depths0: map<string, nat>,
                       queue0: Queue, id: string, depth: nat, ghost dist0: map<string, nat>, ghost cut: set<string>)
    returns (seen: set<string>, depths: map<string, nat>, queue: Queue, ghost dist: map<string, nat>)
    requires Closed(g) && id in g && seen0 == dist0.Keys && DepthsRecorded(from, depths0, dist0)
    requires Expanding(g, from, max, dist0, queue0, cut, depth, id, g[id])
    ensures Expanding(g, from, max, dist, queue, cut, depth, id, {})
    ensures seen == dist.Keys && DepthsRecorded(from, depths, dist)
    ensures seen0 < seen || (seen0 == seen && queue == queue0)
  {
    seen, depths, queue, dist := seen0, depths0, queue0, dist0;
    var left := g[id];
    while left != {}
      invariant Expanding(g, from, max, dist, queue, cut, depth, id, left)
      invariant seen == dist.Keys && DepthsRecorded(from, depths, dist)
      invariant seen0 < seen || (seen0 == seen && queue == queue0)
      decreases left
    {
      var w :| w in left;
      VisitForReach(g, from, max, dist, queue, cut, depth, id, left, w);
      if w !in seen {
        RecordDepth(from, depths, dist, w, depth + 1);
        seen := seen + {w};
        depths := depths[w := depth + 1];
        dist := dist[w := depth + 1];
        queue := queue + [(w, depth + 1)];
      }
      left := left - {w};
    }
  }

  /** Exactly the other nodes within the limit, each with the length of a shortest walk to it. */
  ghost predicate DepthsExact(g: Ids, from: string, max: Option<nat>, depths: map<string, nat>) {
    && (forall v :: v in depths <==> v != from && ConnectedWithin(g, from, v, max))
    && (forall v :: v in depths ==> HasWalk(g, from, v, depths[v]) && NoneShorter(g, from, v, depths[v]))
  }

  lemma SearchGivesExactDepths(g: Ids, from: string, max: Option<nat>, dist: map<string, nat>, cut: set<string>, lo: nat)
    requires Searching(g, from, max, dist, [], cut, lo)
    ensures DepthsExact(g, from, max, dist - {from})
  {
    assert QueueIds([]) + cut == cut;
    forall v ensures v in dist - {from} <==> v != from && ConnectedWithin(g, from, v, max) {
      if v !in dist { ExhaustedMisses(g, from, max, dist, cut, lo, v); }
    }
    forall v | v in dist - {from} ensures NoneShorter(g, from, v, dist[v]) {
      FoundIsShortest(g, from, dist, cut, max, v);
    }
  }

  lemma NothingWithinZero(g: Ids, from: string)
    requires from in g
    ensures DepthsExact(g, from, Some(0), map[])
    ensures StopsShort(g, from, 0) <==> g[from] != {}
  {
    assert Walk(g, [from], from, from, 0);
    forall v | HasWalk(g, from, v, 0) ensures v == from { var p :| Walk(g, p, from, v, 0); }
    forall v ensures v == from || !ConnectedWithin(g, from, v, Some(0)) {
      forall n: nat | WithinDepth(n, Some(0)) && HasWalk(g, from, v, n) ensures v == from {}
    }
  }

  /** `reachable` over one adjacency: exact depths, and whether the limit left something out of sight. */
  method Reachable(g: Ids, from: string, max: Option<nat>) returns (depths: map<string, nat>, truncated: bool)
    requires Closed(g)
    ensures from !in g ==> depths == map[] && !truncated
    ensures from in g ==> DepthsExact(g, from, max, depths)
    ensures from in g ==> (truncated <==> max.Some? && StopsShort(g, from, max.value))
  {
    if from !in g { return map[], false; }
    if max == Some(0) {
      NothingWithinZero(g, from);
      return map[], g[from] != {};
    }
    depths, truncated := map[], false;
    var seen := {from};
    var queue: Queue := [(from, 0)];
    ghost var dist: map<string, nat> := map[from := 0];
    ghost var cut: set<string> := {};
    ghost var lo: nat := 0;
    StartSearch(g, from, max);
    while queue != []
      invariant Searching(g, from, max, dist, queue, cut, lo)
      invariant seen == dist.Keys && DepthsRecorded(from, depths, dist)
      invariant truncated <==> exists v :: v in cut && v in g && g[v] != {}
      decreases g.Keys - seen, |queue|
    {
      Dequeue(g, from, max, dist, queue, cut, lo);
      var (id, depth) := queue[0];
      queue := queue[1..];
      lo := depth;
      if max.Some? && depth >= max.value {
        if g[id] != {} { truncated := true; }
        cut := cut + {id};
      } else {
        seen, depths, queue, dist := ExpandReached(g, from, max, seen, depths, queue, id, depth, dist, cut);
        Expanded(g, from, max, dist, queue, cut, depth, id);
      }
    }
    CutMeansStopsShort(g, from, max, dist, cut, lo);
    SearchGivesExactDepths(g, from, max, dist, cut, lo);
  }

  /** Without truncation, a bounded reachability result is the unbounded one. */
  lemma NotTruncatedMeansComplete(g: Ids, from: string, max: Option<nat>, v: string)
    requires max.Some? ==> !StopsShort(g, from, max.value)
    requires Closed(g) && from in g && Connected(g, from, v)
    ensures ConnectedWithin(g, from, v, max)
  {
    if max.Some? {
      var n: nat :| HasWalk(g, from, v, n) && (forall m: nat :: HasWalk(g, from, v, m) ==> n <= m) by {
        ShortestWalkExists(g, from, v);
      }
      if n > max.value { LongWalkStopsShort(g, from, v, n, max.value); }
    }
  }

  /** A shortest walk passes every smaller depth at a node that has somewhere to go. */
  lemma LongWalkStopsShort(g: Ids, from: string, v: string, n: nat, k: nat)
    requires HasWalk(g, from, v, n) && NoneShorter(g, from, v, n) && k < n
    ensures StopsShort(g, from, k)
  {
    var p :| Walk(g, p, from, v, n);
    assert Walk(g, p[..k + 1], from, p[k], k);
    assert Edge(g, p[k], p[k + 1]);
    forall m: nat | HasWalk(g, from, p[k], m) ensures k <= m {
      var w :| Walk(g, w, from, p[k], m);
      JoinWalks(g, w, p[k..], from, p[k], v, m, n - k);
    }
  }

  lemma JoinWalks(g: Ids, p: seq<string>, q: seq<string>, a: string, b: string, c: string, m: nat, n: nat)
    requires Walk(g, p, a, b, m) && Walk(g, q, b, c, n)
    ensures HasWalk(g, a, c, m + n)
  {
    var r := p + q[1..];
    forall i | 0 <= i < |r| - 1 ensures Edge(g, r[i], r[i + 1]) {
      if i < m {
        assert r[i] == p[i] && r[i + 1] == p[i + 1];
      } else {
        assert r[i] == q[i - m] && r[i + 1] == q[i - m + 1];
      }
    }
    assert Walk(g, r, a, c, m + n);
  }

  lemma ShortestWalkExists(g: Ids, a: string, b: string)
    requires Connected(g, a, b)
    ensures exists n: nat :: HasWalk(g, a, b, n) && NoneShorter(g, a, b, n)
  {
    var n: nat :| HasWalk(g, a, b, n);
    while !NoneShorter(g, a, b, n)
      invariant HasWalk(g, a, b, n)
      decreases n
    {
      var m: nat :| HasWalk(g, a, b, m) && m < n;
      n := m;
    }
  }
}
