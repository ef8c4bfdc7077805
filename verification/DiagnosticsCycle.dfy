/** The shortest way back to a node (diagnostics.rs, `shortest_cycle`). */
module DiagnosticsCycle {
  import opened Prelude
  import opened Digraph
  import opened Bfs
  import opened Diagnostics

  /** A closed walk of `m` edges, at least one. */
  ghost predicate Returns(g: Ids, from: string, m: nat) {
    m >= 1 && HasWalk(g, from, from, m)
  }

  ghost predicate ReturnsWithin(g: Ids, from: string, max: Option<nat>) {
    exists m: nat :: WithinDepth(m, max) && Returns(g, from, m)
  }

  ghost predicate CanReturn(g: Ids, from: string) {
    exists m: nat :: Returns(g, from, m)
  }

  /** Away from the frontier, no edge leads back to the start. */
  ghost predicate NoWayBack(g: Ids, from: string, dist: map<string, nat>, frontier: set<string>) {
    forall u :: u in dist && u !in frontier ==> !Edge(g, u, from)
  }

  /** Each queue entry carries the walk that found it. */
  ghost predicate PathsCarried(g: Ids, from: string, q: Queue, paths: seq<seq<string>>) {
    |paths| == |q| && forall k :: 0 <= k < |q| ==> Walk(g, paths[k], from, q[k].0, q[k].1)
  }

  ghost predicate CycleSearch(g: Ids, from: string, max: Option<nat>, dist: map<string, nat>, q: Queue,
                              paths: seq<seq<string>>, cut: set<string>, lo: nat) {
    && Searching(g, from, max, dist, q, cut, lo)
    && NoWayBack(g, from, dist, QueueIds(q) + cut)
    && PathsCarried(g, from, q, paths)
  }

  ghost predicate CycleStep(g: Ids, from: string, max: Option<nat>, dist: map<string, nat>, q: Queue,
                            paths: seq<seq<string>>, cut: set<string>, depth: nat, id: string, left: set<string>) {
    && Expanding(g, from, max, dist, q, cut, depth, id, left)
    && NoWayBack(g, from, dist, QueueIds(q) + cut + {id})
    && PathsCarried(g, from, q, paths)
    && (from in g[id] ==> from in left)
  }

  /** A closed walk that is not yet excluded is longer than the frontier's depth. */
  lemma ReturnIsFar(g: Ids, from: string, dist: map<string, nat>, frontier: set<string>, lo: nat, m: nat)
    requires ClosedOff(g, dist, frontier) && NoWayBack(g, from, dist, frontier)
    requires from in dist && dist[from] == 0
    requires forall v :: v in frontier && v in dist ==> lo <= dist[v]
    requires Returns(g, from, m)
    ensures lo < m
  {
    var p :| Walk(g, p, from, from, m);
    FrontierOnWalk(g, dist, frontier, p, 0, m - 1);
    assert Edge(g, p[m - 1], p[m]);
  }

  lemma CarryPath(g: Ids, from: string, q: Queue, paths: seq<seq<string>>, path: seq<string>, id: string, depth: nat,
                  w: string)
    requires PathsCarried(g, from, q, paths) && Walk(g, path, from, id, depth) && Edge(g, id, w)
    ensures PathsCarried(g, from, q + [(w, depth + 1)], paths + [path + [w]])
  {
    PathExtends(g, path, w);
  }

  lemma VisitInCycle(g: Ids, from: string, max: Option<nat>, dist: map<string, nat>, q: Queue,
                     paths: seq<seq<string>>, cut: set<string>, depth: nat, id: string, left: set<string>,
                     path: seq<string>, w: string)
    requires CycleStep(g, from, max, dist, q, paths, cut, depth, id, left) && Closed(g)
    requires w in left && w != from && Walk(g, path, from, id, depth)
    ensures w in dist ==> CycleStep(g, from, max, dist, q, paths, cut, depth, id, left - {w})
    ensures w !in dist ==>
              CycleStep(g, from, max, dist[w := depth + 1], q + [(w, depth + 1)], paths + [path + [w]], cut, depth, id, left - {w})
  {
    if w in dist {
      VisitSeen(g, from, max, dist, q, cut, depth, id, left, w);
    } else {
      VisitNew(g, from, max, dist, q, cut, depth, id, left, w);
      QueuePush(q, (w, depth + 1));
      CarryPath(g, from, q, paths, path, id, depth, w);
    }
  }

  lemma ClosesHere(g: Ids, from: string, max: Option<nat>, dist: map<string, nat>, q: Queue, paths: seq<seq<string>>,
                   cut: set<string>, depth: nat, id: string, left: set<string>, path: seq<string>)
    requires CycleStep(g, from, max, dist, q, paths, cut, depth, id, left)
    requires from in g[id] && Walk(g, path, from, id, depth)
    ensures ShortestReturn(g, from, max, path + [from])
  {
    PathExtends(g, path, from);
    assert Walk(g, path + [from], from, from, depth + 1);
    forall m: nat | Returns(g, from, m) ensures depth + 1 <= m {
      ReturnIsFar(g, from, dist, QueueIds(q) + cut + {id}, depth, m);
    }
  }

  /** A closed walk within the limit, as short as any. */
  ghost predicate ShortestReturn(g: Ids, from: string, max: Option<nat>, p: seq<string>) {
    && |p| >= 2 && Walk(g, p, from, from, |p| - 1) && WithinDepth(|p| - 1, max)
    && forall m: nat :: Returns(g, from, m) ==> |p| - 1 <= m
  }

  lemma SeenGrows(dist: map<string, nat>, from: string, w: string, d: nat, seen0: set<string>, seen: set<string>)
    requires seen == dist.Keys - {from} && w != from
    ensures w in seen <==> w in dist
    ensures seen + {w} == dist[w := d].Keys - {from}
    ensures w !in seen && (seen0 < seen || seen0 == seen) ==> seen0 < seen + {w}
  {
  }

  /** Visits the successors of `id`; an edge back to the start ends the search. */
  method ExpandForCycle(g: Ids, from: string, ghost max: Option<nat>, seen0: set<string>, queue0: Queue,
                        paths0: seq<seq<string>>, id: string, depth: nat, path: seq<string>,
                        ghost dist0: map<string, nat>, ghost cut: set<string>)
    returns (seen: set<string>, queue: Queue, paths: seq<seq<string>>, found: bool, ghost dist: map<string, nat>)
    requires Closed(g) && id in g && seen0 == dist0.Keys - {from} && Walk(g, path, from, id, depth)
    requires CycleStep(g, from, max, dist0, queue0, paths0, cut, depth, id, g[id])
    ensures found ==> ShortestReturn(g, from, max, path + [from])
    ensures !found ==> CycleStep(g, from, max, dist, queue, paths, cut, depth, id, {}) && seen == dist.Keys - {from}
    ensures !found ==> seen0 < seen || (seen0 == seen && queue == queue0)
  {
    seen, queue, paths, found, dist := seen0, queue0, paths0, false, dist0;
    var left := g[id];
    while left != {}
      invariant CycleStep(g, from, max, dist, queue, paths, cut, depth, id, left) && seen == dist.Keys - {from}
      invariant seen0 < seen || (seen0 == seen && queue == queue0)
      decreases left
    {
      var w :| w in left;
      if w == from {
        ClosesHere(g, from, max, dist, queue, paths, cut, depth, id, left, path);
        found := true;
        return;
      }
      VisitInCycle(g, from, max, dist, queue, paths, cut, depth, id, left, path, w);
      SeenGrows(dist, from, w, depth + 1, seen0, seen);
      if w !in seen {
        seen := seen + {w};
        dist := dist[w := depth + 1];
        queue := queue + [(w, depth + 1)];
        paths := paths + [path + [w]];
      }
      left := left - {w};
    }
  }

  lemma StepDone(g: Ids, from: string, max: Option<nat>, dist: map<string, nat>, q: Queue, paths: seq<seq<string>>,
                 cut: set<string>, depth: nat, id: string)
    requires CycleStep(g, from, max, dist, q, paths, cut, depth, id, {})
    ensures CycleSearch(g, from, max, dist, q, paths, cut, depth)
  {
    Expanded(g, from, max, dist, q, cut, depth, id);
  }

  lemma {:induction false} DequeueForCycle(g: Ids, from: string, max: Option<nat>, dist: map<string, nat>, q: Queue,
                                           paths: seq<seq<string>>, cut: set<string>, lo: nat)
    requires CycleSearch(g, from, max, dist, q, paths, cut, lo) && q != []
    ensures q[0].0 in g && Walk(g, paths[0], from, q[0].0, q[0].1)
    ensures WithinDepth(q[0].1 + 1, max) ==>
              CycleStep(g, from, max, dist, q[1..], paths[1..], cut, q[0].1, q[0].0, g[q[0].0])
    ensures !WithinDepth(q[0].1 + 1, max) ==>
              CycleSearch(g, from, max, dist, q[1..], paths[1..], cut + {q[0].0}, q[0].1)
  {
    Dequeue(g, from, max, dist, q, cut, lo);
    QueuePop(q);
    assert QueueIds(q) + cut == QueueIds(q[1..]) + cut + {q[0].0} == QueueIds(q[1..]) + (cut + {q[0].0});
  }

  /** An exhausted search rules out closed walks within the limit, or all of them if nothing was cut. */
  lemma ExhaustedHasNoReturn(g: Ids, from: string, max: Option<nat>, dist: map<string, nat>, paths: seq<seq<string>>,
                             cut: set<string>, lo: nat)
    requires CycleSearch(g, from, max, dist, [], paths, cut, lo)
    ensures !ReturnsWithin(g, from, max)
    ensures (forall v :: v in cut ==> v in g && g[v] == {}) ==> !CanReturn(g, from)
  {
    assert QueueIds([]) + cut == cut;
    forall m: nat | Returns(g, from, m)
      ensures !WithinDepth(m, max) && exists v :: v in cut && v in g && g[v] != {}
    {
      var p :| Walk(g, p, from, from, m);
      FrontierOnWalk(g, dist, cut, p, 0, m - 1);
      assert Edge(g, p[m - 1], p[m]);
      assert exists j :: 0 <= j <= m - 1 && p[j] in dist && p[j] in cut && dist[p[j]] <= j;
      var j :| 0 <= j <= m - 1 && p[j] in dist && p[j] in cut && dist[p[j]] <= j;
      assert Edge(g, p[j], p[j + 1]);
    }
  }

  lemma NoEdgeNoReturn(g: Ids, from: string)
    requires from in g && g[from] == {}
    ensures !CanReturn(g, from)
  {
    forall m: nat, p | m >= 1 ensures !Walk(g, p, from, from, m) {
      assert |p| >= 2 && p[0] == from ==> !Edge(g, p[0], p[1]);
    }
  }

  lemma NoReturnWithinZero(g: Ids, from: string)
    ensures !ReturnsWithin(g, from, Some(0))
  {
  }

  /**
   * `shortest_cycle`: a shortest closed walk within the limit; else an empty path exactly when the limit cut
   * something off, and nothing only when no closed walk exists at all.
   */
  method ShortestCycle(g: Ids, from: string, max: Option<nat>) returns (r: Option<(seq<string>, bool)>)
    requires Closed(g) && from in g
    ensures r.Some? && r.value.0 != [] ==> !r.value.1 && ShortestReturn(g, from, max, r.value.0)
    ensures r.Some? && r.value.0 == [] ==>
              r.value.1 && !ReturnsWithin(g, from, max) && max.Some? && StopsShort(g, from, max.value)
    ensures r.None? ==> !CanReturn(g, from) && !(max.Some? && StopsShort(g, from, max.value))
  {
    if max == Some(0) {
      NothingWithinZero(g, from);
      NoReturnWithinZero(g, from);
      if g[from] == {} {
        NoEdgeNoReturn(g, from);
        return None;
      }
      return Some(([], true));
    }
    StartCycle(g, from, max);
    var truncated := false;
    ghost var cut: set<string> := {};
    var seen, queue, paths, found;
    ghost var dist: map<string, nat>;
    seen, queue, paths, found, dist := ExpandForCycle(g, from, max, {}, [], [], from, 0, [from], map[from := 0], cut);
    if found { return Some(([from] + [from], false)); }
    StepDone(g, from, max, dist, queue, paths, cut, 0, from);
    ghost var lo: nat := 0;
    while queue != []
      invariant CycleSearch(g, from, max, dist, queue, paths, cut, lo)
      invariant seen == dist.Keys - {from}
      invariant truncated <==> exists v :: v in cut && v in g && g[v] != {}
      decreases g.Keys - seen, |queue|
    {
      DequeueForCycle(g, from, max, dist, queue, paths, cut, lo);
      var (id, depth) := queue[0];
      var path := paths[0];
      queue, paths := queue[1..], paths[1..];
      lo := depth;
      if max.Some? && depth >= max.value {
        if g[id] != {} { truncated := true; }
        cut := cut + {id};
      } else {
        seen, queue, paths, found, dist := ExpandForCycle(g, from, max, seen, queue, paths, id, depth, path, dist, cut);
        if found { return Some((path + [from], false)); }
        StepDone(g, from, max, dist, queue, paths, cut, depth, id);
      }
    }
    CutMeansStopsShort(g, from, max, dist, cut, lo);
    ExhaustedHasNoReturn(g, from, max, dist, paths, cut, lo);
    r := if truncated then Some(([], true)) else None;
  }

  lemma StartCycle(g: Ids, from: string, max: Option<nat>)
    requires from in g && max != Some(0)
    ensures CycleStep(g, from, max, map[from := 0], [], [], {}, 0, from, g[from])
    ensures Walk(g, [from], from, from, 0)
  {
    StartSearch(g, from, max);
    Dequeue(g, from, max, map[from := 0], [(from, 0)], {}, 0);
    assert [(from, 0 as nat)][1..] == [];
  }
}
