/** The invariant of breadth-first search, shared by the three searches of diagnostics.rs. */
module Bfs {
  import opened Prelude
  import opened Digraph

  type Ids = Graph<string>

  /** `p` goes from `a` to `b` over `n` edges. */
  ghost predicate Walk(g: Ids, p: seq<string>, a: string, b: string, n: nat) {
    IsPath(g, p) && p[0] == a && p[|p| - 1] == b && |p| == n + 1
  }

  ghost predicate HasWalk(g: Ids, a: string, b: string, n: nat) {
    exists p :: Walk(g, p, a, b, n)
  }

  ghost predicate Connected(g: Ids, a: string, b: string) {
    exists n: nat :: HasWalk(g, a, b, n)
  }

  predicate WithinDepth(n: nat, max: Option<nat>) {
    max.None? || n <= max.value
  }

  ghost predicate ConnectedWithin(g: Ids, a: string, b: string, max: Option<nat>) {
    exists n: nat :: WithinDepth(n, max) && HasWalk(g, a, b, n)
  }

  /** No walk is shorter than `n`. */
  ghost predicate NoneShorter(g: Ids, a: string, b: string, n: nat) {
    forall m: nat :: HasWalk(g, a, b, m) ==> n <= m
  }

  /** Every successor is itself a node of the graph. */
  ghost predicate Closed(g: Ids) {
    forall a, b :: Edge(g, a, b) ==> b in g
  }

  /** Every depth found is the length of some walk. */
  ghost predicate DepthsReached(g: Ids, from: string, dist: map<string, nat>) {
    forall v :: v in dist ==> v in g && HasWalk(g, from, v, dist[v])
  }

  /** Away from the frontier, each successor is found and at most one deeper. */
  ghost predicate ClosedOff(g: Ids, dist: map<string, nat>, frontier: set<string>) {
    forall u, w :: u in dist && u !in frontier && Edge(g, u, w) ==> w in dist && dist[w] <= dist[u] + 1
  }

  lemma WalkExtends(g: Ids, a: string, b: string, n: nat, c: string)
    requires HasWalk(g, a, b, n) && Edge(g, b, c)
    ensures HasWalk(g, a, c, n + 1)
  {
    var p :| Walk(g, p, a, b, n);
    PathExtends(g, p, c);
    assert Walk(g, p + [c], a, c, n + 1);
  }

  /** A walk leaves the finished region only through the frontier, and not before the frontier's depth. */
  lemma {:induction false} FrontierOnWalk(g: Ids, dist: map<string, nat>, frontier: set<string>, p: seq<string>,
                                          s: nat, i: nat)
    requires IsPath(g, p) && s <= i < |p| && ClosedOff(g, dist, frontier)
    requires p[s] in dist && dist[p[s]] <= s
    ensures (p[i] in dist && dist[p[i]] <= i)
            || exists j :: s <= j < i && p[j] in dist && p[j] in frontier && dist[p[j]] <= j
    decreases i
  {
    if i > s {
      FrontierOnWalk(g, dist, frontier, p, s, i - 1);
      assert Edge(g, p[i - 1], p[i]);
    }
  }

  /** A frontier whose members lie at depth `lo` or deeper hides no walk shorter than `lo + 1` to an unfound node. */
  lemma UnfoundIsFar(g: Ids, from: string, dist: map<string, nat>, frontier: set<string>, lo: nat, target: string, m: nat)
    requires ClosedOff(g, dist, frontier) && from in dist && dist[from] == 0
    requires forall v :: v in frontier && v in dist ==> lo <= dist[v]
    requires target !in dist && HasWalk(g, from, target, m)
    ensures lo < m
  {
    var p :| Walk(g, p, from, target, m);
    FrontierOnWalk(g, dist, frontier, p, 0, m);
  }

  /** With an exhausted frontier at the depth limit, the depths found are the shortest ones. */
  lemma FoundIsShortest(g: Ids, from: string, dist: map<string, nat>, cut: set<string>, max: Option<nat>, v: string)
    requires ClosedOff(g, dist, cut) && from in dist && dist[from] == 0
    requires forall u :: u in cut && u in dist ==> max.Some? && max.value <= dist[u]
    requires v in dist && WithinDepth(dist[v], max)
    ensures NoneShorter(g, from, v, dist[v])
  {
    forall m: nat | HasWalk(g, from, v, m) ensures dist[v] <= m {
      var p :| Walk(g, p, from, v, m);
      FrontierOnWalk(g, dist, cut, p, 0, m);
    }
  }

  /** Nodes at the depth limit that have somewhere to go. */
  ghost predicate StopsShort(g: Ids, from: string, max: nat) {
    exists v :: v in g && g[v] != {} && HasWalk(g, from, v, max) && NoneShorter(g, from, v, max)
  }

  // ---- the queue ----

  type Queue = seq<(string, nat)>

  function QueueIds(q: Queue): set<string> {
    set k | 0 <= k < |q| :: q[k].0
  }

  /** Entries carry their depths, in order, all within one of `lo`. */
  ghost predicate QueueInOrder(q: Queue, dist: map<string, nat>, lo: nat) {
    && (forall k :: 0 <= k < |q| ==> q[k].0 in dist && dist[q[k].0] == q[k].1 && lo <= q[k].1 <= lo + 1)
    && (forall k, l :: 0 <= k < l < |q| ==> q[k].1 <= q[l].1)
  }

  /** The state of a search: what is found, what waits in the queue, what the depth limit cut off. */
  ghost predicate Searching(g: Ids, from: string, max: Option<nat>, dist: map<string, nat>, q: Queue,
                            cut: set<string>, lo: nat) {
    && DepthsReached(g, from, dist)
    && from in dist && dist[from] == 0
    && QueueInOrder(q, dist, lo)
    && ClosedOff(g, dist, QueueIds(q) + cut)
    && (forall v :: v in dist ==> WithinDepth(dist[v], max) && dist[v] <= lo + 1)
    && (forall v :: v in cut ==> v in dist && max == Some(dist[v]))
    && (forall v :: v in dist && max == Some(dist[v]) ==> v in QueueIds(q) + cut)
  }

  /** While the entry at depth `lo` is expanded, its successors outside `left` are already found. */
  ghost predicate Expanding(g: Ids, from: string, max: Option<nat>, dist: map<string, nat>, q: Queue,
                            cut: set<string>, lo: nat, id: string, left: set<string>) {
    && DepthsReached(g, from, dist)
    && from in dist && dist[from] == 0
    && QueueInOrder(q, dist, lo)
    && ClosedOff(g, dist, QueueIds(q) + cut + {id})
    && (forall v :: v in dist ==> WithinDepth(dist[v], max) && dist[v] <= lo + 1)
    && (forall v :: v in cut ==> v in dist && max == Some(dist[v]))
    && (forall v :: v in dist && max == Some(dist[v]) ==> v in QueueIds(q) + cut)
    && id in dist && dist[id] == lo && WithinDepth(lo + 1, max)
    && id in g && left <= g[id]
    && forall w :: w in g[id] - left ==> w in dist && dist[w] <= lo + 1
  }

  lemma StartSearch(g: Ids, from: string, max: Option<nat>)
    requires from in g
    ensures Searching(g, from, max, map[from := 0], [(from, 0)], {}, 0)
  {
    assert Walk(g, [from], from, from, 0);
    QueuePush([], (from, 0));
    assert [] + [(from, 0 as nat)] == [(from, 0)];
  }

  /** Taking the head off the queue, to expand it or to leave it at the limit. */
  lemma {:induction false} Dequeue(g: Ids, from: string, max: Option<nat>, dist: map<string, nat>, q: Queue,
                                   cut: set<string>, lo: nat)
    requires Searching(g, from, max, dist, q, cut, lo) && q != []
    ensures q[0].0 in dist && dist[q[0].0] == q[0].1 && q[0].0 in g
    ensures WithinDepth(q[0].1 + 1, max) ==> Expanding(g, from, max, dist, q[1..], cut, q[0].1, q[0].0, g[q[0].0])
    ensures !WithinDepth(q[0].1 + 1, max) ==> Searching(g, from, max, dist, q[1..], cut + {q[0].0}, q[0].1)
  {
    if WithinDepth(q[0].1 + 1, max) {
      DequeueToExpand(g, from, max, dist, q, cut, lo);
    } else {
      DequeueAtLimit(g, from, max, dist, q, cut, lo);
    }
  }

  lemma DequeueToExpand(g: Ids, from: string, max: Option<nat>, dist: map<string, nat>, q: Queue, cut: set<string>,
                        lo: nat)
    requires Searching(g, from, max, dist, q, cut, lo) && q != [] && WithinDepth(q[0].1 + 1, max)
    ensures q[0].0 in g && Expanding(g, from, max, dist, q[1..], cut, q[0].1, q[0].0, g[q[0].0])
  {
    QueuePop(q);
    assert QueueIds(q) + cut == QueueIds(q[1..]) + cut + {q[0].0};
    QueueTailInOrder(q, dist, lo);
  }

  lemma DequeueAtLimit(g: Ids, from: string, max: Option<nat>, dist: map<string, nat>, q: Queue, cut: set<string>,
                       lo: nat)
    requires Searching(g, from, max, dist, q, cut, lo) && q != [] && !WithinDepth(q[0].1 + 1, max)
    ensures Searching(g, from, max, dist, q[1..], cut + {q[0].0}, q[0].1)
  {
    QueuePop(q);
    assert QueueIds(q) + cut == QueueIds(q[1..]) + (cut + {q[0].0});
    QueueTailInOrder(q, dist, lo);
  }

  lemma QueuePop(q: Queue)
    requires q != []
    ensures QueueIds(q) == QueueIds(q[1..]) + {q[0].0}
  {
    forall k | 0 <= k < |q| ensures q[k].0 in QueueIds(q[1..]) + {q[0].0} {
      if k > 0 { assert q[1..][k - 1].0 in QueueIds(q[1..]); }
    }
  }

  lemma QueuePush(q: Queue, e: (string, nat))
    ensures QueueIds(q + [e]) == QueueIds(q) + {e.0}
  {
    var q' := q + [e];
    assert q'[|q|].0 in QueueIds(q');
    forall k | 0 <= k < |q| ensures q[k].0 in QueueIds(q') { assert q'[k] == q[k]; }
  }

  lemma QueueTailInOrder(q: Queue, dist: map<string, nat>, lo: nat)
    requires q != [] && QueueInOrder(q, dist, lo)
    ensures QueueInOrder(q[1..], dist, q[0].1)
  {
  }

  lemma VisitSeen(g: Ids, from: string, max: Option<nat>, dist: map<string, nat>, q: Queue, cut: set<string>, lo: nat,
                  id: string, left: set<string>, w: string)
    requires Expanding(g, from, max, dist, q, cut, lo, id, left) && w in left && w in dist
    ensures Expanding(g, from, max, dist, q, cut, lo, id, left - {w})
  {
  }

  lemma VisitNew(g: Ids, from: string, max: Option<nat>, dist: map<string, nat>, q: Queue, cut: set<string>, lo: nat,
                 id: string, left: set<string>, w: string)
    requires Expanding(g, from, max, dist, q, cut, lo, id, left) && Closed(g) && w in left && w !in dist
    ensures Expanding(g, from, max, dist[w := lo + 1], q + [(w, lo + 1)], cut, lo, id, left - {w})
  {
    assert Edge(g, id, w);
    WalkExtends(g, from, id, lo, w);
    QueuePush(q, (w, lo + 1));
  }

  lemma Expanded(g: Ids, from: string, max: Option<nat>, dist: map<string, nat>, q: Queue, cut: set<string>, lo: nat,
                 id: string)
    requires Expanding(g, from, max, dist, q, cut, lo, id, {})
    ensures Searching(g, from, max, dist, q, cut, lo)
  {
  }

  /** When the queue is empty, the limit cut off something with somewhere to go exactly when the search stops short. */
  lemma CutMeansStopsShort(g: Ids, from: string, max: Option<nat>, dist: map<string, nat>, cut: set<string>, lo: nat)
    requires Searching(g, from, max, dist, [], cut, lo)
    ensures (exists v :: v in cut && v in g && g[v] != {}) <==> max.Some? && StopsShort(g, from, max.value)
  {
    assert QueueIds([]) + cut == cut;
    if v :| v in cut && v in g && g[v] != {} {
      FoundIsShortest(g, from, dist, cut, max, v);
    }
    if max.Some? && StopsShort(g, from, max.value) {
      var v :| v in g && g[v] != {} && HasWalk(g, from, v, max.value) && NoneShorter(g, from, v, max.value);
      var p :| Walk(g, p, from, v, max.value);
      FrontierOnWalk(g, dist, cut, p, 0, max.value);
      assert v in dist && HasWalk(g, from, v, dist[v]);
      assert v in cut;
    }
  }

  /** An exhausted search that has not found `target` rules out walks within the limit, or all walks if nothing was cut. */
  lemma ExhaustedMisses(g: Ids, from: string, max: Option<nat>, dist: map<string, nat>, cut: set<string>, lo: nat,
                        target: string)
    requires Searching(g, from, max, dist, [], cut, lo) && target !in dist
    ensures !ConnectedWithin(g, from, target, max)
    ensures (forall v :: v in cut ==> v in g && g[v] == {}) ==> !Connected(g, from, target)
  {
    assert QueueIds([]) + cut == cut;
    forall n: nat | HasWalk(g, from, target, n)
      ensures !WithinDepth(n, max) && exists v :: v in cut && v in g && g[v] != {}
    {
      var p :| Walk(g, p, from, target, n);
      FrontierOnWalk(g, dist, cut, p, 0, n);
      var j :| 0 <= j < n && p[j] in cut && dist[p[j]] <= j;
      assert Edge(g, p[j], p[j + 1]);
    }
  }
}
