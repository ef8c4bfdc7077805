/** Finite directed graphs: paths, cycles, and the two facts every traversal below rests on. */
module Digraph {
  import opened Prelude

  type Graph<V> = map<V, set<V>>

  ghost predicate Edge<V>(g: Graph<V>, a: V, b: V) {
    a in g && b in g[a]
  }

  ghost predicate IsPath<V>(g: Graph<V>, p: seq<V>) {
    |p| >= 1 && forall i :: 0 <= i < |p| - 1 ==> Edge(g, p[i], p[i + 1])
  }

  ghost predicate IsCycle<V>(g: Graph<V>, p: seq<V>) {
    IsPath(g, p) && |p| >= 2 && p[0] == p[|p| - 1]
  }

  ghost predicate Cyclic<V(!new)>(g: Graph<V>) {
    exists p :: IsCycle(g, p)
  }

  lemma PathExtends<V>(g: Graph<V>, p: seq<V>, v: V)
    requires p != [] ==> IsPath(g, p) && Edge(g, p[|p| - 1], v)
    ensures IsPath(g, p + [v])
  {
    var q := p + [v];
    forall i | 0 <= i < |q| - 1 ensures Edge(g, q[i], q[i + 1]) {
      if i < |p| - 1 { assert q[i] == p[i] && q[i + 1] == p[i + 1]; }
    }
  }

  /** When every edge goes down in some rank, no path comes back. */
  lemma {:induction false} RankFallsAlongPath<V>(g: Graph<V>, rank: map<V, int>, p: seq<V>, i: nat)
    requires IsPath(g, p) && i < |p|
    requires forall a, b :: Edge(g, a, b) ==> a in rank && b in rank && rank[b] < rank[a]
    ensures i > 0 ==> p[0] in rank && p[i] in rank && rank[p[i]] <= rank[p[0]] - i
    decreases i
  {
    if i > 0 {
      assert Edge(g, p[i - 1], p[i]);
      RankFallsAlongPath(g, rank, p, i - 1);
    }
  }

  lemma RankedIsAcyclic<V(!new)>(g: Graph<V>, rank: map<V, int>)
    requires forall a, b :: Edge(g, a, b) ==> a in rank && b in rank && rank[b] < rank[a]
    ensures !Cyclic(g)
  {
    forall p | IsPath(g, p) && |p| >= 2 ensures p[0] != p[|p| - 1] {
      RankFallsAlongPath(g, rank, p, |p| - 1);
    }
  }

  lemma {:induction false} DistinctFits<V>(p: seq<V>, s: set<V>)
    requires Distinct(p) && forall x :: x in p ==> x in s
    ensures |p| <= |s|
  {
    if p != [] {
      var q, x := p[..|p| - 1], p[|p| - 1];
      assert x !in q;
      DistinctFits(q, s - {x});
    }
  }

  /** A path that turns back onto itself closes a cycle. */
  lemma TurningBackIsCycle<V(!new)>(g: Graph<V>, p: seq<V>, v: V)
    requires IsPath(g, p) && v in p && Edge(g, p[|p| - 1], v)
    ensures Cyclic(g)
  {
    var i :| 0 <= i < |p| && p[i] == v;
    assert IsCycle(g, p[i..] + [v]);
  }

  ghost predicate HasExitWithin<V(!new)>(g: Graph<V>, s: set<V>, v: V) {
    exists w :: w in s && Edge(g, v, w)
  }

  ghost predicate Trapped<V(!new)>(g: Graph<V>, s: set<V>) {
    forall v {:trigger HasExitWithin(g, s, v)} :: v in s ==> HasExitWithin(g, s, v)
  }

  /** In a finite set that every member can leave only to stay, walking on must repeat: pigeonhole. */
  lemma {:induction false} WalkFindsCycle<V(!new)>(g: Graph<V>, s: set<V>, p: seq<V>)
    requires Trapped(g, s)
    requires IsPath(g, p) && Distinct(p) && forall x :: x in p ==> x in s
    ensures Cyclic(g)
    decreases |s| - |p|
  {
    DistinctFits(p, s);
    var last := p[|p| - 1];
    assert last in s && HasExitWithin(g, s, last);
    var w :| w in s && Edge(g, last, w);
    if w in p {
      TurningBackIsCycle(g, p, w);
    } else {
      DistinctFits(p + [w], s);
      WalkFindsCycle(g, s, p + [w]);
    }
  }

  lemma TrappedSetHasCycle<V(!new)>(g: Graph<V>, s: set<V>)
    requires s != {} && Trapped(g, s)
    ensures Cyclic(g)
  {
    var v :| v in s;
    WalkFindsCycle(g, s, [v]);
  }
}
