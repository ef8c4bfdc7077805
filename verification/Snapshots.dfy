/**
 * A described topology with its mounted subgraphs (diagnostics.rs), and its flattening: the nodes outermost
 * first, then subgraph after subgraph, each as a block.
 */
module Snapshots {
  import opened Prelude

  datatype DescribedNode = DescribedNode(id: string, deps: seq<string>)

  datatype DescribedEdge = DescribedEdge(source: string, target: string)

  datatype Snapshot = Snapshot(nodes: seq<DescribedNode>, edges: seq<DescribedEdge>, subgraphs: seq<Snapshot>)

  // ---- places ----

  /** Where a node stands: the subgraphs to enter, from the outside in, and its position there. */
  datatype Spot = Spot(at: seq<nat>, i: nat)

  predicate Holds(s: Snapshot, spot: Spot)
    decreases |spot.at|
  {
    if spot.at == [] then spot.i < |s.nodes|
    else spot.at[0] < |s.subgraphs| && Holds(s.subgraphs[spot.at[0]], Spot(spot.at[1..], spot.i))
  }

  function NodeAt(s: Snapshot, spot: Spot): DescribedNode
    requires Holds(s, spot)
    decreases |spot.at|
  {
    if spot.at == [] then s.nodes[spot.i] else NodeAt(s.subgraphs[spot.at[0]], Spot(spot.at[1..], spot.i))
  }

  /** A graph's own nodes come before those of its subgraphs, and these in the order of the list. */
  predicate Precedes(a: Spot, b: Spot)
    decreases |a.at|
  {
    if a.at == [] then b.at != [] || a.i < b.i
    else b.at != [] && (a.at[0] < b.at[0]
                        || (a.at[0] == b.at[0] && Precedes(Spot(a.at[1..], a.i), Spot(b.at[1..], b.i))))
  }

  ghost predicate HasId(s: Snapshot, k: string) {
    exists spot :: Holds(s, spot) && NodeAt(s, spot).id == k
  }

  /** `n` is the last of the nodes with the id `k`. */
  ghost predicate LastOf(s: Snapshot, k: string, n: DescribedNode) {
    exists spot :: Holds(s, spot) && NodeAt(s, spot) == n && n.id == k
      && forall other :: Holds(s, other) && NodeAt(s, other).id == k ==> other == spot || Precedes(other, spot)
  }

  /** The edge is one of the graph's own or of some subgraph. */
  ghost predicate EdgeIn(s: Snapshot, e: DescribedEdge)
    decreases s
  {
    e in s.edges || exists i :: 0 <= i < |s.subgraphs| && EdgeIn(s.subgraphs[i], e)
  }

  // ---- flattening ----

  /** The nodes of a snapshot and of its subgraphs, outermost first. */
  function AllNodes(s: Snapshot): seq<DescribedNode>
    decreases s, 1, 0
  {
    s.nodes + SubgraphNodes(s, 0)
  }

  function SubgraphNodes(s: Snapshot, i: nat): seq<DescribedNode>
    requires i <= |s.subgraphs|
    decreases s, 0, |s.subgraphs| - i
  {
    if i == |s.subgraphs| then [] else AllNodes(s.subgraphs[i]) + SubgraphNodes(s, i + 1)
  }

  function AllEdges(s: Snapshot): seq<DescribedEdge>
    decreases s, 1, 0
  {
    s.edges + SubgraphEdges(s, 0)
  }

  function SubgraphEdges(s: Snapshot, i: nat): seq<DescribedEdge>
    requires i <= |s.subgraphs|
    decreases s, 0, |s.subgraphs| - i
  {
    if i == |s.subgraphs| then [] else AllEdges(s.subgraphs[i]) + SubgraphEdges(s, i + 1)
  }

  // ---- the flattening lists exactly these, in this order ----

  /** How many nodes the first `k` subgraphs have. */
  function Offset(s: Snapshot, k: nat): nat
    requires k <= |s.subgraphs|
  {
    if k == 0 then 0 else Offset(s, k - 1) + |AllNodes(s.subgraphs[k - 1])|
  }

  lemma {:induction false} SubgraphAt(s: Snapshot, k: nat)
    requires k <= |s.subgraphs|
    ensures Offset(s, k) <= |SubgraphNodes(s, 0)| && SubgraphNodes(s, 0)[Offset(s, k)..] == SubgraphNodes(s, k)
  {
    if k > 0 {
      SubgraphAt(s, k - 1);
      var before, block := Offset(s, k - 1), AllNodes(s.subgraphs[k - 1]);
      assert SubgraphNodes(s, k - 1) == block + SubgraphNodes(s, k);
      assert SubgraphNodes(s, 0)[before..][|block|..] == SubgraphNodes(s, 0)[before + |block|..];
    }
  }

  lemma {:induction false} OffsetsGrow(s: Snapshot, j: nat, k: nat)
    requires j < k <= |s.subgraphs|
    ensures Offset(s, j) + |AllNodes(s.subgraphs[j])| <= Offset(s, k)
  {
    if j + 1 < k { OffsetsGrow(s, j, k - 1); }
  }

  function Inner(spot: Spot): Spot
    requires spot.at != []
  {
    Spot(spot.at[1..], spot.i)
  }

  /** The place of a spot in the flattening. */
  function FlatIndex(s: Snapshot, spot: Spot): nat
    requires Holds(s, spot)
    decreases |spot.at|
  {
    if spot.at == [] then spot.i
    else |s.nodes| + Offset(s, spot.at[0]) + FlatIndex(s.subgraphs[spot.at[0]], Inner(spot))
  }

  lemma {:induction false} FlatAt(s: Snapshot, spot: Spot)
    requires Holds(s, spot)
    ensures FlatIndex(s, spot) < |AllNodes(s)| && AllNodes(s)[FlatIndex(s, spot)] == NodeAt(s, spot)
    decreases |spot.at|
  {
    if spot.at != [] {
      var k := spot.at[0];
      FlatAt(s.subgraphs[k], Inner(spot));
      SubgraphAt(s, k);
      var block := AllNodes(s.subgraphs[k]);
      assert SubgraphNodes(s, k) == block + SubgraphNodes(s, k + 1);
      assert SubgraphNodes(s, 0)[Offset(s, k) + FlatIndex(s.subgraphs[k], Inner(spot))]
             == SubgraphNodes(s, k)[FlatIndex(s.subgraphs[k], Inner(spot))];
    }
  }

  lemma {:induction false} FlatOrder(s: Snapshot, a: Spot, b: Spot)
    requires Holds(s, a) && Holds(s, b) && Precedes(a, b)
    ensures FlatIndex(s, a) < FlatIndex(s, b)
    decreases |a.at|
  {
    if a.at != [] {
      if a.at[0] == b.at[0] {
        FlatOrder(s.subgraphs[a.at[0]], Inner(a), Inner(b));
      } else {
        FlatAt(s.subgraphs[a.at[0]], Inner(a));
        OffsetsGrow(s, a.at[0], b.at[0]);
      }
    }
  }

  lemma {:induction false} PlacesCompare(a: Spot, b: Spot)
    ensures a == b || Precedes(a, b) || Precedes(b, a)
    decreases |a.at|
  {
    if a.at != [] && b.at != [] && a.at[0] == b.at[0] {
      PlacesCompare(Inner(a), Inner(b));
      assert a.at == [a.at[0]] + a.at[1..] && b.at == [b.at[0]] + b.at[1..];
    }
  }

  lemma {:induction false} SpotOf(s: Snapshot, n: nat) returns (spot: Spot)
    requires n < |AllNodes(s)|
    ensures Holds(s, spot) && FlatIndex(s, spot) == n
    decreases s, 1, 0
  {
    if n < |s.nodes| { spot := Spot([], n); } else { spot := SpotBeyond(s, 0, n - |s.nodes|); }
  }

  /** Place `n` of the subgraphs from the `k`-th on. */
  lemma {:induction false} SpotBeyond(s: Snapshot, k: nat, n: nat) returns (spot: Spot)
    requires k <= |s.subgraphs| && n < |SubgraphNodes(s, k)|
    ensures Holds(s, spot) && FlatIndex(s, spot) == |s.nodes| + Offset(s, k) + n
    decreases s, 0, |s.subgraphs| - k
  {
    var block := AllNodes(s.subgraphs[k]);
    if n < |block| {
      var inner := SpotOf(s.subgraphs[k], n);
      spot := Spot([k] + inner.at, inner.i);
      assert Inner(spot) == inner;
    } else {
      spot := SpotBeyond(s, k + 1, n - |block|);
    }
  }

  lemma IdFlatIff(s: Snapshot, k: string)
    ensures (exists i :: 0 <= i < |AllNodes(s)| && AllNodes(s)[i].id == k) <==> HasId(s, k)
  {
    if i :| 0 <= i < |AllNodes(s)| && AllNodes(s)[i].id == k {
      var spot := SpotOf(s, i);
      FlatAt(s, spot);
    }
    if spot :| Holds(s, spot) && NodeAt(s, spot).id == k { FlatAt(s, spot); }
  }

  lemma LastFlatIsLast(s: Snapshot, k: string, i: nat)
    requires i < |AllNodes(s)| && AllNodes(s)[i].id == k
    requires forall j :: i < j < |AllNodes(s)| ==> AllNodes(s)[j].id != k
    ensures LastOf(s, k, AllNodes(s)[i])
  {
    var spot := SpotOf(s, i);
    FlatAt(s, spot);
    forall other | Holds(s, other) && NodeAt(s, other).id == k ensures other == spot || Precedes(other, spot) {
      FlatAt(s, other);
      PlacesCompare(other, spot);
      if Precedes(spot, other) { FlatOrder(s, spot, other); }
    }
  }

  lemma {:induction false} EdgeFlatIff(s: Snapshot, e: DescribedEdge)
    ensures e in AllEdges(s) <==> EdgeIn(s, e)
    decreases s, 1, 0
  {
    EdgeBeyondIff(s, 0, e);
  }

  lemma {:induction false} EdgeBeyondIff(s: Snapshot, k: nat, e: DescribedEdge)
    requires k <= |s.subgraphs|
    ensures e in SubgraphEdges(s, k) <==> exists i :: k <= i < |s.subgraphs| && EdgeIn(s.subgraphs[i], e)
    decreases s, 0, |s.subgraphs| - k
  {
    if k < |s.subgraphs| {
      EdgeFlatIff(s.subgraphs[k], e);
      EdgeBeyondIff(s, k + 1, e);
    }
  }
}
