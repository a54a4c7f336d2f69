/** The graph as the program holds it: a sequence of undirected edges between
    vertex ids, and the vertex count derived from it (`number_of_vertices`). */
module Edges {

  /** The largest `usize` on a 64-bit target. */
  const UsizeMax: nat := 0xFFFF_FFFF_FFFF_FFFF

  /** An edge between vertex ids `v1` and `v2` (both `usize` in the source);
      `v1 == v2` is a self-loop, and parallel edges are separate entries. */
  datatype Edge = Edge(v1: nat, v2: nat)

  /** Every vertex id named by some edge. */
  function VertexSet(edges: seq<Edge>): (s: set<nat>)
    ensures forall i :: 0 <= i < |edges| ==> edges[i].v1 in s && edges[i].v2 in s
  {
    if edges == [] then {}
    else
      var last := edges[|edges| - 1];
      VertexSet(edges[..|edges| - 1]) + {last.v1, last.v2}
  }

  /** A vertex is in the set exactly when it is an endpoint of some edge. */
  lemma {:induction false} VertexSetMembers(edges: seq<Edge>, x: nat)
    ensures x in VertexSet(edges) <==> exists j :: 0 <= j < |edges| && (edges[j].v1 == x || edges[j].v2 == x)
  {
    if edges != [] {
      var init := edges[..|edges| - 1];
      VertexSetMembers(init, x);
      if x in VertexSet(init) {
        var j :| 0 <= j < |init| && (init[j].v1 == x || init[j].v2 == x);
        assert edges[j] == init[j];
      } else if exists j :: 0 <= j < |edges| && (edges[j].v1 == x || edges[j].v2 == x) {
        var j :| 0 <= j < |edges| && (edges[j].v1 == x || edges[j].v2 == x);
        if j < |init| {
          assert init[j] == edges[j];
        }
      }
    }
  }

  /** Each edge contributes at most two vertices. */
  lemma {:induction false} VertexSetBound(edges: seq<Edge>)
    ensures |VertexSet(edges)| <= 2 * |edges|
  {
    if edges != [] {
      var init := edges[..|edges| - 1];
      var last := edges[|edges| - 1];
      VertexSetBound(init);
      assert |{last.v1, last.v2}| <= 2;
      assert |VertexSet(init) + {last.v1, last.v2}| <= |VertexSet(init)| + |{last.v1, last.v2}|;
    }
  }

  /** `number_of_vertices`: inserts both endpoints of every edge into a set
      and returns its size. */
  method NumberOfVertices(edges: seq<Edge>) returns (count: nat)
    ensures count == |VertexSet(edges)|
    ensures count <= 2 * |edges|
  {
    var v: set<nat> := {};
    for i := 0 to |edges|
      invariant v == VertexSet(edges[..i])
    {
      assert edges[..i + 1][..i] == edges[..i];
      v := v + {edges[i].v1};
      v := v + {edges[i].v2};
    }
    assert edges[..|edges|] == edges;
    count := |v|;
    VertexSetBound(edges);
  }

  /** The edges (0,1), (1,2) name three vertices. */
  lemma PathOfTwoEdges()
    ensures |VertexSet([Edge(0, 1), Edge(1, 2)])| == 3
  {
    var edges := [Edge(0, 1), Edge(1, 2)];
    assert edges[..1] == [Edge(0, 1)];
    assert VertexSet(edges) == {0, 1, 2};
  }
}
