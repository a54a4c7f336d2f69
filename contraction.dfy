/** What one contraction trial computes, as functions of the graph and of the
    order in which the edges are visited.  `karger_step` draws that order
    with `random_permutation`; here it is an argument. */
module Contraction {
  import opened Edges
  import opened Partition

  /** Every endpoint is a valid index into a union-find over 0..n. */
  predicate EdgesWithin(edges: seq<Edge>, n: nat)
  {
    forall j :: 0 <= j < |edges| ==> edges[j].v1 < n && edges[j].v2 < n
  }

  predicate IndicesWithin(order: seq<nat>, m: nat)
  {
    forall j :: 0 <= j < |order| ==> order[j] < m
  }

  /** `perm` is `(0..m).collect()` after a shuffle: each index once. */
  predicate IsPermutation(perm: seq<nat>, m: nat)
  {
    multiset(perm) == multiset(Range(m))
  }

  lemma PermutationFacts(perm: seq<nat>, m: nat)
    requires IsPermutation(perm, m)
    ensures |perm| == m && IndicesWithin(perm, m)
    ensures forall i :: 0 <= i < m ==> i in perm
  {
    assert |perm| == |multiset(perm)| == |multiset(Range(m))| == |Range(m)|;
    forall j | 0 <= j < |perm|
      ensures perm[j] < m
    {
      assert perm[j] in multiset(Range(m));
    }
    forall i | 0 <= i < m
      ensures i in perm
    {
      assert Range(m)[i] == i;
      assert i in multiset(Range(m));
    }
  }

  /** An edge crosses a partition when its endpoints are in different classes. */
  predicate Crosses(e: Edge, labels: seq<nat>)
    requires e.v1 < |labels| && e.v2 < |labels|
  {
    labels[e.v1] != labels[e.v2]
  }

  /** The partition reached so far and the number of unions performed. */
  datatype State = State(labels: seq<nat>, merges: nat)

  /** The first loop of `karger_step` after visiting the edges `order`: it
      starts from singletons; once `n - 2` unions have been done it stops;
      otherwise it merges the endpoints of an edge whose endpoints are in
      different classes and counts the union.  (`n - 2` is only evaluated
      once an edge is visited, so fewer than two vertices are fine when
      there is nothing to visit.) */
  function Contract(edges: seq<Edge>, n: nat, order: seq<nat>): (c: State)
    requires (n >= 2 || order == []) && EdgesWithin(edges, n) && IndicesWithin(order, |edges|)
    ensures |c.labels| == n && LabelsBelow(c.labels, n)
    decreases |order|
  {
    if order == [] then State(Range(n), 0)
    else
      var c := Contract(edges, n, order[..|order| - 1]);
      var e := edges[order[|order| - 1]];
      if c.merges >= n - 2 then c
      else if Crosses(e, c.labels) then
        MergeJoinsExactly(c.labels, e.v1, e.v2);
        State(Merge(c.labels, e.v1, e.v2), c.merges + 1)
      else c
  }

  /** The number of edges that cross the partition (the second loop of
      `karger_step`, counted in edge order). */
  function CutSize(edges: seq<Edge>, labels: seq<nat>): (r: nat)
    requires EdgesWithin(edges, |labels|)
    ensures r <= |edges|
  {
    if edges == [] then 0
    else CutSize(edges[..|edges| - 1], labels) + (if Crosses(edges[|edges| - 1], labels) then 1 else 0)
  }

  /** The number of edges that are not self-loops. */
  function LoopFreeCount(edges: seq<Edge>): nat
  {
    if edges == [] then 0
    else LoopFreeCount(edges[..|edges| - 1]) + (if edges[|edges| - 1].v1 != edges[|edges| - 1].v2 then 1 else 0)
  }

  /** The number of crossing edges met when visiting the edges `idx`. */
  function CountAlong(edges: seq<Edge>, labels: seq<nat>, idx: seq<nat>): (r: nat)
    requires EdgesWithin(edges, |labels|) && IndicesWithin(idx, |edges|)
    ensures r <= |idx|
  {
    if idx == [] then 0
    else CountAlong(edges, labels, idx[..|idx| - 1]) + (if Crosses(edges[idx[|idx| - 1]], labels) then 1 else 0)
  }

  /** The result of a trial that visits the edges in the order `perm`. */
  function TrialResult(edges: seq<Edge>, n: nat, perm: seq<nat>): (r: nat)
    requires (n >= 2 || edges == []) && EdgesWithin(edges, n) && IsPermutation(perm, |edges|)
    ensures r <= |edges|
  {
    PermutationFacts(perm, |edges|);
    CutSize(edges, Contract(edges, n, perm).labels)
  }

  // ---------------------------------------------------------------------
  // The contraction loop
  // ---------------------------------------------------------------------

  /** The merge counter never passes `n - 2`, and every union removes exactly
      one class, so `n - merges` classes remain: always at least two. */
  lemma {:induction false} ContractCountsClasses(edges: seq<Edge>, n: nat, order: seq<nat>)
    requires n >= 2 && EdgesWithin(edges, n) && IndicesWithin(order, |edges|)
    ensures Contract(edges, n, order).merges <= n - 2
    ensures NumClasses(Contract(edges, n, order).labels) == n - Contract(edges, n, order).merges
    decreases |order|
  {
    if order == [] {
      RangeClasses(n);
    } else {
      var prefix := order[..|order| - 1];
      ContractCountsClasses(edges, n, prefix);
      var c := Contract(edges, n, prefix);
      var e := edges[order[|order| - 1]];
      if c.merges < n - 2 && Crosses(e, c.labels) {
        MergeJoinsExactly(c.labels, e.v1, e.v2);
      }
    }
  }

  /** Once `n - 2` unions are done the remaining edges change nothing, so
      breaking out of the loop there gives the same final state. */
  lemma {:induction false} ContractStopsWhenSaturated(edges: seq<Edge>, n: nat, order: seq<nat>, k: nat)
    requires n >= 2 && EdgesWithin(edges, n) && IndicesWithin(order, |edges|)
    requires k <= |order| && Contract(edges, n, order[..k]).merges >= n - 2
    ensures Contract(edges, n, order) == Contract(edges, n, order[..k])
    decreases |order|
  {
    if k < |order| {
      var prefix := order[..|order| - 1];
      assert prefix[..k] == order[..k];
      ContractStopsWhenSaturated(edges, n, prefix, k);
    } else {
      assert order[..k] == order;
    }
  }

  /** When the loop ends before `n - 2` unions, every visited edge has been
      contracted: its endpoints are in one class. */
  lemma {:induction false} ContractUnsaturated(edges: seq<Edge>, n: nat, order: seq<nat>)
    requires n >= 2 && EdgesWithin(edges, n) && IndicesWithin(order, |edges|)
    requires Contract(edges, n, order).merges < n - 2
    ensures forall j :: 0 <= j < |order| ==> !Crosses(edges[order[j]], Contract(edges, n, order).labels)
    decreases |order|
  {
    if order != [] {
      var prefix := order[..|order| - 1];
      var p := Contract(edges, n, prefix);
      var c := Contract(edges, n, order);
      var e := edges[order[|order| - 1]];
      assert p.merges < n - 2;
      ContractUnsaturated(edges, n, prefix);
      forall j | 0 <= j < |order|
        ensures !Crosses(edges[order[j]], c.labels)
      {
        var f := edges[order[j]];
        if j < |prefix| {
          assert order[j] == prefix[j];
          assert p.labels[f.v1] == p.labels[f.v2];
        }
        if Crosses(e, p.labels) {
          assert c.labels == Merge(p.labels, e.v1, e.v2);
          if j < |prefix| {
            assert c.labels[f.v1] == c.labels[f.v2];
          }
        } else {
          assert c == p;
        }
      }
    }
  }

  // ---------------------------------------------------------------------
  // Counting the cut
  // ---------------------------------------------------------------------

  lemma {:induction false} CountAlongAppend(edges: seq<Edge>, labels: seq<nat>, s: seq<nat>, t: seq<nat>)
    requires EdgesWithin(edges, |labels|) && IndicesWithin(s, |edges|) && IndicesWithin(t, |edges|)
    ensures IndicesWithin(s + t, |edges|)
    ensures CountAlong(edges, labels, s + t) == CountAlong(edges, labels, s) + CountAlong(edges, labels, t)
    decreases |t|
  {
    if t == [] {
      assert s + t == s;
    } else {
      var t' := t[..|t| - 1];
      CountAlongAppend(edges, labels, s, t');
      assert (s + t)[..|s + t| - 1] == s + t';
    }
  }

  lemma MultisetRemove(t: seq<nat>, i: nat)
    requires i < |t|
    ensures t == t[..i] + [t[i]] + t[i + 1..]
    ensures multiset(t[..i] + t[i + 1..]) == multiset(t) - multiset{t[i]}
  {
    var x, front, back := t[i], t[..i], t[i + 1..];
    assert t[i..] == [x] + back;
    assert t == front + t[i..];
    assert multiset(t) == multiset(front) + multiset{x} + multiset(back);
  }

  /** If `t` has the same elements as `s`, the last element of `s` occurs in
      `t`, and the rest of `s` has the same elements as the rest of `t`. */
  lemma MatchLast(s: seq<nat>, t: seq<nat>) returns (front: seq<nat>, back: seq<nat>)
    requires s != [] && multiset(s) == multiset(t)
    ensures t == front + [s[|s| - 1]] + back
    ensures multiset(s[..|s| - 1]) == multiset(front + back)
  {
    var x, s' := s[|s| - 1], s[..|s| - 1];
    assert s == s' + [x];
    assert multiset(s') == multiset(s) - multiset{x};
    assert x in multiset(t);
    var i :| 0 <= i < |t| && t[i] == x;
    MultisetRemove(t, i);
    front, back := t[..i], t[i + 1..];
  }

  /** Taking one visit out of the middle of a walk. */
  lemma CountAlongRemove(edges: seq<Edge>, labels: seq<nat>, front: seq<nat>, x: nat, back: seq<nat>)
    requires EdgesWithin(edges, |labels|) && IndicesWithin(front, |edges|) && x < |edges| && IndicesWithin(back, |edges|)
    ensures IndicesWithin(front + [x] + back, |edges|) && IndicesWithin(front + back, |edges|)
    ensures CountAlong(edges, labels, front + [x] + back) ==
              CountAlong(edges, labels, front + back) + (if Crosses(edges[x], labels) then 1 else 0)
  {
    var head := front + [x];
    assert IndicesWithin(head, |edges|);
    assert CountAlong(edges, labels, head) == CountAlong(edges, labels, front) + (if Crosses(edges[x], labels) then 1 else 0) by {
      assert head[..|head| - 1] == front;
    }
    CountAlongAppend(edges, labels, front, back);
    CountAlongAppend(edges, labels, head, back);
  }

  /** The count does not depend on the order in which the edges are visited. */
  lemma {:induction false} CountAlongReordered(edges: seq<Edge>, labels: seq<nat>, s: seq<nat>, t: seq<nat>)
    requires EdgesWithin(edges, |labels|) && IndicesWithin(s, |edges|) && IndicesWithin(t, |edges|)
    requires multiset(s) == multiset(t)
    ensures CountAlong(edges, labels, s) == CountAlong(edges, labels, t)
    decreases |s|
  {
    if s != [] {
      var x, s' := s[|s| - 1], s[..|s| - 1];
      var front, back := MatchLast(s, t);
      assert IndicesWithin(front, |edges|) && IndicesWithin(back, |edges|) by {
        assert forall j :: 0 <= j < |front| ==> front[j] == t[j];
        assert forall j :: 0 <= j < |back| ==> back[j] == t[|front| + 1 + j];
      }
      CountAlongRemove(edges, labels, front, x, back);
      CountAlongReordered(edges, labels, s', front + back);
    } else {
      assert |t| == |multiset(t)| == |multiset(s)| == 0;
    }
  }

  /** Visiting the edges in index order counts the cut. */
  lemma {:induction false} CountAlongRange(edges: seq<Edge>, labels: seq<nat>, k: nat)
    requires EdgesWithin(edges, |labels|) && k <= |edges|
    ensures IndicesWithin(Range(k), |edges|)
    ensures CountAlong(edges, labels, Range(k)) == CutSize(edges[..k], labels)
  {
    if k > 0 {
      CountAlongRange(edges, labels, k - 1);
      assert Range(k)[..k - 1] == Range(k - 1);
      assert edges[..k][..k - 1] == edges[..k - 1];
    }
  }

  /** The second loop of `karger_step` walks `perm`, not the edge list;
      because `perm` is a permutation it still counts every crossing edge
      exactly once. */
  lemma CountAlongPermutation(edges: seq<Edge>, labels: seq<nat>, perm: seq<nat>)
    requires EdgesWithin(edges, |labels|) && IsPermutation(perm, |edges|)
    ensures IndicesWithin(perm, |edges|)
    ensures CountAlong(edges, labels, perm) == CutSize(edges, labels)
  {
    PermutationFacts(perm, |edges|);
    CountAlongRange(edges, labels, |edges|);
    assert edges[..|edges|] == edges;
    CountAlongReordered(edges, labels, perm, Range(|edges|));
  }

  /** A self-loop never crosses, so the cut is at most the number of edges
      that are not self-loops; on the singleton partition it is exactly that. */
  lemma {:induction false} CutSizeIgnoresLoops(edges: seq<Edge>, labels: seq<nat>)
    requires EdgesWithin(edges, |labels|)
    ensures CutSize(edges, labels) <= LoopFreeCount(edges)
    ensures labels == Range(|labels|) ==> CutSize(edges, labels) == LoopFreeCount(edges)
  {
    if edges != [] {
      CutSizeIgnoresLoops(edges[..|edges| - 1], labels);
    }
  }

  // ---------------------------------------------------------------------
  // What a trial returns
  // ---------------------------------------------------------------------

  /** A trial returns the number of edges crossing its final partition,
      which has `n - merges >= 2` classes.  Either exactly two classes remain
      (the two super-vertices), or the walk ran out of edges first: then every
      edge was contracted and the result is 0.  Self-loops never count. */
  lemma TrialOutcome(edges: seq<Edge>, n: nat, perm: seq<nat>)
    requires n >= 2 && EdgesWithin(edges, n) && IsPermutation(perm, |edges|)
    ensures IndicesWithin(perm, |edges|)
    ensures var c := Contract(edges, n, perm);
            && c.merges <= n - 2
            && NumClasses(c.labels) == n - c.merges
            && TrialResult(edges, n, perm) == CutSize(edges, c.labels)
            && (NumClasses(c.labels) == 2 || TrialResult(edges, n, perm) == 0)
    ensures TrialResult(edges, n, perm) <= LoopFreeCount(edges) <= |edges|
  {
    PermutationFacts(perm, |edges|);
    var c := Contract(edges, n, perm);
    ContractCountsClasses(edges, n, perm);
    CutSizeIgnoresLoops(edges, c.labels);
    LoopFreeBound(edges);
    if c.merges < n - 2 {
      ContractUnsaturated(edges, n, perm);
      NoCrossingNoCut(edges, c.labels, perm);
    }
  }

  // ---------------------------------------------------------------------
  // A trial is the cut of a bipartition
  // ---------------------------------------------------------------------

  /** A split of the vertices `0..n` into two non-empty sides, 0 and 1. */
  predicate IsBipartition(sides: seq<nat>, n: nat)
  {
    |sides| == n && LabelsBelow(sides, 2) && NumClasses(sides) == 2
  }

  /** The class of vertex 0 on side 0, every other class on side 1. */
  function SideOf(labels: seq<nat>): (sides: seq<nat>)
    requires labels != []
    ensures |sides| == |labels| && LabelsBelow(sides, 2)
    ensures forall x, y :: 0 <= x < |labels| && 0 <= y < |labels| && labels[x] == labels[y] ==> sides[x] == sides[y]
  {
    seq(|labels|, x requires 0 <= x < |labels| => if labels[x] == labels[0] then 0 else 1)
  }

  /** With at least two classes, both sides are non-empty. */
  lemma SideOfTwoClasses(labels: seq<nat>)
    requires NumClasses(labels) >= 2
    ensures labels != [] && NumClasses(SideOf(labels)) == 2
  {
    assert Classes([]) == {};
    var others := Classes(labels) - {labels[0]};
    assert Classes(labels) == others + {labels[0]};
    assert |others| >= 1;
    var c :| c in others;
    var x :| 0 <= x < |labels| && labels[x] == c;
    var sides := SideOf(labels);
    assert sides[0] == 0 && sides[x] == 1;
    assert Classes(sides) == {0, 1};
  }

  /** Uniting classes never adds crossing edges. */
  lemma {:induction false} CutSizeCoarser(edges: seq<Edge>, fine: seq<nat>, coarse: seq<nat>)
    requires |fine| == |coarse| && EdgesWithin(edges, |fine|)
    requires forall x, y :: 0 <= x < |fine| && 0 <= y < |fine| && fine[x] == fine[y] ==> coarse[x] == coarse[y]
    ensures CutSize(edges, coarse) <= CutSize(edges, fine)
  {
    if edges != [] {
      CutSizeCoarser(edges[..|edges| - 1], fine, coarse);
    }
  }

  /** Every trial returns at least the cut of some bipartition of `0..n`:
      putting the class of vertex 0 on one side and the other classes on
      the other side cuts no more edges than the trial counts. */
  lemma TrialAboveBipartition(edges: seq<Edge>, n: nat, perm: seq<nat>)
    requires n >= 2 && EdgesWithin(edges, n) && IsPermutation(perm, |edges|)
    ensures IndicesWithin(perm, |edges|)
    ensures var sides := SideOf(Contract(edges, n, perm).labels);
            IsBipartition(sides, n) && CutSize(edges, sides) <= TrialResult(edges, n, perm)
  {
    TrialOutcome(edges, n, perm);
    var labels := Contract(edges, n, perm).labels;
    SideOfTwoClasses(labels);
    CutSizeCoarser(edges, labels, SideOf(labels));
  }

  /** No trial returns less than the minimum cut: a bound `m` on the cut of
      every bipartition bounds every trial. */
  lemma TrialNotBelowMinCut(edges: seq<Edge>, n: nat, perm: seq<nat>, m: nat)
    requires n >= 2 && EdgesWithin(edges, n) && IsPermutation(perm, |edges|)
    requires forall sides :: IsBipartition(sides, n) ==> m <= CutSize(edges, sides)
    ensures m <= TrialResult(edges, n, perm)
  {
    TrialAboveBipartition(edges, n, perm);
  }

  lemma {:induction false} LoopFreeBound(edges: seq<Edge>)
    ensures LoopFreeCount(edges) <= |edges|
  {
    if edges != [] {
      LoopFreeBound(edges[..|edges| - 1]);
    }
  }

  /** If no edge visited by `perm` crosses, nothing crosses. */
  lemma NoCrossingNoCut(edges: seq<Edge>, labels: seq<nat>, perm: seq<nat>)
    requires EdgesWithin(edges, |labels|) && IsPermutation(perm, |edges|)
    requires IndicesWithin(perm, |edges|)
    requires forall j :: 0 <= j < |perm| ==> !Crosses(edges[perm[j]], labels)
    ensures CutSize(edges, labels) == 0
  {
    CountAlongPermutation(edges, labels, perm);
    NoCrossingAlong(edges, labels, perm);
  }

  lemma {:induction false} NoCrossingAlong(edges: seq<Edge>, labels: seq<nat>, idx: seq<nat>)
    requires EdgesWithin(edges, |labels|) && IndicesWithin(idx, |edges|)
    requires forall j :: 0 <= j < |idx| ==> !Crosses(edges[idx[j]], labels)
    ensures CountAlong(edges, labels, idx) == 0
    decreases |idx|
  {
    if idx != [] {
      NoCrossingAlong(edges, labels, idx[..|idx| - 1]);
    }
  }

  /** With two vertices the loop breaks at once (`0 >= 0`): no union ever
      happens, and the result is the number of edges that are not self-loops. */
  lemma {:induction false} TwoVertexContraction(edges: seq<Edge>, order: seq<nat>)
    requires EdgesWithin(edges, 2) && IndicesWithin(order, |edges|)
    ensures Contract(edges, 2, order) == State(Range(2), 0)
    decreases |order|
  {
    if order != [] {
      TwoVertexContraction(edges, order[..|order| - 1]);
    }
  }

  lemma TwoVertexTrial(edges: seq<Edge>, perm: seq<nat>)
    requires EdgesWithin(edges, 2) && IsPermutation(perm, |edges|)
    ensures TrialResult(edges, 2, perm) == LoopFreeCount(edges)
  {
    PermutationFacts(perm, |edges|);
    TwoVertexContraction(edges, perm);
    CutSizeIgnoresLoops(edges, Range(2));
  }

  /** The single edge (0, 1) is always cut once. */
  lemma SingleEdgeTrial(perm: seq<nat>)
    requires IsPermutation(perm, 1)
    ensures TrialResult([Edge(0, 1)], 2, perm) == 1
  {
    TwoVertexTrial([Edge(0, 1)], perm);
    assert [Edge(0, 1)][..0] == [];
  }

  /** The triangle on 0, 1, 2. */
  function Triangle(): seq<Edge>
  {
    [Edge(0, 1), Edge(1, 2), Edge(0, 2)]
  }

  /** Every trial on the triangle contracts one edge and cuts the other two. */
  lemma TriangleTrial(perm: seq<nat>)
    requires IsPermutation(perm, 3)
    ensures TrialResult(Triangle(), 3, perm) == 2
  {
    var edges := Triangle();
    PermutationFacts(perm, 3);
    var first := perm[..1];
    assert first[..0] == [];
    var e := edges[perm[0]];
    assert Contract(edges, 3, first) == State(Merge(Range(3), e.v1, e.v2), 1);
    ContractStopsWhenSaturated(edges, 3, perm, 1);
    TriangleCut(perm[0]);
  }

  /** Merging the endpoints of one triangle edge leaves the other two cut. */
  lemma TriangleCut(k: nat)
    requires k < 3
    ensures CutSize(Triangle(), Merge(Range(3), Triangle()[k].v1, Triangle()[k].v2)) == 2
  {
    var edges := Triangle();
    var labels := Merge(Range(3), edges[k].v1, edges[k].v2);
    assert edges[..2][..1] == edges[..1] && edges[..3] == edges && edges[..1][..0] == [];
    assert CutSize(edges, labels) == CutSize(edges[..2], labels) + (if Crosses(edges[2], labels) then 1 else 0);
    assert CutSize(edges[..2], labels) == CutSize(edges[..1], labels) + (if Crosses(edges[1], labels) then 1 else 0);
    assert CutSize(edges[..1], labels) == if Crosses(edges[0], labels) then 1 else 0;
  }
}
