/** Karger's randomised contraction and the two estimators built on it.
    Every call of `karger_step` draws a fresh `random_permutation` of the
    edge indices; here the permutations are arguments (`perm`, `perms`), so
    each method is proved against the pure model in `Contraction` for the
    permutations it is given. */
module Karger {
  import opened Edges
  import opened Partition
  import opened UnionFind
  import opened Contraction

  // ---------------------------------------------------------------------
  // One trial
  // ---------------------------------------------------------------------

  /** `karger_step`: contracts edges in the order `perm` with a union-find
      until `n - 2` unions are done, then counts the edges whose endpoints
      lie in different classes.  The result is the trial's cut size as the
      pure model defines it (see `TrialOutcome` for what that is). */
  method KargerStep(edges: seq<Edge>, n: nat, perm: seq<nat>) returns (cut: nat)
    requires (n >= 2 || edges == []) && EdgesWithin(edges, n) && IsPermutation(perm, |edges|)
    ensures IndicesWithin(perm, |edges|)
    ensures cut == TrialResult(edges, n, perm)
    ensures cut <= LoopFreeCount(edges)
  {
    PermutationFacts(perm, |edges|);
    var uf := new QuickUnionUf(n);
    ContractEdges(uf, edges, n, perm);
    var labels := Contract(edges, n, perm).labels;
    cut := CountCut(uf, edges, labels, perm);
    CountAlongPermutation(edges, labels, perm);
    if n >= 2 {
      TrialOutcome(edges, n, perm);
    }
  }

  /** The first loop of `karger_step`: visits the edges in the order `perm`,
      stopping once `n - 2` unions are done, and unites the endpoints of
      every visited edge that joins two classes.  Afterwards the union-find
      holds the model's partition. */
  method ContractEdges(uf: QuickUnionUf, edges: seq<Edge>, n: nat, perm: seq<nat>)
    requires (n >= 2 || perm == []) && EdgesWithin(edges, n) && IndicesWithin(perm, |edges|)
    requires uf.Valid() && uf.size == n && uf.rep == Range(n)
    modifies uf, uf.parent, uf.rank
    ensures uf.Valid() && uf.size == n
    ensures SamePartition(uf.rep, Contract(edges, n, perm).labels)
  {
    var counter: nat := 0;
    var k := 0;
    while k < |perm|
      invariant k <= |perm|
      invariant uf.Valid() && uf.size == n
      invariant Contract(edges, n, perm[..k]).merges == counter
      invariant SamePartition(uf.rep, Contract(edges, n, perm[..k]).labels)
      decreases |perm| - k
    {
      if counter >= n - 2 {
        ContractStopsWhenSaturated(edges, n, perm, k);
        return;
      }
      counter := VisitEdge(uf, edges, n, perm, k, counter);
      k := k + 1;
    }
    assert perm[..k] == perm;
  }

  /** One pass of the first loop that does not break: unites the endpoints
      of `edges[perm[k]]` when they have different roots, and counts the
      union. */
  method VisitEdge(uf: QuickUnionUf, edges: seq<Edge>, n: nat, perm: seq<nat>, k: nat, counter: nat)
    returns (counter': nat)
    requires n >= 2 && EdgesWithin(edges, n) && IndicesWithin(perm, |edges|) && k < |perm|
    requires uf.Valid() && uf.size == n
    requires Contract(edges, n, perm[..k]).merges == counter < n - 2
    requires SamePartition(uf.rep, Contract(edges, n, perm[..k]).labels)
    modifies uf, uf.parent, uf.rank
    ensures uf.Valid() && uf.size == n
    ensures Contract(edges, n, perm[..k + 1]).merges == counter'
    ensures SamePartition(uf.rep, Contract(edges, n, perm[..k + 1]).labels)
  {
    ContractStep(uf, edges, n, perm, k);
    var e := edges[perm[k]];
    var r1 := uf.Find(e.v1);
    var r2 := uf.Find(e.v2);
    counter' := counter;
    if r1 != r2 {
      ghost var before, p := uf.rep, Contract(edges, n, perm[..k]).labels;
      var _ := uf.Union(e.v1, e.v2);
      MergePreservesSamePartition(before, p, uf.rep, Merge(p, e.v1, e.v2), e.v1, e.v2);
      counter' := counter + 1;
    }
  }

  /** The second loop of `karger_step`: walks `perm` again and counts the
      edges whose endpoints have different roots. */
  method CountCut(uf: QuickUnionUf, edges: seq<Edge>, labels: seq<nat>, perm: seq<nat>) returns (cut: nat)
    requires uf.Valid() && uf.size == |labels| && SamePartition(uf.rep, labels)
    requires EdgesWithin(edges, |labels|) && IndicesWithin(perm, |edges|)
    ensures cut == CountAlong(edges, labels, perm)
  {
    cut := 0;
    for j := 0 to |perm|
      invariant cut == CountAlong(edges, labels, perm[..j])
    {
      var e := edges[perm[j]];
      var r1 := uf.Find(e.v1);
      var r2 := uf.Find(e.v2);
      assert perm[..j + 1][..j] == perm[..j];
      if r1 != r2 {
        cut := cut + 1;
      }
    }
    assert perm[..|perm|] == perm;
  }

  /** What one pass of the first loop needs: the union-find's classes relate
      to the model's before and after visiting `perm[k]` with the same test
      the source applies (`find(v1) != find(v2)`). */
  lemma ContractStep(uf: QuickUnionUf, edges: seq<Edge>, n: nat, perm: seq<nat>, k: nat)
    requires n >= 2 && EdgesWithin(edges, n) && IndicesWithin(perm, |edges|) && k < |perm|
    requires uf.Valid() && uf.size == n
    requires Contract(edges, n, perm[..k]).merges < n - 2
    requires SamePartition(uf.rep, Contract(edges, n, perm[..k]).labels)
    ensures var p, e := Contract(edges, n, perm[..k]), edges[perm[k]];
            && (uf.rep[e.v1] != uf.rep[e.v2] <==> Crosses(e, p.labels))
            && Contract(edges, n, perm[..k + 1]) ==
                 (if Crosses(e, p.labels) then State(Merge(p.labels, e.v1, e.v2), p.merges + 1) else p)
            && (Crosses(e, p.labels) ==> MergedFrom(Merge(p.labels, e.v1, e.v2), p.labels, e.v1, e.v2))
  {
    assert perm[..k + 1][..k] == perm[..k];
    var p, e := Contract(edges, n, perm[..k]), edges[perm[k]];
    MergeJoinsExactly(p.labels, e.v1, e.v2);
  }

  // ---------------------------------------------------------------------
  // Repeated trials
  // ---------------------------------------------------------------------

  predicate AllPermutations(perms: seq<seq<nat>>, m: nat)
  {
    forall t :: 0 <= t < |perms| ==> IsPermutation(perms[t], m)
  }

  /** The results of the trials that visit the edges in the orders `perms`. */
  function Trials(edges: seq<Edge>, n: nat, perms: seq<seq<nat>>): (r: seq<nat>)
    requires (n >= 2 || edges == []) && EdgesWithin(edges, n) && AllPermutations(perms, |edges|)
    ensures |r| == |perms|
    ensures forall t :: 0 <= t < |r| ==> r[t] <= |edges|
  {
    seq(|perms|, t requires 0 <= t < |perms| => TrialResult(edges, n, perms[t]))
  }

  /** The minimum kept by `karger_run_n`: it starts at `usize::MAX` and is
      replaced by every result that is strictly smaller. */
  function RunningMin(results: seq<nat>): (r: nat)
    ensures r <= UsizeMax
  {
    if results == [] then UsizeMax
    else
      var m := RunningMin(results[..|results| - 1]);
      var v := results[|results| - 1];
      if v < m then v else m
  }

  /** The running minimum is the least of `usize::MAX` and the results: it
      is no larger than either, and it is one of them. */
  lemma {:induction false} RunningMinIsMinimum(results: seq<nat>)
    ensures RunningMin(results) <= UsizeMax
    ensures forall t :: 0 <= t < |results| ==> RunningMin(results) <= results[t]
    ensures RunningMin(results) == UsizeMax || RunningMin(results) in results
  {
    if results != [] {
      var init := results[..|results| - 1];
      RunningMinIsMinimum(init);
      assert results == init + [results[|results| - 1]];
    }
  }

  /** With at least one result, none above `usize::MAX`, the running minimum
      is attained by some result. */
  lemma RunningMinAttained(results: seq<nat>)
    requires results != [] && forall t :: 0 <= t < |results| ==> results[t] <= UsizeMax
    ensures exists t :: 0 <= t < |results| && RunningMin(results) == results[t]
  {
    RunningMinIsMinimum(results);
    if RunningMin(results) !in results {
      assert results[0] <= UsizeMax == RunningMin(results) <= results[0];
    }
  }

  /** More trials never raise the minimum. */
  lemma {:induction false} RunningMinMonotone(s: seq<nat>, t: seq<nat>)
    ensures RunningMin(s + t) <= RunningMin(s)
    decreases |t|
  {
    if t == [] {
      assert s + t == s;
    } else {
      var t' := t[..|t| - 1];
      assert (s + t)[..|s + t| - 1] == s + t';
      RunningMinMonotone(s, t');
    }
  }

  /** `karger_run_n`: the least trial result over `numberOfRepeats` trials,
      `usize::MAX` when there are none. */
  method KargerRunN(edges: seq<Edge>, n: nat, numberOfRepeats: nat, perms: seq<seq<nat>>) returns (minCutEdges: nat)
    requires (n >= 2 || edges == []) && EdgesWithin(edges, n)
    requires |perms| == numberOfRepeats && AllPermutations(perms, |edges|)
    ensures minCutEdges == RunningMin(Trials(edges, n, perms))
    ensures forall t :: 0 <= t < numberOfRepeats ==> minCutEdges <= TrialResult(edges, n, perms[t])
    ensures numberOfRepeats == 0 ==> minCutEdges == UsizeMax
    ensures numberOfRepeats > 0 && |edges| <= UsizeMax ==>
              exists t :: 0 <= t < numberOfRepeats && minCutEdges == TrialResult(edges, n, perms[t])
  {
    ghost var results := Trials(edges, n, perms);
    minCutEdges := UsizeMax;
    for t := 0 to numberOfRepeats
      invariant minCutEdges == RunningMin(results[..t])
    {
      var cutEdges := KargerStep(edges, n, perms[t]);
      assert results[..t + 1][..t] == results[..t];
      if cutEdges < minCutEdges {
        minCutEdges := cutEdges;
      }
    }
    assert results[..numberOfRepeats] == results;
    RunNOutcome(edges, n, perms);
  }

  /** What the minimum over the trials `perms` is. */
  lemma RunNOutcome(edges: seq<Edge>, n: nat, perms: seq<seq<nat>>)
    requires (n >= 2 || edges == []) && EdgesWithin(edges, n) && AllPermutations(perms, |edges|)
    ensures forall t :: 0 <= t < |perms| ==> RunningMin(Trials(edges, n, perms)) <= TrialResult(edges, n, perms[t])
    ensures perms == [] ==> RunningMin(Trials(edges, n, perms)) == UsizeMax
    ensures perms != [] && |edges| <= UsizeMax ==>
              exists t :: 0 <= t < |perms| && RunningMin(Trials(edges, n, perms)) == TrialResult(edges, n, perms[t])
  {
    var results := Trials(edges, n, perms);
    RunningMinIsMinimum(results);
    forall t | 0 <= t < |perms|
      ensures RunningMin(results) <= TrialResult(edges, n, perms[t])
    {
      assert results[t] == TrialResult(edges, n, perms[t]);
    }
    if perms != [] && |edges| <= UsizeMax {
      forall t | 0 <= t < |results|
        ensures results[t] <= UsizeMax
      {
        assert results[t] == TrialResult(edges, n, perms[t]);
      }
      RunningMinAttained(results);
      var t :| 0 <= t < |results| && RunningMin(results) == results[t];
      assert RunningMin(results) == TrialResult(edges, n, perms[t]);
    }
  }

  /** The minimum of `karger_run_n` is only an upper bound on the minimum
      cut: it is never below the cut of every bipartition. */
  lemma RunNNotBelowMinCut(edges: seq<Edge>, n: nat, perms: seq<seq<nat>>, m: nat)
    requires n >= 2 && EdgesWithin(edges, n) && AllPermutations(perms, |edges|)
    requires perms != [] && |edges| <= UsizeMax
    requires forall sides :: IsBipartition(sides, n) ==> m <= CutSize(edges, sides)
    ensures m <= RunningMin(Trials(edges, n, perms))
  {
    RunNOutcome(edges, n, perms);
    var t :| 0 <= t < |perms| && RunningMin(Trials(edges, n, perms)) == TrialResult(edges, n, perms[t]);
    TrialNotBelowMinCut(edges, n, perms[t], m);
  }

  // ---------------------------------------------------------------------
  // Trials until the optimum is met
  // ---------------------------------------------------------------------

  /** `REPETITION_LIMIT` of `karger_run_until`. */
  const RepetitionLimit: nat := 1000

  /** The repetition count `karger_run_until` returns for the results
      `results`: the position (counting from one) of the first result equal to
      `opt`, or the number of results when none is. */
  function Attempts(results: seq<nat>, opt: nat): (r: nat)
    ensures r <= |results|
    ensures results != [] ==> 1 <= r
  {
    if results == [] then 0
    else if results[0] == opt then 1
    else 1 + Attempts(results[1..], opt)
  }

  /** The count is the first hit, if there is one, and the whole length
      otherwise. */
  lemma {:induction false} AttemptsMeaning(results: seq<nat>, opt: nat)
    ensures Attempts(results, opt) <= |results|
    ensures results != [] ==> 1 <= Attempts(results, opt)
    ensures forall j :: 0 <= j < Attempts(results, opt) - 1 ==> results[j] != opt
    ensures (exists j :: 0 <= j < |results| && results[j] == opt) <==>
              (Attempts(results, opt) >= 1 && results[Attempts(results, opt) - 1] == opt)
    ensures (forall j :: 0 <= j < |results| ==> results[j] != opt) ==> Attempts(results, opt) == |results|
  {
    if results != [] && results[0] != opt {
      var rest := results[1..];
      AttemptsMeaning(rest, opt);
      var r := Attempts(results, opt);
      assert r == 1 + Attempts(rest, opt);
      forall j | 0 <= j < r - 1
        ensures results[j] != opt
      {
        if j > 0 {
          assert results[j] == rest[j - 1];
        }
      }
      if exists j :: 0 <= j < |results| && results[j] == opt {
        var j :| 0 <= j < |results| && results[j] == opt;
        assert rest[j - 1] == opt;
      }
      if forall j :: 0 <= j < |results| ==> results[j] != opt {
        forall j | 0 <= j < |rest|
          ensures rest[j] != opt
        {
          assert rest[j] == results[j + 1];
        }
      }
    }
  }

  /** A count `k` that meets the description of `AttemptsMeaning` is the
      count. */
  lemma {:induction false} AttemptsUnique(results: seq<nat>, opt: nat, k: nat)
    requires 1 <= k <= |results|
    requires forall j :: 0 <= j < k - 1 ==> results[j] != opt
    requires results[k - 1] == opt || k == |results|
    ensures Attempts(results, opt) == k
    decreases k
  {
    if k > 1 {
      var rest := results[1..];
      forall j | 0 <= j < k - 2
        ensures rest[j] != opt
      {
        assert rest[j] == results[j + 1];
      }
      AttemptsUnique(rest, opt, k - 1);
    }
  }

  /** `karger_run_until`: runs trials until one returns `opt`, at most
      `REPETITION_LIMIT` of them, and returns how many were run.  `perms`
      supplies the order for every trial that may be run. */
  method KargerRunUntil(edges: seq<Edge>, n: nat, opt: nat, perms: seq<seq<nat>>) returns (repetitions: nat)
    requires (n >= 2 || edges == []) && EdgesWithin(edges, n)
    requires |perms| == RepetitionLimit && AllPermutations(perms, |edges|)
    ensures repetitions == Attempts(Trials(edges, n, perms), opt)
    ensures 1 <= repetitions <= RepetitionLimit
    ensures forall t :: 0 <= t < repetitions - 1 ==> TrialResult(edges, n, perms[t]) != opt
    ensures repetitions < RepetitionLimit ==> TrialResult(edges, n, perms[repetitions - 1]) == opt
  {
    ghost var results := Trials(edges, n, perms);
    repetitions := 0;
    while repetitions < RepetitionLimit
      invariant repetitions <= RepetitionLimit
      invariant forall t :: 0 <= t < repetitions ==> results[t] != opt
    {
      var cutEdges := KargerStep(edges, n, perms[repetitions]);
      repetitions := repetitions + 1;
      if cutEdges == opt {
        break;
      }
    }
    AttemptsUnique(results, opt, repetitions);
    forall t | 0 <= t < repetitions - 1
      ensures TrialResult(edges, n, perms[t]) != opt
    {
      assert results[t] == TrialResult(edges, n, perms[t]);
    }
  }

  /** An `opt` that no trial can return (more than the edges that are not
      self-loops) uses up every repetition. */
  lemma UnreachableOptimum(edges: seq<Edge>, n: nat, opt: nat, perms: seq<seq<nat>>)
    requires n >= 2 && EdgesWithin(edges, n)
    requires |perms| == RepetitionLimit && AllPermutations(perms, |edges|)
    requires opt > LoopFreeCount(edges)
    ensures Attempts(Trials(edges, n, perms), opt) == RepetitionLimit
  {
    var results := Trials(edges, n, perms);
    forall t | 0 <= t < |results|
      ensures results[t] != opt
    {
      TrialOutcome(edges, n, perms[t]);
    }
    AttemptsMeaning(results, opt);
  }

  // ---------------------------------------------------------------------
  // The triangle
  // ---------------------------------------------------------------------

  /** The minimum cut of the triangle, 2, is found by any non-empty run,
      and `karger_run_until` with that optimum stops after one trial. */
  lemma TriangleEstimates(perms: seq<seq<nat>>)
    requires perms != [] && AllPermutations(perms, 3)
    ensures RunningMin(Trials(Triangle(), 3, perms)) == 2
    ensures Attempts(Trials(Triangle(), 3, perms), 2) == 1
  {
    var results := Trials(Triangle(), 3, perms);
    forall t | 0 <= t < |results|
      ensures results[t] == 2
    {
      TriangleTrial(perms[t]);
    }
    RunningMinIsMinimum(results);
    RunningMinAttained(results);
  }
}
