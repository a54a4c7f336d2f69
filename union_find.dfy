/** The disjoint-set forest `karger_step` uses (`QuickUnionUf<UnionByRank>`
    from the `union_find` crate): a parent array and a rank array over the
    elements 0..size, with union by rank.  The ghost `rep` gives the
    representative of every element, i.e. the partition the forest stands
    for; `maxRank` bounds every rank and so measures how far `Find` may
    still climb. */
module UnionFind {
  import opened Partition

  /** The forest invariant, on the contents of the parent and rank arrays:
      `rep` gives every element's root, and ranks strictly grow towards the
      root and never exceed `maxRank`. */
  ghost predicate Forest(parent: seq<nat>, rank: seq<nat>, rep: seq<nat>, maxRank: nat)
  {
    && |parent| == |rank| == |rep|
    && (forall x :: 0 <= x < |parent| ==> parent[x] < |parent| && rank[x] <= maxRank)
    // the representative of x is a root
    && (forall x :: 0 <= x < |parent| ==> rep[x] < |parent|)
    && (forall x {:trigger parent[rep[x]]} :: 0 <= x < |parent| ==> parent[rep[x]] == rep[x])
    // a root represents itself
    && (forall x :: 0 <= x < |parent| && parent[x] == x ==> rep[x] == x)
    // a parent is in the same class and has a strictly higher rank
    && (forall x {:trigger rep[parent[x]]} :: 0 <= x < |parent| && parent[x] != x ==> rep[parent[x]] == rep[x] && rank[x] < rank[parent[x]])
  }

  /** Attaching the root of `c`'s class under the root of `d`'s class, with
      the new root's rank raised to `newRank`, keeps the forest invariant and
      merges the two classes. */
  lemma LinkRoots(parent: seq<nat>, rank: seq<nat>, rep: seq<nat>, maxRank: nat,
                  c: nat, d: nat, newRank: nat, newMax: nat)
    requires Forest(parent, rank, rep, maxRank) && c < |rep| && d < |rep| && rep[c] != rep[d]
    requires rank[rep[d]] <= newRank && rank[rep[c]] < newRank && maxRank <= newMax && newRank <= newMax
    ensures Forest(parent[rep[c] := rep[d]], rank[rep[d] := newRank], Merge(rep, d, c), newMax)
  {
    var rc, rd := rep[c], rep[d];
    var parent', rank', rep' := parent[rc := rd], rank[rd := newRank], Merge(rep, d, c);
    assert parent[rd] == rd && parent[rc] == rc;
    forall x | 0 <= x < |parent|
      ensures rep'[x] < |parent| && parent'[rep'[x]] == rep'[x]
    {
      assert rep'[x] == if rep[x] == rc then rd else rep[x];
    }
    forall x | 0 <= x < |parent| && parent'[x] == x
      ensures rep'[x] == x
    {
      assert x != rc && parent[x] == x;
    }
    forall x | 0 <= x < |parent| && parent'[x] != x
      ensures rep'[parent'[x]] == rep'[x] && rank'[x] < rank'[parent'[x]]
    {
      if x == rc {
        assert rep[rd] == rd;
      } else {
        assert x != rd && parent'[x] == parent[x];
      }
    }
  }

  class QuickUnionUf {
    const size: nat
    const parent: array<nat>
    const rank: array<nat>
    ghost var rep: seq<nat>
    ghost var maxRank: nat

    ghost predicate Valid()
      reads this, parent, rank
    {
      && parent.Length == size && rank.Length == size && parent != rank
      && |rep| == size
      && Forest(parent[..], rank[..], rep, maxRank)
    }

    /** `QuickUnionUf::new(n)`: n singleton classes. */
    constructor (n: nat)
      ensures Valid() && size == n && rep == Range(n)
      ensures fresh(parent) && fresh(rank)
    {
      size := n;
      parent := new nat[n](i => i);
      rank := new nat[n](i => 0);
      rep := Range(n);
      maxRank := 0;
    }

    /** The canonical representative of `x`'s class: the root reached by
        following parents, the same element for every member of the class.
        Comparing two `Find` results is therefore comparing `rep` entries,
        an equivalence relation on the elements. */
    method Find(x: nat) returns (r: nat)
      requires Valid() && x < size
      ensures r < size && parent[r] == r
      ensures r == rep[x]
    {
      r := x;
      while parent[r] != r
        invariant r < size && rep[r] == rep[x]
        decreases maxRank - rank[r]
      {
        assert rep[parent[r]] == rep[r];
        r := parent[r];
      }
    }

    /** Merges the classes of `a` and `b`, attaching the root of lower rank
        under the other (on equal ranks the root of `a`'s class stays and its
        rank grows).  Returns whether the two classes were different. */
    method Union(a: nat, b: nat) returns (merged: bool)
      requires Valid() && a < size && b < size
      modifies this, parent, rank
      ensures Valid()
      ensures merged <==> old(rep[a]) != old(rep[b])
      ensures MergedFrom(rep, old(rep), a, b)
      ensures NumClasses(rep) == if merged then NumClasses(old(rep)) - 1 else NumClasses(old(rep))
      ensures !merged ==> rep == old(rep)
    {
      var ra := Find(a);
      var rb := Find(b);
      if ra == rb {
        return false;
      }
      MergeJoinsExactly(rep, a, b);
      MergeJoinsExactly(rep, b, a);
      if rank[ra] < rank[rb] {
        Attach(a, b, ra, rb, rank[rb]);
      } else if rank[rb] < rank[ra] {
        Attach(b, a, rb, ra, rank[ra]);
      } else {
        Attach(b, a, rb, ra, rank[ra] + 1);
      }
      merged := true;
    }

    /** Hangs the root `rc` of `c`'s class under the root `rd` of `d`'s
        class, whose rank becomes `newRank`. */
    method Attach(c: nat, d: nat, rc: nat, rd: nat, newRank: nat)
      requires Valid() && c < size && d < size && rc == rep[c] && rd == rep[d] && rc != rd
      requires rank[rd] <= newRank && rank[rc] < newRank
      modifies this, parent, rank
      ensures Valid() && rep == Merge(old(rep), d, c)
    {
      var newMax := if maxRank < newRank then newRank else maxRank;
      LinkRoots(parent[..], rank[..], rep, maxRank, c, d, newRank, newMax);
      parent[rc] := rd;
      rank[rd] := newRank;
      maxRank := newMax;
      rep := Merge(rep, d, c);
    }
  }
}
