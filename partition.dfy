/** Partitions of the vertex range 0..n, represented by one class label per
    vertex: two vertices are in the same class exactly when their labels are
    equal.  Both the union-find structure (its representatives) and the pure
    model of a contraction trial (its labels) are partitions in this sense. */
module Partition {

  /** The sequence 0, 1, ..., n - 1.  As a labelling it is the partition of
      0..n into singletons; as a sequence of indices it is `(0..n).collect()`. */
  function Range(n: nat): (r: seq<nat>)
    ensures |r| == n && forall i :: 0 <= i < n ==> r[i] == i
  {
    seq(n, i => i)
  }

  predicate LabelsBelow(labels: seq<nat>, n: nat)
  {
    forall i :: 0 <= i < |labels| ==> labels[i] < n
  }

  /** The set of class labels in use, one per class. */
  function Classes(labels: seq<nat>): set<nat>
  {
    set i | 0 <= i < |labels| :: labels[i]
  }

  function NumClasses(labels: seq<nat>): nat
  {
    |Classes(labels)|
  }

  /** `p` and `q` describe the same partition (possibly with other labels). */
  predicate SamePartition(p: seq<nat>, q: seq<nat>)
  {
    && |p| == |q|
    && forall x, y :: 0 <= x < |p| && 0 <= y < |p| ==> (p[x] == p[y] <==> q[x] == q[y])
  }

  /** `after` is `before` with the classes of `a` and `b` merged into one and
      every other class left as it was. */
  predicate MergedFrom(after: seq<nat>, before: seq<nat>, a: nat, b: nat)
    requires a < |before| && b < |before|
  {
    && |after| == |before|
    && forall x, y :: 0 <= x < |before| && 0 <= y < |before| ==>
         (after[x] == after[y] <==>
            || before[x] == before[y]
            || (before[x] == before[a] && before[y] == before[b])
            || (before[x] == before[b] && before[y] == before[a]))
  }

  /** Relabel the class of `b` with the label of `a`. */
  function Merge(labels: seq<nat>, a: nat, b: nat): (r: seq<nat>)
    requires a < |labels| && b < |labels|
    ensures |r| == |labels|
    ensures r[a] == r[b] == labels[a]
  {
    seq(|labels|, i requires 0 <= i < |labels| => if labels[i] == labels[b] then labels[a] else labels[i])
  }

  /** Merging joins exactly the classes of `a` and `b`: when they differ, one
      class fewer remains, and no label outside the old ones appears. */
  lemma MergeJoinsExactly(labels: seq<nat>, a: nat, b: nat)
    requires a < |labels| && b < |labels|
    ensures MergedFrom(Merge(labels, a, b), labels, a, b)
    ensures Classes(Merge(labels, a, b)) == if labels[a] == labels[b] then Classes(labels) else Classes(labels) - {labels[b]}
    ensures NumClasses(Merge(labels, a, b)) == if labels[a] == labels[b] then NumClasses(labels) else NumClasses(labels) - 1
    ensures forall n :: LabelsBelow(labels, n) ==> LabelsBelow(Merge(labels, a, b), n)
  {
    var r := Merge(labels, a, b);
    forall c | c in Classes(labels) && c != labels[b]
      ensures c in Classes(r)
    {
      var i :| 0 <= i < |labels| && labels[i] == c;
      assert r[i] == c;
    }
    assert labels[a] == r[a];
  }

  /** The singleton partition of 0..n has n classes, labelled 0..n. */
  lemma {:induction false} RangeClasses(n: nat)
    ensures NumClasses(Range(n)) == n
    ensures forall c: nat :: c in Classes(Range(n)) <==> c < n
  {
    if n > 0 {
      RangeClasses(n - 1);
      assert Classes(Range(n)) == Classes(Range(n - 1)) + {n - 1} by {
        forall c: nat
          ensures c in Classes(Range(n)) <==> c in Classes(Range(n - 1)) + {n - 1}
        {
          if c < n {
            assert Range(n)[c] == c;
            if c < n - 1 {
              assert Range(n - 1)[c] == c;
            }
          }
        }
      }
    } else {
      assert Classes(Range(n)) == {};
    }
  }

  /** Merging the same two classes in two labellings of one partition gives
      labellings of one partition again. */
  lemma MergePreservesSamePartition(p: seq<nat>, q: seq<nat>, p': seq<nat>, q': seq<nat>, a: nat, b: nat)
    requires a < |p| && b < |p| && SamePartition(p, q)
    requires MergedFrom(p', p, a, b) && MergedFrom(q', q, a, b)
    ensures SamePartition(p', q')
  {
  }
}
