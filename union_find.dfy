/**
  The disjoint-set forest that `GenerateRiverMask` runs Kruskal's algorithm
  on. `parent[i] == i` marks a root; `find` climbs parent links to the root
  and points every element it passes straight at that root (path
  compression); `unite` hangs the root of one element under the root of the
  other. The forest carries a ghost rank that strictly increases from an
  element to its parent: it is what makes `find` terminate.
 */
module UnionFind {

  /** The largest rank, an upper bound on how far `find` can climb. */
  function MaxRank(rank: seq<nat>): (m: nat)
    ensures forall i :: 0 <= i < |rank| ==> rank[i] <= m
  {
    if |rank| == 0 then 0
    else
      var m := MaxRank(rank[..|rank| - 1]);
      if rank[|rank| - 1] > m then rank[|rank| - 1] else m
  }

  /** `parent` is a forest over its indices, ranked by `rank`. */
  ghost predicate Ranked(parent: seq<int>, rank: seq<nat>)
  {
    && |rank| == |parent|
    && (forall i :: 0 <= i < |parent| ==> 0 <= parent[i] < |parent|)
    && (forall i :: 0 <= i < |parent| && parent[i] != i ==> rank[i] < rank[parent[i]])
  }

  /** The root `find` reaches from `i`: a root, ranked at least as high as `i` and strictly higher when `i` is not one. */
  ghost function Root(parent: seq<int>, rank: seq<nat>, i: int): (r: int)
    requires Ranked(parent, rank) && 0 <= i < |parent|
    ensures 0 <= r < |parent| && parent[r] == r
    ensures rank[i] <= rank[r]
    ensures parent[i] != i ==> rank[i] < rank[r]
    ensures parent[i] == i ==> r == i
    decreases MaxRank(rank) - rank[i]
  {
    if parent[i] == i then i else Root(parent, rank, parent[i])
  }

  /** The root of every element: the class labels of the partition. */
  ghost function RootsOf(parent: seq<int>, rank: seq<nat>): (labels: seq<int>)
    requires Ranked(parent, rank)
    ensures |labels| == |parent|
    ensures forall j :: 0 <= j < |parent| ==> labels[j] == Root(parent, rank, j)
  {
    seq(|parent|, j requires 0 <= j < |parent| => Root(parent, rank, j))
  }

  /** The parent links after `find(i)` with path compression: every element on the path from `i` points at the root. */
  ghost function Compressed(parent: seq<int>, rank: seq<nat>, i: int): (q: seq<int>)
    requires Ranked(parent, rank) && 0 <= i < |parent|
    ensures |q| == |parent|
    decreases MaxRank(rank) - rank[i]
  {
    if parent[i] == i then parent
    else Compressed(parent, rank, parent[i])[i := Root(parent, rank, i)]
  }

  /**
    Pointing an element straight at its own root, when that root ranks above
    it, keeps the forest ranked and changes no element's root.
   */
  lemma PointAtRoot(parent: seq<int>, rank: seq<nat>, i: int)
    requires Ranked(parent, rank) && 0 <= i < |parent|
    requires rank[i] < rank[Root(parent, rank, i)]
    ensures Ranked(parent[i := Root(parent, rank, i)], rank)
    ensures RootsOf(parent[i := Root(parent, rank, i)], rank) == RootsOf(parent, rank)
  {
    var q := parent[i := Root(parent, rank, i)];
    assert Ranked(q, rank);
    forall j | 0 <= j < |parent|
      ensures Root(q, rank, j) == Root(parent, rank, j)
    {
      PointAtRootAt(parent, rank, i, j);
    }
  }

  lemma {:induction false} PointAtRootAt(parent: seq<int>, rank: seq<nat>, i: int, j: int)
    requires Ranked(parent, rank) && 0 <= i < |parent| && 0 <= j < |parent|
    requires rank[i] < rank[Root(parent, rank, i)]
    requires Ranked(parent[i := Root(parent, rank, i)], rank)
    ensures Root(parent[i := Root(parent, rank, i)], rank, j) == Root(parent, rank, j)
    decreases MaxRank(rank) - rank[j]
  {
    var r := Root(parent, rank, i);
    var q := parent[i := r];
    if j == i {
      assert q[r] == r;
    } else if parent[j] != j {
      PointAtRootAt(parent, rank, i, parent[j]);
    }
  }

  /**
    Path compression keeps the forest ranked, leaves every element's root
    where it was, and changes each parent link at most to the element's root.
   */
  lemma {:induction false} CompressedKeepsRoots(parent: seq<int>, rank: seq<nat>, i: int)
    requires Ranked(parent, rank) && 0 <= i < |parent|
    ensures Ranked(Compressed(parent, rank, i), rank)
    ensures RootsOf(Compressed(parent, rank, i), rank) == RootsOf(parent, rank)
    ensures Compressed(parent, rank, i)[i] == Root(parent, rank, i)
    ensures forall j :: 0 <= j < |parent| ==>
              Compressed(parent, rank, i)[j] == parent[j] || Compressed(parent, rank, i)[j] == Root(parent, rank, j)
    decreases MaxRank(rank) - rank[i]
  {
    if parent[i] != i {
      var inner := Compressed(parent, rank, parent[i]);
      CompressedKeepsRoots(parent, rank, parent[i]);
      assert Root(inner, rank, i) == Root(parent, rank, i) by {
        assert RootsOf(inner, rank)[i] == RootsOf(parent, rank)[i];
      }
      PointAtRoot(inner, rank, i);
      forall j | 0 <= j < |parent|
        ensures RootsOf(inner, rank)[j] == RootsOf(parent, rank)[j]
      {
      }
    }
  }

  /** The rank after hanging root `ri` under root `rj`: `rj` now ranks above `ri`. */
  ghost function Raised(rank: seq<nat>, ri: int, rj: int): (raised: seq<nat>)
    requires 0 <= ri < |rank| && 0 <= rj < |rank|
    ensures |raised| == |rank|
    ensures forall k :: 0 <= k < |rank| ==> rank[k] <= raised[k]
    ensures ri != rj ==> raised[ri] == rank[ri] < raised[rj]
  {
    rank[rj := if rank[rj] > rank[ri] then rank[rj] else rank[ri] + 1]
  }

  /** Relabelling class `from` as class `to`, leaving every other label alone. */
  function Merged(labels: seq<int>, from: int, to: int): (merged: seq<int>)
    ensures |merged| == |labels|
    ensures forall j :: 0 <= j < |labels| ==> merged[j] == (if labels[j] == from then to else labels[j])
  {
    seq(|labels|, j requires 0 <= j < |labels| => if labels[j] == from then to else labels[j])
  }

  /** Hanging one root under another merges exactly those two classes. */
  lemma LinkRoots(parent: seq<int>, rank: seq<nat>, ri: int, rj: int)
    requires Ranked(parent, rank) && 0 <= ri < |parent| && 0 <= rj < |parent|
    requires parent[ri] == ri && parent[rj] == rj && ri != rj
    ensures Ranked(parent[ri := rj], Raised(rank, ri, rj))
    ensures RootsOf(parent[ri := rj], Raised(rank, ri, rj)) == Merged(RootsOf(parent, rank), ri, rj)
  {
    var q, raised := parent[ri := rj], Raised(rank, ri, rj);
    assert Ranked(q, raised) by {
      forall k | 0 <= k < |q| && q[k] != k
        ensures raised[k] < raised[q[k]]
      {
        if k != ri {
          assert rank[k] < rank[parent[k]] <= raised[parent[k]];
          assert raised[k] == rank[k] by {
            assert k != rj;
          }
        }
      }
    }
    forall j | 0 <= j < |parent|
      ensures Root(q, raised, j) == if Root(parent, rank, j) == ri then rj else Root(parent, rank, j)
    {
      LinkRootAt(parent, rank, ri, rj, j);
    }
  }

  lemma {:induction false} LinkRootAt(parent: seq<int>, rank: seq<nat>, ri: int, rj: int, j: int)
    requires Ranked(parent, rank) && 0 <= ri < |parent| && 0 <= rj < |parent| && 0 <= j < |parent|
    requires parent[ri] == ri && parent[rj] == rj && ri != rj
    requires Ranked(parent[ri := rj], Raised(rank, ri, rj))
    ensures Root(parent[ri := rj], Raised(rank, ri, rj), j) == if Root(parent, rank, j) == ri then rj else Root(parent, rank, j)
    decreases MaxRank(rank) - rank[j]
  {
    if parent[j] != j {
      LinkRootAt(parent, rank, ri, rj, parent[j]);
    }
  }

  /** The classes of a labelling: the set of labels in use. */
  function Classes(labels: seq<int>): set<int>
  {
    set j | 0 <= j < |labels| :: labels[j]
  }

  /** Merging two different classes leaves one class fewer. */
  lemma MergedClasses(labels: seq<int>, i: int, j: int)
    requires 0 <= i < |labels| && 0 <= j < |labels| && labels[i] != labels[j]
    ensures Classes(Merged(labels, labels[i], labels[j])) == Classes(labels) - {labels[i]}
    ensures |Classes(Merged(labels, labels[i], labels[j]))| == |Classes(labels)| - 1
  {
    var merged := Merged(labels, labels[i], labels[j]);
    forall c | c in Classes(labels) - {labels[i]}
      ensures c in Classes(merged)
    {
      var k :| 0 <= k < |labels| && labels[k] == c;
      assert merged[k] == c;
    }
    assert merged[j] == labels[j];
  }

  /**
    The forest `find` and `unite` work on: the `parent` array and the ghost
    rank that orders it.
   */
  class DisjointSets {
    const parent: array<int>
    ghost var rank: seq<nat>

    ghost predicate Valid()
      reads this, parent
    {
      Ranked(parent[..], rank)
    }

    /** The class label (root) of every element. */
    ghost function Roots(): (labels: seq<int>)
      reads this, parent
      requires Valid()
      ensures |labels| == parent.Length
    {
      RootsOf(parent[..], rank)
    }

    /** `parent = new int[n]` with `parent[i] = i` for every `i`: every element in a class of its own. */
    constructor (n: nat)
      ensures Valid() && fresh(parent) && parent.Length == n
      ensures forall i :: 0 <= i < n ==> parent[i] == i
      ensures Roots() == seq(n, i => i)
    {
      var a := new int[n];
      for i := 0 to n
        invariant forall k :: 0 <= k < i ==> a[k] == k
      {
        a[i] := i;
      }
      parent := a;
      rank := seq(n, i => 0);
      new;
      assert forall k :: 0 <= k < n ==> parent[..][k] == k;
    }

    /** `find(i)`: the root of `i`; every element on the way now points at it, and no element's root changes. */
    method Find(i: int) returns (r: int)
      requires Valid() && 0 <= i < parent.Length
      modifies parent
      ensures Valid()
      ensures r == old(Roots())[i]
      ensures parent[..] == Compressed(old(parent[..]), rank, i)
      ensures Roots() == old(Roots())
      decreases MaxRank(rank) - rank[i]
    {
      ghost var before := parent[..];
      CompressedKeepsRoots(before, rank, i);
      if parent[i] == i {
        return i;
      }
      var next := parent[i];
      r := Find(next);
      parent[i] := r;
      assert parent[..] == Compressed(before, rank, next)[i := r];
    }

    /** `unite(i, j)`: the class of `i` joins the class of `j`; no other class changes. */
    method Unite(i: int, j: int)
      requires Valid() && 0 <= i < parent.Length && 0 <= j < parent.Length
      modifies this, parent
      ensures Valid()
      ensures Roots() == Merged(old(Roots()), old(Roots())[i], old(Roots())[j])
    {
      ghost var labels := Roots();
      var rootI := Find(i);
      var rootJ := Find(j);
      if rootI != rootJ {
        LinkRoots(parent[..], rank, rootI, rootJ);
        parent[rootI] := rootJ;
        rank := Raised(rank, rootI, rootJ);
      } else {
        assert Merged(labels, labels[i], labels[j]) == labels;
      }
    }
  }
}
