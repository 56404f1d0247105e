/** Directed multigraphs over the nodes 0..n-1, given by an edge list. Edges that
    name a node outside that range are ignored, as the planners ignore them. */
module Graph {
  datatype Edge = Edge(from: nat, to: nat)

  predicate Adjacent(n: nat, edges: seq<Edge>, u: nat, v: nat)
  {
    u < n && v < n && Edge(u, v) in edges
  }

  /** A walk from u to v that takes at least one edge. */
  ghost predicate Joins(n: nat, edges: seq<Edge>, w: seq<nat>, u: nat, v: nat)
  {
    && |w| >= 2 && w[0] == u && w[|w| - 1] == v
    && forall i :: 0 < i < |w| ==> Adjacent(n, edges, w[i - 1], w[i])
  }

  ghost predicate Reaches(n: nat, edges: seq<Edge>, u: nat, v: nat)
  {
    exists w :: Joins(n, edges, w, u, v)
  }

  ghost predicate Acyclic(n: nat, edges: seq<Edge>)
  {
    forall v :: !Reaches(n, edges, v, v)
  }

  predicate Distinct<T(==)>(s: seq<T>)
  {
    forall i, j :: 0 <= i < j < |s| ==> s[i] != s[j]
  }

  function Elements<T>(s: seq<T>): (elements: set<T>)
  {
    set x | x in s
  }

  /** Distinct nodes of 0..n-1. */
  predicate Nodes(n: nat, order: seq<nat>)
  {
    Distinct(order) && forall i :: 0 <= i < |order| ==> order[i] < n
  }

  /** Every one of 0..n-1, once. */
  predicate Permutation(n: nat, order: seq<nat>)
  {
    |order| == n && Nodes(n, order)
  }

  /** Every in-range edge goes from an earlier to a later entry of the order. */
  ghost predicate Forward(n: nat, edges: seq<Edge>, order: seq<nat>)
  {
    forall i, j :: 0 <= i < |order| && 0 <= j < |order| && Adjacent(n, edges, order[i], order[j]) ==> i < j
  }

  lemma ReachesByEdge(n: nat, edges: seq<Edge>, u: nat, v: nat)
    requires Adjacent(n, edges, u, v)
    ensures Reaches(n, edges, u, v)
  {
    assert Joins(n, edges, [u, v], u, v);
  }

  lemma ReachesTransitive(n: nat, edges: seq<Edge>, u: nat, v: nat, x: nat)
    requires Reaches(n, edges, u, v) && Reaches(n, edges, v, x)
    ensures Reaches(n, edges, u, x)
  {
    var a :| Joins(n, edges, a, u, v);
    var b :| Joins(n, edges, b, v, x);
    var c := a + b[1..];
    forall i | 0 < i < |c| ensures Adjacent(n, edges, c[i - 1], c[i]) {
      if i >= |a| {
        assert c[i] == b[i - |a| + 1] && c[i - 1] == b[i - |a|];
      }
    }
    assert Joins(n, edges, c, u, x);
  }

  /** The last edge of a walk. */
  lemma ReachesLastEdge(n: nat, edges: seq<Edge>, u: nat, v: nat) returns (p: nat)
    requires Reaches(n, edges, u, v)
    ensures Adjacent(n, edges, p, v) && (p == u || Reaches(n, edges, u, p))
  {
    var w :| Joins(n, edges, w, u, v);
    p := w[|w| - 2];
    if |w| > 2 {
      assert Joins(n, edges, w[..|w| - 1], u, p);
    }
  }

  /** The first edge of a walk. */
  lemma ReachesFirstEdge(n: nat, edges: seq<Edge>, u: nat, v: nat) returns (p: nat)
    requires Reaches(n, edges, u, v)
    ensures Adjacent(n, edges, u, p) && (p == v || Reaches(n, edges, p, v))
  {
    var w :| Joins(n, edges, w, u, v);
    p := w[1];
    if |w| > 2 {
      assert Joins(n, edges, w[1..], p, v);
    }
  }

  /** The nodes 0..n-1 as a set. */
  ghost function Below(n: nat): (all: set<nat>)
    ensures |all| == n
    ensures forall v: nat :: v in all <==> v < n
  {
    if n == 0 then {} else Below(n - 1) + {n - 1}
  }

  /** Pigeonhole: distinct nodes of 0..n-1 number at most n, and n of them are all of them. */
  lemma NodesFit(n: nat, order: seq<nat>)
    requires Nodes(n, order)
    ensures |order| <= n
    ensures |order| == n ==> forall v :: 0 <= v < n ==> v in order
  {
    var seen := Elements(order);
    DistinctCardinality(order);
    assert seen <= Below(n);
    SubsetCardinality(seen, Below(n));
    if |order| == n {
      forall v | 0 <= v < n ensures v in order {
        assert v in Below(n);
        assert v in seen;
      }
    }
  }

  lemma {:induction false} DistinctCardinality<T>(s: seq<T>)
    requires Distinct(s)
    ensures |Elements(s)| == |s|
  {
    if s == [] {
      assert Elements(s) == {};
    } else {
      var front := s[..|s| - 1];
      DistinctCardinality(front);
      assert s == front + [s[|s| - 1]];
      assert Elements(s) == Elements(front) + {s[|s| - 1]};
    }
  }

  lemma {:induction false} SubsetCardinality<T>(a: set<T>, b: set<T>)
    requires a <= b
    ensures |a| <= |b|
    ensures |a| == |b| ==> a == b
  {
    if a != {} {
      var x :| x in a;
      SubsetCardinality(a - {x}, b - {x});
    }
  }

  /** Along a walk the position in a forward order strictly grows. */
  lemma {:induction false} ForwardAlongWalk(n: nat, edges: seq<Edge>, order: seq<nat>, w: seq<nat>, i: nat, j: nat)
    requires Permutation(n, order) && Forward(n, edges, order)
    requires i < n && j < n && Joins(n, edges, w, order[i], order[j])
    ensures i < j
    decreases |w|
  {
    if |w| > 2 {
      var p := w[|w| - 2];
      NodesFit(n, order);
      assert p in order;
      var k :| 0 <= k < n && order[k] == p;
      assert Joins(n, edges, w[..|w| - 1], order[i], p);
      ForwardAlongWalk(n, edges, order, w[..|w| - 1], i, k);
      assert Adjacent(n, edges, order[k], order[j]);
    } else {
      assert Adjacent(n, edges, w[0], w[1]);
    }
  }

  lemma ReachesGoesForward(n: nat, edges: seq<Edge>, order: seq<nat>, i: nat, j: nat)
    requires Permutation(n, order) && Forward(n, edges, order)
    requires i < n && j < n && Reaches(n, edges, order[i], order[j])
    ensures i < j
  {
    var w :| Joins(n, edges, w, order[i], order[j]);
    ForwardAlongWalk(n, edges, order, w, i, j);
  }

  /** A graph that can be put in forward order has no cycle. */
  lemma ForwardImpliesAcyclic(n: nat, edges: seq<Edge>, order: seq<nat>)
    requires Permutation(n, order) && Forward(n, edges, order)
    ensures Acyclic(n, edges)
  {
    forall v ensures !Reaches(n, edges, v, v) {
      if Reaches(n, edges, v, v) {
        var p := ReachesFirstEdge(n, edges, v, v);
        NodesFit(n, order);
        assert v in order;
        var i :| 0 <= i < n && order[i] == v;
        ReachesGoesForward(n, edges, order, i, i);
      }
    }
  }

  /** `rest` is not empty and each of its nodes has a predecessor inside it. */
  ghost predicate Sourceless(n: nat, edges: seq<Edge>, rest: set<nat>)
  {
    && rest != {}
    && forall v {:trigger HasPredecessor(n, edges, rest, v)} :: v in rest ==> HasPredecessor(n, edges, rest, v)
  }

  ghost predicate HasPredecessor(n: nat, edges: seq<Edge>, rest: set<nat>, v: nat)
  {
    exists p :: p in rest && Adjacent(n, edges, p, v)
  }

  /** Following predecessors inside such a set must come back: there is a cycle. */
  lemma SourcelessImpliesCycle(n: nat, edges: seq<Edge>, rest: set<nat>)
    requires Sourceless(n, edges, rest)
    ensures !Acyclic(n, edges)
  {
    var v :| v in rest;
    assert HasPredecessor(n, edges, rest, v);
    FollowPredecessors(n, edges, rest, [v]);
  }

  lemma {:induction false} FollowPredecessors(n: nat, edges: seq<Edge>, rest: set<nat>, w: seq<nat>)
    requires Sourceless(n, edges, rest)
    requires w != [] && Nodes(n, w) && w[0] in rest
    requires forall i :: 0 < i < |w| ==> Adjacent(n, edges, w[i - 1], w[i])
    ensures !Acyclic(n, edges)
    decreases n - |w|
  {
    NodesFit(n, w);
    assert HasPredecessor(n, edges, rest, w[0]);
    var p :| p in rest && Adjacent(n, edges, p, w[0]);
    var longer := [p] + w;
    if p in w {
      var k :| 0 <= k < |w| && w[k] == p;
      assert Joins(n, edges, longer[..k + 2], p, p);
      assert Reaches(n, edges, p, p);
    } else {
      NodesFit(n, longer);
      FollowPredecessors(n, edges, rest, longer);
    }
  }
}
