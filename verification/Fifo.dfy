/** First come, first served: the order in which Kahn's algorithm lists the nodes, said of the
    order itself. A node comes after another when its last predecessor does; nodes that wait for
    the same predecessor come in the order of their final edges from it; sources come by index. */
module Fifo {
  import opened Graph

  /** The largest position of a predecessor of v, or -1. */
  ghost function LastPredecessor(n: nat, edges: seq<Edge>, order: seq<nat>, v: nat): (last: int)
    ensures -1 <= last < |order|
  {
    if order == [] then -1
    else if Adjacent(n, edges, order[|order| - 1], v) then |order| - 1
    else LastPredecessor(n, edges, order[..|order| - 1], v)
  }

  lemma {:induction false} LastPredecessorIsLast(n: nat, edges: seq<Edge>, order: seq<nat>, v: nat)
    ensures var last := LastPredecessor(n, edges, order, v);
      && (last >= 0 ==> Adjacent(n, edges, order[last], v))
      && forall i :: last < i < |order| ==> !Adjacent(n, edges, order[i], v)
  {
    if order != [] {
      LastPredecessorIsLast(n, edges, order[..|order| - 1], v);
    }
  }

  /** The largest index of an edge from u to v, or -1. */
  ghost function FinalEdge(edges: seq<Edge>, u: nat, v: nat): (k: int)
    ensures -1 <= k < |edges|
  {
    if edges == [] then -1
    else if edges[|edges| - 1] == Edge(u, v) then |edges| - 1
    else FinalEdge(edges[..|edges| - 1], u, v)
  }

  lemma {:induction false} FinalEdgeIsLast(edges: seq<Edge>, u: nat, v: nat)
    ensures var k := FinalEdge(edges, u, v);
      && (k >= 0 ==> edges[k] == Edge(u, v)) && forall i :: k < i < |edges| ==> edges[i] != Edge(u, v)
  {
    if edges != [] {
      FinalEdgeIsLast(edges[..|edges| - 1], u, v);
    }
  }

  /** u is served before v. */
  ghost predicate Before(n: nat, edges: seq<Edge>, order: seq<nat>, u: nat, v: nat)
  {
    var a, b := LastPredecessor(n, edges, order, u), LastPredecessor(n, edges, order, v);
    || a < b
    || (a == b && if a < 0 then u < v else FinalEdge(edges, order[a], u) < FinalEdge(edges, order[a], v))
  }

  ghost predicate InTurn(n: nat, edges: seq<Edge>, order: seq<nat>, i: nat, j: nat)
    requires i < |order| && j < |order|
  {
    Before(n, edges, order, order[i], order[j])
  }

  /** Whoever stands earlier in the order is served before. */
  ghost predicate FirstServed(n: nat, edges: seq<Edge>, order: seq<nat>)
  {
    forall i: nat, j: nat :: i < j < |order| ==> InTurn(n, edges, order, i, j)
  }

  // ---------------------------------------------------------------- there is one such order

  lemma NotBothBefore(n: nat, edges: seq<Edge>, order: seq<nat>, u: nat, v: nat)
    ensures !(Before(n, edges, order, u, v) && Before(n, edges, order, v, u))
  {
  }

  /** Where all predecessors are listed before a position, only that part of the order matters. */
  lemma {:induction false} LastInPrefix(n: nat, edges: seq<Edge>, order: seq<nat>, k: nat, v: nat)
    requires k <= |order| && forall i :: k <= i < |order| ==> !Adjacent(n, edges, order[i], v)
    ensures LastPredecessor(n, edges, order, v) == LastPredecessor(n, edges, order[..k], v)
  {
    if k == |order| {
      assert order[..k] == order;
    } else {
      LastInPrefix(n, edges, order[..|order| - 1], k, v);
      assert order[..|order| - 1][..k] == order[..k];
    }
  }

  lemma BeforeInPrefix(n: nat, edges: seq<Edge>, order: seq<nat>, k: nat, u: nat, v: nat)
    requires k <= |order|
    requires forall i :: k <= i < |order| ==> !Adjacent(n, edges, order[i], u) && !Adjacent(n, edges, order[i], v)
    ensures Before(n, edges, order, u, v) <==> Before(n, edges, order[..k], u, v)
  {
    LastInPrefix(n, edges, order, k, u);
    LastInPrefix(n, edges, order, k, v);
  }

  /** A node not yet listed that the other order lists next has all its predecessors listed. */
  lemma NoneAfter(n: nat, edges: seq<Edge>, order: seq<nat>, other: seq<nat>, k: nat, v: nat)
    requires Permutation(n, order) && Permutation(n, other) && Forward(n, edges, other)
    requires k < n && order[..k] == other[..k] && v == other[k]
    ensures forall i :: k <= i < n ==> !Adjacent(n, edges, order[i], v)
  {
    NodesFit(n, other);
    forall i | k <= i < n ensures !Adjacent(n, edges, order[i], v) {
      assert order[i] in other;
      var j :| 0 <= j < n && other[j] == order[i];
      assert forall a :: 0 <= a < k ==> order[a] == order[..k][a] == other[..k][a] == other[a];
    }
  }

  lemma PlaceAfter(n: nat, order: seq<nat>, k: nat, v: nat) returns (j: nat)
    requires Permutation(n, order) && k < n && v < n && v !in order[..k] && v != order[k]
    ensures k < j < n && order[j] == v
  {
    NodesFit(n, order);
    assert v in order;
    j :| j < n && order[j] == v;
  }

  lemma NextIsSame(n: nat, edges: seq<Edge>, order: seq<nat>, other: seq<nat>, k: nat)
    requires Permutation(n, order) && Forward(n, edges, order) && FirstServed(n, edges, order)
    requires Permutation(n, other) && Forward(n, edges, other) && FirstServed(n, edges, other)
    requires k < n && order[..k] == other[..k]
    ensures order[k] == other[k]
  {
    var u, v := order[k], other[k];
    if u != v {
      NoneAfter(n, edges, order, other, k, v);
      NoneAfter(n, edges, order, order, k, u);
      NoneAfter(n, edges, other, order, k, u);
      NoneAfter(n, edges, other, other, k, v);
      BeforeInPrefix(n, edges, order, k, u, v);
      BeforeInPrefix(n, edges, other, k, v, u);
      NotInFront(other, k);
      NotInFront(order, k);
      var i := PlaceAfter(n, order, k, v);
      var j := PlaceAfter(n, other, k, u);
      assert InTurn(n, edges, order, k, i) && InTurn(n, edges, other, k, j);
      NotBothBefore(n, edges, order[..k], u, v);
    }
  }

  lemma NotInFront(order: seq<nat>, k: nat)
    requires Distinct(order) && k < |order|
    ensures order[k] !in order[..k]
  {
  }

  lemma {:induction false} SamePrefix(n: nat, edges: seq<Edge>, order: seq<nat>, other: seq<nat>, k: nat)
    requires Permutation(n, order) && Forward(n, edges, order) && FirstServed(n, edges, order)
    requires Permutation(n, other) && Forward(n, edges, other) && FirstServed(n, edges, other)
    requires k <= n
    ensures order[..k] == other[..k]
  {
    if k > 0 {
      SamePrefix(n, edges, order, other, k - 1);
      NextIsSame(n, edges, order, other, k - 1);
      assert order[..k] == order[..k - 1] + [order[k - 1]] && other[..k] == other[..k - 1] + [other[k - 1]];
    }
  }

  /** A graph has at most one forward order that serves first who came first. */
  lemma OneOrder(n: nat, edges: seq<Edge>, order: seq<nat>, other: seq<nat>)
    requires Permutation(n, order) && Forward(n, edges, order) && FirstServed(n, edges, order)
    requires Permutation(n, other) && Forward(n, edges, other) && FirstServed(n, edges, other)
    ensures order == other
  {
    SamePrefix(n, edges, order, other, n);
    assert order[..n] == order && other[..n] == other;
  }

  // ---------------------------------------------------------------- successors and their last visits

  /** The nodes the in-range edges from u lead to, in edge order. */
  ghost function Successors(n: nat, edges: seq<Edge>, u: nat): (targets: seq<nat>)
  {
    if edges == [] then []
    else
      var front, e := edges[..|edges| - 1], edges[|edges| - 1];
      Successors(n, front, u) + if e.from == u && e.from < n && e.to < n then [e.to] else []
  }

  /** The largest index at which v stands, or -1. */
  ghost function LastIndex(s: seq<nat>, v: nat): (k: int)
    ensures -1 <= k < |s|
  {
    if s == [] then -1 else if s[|s| - 1] == v then |s| - 1 else LastIndex(s[..|s| - 1], v)
  }

  lemma LastIndexSnoc(s: seq<nat>, x: nat, v: nat)
    ensures LastIndex(s + [x], v) == if x == v then |s| else LastIndex(s, v)
  {
    assert (s + [x])[..|s|] == s;
  }

  lemma FinalEdgeSnoc(front: seq<Edge>, e: Edge, u: nat, v: nat)
    ensures FinalEdge(front + [e], u, v) == if e == Edge(u, v) then |front| else FinalEdge(front, u, v)
  {
    assert (front + [e])[..|front|] == front;
  }

  lemma SuccessorsSnoc(n: nat, front: seq<Edge>, e: Edge, u: nat)
    ensures Successors(n, front + [e], u) ==
            Successors(n, front, u) + if e.from == u && u < n && e.to < n then [e.to] else []
  {
    assert (front + [e])[..|front|] == front;
  }

  lemma LastVisitSnoc(n: nat, front: seq<Edge>, e: Edge, u: nat, v: nat)
    requires u < n && v < n
    ensures LastIndex(Successors(n, front + [e], u), v) ==
            if e == Edge(u, v) then |Successors(n, front, u)| else LastIndex(Successors(n, front, u), v)
  {
    SuccessorsSnoc(n, front, e, u);
    if e.from == u && e.to < n {
      LastIndexSnoc(Successors(n, front, u), e.to, v);
    } else {
      assert Successors(n, front + [e], u) == Successors(n, front, u);
    }
  }

  /** The last visits come in the order of the final edges. */
  lemma {:induction false} LastVisits(n: nat, edges: seq<Edge>, u: nat, v: nat, w: nat)
    requires u < n && v < n && w < n
    ensures LastIndex(Successors(n, edges, u), v) < LastIndex(Successors(n, edges, u), w) <==>
            FinalEdge(edges, u, v) < FinalEdge(edges, u, w)
  {
    if edges != [] {
      var front, e := edges[..|edges| - 1], edges[|edges| - 1];
      LastVisits(n, front, u, v, w);
      assert edges == front + [e];
      FinalEdgeSnoc(front, e, u, v);
      FinalEdgeSnoc(front, e, u, w);
      LastVisitSnoc(n, front, e, u, v);
      LastVisitSnoc(n, front, e, u, w);
    }
  }

  lemma {:induction false} SuccessorsAreAdjacent(n: nat, edges: seq<Edge>, u: nat, v: nat)
    requires v in Successors(n, edges, u)
    ensures Adjacent(n, edges, u, v)
  {
    var front, e := edges[..|edges| - 1], edges[|edges| - 1];
    if v in Successors(n, front, u) {
      SuccessorsAreAdjacent(n, front, u, v);
    } else {
      assert e == Edge(u, v);
    }
  }

  /** The entries of `added` stand in `seen`, and in the order in which they stand there last. */
  ghost predicate ByLastVisit(seen: seq<nat>, added: seq<nat>)
  {
    && (forall a :: 0 <= a < |added| ==> added[a] in seen)
    && (forall a, b :: 0 <= a < b < |added| ==> LastIndex(seen, added[a]) < LastIndex(seen, added[b]))
  }

  lemma ByLastVisitSnoc(seen: seq<nat>, x: nat, added: seq<nat>)
    requires ByLastVisit(seen, added) && x !in added
    ensures ByLastVisit(seen + [x], added) && ByLastVisit(seen + [x], added + [x])
  {
    LastIndexSnoc(seen, x, x);
    forall a | 0 <= a < |added| ensures LastIndex(seen + [x], added[a]) == LastIndex(seen, added[a]) {
      LastIndexSnoc(seen, x, added[a]);
    }
  }

  // ---------------------------------------------------------------- a longer queue

  /** No node of s waits for an entry of the queue from a position on. */
  ghost predicate NoneWaits(n: nat, edges: seq<Edge>, queue: seq<nat>, from: nat, s: seq<nat>)
  {
    forall i, j :: from <= i < |queue| && 0 <= j < |s| ==> !Adjacent(n, edges, queue[i], s[j])
  }

  /** Adding to a queue the nodes that waited for its k-th entry, by last visit. */
  lemma StillServed(n: nat, edges: seq<Edge>, queue: seq<nat>, k: nat, added: seq<nat>)
    requires k < |queue| && Nodes(n, queue + added) && FirstServed(n, edges, queue)
    requires NoneWaits(n, edges, queue + added, k, queue) && NoneWaits(n, edges, queue + added, k + 1, added)
    requires ByLastVisit(Successors(n, edges, queue[k]), added)
    ensures FirstServed(n, edges, queue + added)
  {
    forall i: nat, j: nat | i < j < |queue + added| ensures InTurn(n, edges, queue + added, i, j) {
      PairInOrder(n, edges, queue, k, added, i, j);
    }
  }

  lemma PairInOrder(n: nat, edges: seq<Edge>, queue: seq<nat>, k: nat, added: seq<nat>, i: nat, j: nat)
    requires k < |queue| && Nodes(n, queue + added) && FirstServed(n, edges, queue) && i < j < |queue + added|
    requires NoneWaits(n, edges, queue + added, k, queue) && NoneWaits(n, edges, queue + added, k + 1, added)
    requires ByLastVisit(Successors(n, edges, queue[k]), added)
    ensures InTurn(n, edges, queue + added, i, j)
  {
    if j < |queue| {
      OldInOrder(n, edges, queue, k, added, i, j);
    } else if i < |queue| {
      OldBeforeAdded(n, edges, queue, k, added, i, j);
    } else {
      AddedInOrder(n, edges, queue, k, added, i, j);
    }
  }

  lemma OldInOrder(n: nat, edges: seq<Edge>, queue: seq<nat>, k: nat, added: seq<nat>, i: nat, j: nat)
    requires k < |queue| && i < j < |queue|
    requires FirstServed(n, edges, queue) && NoneWaits(n, edges, queue + added, k, queue)
    ensures InTurn(n, edges, queue + added, i, j)
  {
    var whole := queue + added;
    assert whole[..|queue|] == queue;
    assert InTurn(n, edges, queue, i, j);
    BeforeInPrefix(n, edges, whole, |queue|, queue[i], queue[j]);
  }

  lemma OldBeforeAdded(n: nat, edges: seq<Edge>, queue: seq<nat>, k: nat, added: seq<nat>, i: nat, j: nat)
    requires k < |queue| && i < |queue| <= j < |queue + added| && NoneWaits(n, edges, queue + added, k, queue)
    requires NoneWaits(n, edges, queue + added, k + 1, added) && ByLastVisit(Successors(n, edges, queue[k]), added)
    ensures InTurn(n, edges, queue + added, i, j)
  {
    var whole, u, v := queue + added, queue[i], added[j - |queue|];
    assert whole[i] == u && whole[j] == v;
    AddedWait(n, edges, queue, k, added, j - |queue|);
    EarlierWait(n, edges, whole, k, queue, i);
    BeforeByLast(n, edges, whole, u, v, k);
  }

  lemma AddedInOrder(n: nat, edges: seq<Edge>, queue: seq<nat>, k: nat, added: seq<nat>, i: nat, j: nat)
    requires k < |queue| <= i < j < |queue + added| && Nodes(n, queue + added)
    requires NoneWaits(n, edges, queue + added, k + 1, added) && ByLastVisit(Successors(n, edges, queue[k]), added)
    ensures InTurn(n, edges, queue + added, i, j)
  {
    var whole, u, v := queue + added, i - |queue|, j - |queue|;
    assert whole[k] == queue[k] && whole[i] == added[u] && whole[j] == added[v];
    AddedPair(n, edges, queue, k, added, u, v);
  }

  lemma AddedPair(n: nat, edges: seq<Edge>, queue: seq<nat>, k: nat, added: seq<nat>, u: nat, v: nat)
    requires k < |queue| && u < v < |added| && queue[k] < n && added[u] < n && added[v] < n
    requires NoneWaits(n, edges, queue + added, k + 1, added) && ByLastVisit(Successors(n, edges, queue[k]), added)
    ensures Before(n, edges, queue + added, added[u], added[v])
  {
    AddedWait(n, edges, queue, k, added, u);
    AddedWait(n, edges, queue, k, added, v);
    LastVisits(n, edges, queue[k], added[u], added[v]);
    BeforeByEdge(n, edges, queue + added, added[u], added[v], k);
  }

  lemma BeforeByEdge(n: nat, edges: seq<Edge>, order: seq<nat>, u: nat, v: nat, k: nat)
    requires k < |order| && LastPredecessor(n, edges, order, u) == k == LastPredecessor(n, edges, order, v)
    requires FinalEdge(edges, order[k], u) < FinalEdge(edges, order[k], v)
    ensures Before(n, edges, order, u, v)
  {
  }

  lemma BeforeByLast(n: nat, edges: seq<Edge>, order: seq<nat>, u: nat, v: nat, k: nat)
    requires LastPredecessor(n, edges, order, u) < k == LastPredecessor(n, edges, order, v)
    ensures Before(n, edges, order, u, v)
  {
  }

  lemma EarlierWait(n: nat, edges: seq<Edge>, whole: seq<nat>, k: nat, queue: seq<nat>, i: nat)
    requires k <= |whole| && i < |queue| && NoneWaits(n, edges, whole, k, queue)
    ensures LastPredecessor(n, edges, whole, queue[i]) < k
  {
    LastInPrefix(n, edges, whole, k, queue[i]);
  }

  lemma AddedWait(n: nat, edges: seq<Edge>, queue: seq<nat>, k: nat, added: seq<nat>, j: nat)
    requires k < |queue| && j < |added|
    requires added[j] in Successors(n, edges, queue[k]) && NoneWaits(n, edges, queue + added, k + 1, added)
    ensures LastPredecessor(n, edges, queue + added, added[j]) == k
  {
    var whole := queue + added;
    SuccessorsAreAdjacent(n, edges, queue[k], added[j]);
    LastInPrefix(n, edges, whole, k + 1, added[j]);
    assert whole[..k + 1][k] == queue[k];
  }
}
