/** Kahn's algorithm. The memory planner and the pipeline loader (twice) each carry
    the same loop; it is modelled once, and the callers differ only in what they do
    when the queue runs dry early. */
module TopologicalSort {
  import opened Fifo
  import opened Graph

  /** How many in-range edges enter v from nodes outside `done`. */
  ghost function InDegree(n: nat, edges: seq<Edge>, done: set<nat>, v: nat): (k: nat)
  {
    if edges == [] then 0
    else
      var e := edges[|edges| - 1];
      InDegree(n, edges[..|edges| - 1], done, v) +
      if e.from < n && e.to < n && e.to == v && e.from !in done then 1 else 0
  }

  /** How many in-range edges go from u to v. */
  ghost function Multiplicity(n: nat, edges: seq<Edge>, u: nat, v: nat): (k: nat)
  {
    if edges == [] then 0
    else
      var e := edges[|edges| - 1];
      Multiplicity(n, edges[..|edges| - 1], u, v) +
      if e.from < n && e.to < n && e == Edge(u, v) then 1 else 0
  }

  lemma {:induction false} InDegreeAfter(n: nat, edges: seq<Edge>, done: set<nat>, u: nat, v: nat)
    requires u !in done
    ensures InDegree(n, edges, done, v) == InDegree(n, edges, done + {u}, v) + Multiplicity(n, edges, u, v)
  {
    if edges != [] {
      InDegreeAfter(n, edges[..|edges| - 1], done, u, v);
    }
  }

  lemma {:induction false} InDegreeZero(n: nat, edges: seq<Edge>, done: set<nat>, v: nat)
    ensures InDegree(n, edges, done, v) == 0 <==> forall p :: Adjacent(n, edges, p, v) ==> p in done
  {
    if edges != [] {
      var front, e := edges[..|edges| - 1], edges[|edges| - 1];
      InDegreeZero(n, front, done, v);
      assert edges == front + [e];
      forall p: nat ensures Adjacent(n, edges, p, v) <==>
        Adjacent(n, front, p, v) || (p < n && v < n && e == Edge(p, v)) {
      }
      if InDegree(n, edges, done, v) != 0 && InDegree(n, front, done, v) == 0 {
        assert Adjacent(n, edges, e.from, v);
      }
    }
  }

  /** The order found so far followed by the queue: what the main loop keeps true of it. */
  ghost predicate Settled(n: nat, edges: seq<Edge>, order: seq<nat>, ready: seq<nat>, indegree: seq<nat>)
  {
    && |indegree| == n
    && Nodes(n, order + ready)
    && (forall v :: 0 <= v < n ==> indegree[v] == InDegree(n, edges, Elements(order), v))
    && (forall v :: 0 <= v < n ==> (indegree[v] == 0 <==> v in order + ready))
    && PredecessorsFirst(n, edges, order, ready)
    && FirstServed(n, edges, order + ready)
  }

  ghost predicate PredecessorsFirst(n: nat, edges: seq<Edge>, order: seq<nat>, ready: seq<nat>)
  {
    && (forall i, p :: 0 <= i < |order| && Adjacent(n, edges, p, order[i]) ==> p in order[..i])
    && (forall i, p :: 0 <= i < |ready| && Adjacent(n, edges, p, ready[i]) ==> p in order)
  }

  /** The successor lists, each in edge order, and the in-degrees. */
  method BuildAdjacency(n: nat, edges: seq<Edge>) returns (adjacency: seq<seq<nat>>, indegree: seq<nat>)
    ensures |adjacency| == n && |indegree| == n
    ensures forall u :: 0 <= u < n ==> adjacency[u] == Successors(n, edges, u)
    ensures forall v :: 0 <= v < n ==> indegree[v] == InDegree(n, edges, {}, v)
  {
    adjacency, indegree := seq(n, _ => []), seq(n, _ => 0);
    for k := 0 to |edges|
      invariant |adjacency| == n && |indegree| == n
      invariant forall u :: 0 <= u < n ==> adjacency[u] == Successors(n, edges[..k], u)
      invariant forall v :: 0 <= v < n ==> indegree[v] == InDegree(n, edges[..k], {}, v)
    {
      var edge := edges[k];
      assert edges[..k + 1][..k] == edges[..k];
      if edge.from >= n || edge.to >= n {
        continue;
      }
      adjacency := adjacency[edge.from := adjacency[edge.from] + [edge.to]];
      indegree := indegree[edge.to := indegree[edge.to] + 1];
    }
    assert edges[..|edges|] == edges;
  }

  lemma {:induction false} SuccessorsCount(n: nat, edges: seq<Edge>, u: nat, v: nat)
    ensures multiset(Successors(n, edges, u))[v] == Multiplicity(n, edges, u, v)
    ensures v in Successors(n, edges, u) ==> v < n
  {
    if edges != [] {
      SuccessorsCount(n, edges[..|edges| - 1], u, v);
    }
  }

  /** The queue loop. What it returns has no repeats, lists every node after its
      predecessors and by who came first, and is complete exactly when the graph has no cycle. */
  method Kahn(n: nat, edges: seq<Edge>) returns (order: seq<nat>)
    ensures Nodes(n, order) && |order| <= n
    ensures forall i, p :: 0 <= i < |order| && Adjacent(n, edges, p, order[i]) ==> p in order[..i]
    ensures |order| == n <==> Acyclic(n, edges)
    ensures |order| == n ==> Permutation(n, order) && Forward(n, edges, order)
    ensures FirstServed(n, edges, order)
  {
    var adjacency, indegree := BuildAdjacency(n, edges);
    var ready := Sources(n, edges, indegree);
    order := [];
    while ready != []
      invariant Settled(n, edges, order, ready, indegree)
      decreases n - |order|
    {
      FrontFits(n, order, ready);
      ready, order, indegree := Visit(n, edges, adjacency[ready[0]], order, ready, indegree);
    }
    Finished(n, edges, order, indegree);
  }

  /** The nodes no edge enters, by index. */
  method Sources(n: nat, edges: seq<Edge>, indegree: seq<nat>) returns (ready: seq<nat>)
    requires |indegree| == n && forall v :: 0 <= v < n ==> indegree[v] == InDegree(n, edges, {}, v)
    ensures Settled(n, edges, [], ready, indegree)
  {
    ready := [];
    for node := 0 to n
      invariant Nodes(n, ready)
      invariant forall i :: 0 <= i < |ready| ==> ready[i] < node
      invariant forall i, j :: 0 <= i < j < |ready| ==> ready[i] < ready[j]
      invariant forall v :: 0 <= v < n ==> (v in ready <==> v < node && indegree[v] == 0)
    {
      if indegree[node] == 0 {
        ready := ready + [node];
      }
    }
    SourcesSettle(n, edges, ready, indegree);
  }

  lemma SourcesSettle(n: nat, edges: seq<Edge>, ready: seq<nat>, indegree: seq<nat>)
    requires |indegree| == n && Nodes(n, ready)
    requires forall v :: 0 <= v < n ==> indegree[v] == InDegree(n, edges, {}, v)
    requires forall v :: 0 <= v < n ==> (v in ready <==> indegree[v] == 0)
    requires forall i, j :: 0 <= i < j < |ready| ==> ready[i] < ready[j]
    ensures Settled(n, edges, [], ready, indegree)
  {
    assert [] + ready == ready;
    assert Elements<nat>([]) == {};
    forall i, p | 0 <= i < |ready| ensures !Adjacent(n, edges, p, ready[i]) {
      assert ready[i] in ready;
      InDegreeZero(n, edges, {}, ready[i]);
    }
    SourcesServed(n, edges, ready);
  }

  lemma FrontFits(n: nat, order: seq<nat>, ready: seq<nat>)
    requires ready != [] && Nodes(n, order + ready)
    ensures ready[0] < n && |order| < n
  {
    assert ready[0] == (order + ready)[|order|];
    NodesFit(n, order + ready);
  }

  /** What holds when the queue is empty. */
  lemma Finished(n: nat, edges: seq<Edge>, order: seq<nat>, indegree: seq<nat>)
    requires Settled(n, edges, order, [], indegree)
    ensures Nodes(n, order) && |order| <= n && FirstServed(n, edges, order)
    ensures |order| == n <==> Acyclic(n, edges)
    ensures |order| == n ==> Forward(n, edges, order)
  {
    assert order + [] == order;
    NodesFit(n, order);
    Complete(n, edges, order, indegree);
  }

  /** One turn of the queue loop: move the front of the queue to the order and
      count its edges off its successors, queueing those that reach zero. */
  method Visit(n: nat, edges: seq<Edge>, successors: seq<nat>, order: seq<nat>, ready: seq<nat>, indegree: seq<nat>)
    returns (ready': seq<nat>, order': seq<nat>, indegree': seq<nat>)
    requires ready != [] && Settled(n, edges, order, ready, indegree)
    requires successors == Successors(n, edges, ready[0])
    ensures order' == order + [ready[0]]
    ensures Settled(n, edges, order', ready', indegree')
  {
    VisitCounts(n, edges, order, ready, indegree);
    order' := order + [ready[0]];
    assert order' + ready[1..] == order + ready;
    ghost var added;
    ready', indegree', added := CountSuccessors(n, successors, order', ready[1..], indegree);
    VisitSettles(n, edges, order, ready, added, indegree');
  }

  /** Exactly the listed nodes with no edge left to count are in the order or the queue. */
  ghost predicate Waiting(n: nat, queue: seq<nat>, indegree: seq<nat>)
  {
    && |indegree| == n && Nodes(n, queue)
    && forall v :: 0 <= v < n ==> (indegree[v] == 0 <==> v in queue)
  }

  /** Count the edges to the successors off one by one. */
  method CountSuccessors(n: nat, successors: seq<nat>, order: seq<nat>, ready: seq<nat>, indegree: seq<nat>)
    returns (ready': seq<nat>, indegree': seq<nat>, ghost added: seq<nat>)
    requires Waiting(n, order + ready, indegree)
    requires forall v :: v in successors ==> v < n && multiset(successors)[v] <= indegree[v]
    ensures Waiting(n, order + ready', indegree')
    ensures Counted(n, successors, indegree, indegree')
    ensures ready' == ready + added && ByLastVisit(successors, added)
  {
    ready', indegree', added := ready, indegree, [];
    for j := 0 to |successors|
      invariant Progress(n, successors[..j], order, ready, added, indegree, ready', indegree')
    {
      ready', indegree', added := CountNext(n, successors, j, order, ready, added, indegree, ready', indegree');
    }
    assert successors[..|successors|] == successors;
  }

  /** As often as a node was seen, an edge was counted off it. */
  ghost predicate Counted(n: nat, seen: seq<nat>, before: seq<nat>, after: seq<nat>)
  {
    |before| == n && |after| == n && forall v :: 0 <= v < n ==> after[v] + multiset(seen)[v] == before[v]
  }

  ghost predicate Progress(n: nat, seen: seq<nat>, order: seq<nat>, ready: seq<nat>, added: seq<nat>, before: seq<nat>,
                           ready': seq<nat>, after: seq<nat>)
  {
    && Waiting(n, order + ready', after) && Counted(n, seen, before, after)
    && ready' == ready + added && ByLastVisit(seen, added)
  }

  method CountNext(n: nat, successors: seq<nat>, j: nat, order: seq<nat>, ghost ready: seq<nat>,
                   ghost added: seq<nat>, ghost before: seq<nat>, ready': seq<nat>, after: seq<nat>)
    returns (ready'': seq<nat>, after': seq<nat>, ghost added': seq<nat>)
    requires j < |successors| && Progress(n, successors[..j], order, ready, added, before, ready', after)
    requires forall v :: v in successors ==> v < n && multiset(successors)[v] <= before[v]
    ensures Progress(n, successors[..j + 1], order, ready, added', before, ready'', after')
  {
    NextCounts(n, successors, j, order, ready, added, before, ready', after);
    var next := successors[j];
    ready'', after' := CountOne(n, next, order, ready', after);
    added' := added;
    if after[next] == 1 {
      added' := added + [next];
      Regroup(ready, added, next);
    }
  }

  lemma Regroup(s: seq<nat>, t: seq<nat>, x: nat)
    ensures s + t + [x] == s + (t + [x])
  {
  }

  lemma NextCounts(n: nat, successors: seq<nat>, j: nat, order: seq<nat>, ready: seq<nat>, added: seq<nat>,
                   before: seq<nat>, ready': seq<nat>, after: seq<nat>)
    requires j < |successors| && Progress(n, successors[..j], order, ready, added, before, ready', after)
    requires forall v :: v in successors ==> v < n && multiset(successors)[v] <= before[v]
    ensures var next := successors[j];
      && next < n && after[next] > 0 && Counted(n, successors[..j + 1], before, after[next := after[next] - 1])
      && ByLastVisit(successors[..j + 1], if after[next] == 1 then added + [next] else added)
  {
    AddedAreDone(n, order, ready, added, after);
    CountedOn(n, successors, j, before, after, added);
  }

  lemma AddedAreDone(n: nat, order: seq<nat>, ready: seq<nat>, added: seq<nat>, after: seq<nat>)
    requires Waiting(n, order + (ready + added), after)
    ensures forall v :: v in added && v < n ==> after[v] == 0
  {
    forall v | v in added && v < n ensures after[v] == 0 {
      assert v in ready + added && v in order + (ready + added);
    }
  }

  lemma CountedOn(n: nat, successors: seq<nat>, j: nat, before: seq<nat>, after: seq<nat>, added: seq<nat>)
    requires j < |successors| && Counted(n, successors[..j], before, after) && ByLastVisit(successors[..j], added)
    requires forall v :: v in successors ==> v < n && multiset(successors)[v] <= before[v]
    requires forall v :: v in added && v < n ==> after[v] == 0
    ensures var next := successors[j];
      && next < n && after[next] > 0 && Counted(n, successors[..j + 1], before, after[next := after[next] - 1])
      && ByLastVisit(successors[..j + 1], if after[next] == 1 then added + [next] else added)
  {
    assert successors[j] in successors;
    TakeOne(successors, j);
    ByLastVisitSnoc(successors[..j], successors[j], added);
  }

  /** Count one edge off a node; the node is queued when none is left. */
  method CountOne(n: nat, next: nat, order: seq<nat>, ready: seq<nat>, indegree: seq<nat>)
    returns (ready': seq<nat>, indegree': seq<nat>)
    requires Waiting(n, order + ready, indegree) && next < n && indegree[next] > 0
    ensures Waiting(n, order + ready', indegree') && indegree' == indegree[next := indegree[next] - 1]
    ensures ready' == if indegree[next] == 1 then ready + [next] else ready
  {
    ready', indegree' := ready, indegree[next := indegree[next] - 1];
    if indegree'[next] == 0 {
      NodesSnoc(n, order + ready, next);
      ready' := ready + [next];
      assert order + ready' == order + ready + [next];
    }
  }

  lemma TakeOne(s: seq<nat>, j: nat)
    requires j < |s|
    ensures multiset(s[..j + 1]) == multiset(s[..j])[s[j] := multiset(s[..j])[s[j]] + 1]
    ensures multiset(s[..j + 1])[s[j]] <= multiset(s)[s[j]]
    ensures s[..j + 1] == s[..j] + [s[j]]
  {
    assert s[..j + 1] == s[..j] + [s[j]];
    assert s == s[..j + 1] + s[j + 1..];
  }

  lemma NodesSnoc(n: nat, s: seq<nat>, x: nat)
    requires Nodes(n, s) && x < n && x !in s
    ensures Nodes(n, s + [x])
  {
  }

  lemma CountOff(n: nat, edges: seq<Edge>, order: seq<nat>, ready: seq<nat>)
    requires ready != [] && Nodes(n, order + ready)
    ensures ready[0] < n
    ensures forall v: nat ::
      InDegree(n, edges, Elements(order), v) ==
      InDegree(n, edges, Elements(order + [ready[0]]), v) + Multiplicity(n, edges, ready[0], v)
  {
    var node := ready[0];
    assert node == (order + ready)[|order|];
    forall i | 0 <= i < |order| ensures order[i] != node {
      assert (order + ready)[i] != (order + ready)[|order|];
    }
    assert Elements(order + [node]) == Elements(order) + {node};
    forall v: nat
      ensures InDegree(n, edges, Elements(order), v) ==
              InDegree(n, edges, Elements(order + [node]), v) + Multiplicity(n, edges, node, v)
    {
      InDegreeAfter(n, edges, Elements(order), node, v);
    }
  }

  lemma VisitCounts(n: nat, edges: seq<Edge>, order: seq<nat>, ready: seq<nat>, indegree: seq<nat>)
    requires ready != [] && Settled(n, edges, order, ready, indegree)
    ensures forall v :: v in Successors(n, edges, ready[0]) ==> v < n
    ensures forall v :: 0 <= v < n ==>
              indegree[v] == InDegree(n, edges, Elements(order + [ready[0]]), v) +
                             multiset(Successors(n, edges, ready[0]))[v]
  {
    CountOff(n, edges, order, ready);
    forall v: nat {
      SuccessorsCount(n, edges, ready[0], v);
    }
  }

  lemma VisitSettles(n: nat, edges: seq<Edge>, order: seq<nat>, ready: seq<nat>, added: seq<nat>, indegree: seq<nat>)
    requires ready != [] && PredecessorsFirst(n, edges, order, ready) && FirstServed(n, edges, order + ready)
    requires Waiting(n, order + [ready[0]] + (ready[1..] + added), indegree)
    requires forall v :: 0 <= v < n ==> indegree[v] == InDegree(n, edges, Elements(order + [ready[0]]), v)
    requires ByLastVisit(Successors(n, edges, ready[0]), added)
    ensures Settled(n, edges, order + [ready[0]], ready[1..] + added, indegree)
  {
    var order', ready' := order + [ready[0]], ready[1..] + added;
    StillFirst(n, edges, order, ready, ready', indegree);
    VisitServed(n, edges, order, ready, added);
    assert order' + ready' == order + ready + added;
  }

  /** Moving the front of the queue to the order, and queueing nodes none of whose
      predecessors is outside the order, keeps predecessors first. */
  lemma StillFirst(n: nat, edges: seq<Edge>, order: seq<nat>, ready: seq<nat>, ready': seq<nat>, indegree: seq<nat>)
    requires ready != [] && PredecessorsFirst(n, edges, order, ready)
    requires |indegree| == n && Nodes(n, order + [ready[0]] + ready')
    requires forall v :: 0 <= v < n ==> indegree[v] == InDegree(n, edges, Elements(order + [ready[0]]), v)
    requires forall v :: v in ready' && v < n ==> indegree[v] == 0
    ensures PredecessorsFirst(n, edges, order + [ready[0]], ready')
  {
    var order' := order + [ready[0]];
    forall i, p | 0 <= i < |order'| && Adjacent(n, edges, p, order'[i]) ensures p in order'[..i] {
      if i < |order| {
        assert order'[..i] == order[..i];
      } else {
        assert order'[..i] == order && order'[i] == ready[0];
      }
    }
    forall i | 0 <= i < |ready'| ensures forall p :: Adjacent(n, edges, p, ready'[i]) ==> p in order' {
      assert ready'[i] == (order' + ready')[|order'| + i];
      InDegreeZero(n, edges, Elements(order'), ready'[i]);
    }
  }

  lemma SourcesServed(n: nat, edges: seq<Edge>, ready: seq<nat>)
    requires forall i, j :: 0 <= i < j < |ready| ==> ready[i] < ready[j]
    requires forall i, p :: 0 <= i < |ready| ==> !Adjacent(n, edges, p, ready[i])
    ensures FirstServed(n, edges, ready)
  {
    forall i: nat, j: nat | i < j < |ready| ensures InTurn(n, edges, ready, i, j) {
      LastPredecessorIsLast(n, edges, ready, ready[i]);
      LastPredecessorIsLast(n, edges, ready, ready[j]);
    }
  }

  /** Every queue the turn leaves serves first who came first. */
  lemma VisitServed(n: nat, edges: seq<Edge>, order: seq<nat>, ready: seq<nat>, added: seq<nat>)
    requires ready != [] && Nodes(n, order + [ready[0]] + (ready[1..] + added)) && FirstServed(n, edges, order + ready)
    requires PredecessorsFirst(n, edges, order, ready)
    requires PredecessorsFirst(n, edges, order + [ready[0]], ready[1..] + added)
    requires ByLastVisit(Successors(n, edges, ready[0]), added)
    ensures FirstServed(n, edges, order + ready + added)
  {
    var queue, k := order + ready, |order|;
    var whole := queue + added;
    assert order + [ready[0]] + (ready[1..] + added) == whole;
    forall i, j | k <= i < |whole| && 0 <= j < |queue| ensures !Adjacent(n, edges, whole[i], queue[j]) {
      NotBefore(whole, k, i);
      assert whole[..k] == order;
      assert j < k ==> forall p :: p in order[..j] ==> p in order;
      assert j >= k ==> queue[j] == ready[j - k];
    }
    assert NoneWaits(n, edges, whole, k, queue);
    forall i, j | k + 1 <= i < |whole| && 0 <= j < |added| ensures !Adjacent(n, edges, whole[i], added[j]) {
      NotBefore(whole, k + 1, i);
      assert whole[..k + 1] == order + [ready[0]];
      assert added[j] == (ready[1..] + added)[|ready| - 1 + j];
    }
    assert NoneWaits(n, edges, whole, k + 1, added);
    StillServed(n, edges, queue, k, added);
  }

  lemma NotBefore(s: seq<nat>, k: nat, i: nat)
    requires Distinct(s) && k <= i < |s|
    ensures s[i] !in s[..k]
  {
  }

  /** When the queue is empty, what is left out feeds itself, so leaving anything out means a cycle. */
  lemma Complete(n: nat, edges: seq<Edge>, order: seq<nat>, indegree: seq<nat>)
    requires Settled(n, edges, order, [], indegree)
    ensures |order| == n <==> Acyclic(n, edges)
    ensures |order| == n ==> Forward(n, edges, order)
  {
    assert order + [] == order;
    if |order| == n {
      forall i, j | 0 <= i < n && 0 <= j < n && Adjacent(n, edges, order[i], order[j]) ensures i < j {
        assert order[i] in order[..j];
      }
      ForwardImpliesAcyclic(n, edges, order);
    } else {
      var rest := set v | v in Below(n) && v !in order;
      forall v | v in rest ensures HasPredecessor(n, edges, rest, v) {
        InDegreeZero(n, edges, Elements(order), v);
        var p :| Adjacent(n, edges, p, v) && p !in order;
        assert p in Below(n);
      }
      DistinctCardinality(order);
      SubsetCardinality(Elements(order), Below(n));
      assert Below(n) <= Elements(order) ==> Below(n) == Elements(order);
      var left :| left in Below(n) && left !in Elements(order);
      assert left in rest;
      SourcelessImpliesCycle(n, edges, rest);
    }
  }
}
