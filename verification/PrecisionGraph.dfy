/** Inserting converters keeps the graph: what the planner returns contracts back
    to the edges it was given and orders the original nodes the same way. */
module PrecisionGraph {
  import opened Options
  import opened Manifest
  import opened Graph
  import opened PrecisionPlanner

  ghost function Ends(edges: seq<PlanEdge>): (ends: seq<Edge>)
    ensures |ends| == |edges|
    ensures forall i :: 0 <= i < |edges| ==> ends[i] == Edge(edges[i].from, edges[i].to)
  {
    seq(|edges|, i requires 0 <= i < |edges| => Edge(edges[i].from, edges[i].to))
  }

  /** Merge every edge that leaves an inserted node with the edge listed before it. */
  ghost function Contract(n: nat, planned: seq<PlanEdge>): (edges: seq<PlanEdge>)
  {
    if planned == [] then []
    else
      var last := planned[|planned| - 1];
      if last.from < n || |planned| == 1 then Contract(n, planned[..|planned| - 1]) + [last]
      else
        var first := planned[|planned| - 2];
        Contract(n, planned[..|planned| - 2]) + [PlanEdge(first.from, last.to, first.fromPort, last.toPort)]
  }

  lemma {:induction false} ContractPlanned(nodes: seq<PlanNode>, edges: seq<PlanEdge>, k: nat)
    requires k <= |edges| && forall j :: 0 <= j < k ==> InRange(nodes, edges[j])
    ensures Contract(|nodes|, PlannedEdges(nodes, edges, k)) == edges[..k]
  {
    if k != 0 {
      ContractPlanned(nodes, edges, k - 1);
      var front := PlannedEdges(nodes, edges, k - 1);
      assert edges[..k] == edges[..k - 1] + [edges[k - 1]];
      if Converted(nodes, edges, k - 1) {
        ContractPair(|nodes|, front, Before(nodes, edges, k - 1), After(nodes, edges, k - 1));
      } else {
        ContractKept(|nodes|, front, edges[k - 1]);
      }
    }
  }

  lemma ContractKept(n: nat, front: seq<PlanEdge>, e: PlanEdge)
    requires e.from < n
    ensures Contract(n, front + [e]) == Contract(n, front) + [e]
  {
    assert (front + [e])[..|front|] == front;
  }

  lemma ContractPair(n: nat, front: seq<PlanEdge>, a: PlanEdge, b: PlanEdge)
    requires b.from >= n
    ensures Contract(n, front + [a, b]) == Contract(n, front) + [PlanEdge(a.from, b.to, a.fromPort, b.toPort)]
  {
    assert (front + [a, b])[..|front|] == front;
  }

  ghost function EntersCount(planned: seq<PlanEdge>, c: nat): (count: nat)
  {
    if planned == [] then 0
    else EntersCount(planned[..|planned| - 1], c) + if planned[|planned| - 1].to == c then 1 else 0
  }

  ghost function LeavesCount(planned: seq<PlanEdge>, c: nat): (count: nat)
  {
    if planned == [] then 0
    else LeavesCount(planned[..|planned| - 1], c) + if planned[|planned| - 1].from == c then 1 else 0
  }

  lemma CountsSnoc(planned: seq<PlanEdge>, e: PlanEdge, c: nat)
    ensures EntersCount(planned + [e], c) == EntersCount(planned, c) + if e.to == c then 1 else 0
    ensures LeavesCount(planned + [e], c) == LeavesCount(planned, c) + if e.from == c then 1 else 0
  {
    assert (planned + [e])[..|planned|] == planned;
  }

  lemma CountsPair(planned: seq<PlanEdge>, a: PlanEdge, b: PlanEdge, c: nat)
    ensures EntersCount(planned + [a, b], c) ==
            EntersCount(planned, c) + (if a.to == c then 1 else 0) + (if b.to == c then 1 else 0)
    ensures LeavesCount(planned + [a, b], c) ==
            LeavesCount(planned, c) + (if a.from == c then 1 else 0) + (if b.from == c then 1 else 0)
  {
    CountsSnoc(planned, a, c);
    CountsSnoc(planned + [a], b, c);
    assert planned + [a, b] == planned + [a] + [b];
  }

  ghost predicate Counts(planned: seq<PlanEdge>, c: nat, count: nat)
  {
    EntersCount(planned, c) == count && LeavesCount(planned, c) == count
  }

  lemma KeptCounts(planned: seq<PlanEdge>, e: PlanEdge, c: nat, count: nat)
    requires Counts(planned, c, count) && e.from != c && e.to != c
    ensures Counts(planned + [e], c, count)
  {
    CountsSnoc(planned, e, c);
  }

  lemma PairCounts(planned: seq<PlanEdge>, a: PlanEdge, b: PlanEdge, c: nat, count: nat, middle: nat)
    requires Counts(planned, c, count) && a.from != c && b.to != c && a.to == b.from == middle
    ensures Counts(planned + [a, b], c, if c == middle then count + 1 else count)
  {
    CountsPair(planned, a, b, c);
  }

  /** Each inserted node has exactly one edge in and one edge out. */
  lemma {:induction false} OneInOneOut(nodes: seq<PlanNode>, edges: seq<PlanEdge>, k: nat, c: nat)
    requires k <= |edges| && forall j :: 0 <= j < k ==> InRange(nodes, edges[j])
    requires c >= |nodes|
    ensures Counts(PlannedEdges(nodes, edges, k), c, if c < |nodes| + Inserted(nodes, edges, k) then 1 else 0)
  {
    if k != 0 {
      OneInOneOut(nodes, edges, k - 1, c);
      var front, before := PlannedEdges(nodes, edges, k - 1), Inserted(nodes, edges, k - 1);
      var count := if c < |nodes| + before then 1 else 0;
      if Converted(nodes, edges, k - 1) {
        PairCounts(front, Before(nodes, edges, k - 1), After(nodes, edges, k - 1), c, count, |nodes| + before);
      } else {
        KeptCounts(front, edges[k - 1], c, count);
      }
    }
  }

  /** Edge f of the plan comes from edge j of the original graph. */
  ghost predicate Origin(nodes: seq<PlanNode>, edges: seq<PlanEdge>, j: nat, f: PlanEdge)
    requires j < |edges|
  {
    if Converted(nodes, edges, j) then f == Before(nodes, edges, j) || f == After(nodes, edges, j) else f == edges[j]
  }

  lemma {:induction false} PlannedOrigins(nodes: seq<PlanNode>, edges: seq<PlanEdge>, k: nat, f: PlanEdge)
    requires k <= |edges|
    ensures f in PlannedEdges(nodes, edges, k) <==> exists j: nat :: j < k && Origin(nodes, edges, j, f)
  {
    if k != 0 {
      PlannedOrigins(nodes, edges, k - 1, f);
      LastOrigin(nodes, edges, k, f);
    }
  }

  lemma LastOrigin(nodes: seq<PlanNode>, edges: seq<PlanEdge>, k: nat, f: PlanEdge)
    requires 0 < k <= |edges|
    ensures f in PlannedEdges(nodes, edges, k) <==>
            f in PlannedEdges(nodes, edges, k - 1) || Origin(nodes, edges, k - 1, f)
  {
  }

  lemma {:induction false} InsertedMonotone(nodes: seq<PlanNode>, edges: seq<PlanEdge>, j: nat, k: nat)
    requires j < k <= |edges|
    ensures Inserted(nodes, edges, j) + (if Converted(nodes, edges, j) then 1 else 0) <= Inserted(nodes, edges, k)
  {
    if j < k - 1 {
      InsertedMonotone(nodes, edges, j, k - 1);
    }
  }

  lemma ConvertersDiffer(nodes: seq<PlanNode>, edges: seq<PlanEdge>, j: nat, k: nat)
    requires j < |edges| && k < |edges| && Converted(nodes, edges, j) && Converted(nodes, edges, k)
    requires ConverterAt(nodes, edges, j) == ConverterAt(nodes, edges, k)
    ensures j == k
  {
    if j < k {
      InsertedMonotone(nodes, edges, j, k);
    } else if k < j {
      InsertedMonotone(nodes, edges, k, j);
    }
  }

  /** The sizes and edge ends of a finished plan. */
  ghost predicate Rewrites(nodes: seq<PlanNode>, edges: seq<PlanEdge>, total: nat, ends: seq<Edge>)
  {
    && total == |nodes| + Inserted(nodes, edges, |edges|)
    && ends == Ends(PlannedEdges(nodes, edges, |edges|))
    && forall j :: 0 <= j < |edges| ==> InRange(nodes, edges[j])
  }

  /** Where an edge of the plan comes from. */
  lemma PlanAdjacent(nodes: seq<PlanNode>, edges: seq<PlanEdge>, total: nat, ends: seq<Edge>, u: nat, v: nat)
    returns (j: nat)
    requires Rewrites(nodes, edges, total, ends) && Adjacent(total, ends, u, v)
    ensures j < |edges|
    ensures if Converted(nodes, edges, j)
            then || (u == edges[j].from && v == ConverterAt(nodes, edges, j))
                 || (u == ConverterAt(nodes, edges, j) && v == edges[j].to)
            else u == edges[j].from && v == edges[j].to
  {
    var planned := PlannedEdges(nodes, edges, |edges|);
    var i :| 0 <= i < |ends| && ends[i] == Edge(u, v);
    PlannedOrigins(nodes, edges, |edges|, planned[i]);
    j :| j < |edges| && Origin(nodes, edges, j, planned[i]);
  }

  lemma PlanHasEdge(nodes: seq<PlanNode>, edges: seq<PlanEdge>, total: nat, ends: seq<Edge>, j: nat, f: PlanEdge)
    requires Rewrites(nodes, edges, total, ends) && j < |edges| && Origin(nodes, edges, j, f)
    ensures Adjacent(total, ends, f.from, f.to)
  {
    PlannedOrigins(nodes, edges, |edges|, f);
    var planned := PlannedEdges(nodes, edges, |edges|);
    var i :| 0 <= i < |planned| && planned[i] == f;
    assert ends[i] == Edge(f.from, f.to);
    InsertedMonotone(nodes, edges, j, |edges|);
  }

  /** An original edge survives as one edge or as two through a converter. */
  lemma EdgeSurvives(nodes: seq<PlanNode>, edges: seq<PlanEdge>, total: nat, ends: seq<Edge>, u: nat, v: nat)
    requires Rewrites(nodes, edges, total, ends) && Adjacent(|nodes|, Ends(edges), u, v)
    ensures Reaches(total, ends, u, v)
  {
    var j :| 0 <= j < |edges| && Ends(edges)[j] == Edge(u, v);
    if Converted(nodes, edges, j) {
      var c := ConverterAt(nodes, edges, j);
      PlanHasEdge(nodes, edges, total, ends, j, Before(nodes, edges, j));
      PlanHasEdge(nodes, edges, total, ends, j, After(nodes, edges, j));
      ReachesByEdge(total, ends, u, c);
      ReachesByEdge(total, ends, c, v);
      ReachesTransitive(total, ends, u, c, v);
    } else {
      PlanHasEdge(nodes, edges, total, ends, j, edges[j]);
      ReachesByEdge(total, ends, u, v);
    }
  }

  lemma {:induction false} WalkSurvives(nodes: seq<PlanNode>, edges: seq<PlanEdge>, total: nat, ends: seq<Edge>,
                                        w: seq<nat>, u: nat, v: nat)
    requires Rewrites(nodes, edges, total, ends) && Joins(|nodes|, Ends(edges), w, u, v)
    ensures Reaches(total, ends, u, v)
    decreases |w|
  {
    assert Adjacent(|nodes|, Ends(edges), w[0], w[1]);
    EdgeSurvives(nodes, edges, total, ends, u, w[1]);
    if |w| > 2 {
      WalkSurvives(nodes, edges, total, ends, w[1..], w[1], v);
      ReachesTransitive(total, ends, u, w[1], v);
    }
  }

  /** A step of the plan out of an original node: either an original edge, or the first
      half of one, in which case the next step can only be its second half. */
  lemma StepContracts(nodes: seq<PlanNode>, edges: seq<PlanEdge>, total: nat, ends: seq<Edge>, u: nat, x: nat)
    requires Rewrites(nodes, edges, total, ends) && u < |nodes| && Adjacent(total, ends, u, x)
    ensures x < |nodes| ==> Adjacent(|nodes|, Ends(edges), u, x)
    ensures x >= |nodes| ==> forall y: nat :: Adjacent(total, ends, x, y) ==>
      y < |nodes| && Adjacent(|nodes|, Ends(edges), u, y)
  {
    var j := PlanAdjacent(nodes, edges, total, ends, u, x);
    if Converted(nodes, edges, j) {
      forall y: nat | Adjacent(total, ends, x, y) ensures y < |nodes| && Adjacent(|nodes|, Ends(edges), u, y) {
        var k := PlanAdjacent(nodes, edges, total, ends, x, y);
        ConvertersDiffer(nodes, edges, j, k);
        assert Ends(edges)[j] == Edge(u, y);
      }
    } else {
      assert Ends(edges)[j] == Edge(u, x);
    }
  }

  lemma {:induction false} WalkContracts(nodes: seq<PlanNode>, edges: seq<PlanEdge>, total: nat, ends: seq<Edge>,
                                         w: seq<nat>, u: nat, v: nat)
    requires Rewrites(nodes, edges, total, ends) && Joins(total, ends, w, u, v) && u < |nodes| && v < |nodes|
    ensures Reaches(|nodes|, Ends(edges), u, v)
    decreases |w|
  {
    var n, original := |nodes|, Ends(edges);
    assert Adjacent(total, ends, w[0], w[1]);
    StepContracts(nodes, edges, total, ends, u, w[1]);
    var k := if w[1] < n then 1 else 2;
    if k == 2 { assert Adjacent(total, ends, w[1], w[2]); }
    assert Adjacent(n, original, u, w[k]);
    ReachesByEdge(n, original, u, w[k]);
    if |w| > k + 1 {
      assert Joins(total, ends, w[k..], w[k], v);
      WalkContracts(nodes, edges, total, ends, w[k..], w[k], v);
      ReachesTransitive(n, original, u, w[k], v);
    }
  }

  /** A cycle through a converter also passes through the original node after it. */
  lemma CycleHasOriginalNode(nodes: seq<PlanNode>, edges: seq<PlanEdge>, total: nat, ends: seq<Edge>, v: nat)
    returns (x: nat)
    requires Rewrites(nodes, edges, total, ends) && Reaches(total, ends, v, v)
    ensures x < |nodes| && Reaches(total, ends, x, x)
  {
    if v < |nodes| {
      x := v;
    } else {
      x := ReachesFirstEdge(total, ends, v, v);
      var j := PlanAdjacent(nodes, edges, total, ends, v, x);
      if x != v {
        ReachesByEdge(total, ends, v, x);
        ReachesTransitive(total, ends, x, v, x);
      }
    }
  }

  /** Contracting the converters gives the original edges back; reachability between
      original nodes and freedom from cycles are the same before and after. */
  lemma AutoInsertKeepsGraph(nodes: seq<PlanNode>, edges: seq<PlanEdge>, converter: Option<Descriptor>,
                             plan: PrecisionPlan)
    requires PlannedUpTo(nodes, edges, converter, |edges|, plan)
    ensures Contract(|nodes|, plan.edges) == edges
    ensures forall i :: 0 <= i < |plan.edges| ==> plan.edges[i].from < |plan.nodes| && plan.edges[i].to < |plan.nodes|
    ensures forall u, v :: 0 <= u < |nodes| && 0 <= v < |nodes| ==>
      (Reaches(|nodes|, Ends(edges), u, v) <==> Reaches(|plan.nodes|, Ends(plan.edges), u, v))
    ensures Acyclic(|nodes|, Ends(edges)) <==> Acyclic(|plan.nodes|, Ends(plan.edges))
  {
    var total, ends := |plan.nodes|, Ends(plan.edges);
    assert edges[..|edges|] == edges;
    assert Rewrites(nodes, edges, total, ends);
    ContractPlanned(nodes, edges, |edges|);
    forall i | 0 <= i < |plan.edges| ensures plan.edges[i].from < total && plan.edges[i].to < total {
      PlannedOrigins(nodes, edges, |edges|, plan.edges[i]);
      var j: nat :| j < |edges| && Origin(nodes, edges, j, plan.edges[i]);
      InsertedMonotone(nodes, edges, j, |edges|);
    }
    forall u, v | 0 <= u < |nodes| && 0 <= v < |nodes|
      ensures Reaches(|nodes|, Ends(edges), u, v) <==> Reaches(total, ends, u, v)
    {
      SameReach(nodes, edges, total, ends, u, v);
    }
    SameCycles(nodes, edges, total, ends);
  }

  /** One original pair, read off a finished plan. */
  lemma PlanReaches(nodes: seq<PlanNode>, edges: seq<PlanEdge>, converter: Option<Descriptor>, plan: PrecisionPlan,
                    u: nat, v: nat)
    requires PlannedUpTo(nodes, edges, converter, |edges|, plan)
    requires u < |nodes| && v < |nodes| && Reaches(|nodes|, Ends(edges), u, v)
    ensures Reaches(|plan.nodes|, Ends(plan.edges), u, v)
  {
    assert edges[..|edges|] == edges;
    SameReach(nodes, edges, |plan.nodes|, Ends(plan.edges), u, v);
  }

  lemma SameReach(nodes: seq<PlanNode>, edges: seq<PlanEdge>, total: nat, ends: seq<Edge>, u: nat, v: nat)
    requires Rewrites(nodes, edges, total, ends) && u < |nodes| && v < |nodes|
    ensures Reaches(|nodes|, Ends(edges), u, v) <==> Reaches(total, ends, u, v)
  {
    if Reaches(|nodes|, Ends(edges), u, v) {
      var w :| Joins(|nodes|, Ends(edges), w, u, v);
      WalkSurvives(nodes, edges, total, ends, w, u, v);
    }
    if Reaches(total, ends, u, v) {
      var w :| Joins(total, ends, w, u, v);
      WalkContracts(nodes, edges, total, ends, w, u, v);
    }
  }

  lemma SameCycles(nodes: seq<PlanNode>, edges: seq<PlanEdge>, total: nat, ends: seq<Edge>)
    requires Rewrites(nodes, edges, total, ends)
    ensures Acyclic(|nodes|, Ends(edges)) <==> Acyclic(total, ends)
  {
    if !Acyclic(total, ends) {
      var v :| Reaches(total, ends, v, v);
      var x := CycleHasOriginalNode(nodes, edges, total, ends, v);
      SameReach(nodes, edges, total, ends, x, x);
    }
    if !Acyclic(|nodes|, Ends(edges)) {
      var v :| Reaches(|nodes|, Ends(edges), v, v);
      var p := ReachesFirstEdge(|nodes|, Ends(edges), v, v);
      SameReach(nodes, edges, total, ends, v, v);
    }
  }

  /** Exactly one converter per disagreeing edge, each joined by one edge in and one
      edge out, and no two with the same id. */
  lemma ConvertersAreFresh(nodes: seq<PlanNode>, edges: seq<PlanEdge>, converter: Option<Descriptor>,
                           plan: PrecisionPlan)
    requires PlannedUpTo(nodes, edges, converter, |edges|, plan)
    ensures |plan.nodes| == |nodes| + |Disagreeing(nodes, edges, |edges|)| == |nodes| + |plan.inserted|
    ensures forall c :: |nodes| <= c < |plan.nodes| ==>
      EntersCount(plan.edges, c) == 1 && LeavesCount(plan.edges, c) == 1
    ensures forall c, d :: |nodes| <= c < d < |plan.nodes| ==> plan.nodes[c].id != plan.nodes[d].id
  {
    DisagreeingCount(nodes, edges, |edges|);
    ConvertersJoinOnce(nodes, edges, converter, plan);
    forall c, d | |nodes| <= c < d < |plan.nodes| ensures plan.nodes[c].id != plan.nodes[d].id {
      IdsDiffer(nodes, edges, converter, plan, c, d);
    }
  }

  lemma ConvertersJoinOnce(nodes: seq<PlanNode>, edges: seq<PlanEdge>, converter: Option<Descriptor>,
                           plan: PrecisionPlan)
    requires PlannedUpTo(nodes, edges, converter, |edges|, plan)
    ensures forall c :: |nodes| <= c < |plan.nodes| ==>
      EntersCount(plan.edges, c) == 1 && LeavesCount(plan.edges, c) == 1
  {
    assert edges[..|edges|] == edges;
    forall c | |nodes| <= c < |plan.nodes| ensures EntersCount(plan.edges, c) == 1 && LeavesCount(plan.edges, c) == 1 {
      OneInOneOut(nodes, edges, |edges|, c);
    }
  }

  /** The edges among the first k whose ends share no precision. */
  ghost function Disagreeing(nodes: seq<PlanNode>, edges: seq<PlanEdge>, k: nat): (which: set<nat>)
    requires k <= |edges|
  {
    set j: nat | j < k && Converted(nodes, edges, j)
  }

  ghost function Chosen(choose: nat -> bool, k: nat): (which: set<nat>)
  {
    if k == 0 then {} else if choose(k - 1) then Chosen(choose, k - 1) + {k - 1} else Chosen(choose, k - 1)
  }

  lemma {:induction false} ChosenIs(choose: nat -> bool, k: nat, j: nat)
    ensures j in Chosen(choose, k) <==> j < k && choose(j)
    decreases k
  {
    if k != 0 {
      ChosenIs(choose, k - 1, j);
    }
  }

  lemma {:induction false} ChosenCount(choose: nat -> bool, count: nat -> nat, k: nat)
    requires count(0) == 0 && forall j: nat :: 0 < j <= k ==> count(j) == count(j - 1) + if choose(j - 1) then 1 else 0
    ensures |Chosen(choose, k)| == count(k)
  {
    if k != 0 {
      ChosenCount(choose, count, k - 1);
      ChosenIs(choose, k - 1, k - 1);
    }
  }

  lemma DisagreeingCount(nodes: seq<PlanNode>, edges: seq<PlanEdge>, k: nat)
    requires k <= |edges|
    ensures |Disagreeing(nodes, edges, k)| == Inserted(nodes, edges, k)
  {
    var choose := (j: nat) => j < |edges| && Converted(nodes, edges, j);
    ChosenCount(choose, (j: nat) => if j <= |edges| then Inserted(nodes, edges, j) else 0, k);
    forall j: nat ensures j in Disagreeing(nodes, edges, k) <==> j in Chosen(choose, k) {
      ChosenIs(choose, k, j);
    }
    assert Disagreeing(nodes, edges, k) == Chosen(choose, k);
  }

  /** Converter number i is the one put on the edge with i disagreeing edges before it. */
  lemma {:induction false} EdgeOfConverter(nodes: seq<PlanNode>, edges: seq<PlanEdge>, k: nat, i: nat) returns (j: nat)
    requires k <= |edges| && i < Inserted(nodes, edges, k)
    ensures j < k && Converted(nodes, edges, j) && Inserted(nodes, edges, j) == i
  {
    if i == Inserted(nodes, edges, k - 1) {
      j := k - 1;
    } else {
      j := EdgeOfConverter(nodes, edges, k - 1, i);
    }
  }

  lemma IdsDiffer(nodes: seq<PlanNode>, edges: seq<PlanEdge>, converter: Option<Descriptor>, plan: PrecisionPlan,
                  c: nat, d: nat)
    requires PlannedUpTo(nodes, edges, converter, |edges|, plan) && |nodes| <= c < d < |plan.nodes|
    ensures plan.nodes[c].id != plan.nodes[d].id
  {
    var from, to := IdSequence(nodes, edges, converter, plan, c);
    var from', to' := IdSequence(nodes, edges, converter, plan, d);
    ConverterIdsDiffer(from, to, c - |nodes|, from', to', d - |nodes|);
  }

  lemma IdSequence(nodes: seq<PlanNode>, edges: seq<PlanEdge>, converter: Option<Descriptor>, plan: PrecisionPlan,
                   c: nat)
    returns (from: nat, to: nat)
    requires PlannedUpTo(nodes, edges, converter, |edges|, plan) && |nodes| <= c < |plan.nodes|
    ensures plan.nodes[c].id == ConverterId(from, to, c - |nodes|)
  {
    var j := EdgeOfConverter(nodes, edges, |edges|, c - |nodes|);
    from, to := edges[j].from, edges[j].to;
    assert ConverterAt(nodes, edges, j) == c;
  }
}
