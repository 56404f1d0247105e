/** The load-time dataflow over metadata steps: which steps have been applied by the
    time a node's output exists. */
module StepFlow {
  import opened Manifest
  import opened Graph
  import opened PrecisionPlanner
  import opened PrecisionGraph

  /** Some edge leaving u names an out port of u that sets the step. */
  ghost predicate SetBy(nodes: seq<PlanNode>, edges: seq<PlanEdge>, u: nat, step: string)
  {
    && u < |nodes|
    && exists j :: 0 <= j < |edges| && edges[j].from == u && step in StepsSet(nodes[u].descriptor, edges[j].fromPort)
  }

  /** The step is set by v or by an ancestor of v. */
  ghost predicate Produced(nodes: seq<PlanNode>, edges: seq<PlanEdge>, v: nat, step: string)
  {
    exists u :: (u == v || Reaches(|nodes|, Ends(edges), u, v)) && SetBy(nodes, edges, u, step)
  }

  lemma ProducedOneStep(nodes: seq<PlanNode>, edges: seq<PlanEdge>, v: nat, step: string)
    ensures Produced(nodes, edges, v, step) <==>
            SetBy(nodes, edges, v, step) ||
            exists p :: Adjacent(|nodes|, Ends(edges), p, v) && Produced(nodes, edges, p, step)
  {
    var n, ends := |nodes|, Ends(edges);
    if Produced(nodes, edges, v, step) && !SetBy(nodes, edges, v, step) {
      var u :| (u == v || Reaches(n, ends, u, v)) && SetBy(nodes, edges, u, step);
      var p := ReachesLastEdge(n, ends, u, v);
      assert Produced(nodes, edges, p, step);
    }
    if exists p :: Adjacent(n, ends, p, v) && Produced(nodes, edges, p, step) {
      var p :| Adjacent(n, ends, p, v) && Produced(nodes, edges, p, step);
      var u :| (u == p || Reaches(n, ends, u, p)) && SetBy(nodes, edges, u, step);
      ReachesByEdge(n, ends, p, v);
      if u != p { ReachesTransitive(n, ends, u, p, v); }
      assert Produced(nodes, edges, v, step);
    }
    if SetBy(nodes, edges, v, step) {
      assert Produced(nodes, edges, v, step);
    }
  }

  method AppendUnique(steps: seq<string>, more: seq<string>) returns (out: seq<string>)
    requires Distinct(steps)
    ensures Distinct(out) && steps <= out
    ensures forall s :: s in out <==> s in steps || s in more
  {
    out := steps;
    for k := 0 to |more|
      invariant Distinct(out) && steps <= out
      invariant forall s :: s in out <==> s in steps || s in more[..k]
    {
      if more[k] !in out {
        out := out + [more[k]];
      }
    }
  }

  ghost predicate Inherits(edges: seq<PlanEdge>, cumulative: seq<seq<string>>, v: nat, k: nat, step: string)
    requires k <= |edges|
  {
    exists j :: 0 <= j < k && edges[j].to == v && edges[j].from < |cumulative| && step in cumulative[edges[j].from]
  }

  ghost predicate Adds(nodes: seq<PlanNode>, edges: seq<PlanEdge>, v: nat, k: nat, step: string)
    requires k <= |edges| && v < |nodes|
  {
    exists j :: 0 <= j < k && edges[j].from == v && step in StepsSet(nodes[v].descriptor, edges[j].fromPort)
  }

  /** The body of the dataflow loop for one node. */
  method NodeSteps(nodes: seq<PlanNode>, edges: seq<PlanEdge>, cumulative: seq<seq<string>>, v: nat)
    returns (steps: seq<string>)
    requires v < |nodes| == |cumulative|
    requires forall j :: 0 <= j < |edges| ==> InRange(nodes, edges[j])
    ensures Distinct(steps)
    ensures forall s :: s in steps <==> Inherits(edges, cumulative, v, |edges|, s) || Adds(nodes, edges, v, |edges|, s)
  {
    steps := [];
    for k := 0 to |edges|
      invariant Distinct(steps)
      invariant forall s :: s in steps <==> Inherits(edges, cumulative, v, k, s)
    {
      if edges[k].to == v {
        steps := AppendUnique(steps, cumulative[edges[k].from]);
      }
      forall s ensures Inherits(edges, cumulative, v, k + 1, s) <==>
          Inherits(edges, cumulative, v, k, s) || (edges[k].to == v && s in cumulative[edges[k].from]) {
      }
    }
    for k := 0 to |edges|
      invariant Distinct(steps)
      invariant forall s :: s in steps <==> Inherits(edges, cumulative, v, |edges|, s) || Adds(nodes, edges, v, k, s)
    {
      if edges[k].from == v {
        steps := AppendUnique(steps, StepsSet(nodes[v].descriptor, edges[k].fromPort));
      }
      forall s ensures Adds(nodes, edges, v, k + 1, s) <==>
          Adds(nodes, edges, v, k, s) || (edges[k].from == v && s in StepsSet(nodes[v].descriptor, edges[k].fromPort)) {
      }
    }
  }

  /** The steps of one node, without repeats and exactly the produced ones. */
  ghost predicate Exact(nodes: seq<PlanNode>, edges: seq<PlanEdge>, v: nat, steps: seq<string>)
  {
    Distinct(steps) && forall s :: s in steps <==> Produced(nodes, edges, v, s)
  }

  lemma NodeExact(nodes: seq<PlanNode>, edges: seq<PlanEdge>, cumulative: seq<seq<string>>, v: nat, steps: seq<string>)
    requires v < |nodes| == |cumulative|
    requires forall j :: 0 <= j < |edges| ==> InRange(nodes, edges[j])
    requires forall p: nat :: Adjacent(|nodes|, Ends(edges), p, v) ==> Exact(nodes, edges, p, cumulative[p])
    requires Distinct(steps)
    requires forall s :: s in steps <==> Inherits(edges, cumulative, v, |edges|, s) || Adds(nodes, edges, v, |edges|, s)
    ensures Exact(nodes, edges, v, steps)
  {
    forall s ensures s in steps <==> Produced(nodes, edges, v, s) {
      ProducedOneStep(nodes, edges, v, s);
      InheritsFromPredecessors(nodes, edges, cumulative, v, s);
    }
  }

  lemma InheritsFromPredecessors(nodes: seq<PlanNode>, edges: seq<PlanEdge>, cumulative: seq<seq<string>>, v: nat,
                                 s: string)
    requires v < |nodes| == |cumulative|
    requires forall j :: 0 <= j < |edges| ==> InRange(nodes, edges[j])
    requires forall p: nat :: Adjacent(|nodes|, Ends(edges), p, v) ==> Exact(nodes, edges, p, cumulative[p])
    ensures Inherits(edges, cumulative, v, |edges|, s) <==>
            exists p :: Adjacent(|nodes|, Ends(edges), p, v) && Produced(nodes, edges, p, s)
  {
    var n, ends := |nodes|, Ends(edges);
    if Inherits(edges, cumulative, v, |edges|, s) {
      var j :| 0 <= j < |edges| && edges[j].to == v && edges[j].from < |cumulative| && s in cumulative[edges[j].from];
      assert ends[j] == Edge(edges[j].from, v);
      assert Adjacent(n, ends, edges[j].from, v);
    }
    if p :| Adjacent(n, ends, p, v) && Produced(nodes, edges, p, s) {
      var j :| 0 <= j < |ends| && ends[j] == Edge(p, v);
      assert edges[j].from == p && edges[j].to == v;
    }
  }

  /** The dataflow pass, along a forward order. */
  method CumulativeSteps(nodes: seq<PlanNode>, edges: seq<PlanEdge>, order: seq<nat>)
    returns (cumulative: seq<seq<string>>)
    requires forall j :: 0 <= j < |edges| ==> InRange(nodes, edges[j])
    requires Permutation(|nodes|, order) && Forward(|nodes|, Ends(edges), order)
    ensures |cumulative| == |nodes|
    ensures forall v :: 0 <= v < |nodes| ==> Exact(nodes, edges, v, cumulative[v])
  {
    var n := |nodes|;
    cumulative := seq(n, _ => []);
    NodesFit(n, order);
    for i := 0 to n
      invariant |cumulative| == n
      invariant forall k :: 0 <= k < i ==> Exact(nodes, edges, order[k], cumulative[order[k]])
    {
      var v := order[i];
      var steps := NodeSteps(nodes, edges, cumulative, v);
      forall p: nat | Adjacent(n, Ends(edges), p, v) ensures Exact(nodes, edges, p, cumulative[p]) {
        assert p in order;
        var k :| 0 <= k < n && order[k] == p;
      }
      NodeExact(nodes, edges, cumulative, v, steps);
      cumulative := cumulative[v := steps];
    }
    forall v | 0 <= v < n ensures Exact(nodes, edges, v, cumulative[v]) {
      assert v in order;
    }
  }
}
