/** Running a loaded pipeline: a chain of closures that pass one `current` buffer on. */
module PipelineRun {
  import opened Options
  import opened Status
  import opened Manifest
  import opened Graph
  import opened PrecisionPlanner
  import opened PrecisionGraph
  import opened StepFlow
  import P = Pipeline
  import opened Scheduler

  /** The buffer handed from node to node: the steps in its metadata, and the rest. */
  datatype Buffer = Buffer(applied: set<string>, contents: seq<int>)

  /** What a plugin does when its closure drives it: the status of its create, process and
      destroy actions, whether its output layout is known, and the buffer it fills. */
  datatype Attempt = Attempt(create: Status, layoutKnown: bool, process: Status, produced: Buffer, destroy: Status)

  type Plugins = (PlanNode, Buffer) -> Attempt

  /** One closure. `current` is replaced only when everything went well and the node has an output. */
  function Closure(node: PlanNode, current: Buffer, attempt: Attempt): (r: (Buffer, Status))
    ensures r.1 != OK || !HasOutput(node.descriptor) ==> r.0 == current
  {
    if attempt.create != OK then (current, attempt.create)
    else if HasOutput(node.descriptor) && !attempt.layoutKnown then (current, FAILED)
    else if attempt.process != OK then (current, attempt.process)
    else if attempt.destroy != OK then (current, attempt.destroy)
    else if HasOutput(node.descriptor) then (attempt.produced, OK)
    else (current, OK)
  }

  function Process(nodes: seq<PlanNode>, plugins: Plugins): (nat, Buffer) -> (Buffer, Status)
  {
    (i: nat, current: Buffer) =>
      if i < |nodes| then Closure(nodes[i], current, plugins(nodes[i], current)) else (current, OK)
  }

  /** The dependencies handed to the scheduler. */
  method BuildChain(n: nat) returns (deps: Dependencies)
    ensures |deps| == n && Chain(deps)
  {
    deps := [];
    for index := 0 to n
      invariant |deps| == index
      invariant forall i :: 0 <= i < index ==> deps[i] == if i == 0 then [] else [i - 1]
    {
      deps := deps + [if index > 0 then [index - 1] else []];
    }
  }

  lemma ChainIsAcyclic(deps: Dependencies)
    requires Chain(deps)
    ensures Scheduler.InRange(deps) && Acyclic(|deps|, Edges(deps))
  {
    var order: seq<nat> := seq(|deps|, i => i);
    forall i, j | 0 <= i < |deps| && 0 <= j < |deps| &&
      Adjacent(|deps|, Edges(deps), order[i], order[j]) ensures i < j {
      assert order[i] in deps[order[j]];
    }
    ForwardImpliesAcyclic(|deps|, Edges(deps), order);
  }

  /** Nothing can happen any more: no action is enabled, or only returns that the closures do not make. */
  ghost predicate Stuck<S(!new)>(process: (nat, S) -> (S, Status), deps: Dependencies, s: State<S>)
  {
    forall a :: Enabled(deps, s, a) ==> a.Return? && (a.after, a.status) != process(a.i, s.store)
  }

  /** While some task is unfinished, some action the closures could take is enabled. */
  lemma ClosuresCanMove<S>(process: (nat, S) -> (S, Status), deps: Dependencies, s: State<S>) returns (a: Action<S>)
    requires Scheduler.InRange(deps) && Acyclic(|deps|, Edges(deps)) && Inv(deps, s) && !Complete(s)
    ensures Enabled(deps, s, a) && (a.Return? ==> (a.after, a.status) == process(a.i, s.store))
  {
    a := NoDeadlock(deps, s);
    if a.Return? {
      var (after, status) := process(a.i, s.store);
      a := Return(a.i, status, after);
    }
  }

  /** Every run of the pipeline's chain, however its tasks interleave, ends: within four steps
      per node it cannot go on, and where it cannot it has the store, the status and the calls
      of the plain loop over the nodes. */
  lemma EveryRunIsTheLoop(nodes: seq<PlanNode>, plugins: Plugins, deps: Dependencies, states: seq<State<Buffer>>,
                          actions: seq<Action<Buffer>>)
    requires |deps| == |nodes| && Chain(deps) && Run(deps, states, actions)
    requires Follows(Process(nodes, plugins), states, actions)
    ensures |actions| <= 4 * |nodes|
    ensures Stuck(Process(nodes, plugins), deps, states[|actions|]) ==>
      var s, loop := states[|actions|], Sequential(Process(nodes, plugins), |nodes|, states[0].store);
      s.store == loop.store && s.first == loop.status && CallsUpTo(s.calls, loop.called)
  {
    RunsTerminate(deps, states, actions, |actions|);
    if Stuck(Process(nodes, plugins), deps, states[|actions|]) {
      ChainIsAcyclic(deps);
      RunInv(deps, states, actions, |actions|);
      if !Complete(states[|actions|]) {
        var a := ClosuresCanMove(Process(nodes, plugins), deps, states[|actions|]);
      }
      ChainEqualsLoop(Process(nodes, plugins), deps, states, actions);
    }
  }

  /** Nothing goes wrong with a node: all its actions succeed, and its output, if any, has a layout. */
  predicate Succeeds(node: PlanNode, attempt: Attempt)
  {
    && attempt.create == OK && attempt.process == OK && attempt.destroy == OK
    && (HasOutput(node.descriptor) ==> attempt.layoutKnown)
  }

  /** The buffers that are current before each node and after the last one, as far as nothing goes
      wrong: an output replaces the buffer its node was given, and a node without one passes it on. */
  ghost predicate Trace(nodes: seq<PlanNode>, plugins: Plugins, buffers: seq<Buffer>)
  {
    && 0 < |buffers| <= |nodes| + 1
    && forall j :: 0 <= j < |buffers| - 1 ==>
         var attempt := plugins(nodes[j], buffers[j]);
         Succeeds(nodes[j], attempt) &&
         buffers[j + 1] == if HasOutput(nodes[j].descriptor) then attempt.produced else buffers[j]
  }

  /** How a stuck run ends, in terms of what the plugins did. Either nothing went wrong, or node k is
      the first with which something did: the status is that of the first thing that did, and the
      current buffer is the one node k was given. */
  lemma RunEnds(nodes: seq<PlanNode>, plugins: Plugins, deps: Dependencies, states: seq<State<Buffer>>,
                actions: seq<Action<Buffer>>) returns (buffers: seq<Buffer>)
    requires |deps| == |nodes| && Chain(deps) && Run(deps, states, actions)
    requires Follows(Process(nodes, plugins), states, actions)
    requires Stuck(Process(nodes, plugins), deps, states[|actions|])
    ensures Trace(nodes, plugins, buffers) && buffers[0] == states[0].store
    ensures states[|actions|].store == buffers[|buffers| - 1]
    ensures states[|actions|].first == OK <==> |buffers| == |nodes| + 1
    ensures |buffers| == |nodes| + 1 ==> CallsUpTo(states[|actions|].calls, |nodes|)
    ensures |buffers| <= |nodes| ==>
      var k := |buffers| - 1;
      var attempt := plugins(nodes[k], buffers[k]);
      && !Succeeds(nodes[k], attempt)
      && CallsUpTo(states[|actions|].calls, k + 1)
      && states[|actions|].first == (if attempt.create != OK then attempt.create
                                     else if HasOutput(nodes[k].descriptor) && !attempt.layoutKnown then FAILED
                                     else if attempt.process != OK then attempt.process
                                     else attempt.destroy)
  {
    EveryRunIsTheLoop(nodes, plugins, deps, states, actions);
    buffers := LoopEnds(nodes, plugins, |nodes|, states[0].store);
  }

  /** The same for the plain loop over the first n nodes. */
  lemma {:induction false} LoopEnds(nodes: seq<PlanNode>, plugins: Plugins, n: nat, start: Buffer)
    returns (buffers: seq<Buffer>)
    requires n <= |nodes|
    ensures Trace(nodes, plugins, buffers) && buffers[0] == start && |buffers| <= n + 1
    ensures var loop := Sequential(Process(nodes, plugins), n, start);
      var k := |buffers| - 1;
      && loop.store == buffers[k]
      && (if k == n then loop.status == OK && loop.called == n
          else loop.called == k + 1 && FailsWith(nodes[k], plugins(nodes[k], buffers[k]), loop.status))
  {
    if n == 0 {
      return [start];
    }
    buffers := LoopEnds(nodes, plugins, n - 1, start);
    if |buffers| == n {
      var attempt := plugins(nodes[n - 1], buffers[n - 1]);
      var next := Process(nodes, plugins)(n - 1, buffers[n - 1]);
      assert next == Closure(nodes[n - 1], buffers[n - 1], attempt);
      if next.1 == OK {
        TraceSnoc(nodes, plugins, buffers, next.0);
        buffers := buffers + [next.0];
      }
    }
  }

  lemma TraceSnoc(nodes: seq<PlanNode>, plugins: Plugins, buffers: seq<Buffer>, next: Buffer)
    requires Trace(nodes, plugins, buffers) && |buffers| <= |nodes|
    requires var k := |buffers| - 1;
      var attempt := plugins(nodes[k], buffers[k]);
      Succeeds(nodes[k], attempt) && next == if HasOutput(nodes[k].descriptor) then attempt.produced else buffers[k]
    ensures Trace(nodes, plugins, buffers + [next])
  {
    var longer := buffers + [next];
    forall j | 0 <= j < |longer| - 1
      ensures Succeeds(nodes[j], plugins(nodes[j], longer[j]))
      ensures longer[j + 1] == if HasOutput(nodes[j].descriptor) then plugins(nodes[j], longer[j]).produced
                               else longer[j]
    {
      if j < |buffers| - 1 {
        assert longer[j] == buffers[j] && longer[j + 1] == buffers[j + 1];
      }
    }
  }

  ghost predicate FailsWith(node: PlanNode, attempt: Attempt, status: Status)
  {
    && !Succeeds(node, attempt) && status != OK
    && status == (if attempt.create != OK then attempt.create
                  else if HasOutput(node.descriptor) && !attempt.layoutKnown then FAILED
                  else if attempt.process != OK then attempt.process
                  else attempt.destroy)
  }

  /** None of the nodes from a up to b has an output. */
  predicate NoOutput(nodes: seq<PlanNode>, a: nat, b: nat)
    requires b <= |nodes|
  {
    forall j :: a <= j < b ==> !HasOutput(nodes[j].descriptor)
  }

  lemma {:induction false} PassedOn(nodes: seq<PlanNode>, plugins: Plugins, buffers: seq<Buffer>, a: nat, k: nat)
    requires Trace(nodes, plugins, buffers) && a <= k < |buffers| && NoOutput(nodes, a, k)
    ensures buffers[k] == buffers[a]
  {
    if a < k {
      PassedOn(nodes, plugins, buffers, a, k - 1);
      assert buffers[k] == buffers[k - 1 + 1];
    }
  }

  /** The current buffer is the one produced by the last node with an output before it, if any. */
  lemma CurrentIsLastOutput(nodes: seq<PlanNode>, plugins: Plugins, buffers: seq<Buffer>, k: nat)
    requires Trace(nodes, plugins, buffers) && k < |buffers|
    ensures NoOutput(nodes, 0, k) ==> buffers[k] == buffers[0]
    ensures forall i :: 0 <= i < k && HasOutput(nodes[i].descriptor) && NoOutput(nodes, i + 1, k) ==>
              buffers[k] == plugins(nodes[i], buffers[i]).produced
  {
    if NoOutput(nodes, 0, k) {
      PassedOn(nodes, plugins, buffers, 0, k);
    }
    forall i | 0 <= i < k && HasOutput(nodes[i].descriptor) && NoOutput(nodes, i + 1, k)
      ensures buffers[k] == plugins(nodes[i], buffers[i]).produced
    {
      PassedOn(nodes, plugins, buffers, i + 1, k);
    }
  }

  /** The contract on plugins: a successful process keeps the steps of its input and
      adds those the node's out ports declare. */
  ghost predicate KeepsSteps(plugins: Plugins)
  {
    forall node: PlanNode, current: Buffer :: HasOutput(node.descriptor) && plugins(node, current).process == OK ==>
      current.applied + Declared(node.descriptor) <= plugins(node, current).produced.applied
  }

  ghost function Declared(d: Descriptor): (steps: set<string>)
  {
    if d.None? then {} else set p, s | p in d.value.ports && p.kind == Out && s in p.setsSteps :: s
  }

  lemma DeclaredNeedsOutput(d: Descriptor, port: string, s: string)
    requires s in StepsSet(d, port)
    ensures HasOutput(d) && s in Declared(d)
  {
    var p := FindPort(d, Out, port).value;
    assert p in d.value.ports && p.kind == Out;
  }

  /** As long as nothing fails, the buffer carries the declared steps of every node already run. */
  lemma {:induction false} StepsAccumulate(nodes: seq<PlanNode>, plugins: Plugins, start: Buffer, k: nat, j: nat)
    requires KeepsSteps(plugins) && j < k <= |nodes|
    requires Sequential(Process(nodes, plugins), k, start).status == OK
    ensures HasOutput(nodes[j].descriptor) ==>
            Declared(nodes[j].descriptor) <= Sequential(Process(nodes, plugins), k, start).store.applied
  {
    var before := Sequential(Process(nodes, plugins), k - 1, start);
    var attempt := plugins(nodes[k - 1], before.store);
    assert Process(nodes, plugins)(k - 1, before.store) == Closure(nodes[k - 1], before.store, attempt);
    if j < k - 1 {
      StepsAccumulate(nodes, plugins, start, k - 1, j);
    }
  }

  /** A step an edge requires is declared by some ancestor of the edge's consumer. */
  lemma StepHasProducer(original: seq<PlanNode>, edges: seq<PlanEdge>, j: nat, s: string) returns (u: nat)
    requires P.EdgesMet(original, edges) && j < |edges| && PrecisionPlanner.InRange(original, edges[j])
    requires s in StepsRequired(original[edges[j].to].descriptor, edges[j].toPort)
    ensures u < |original| && Reaches(|original|, Ends(edges), u, edges[j].to)
    ensures HasOutput(original[u].descriptor) && s in Declared(original[u].descriptor)
  {
    var n, ends, e := |original|, Ends(edges), edges[j];
    assert P.StepsMet(original, edges, e);
    assert Produced(original, edges, e.from, s);
    u :| (u == e.from || Reaches(n, ends, u, e.from)) && SetBy(original, edges, u, s);
    assert ends[j] == Edge(e.from, e.to);
    ReachesByEdge(n, ends, e.from, e.to);
    if u != e.from { ReachesTransitive(n, ends, u, e.from, e.to); }
    var k :| 0 <= k < |edges| && edges[k].from == u && s in StepsSet(original[u].descriptor, edges[k].fromPort);
    DeclaredNeedsOutput(original[u].descriptor, edges[k].fromPort, s);
  }

  /** An ancestor of a node of the document runs before it. */
  lemma AncestorRunsEarlier(original: seq<PlanNode>, edges: seq<PlanEdge>, converter: Option<Descriptor>,
                            plan: PrecisionPlan, order: seq<nat>, nodes: seq<PlanNode>, i: nat, u: nat) returns (a: nat)
    requires P.Runs(original, edges, converter, plan, order, nodes)
    requires i < |nodes| && order[i] < |original| && u < |original| && Reaches(|original|, Ends(edges), u, order[i])
    ensures a < i && nodes[a] == original[u]
  {
    PlanReaches(original, edges, converter, plan, u, order[i]);
    NodesFit(|plan.nodes|, order);
    assert u in order;
    a :| a < |order| && order[a] == u;
    ReachesGoesForward(|plan.nodes|, Ends(plan.edges), order, a, i);
    assert plan.nodes[u] == plan.nodes[..|original|][u];
  }

  /** Soundness of the load-time check for the plain loop: when node i is reached, its
      input carries every step required by its incoming edges. */
  lemma StepsHoldInLoop(original: seq<PlanNode>, edges: seq<PlanEdge>, converter: Option<Descriptor>,
                        plan: PrecisionPlan, order: seq<nat>, nodes: seq<PlanNode>, plugins: Plugins, start: Buffer,
                        i: nat, j: nat)
    requires P.Runs(original, edges, converter, plan, order, nodes) && P.EdgesMet(original, edges)
    requires KeepsSteps(plugins)
    requires i < |nodes| && Sequential(Process(nodes, plugins), i, start).status == OK
    requires j < |edges| && edges[j].to == order[i]
    ensures forall s :: s in StepsRequired(original[edges[j].to].descriptor, edges[j].toPort) ==>
      s in Sequential(Process(nodes, plugins), i, start).store.applied
  {
    forall s | s in StepsRequired(original[edges[j].to].descriptor, edges[j].toPort)
      ensures s in Sequential(Process(nodes, plugins), i, start).store.applied
    {
      assert edges[..|edges|] == edges;
      var u := StepHasProducer(original, edges, j, s);
      var a := AncestorRunsEarlier(original, edges, converter, plan, order, nodes, i, u);
      StepsAccumulate(nodes, plugins, start, i, a);
    }
  }

  /** Soundness of the load-time check for every interleaving: whenever the scheduler
      enters the closure of any node of an accepted pipeline, the current buffer carries
      every step required by that node's incoming edges, converters or not. */
  lemma StepsHoldAtEveryStart(original: seq<PlanNode>, edges: seq<PlanEdge>, converter: Option<Descriptor>,
                              plan: PrecisionPlan, order: seq<nat>, nodes: seq<PlanNode>, plugins: Plugins,
                              deps: Dependencies, states: seq<State<Buffer>>, actions: seq<Action<Buffer>>, k: nat,
                              j: nat)
    requires P.Runs(original, edges, converter, plan, order, nodes) && P.EdgesMet(original, edges)
    requires KeepsSteps(plugins)
    requires |deps| == |nodes| && Chain(deps) && Run(deps, states, actions)
    requires Follows(Process(nodes, plugins), states, actions)
    requires k < |actions| && actions[k].Call? && actions[k].i < |order|
    requires j < |edges| && edges[j].to == order[actions[k].i]
    ensures forall s :: s in StepsRequired(original[edges[j].to].descriptor, edges[j].toPort) ==>
      s in states[k].store.applied
  {
    ChainEntersInOrder(Process(nodes, plugins), deps, states, actions, k);
    StepsHoldInLoop(original, edges, converter, plan, order, nodes, plugins, states[0].store, actions[k].i, j);
  }
}
