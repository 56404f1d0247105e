/** Loading a pipeline document: resolve it, order it, check its metadata steps and
    colour roles, insert precision converters, order it again and size its memory. */
module Pipeline {
  import opened Options
  import opened Status
  import opened Manifest
  import opened Fifo
  import opened Graph
  import opened TopologicalSort
  import opened PrecisionPlanner
  import opened PrecisionGraph
  import opened StepFlow
  import MP = MemoryPlanner

  /** A node entry; whether its parameters fit the manifest is decided elsewhere. */
  datatype NodeDoc = NodeDoc(id: string, kind: string, params: string, paramsValid: bool)

  /** An edge entry: two endpoints, each "node" or "node.port". */
  datatype EdgeDoc = EdgeDoc(from: string, to: string)

  datatype InputDoc = InputDoc(port: string, layout: MP.Layout)

  datatype Document = Document(nodes: seq<NodeDoc>, edges: seq<EdgeDoc>, inputs: seq<InputDoc>)

  type Registry = map<string, Descriptor>

  const CONVERTER: string := "com.cpipe.precision_convert"

  function ConverterIn(registry: Registry): Option<Descriptor>
  {
    if CONVERTER in registry then Some(registry[CONVERTER]) else None
  }

  // ---------------------------------------------------------------- resolving

  /** The position of the first dot, or the length. */
  function Dot(endpoint: string): (k: nat)
    ensures k <= |endpoint| && '.' !in endpoint[..k]
    ensures k < |endpoint| ==> endpoint[k] == '.'
  {
    if endpoint == [] || endpoint[0] == '.' then 0
    else
      var k := Dot(endpoint[1..]) + 1;
      assert endpoint[..k] == [endpoint[0]] + endpoint[1..][..k - 1];
      k
  }

  function NodeOf(endpoint: string): string
  {
    endpoint[..Dot(endpoint)]
  }

  function PortOf(endpoint: string): string
  {
    if Dot(endpoint) == |endpoint| then "" else endpoint[Dot(endpoint) + 1..]
  }

  /** An endpoint is a node's id without a dot, and its port after the first one if there is any. */
  lemma EndpointSplits(endpoint: string)
    ensures '.' !in NodeOf(endpoint)
    ensures endpoint == NodeOf(endpoint) || endpoint == NodeOf(endpoint) + "." + PortOf(endpoint)
    ensures endpoint == NodeOf(endpoint) ==> PortOf(endpoint) == ""
  {
    assert Dot(endpoint) < |endpoint| ==>
      endpoint == endpoint[..Dot(endpoint)] + [endpoint[Dot(endpoint)]] + endpoint[Dot(endpoint) + 1..];
  }

  predicate GoodNode(registry: Registry, node: NodeDoc)
  {
    node.kind != CONVERTER && node.kind in registry && registry[node.kind].Some? && node.paramsValid
  }

  function Instance(registry: Registry, node: NodeDoc): PlanNode
    requires node.kind in registry
  {
    PlanNode(node.id, registry[node.kind], Given(node.params), false)
  }

  /** The id table: each id maps to the first node that carries it. */
  ghost predicate Indexes(docs: seq<NodeDoc>, index: map<string, nat>)
  {
    && (forall i :: 0 <= i < |docs| ==> docs[i].id in index)
    && (forall id :: id in index ==>
          index[id] < |docs| && docs[index[id]].id == id && forall j :: 0 <= j < index[id] ==> docs[j].id != id)
  }

  /** Insert unless the key is there already. */
  function Emplace(index: map<string, nat>, id: string, at: nat): map<string, nat>
  {
    if id in index then index else index[id := at]
  }

  lemma IndexStep(docs: seq<NodeDoc>, index: map<string, nat>, k: nat)
    requires k < |docs| && Indexes(docs[..k], index)
    ensures Indexes(docs[..k + 1], Emplace(index, docs[k].id, k))
  {
    var index' := Emplace(index, docs[k].id, k);
    forall id | id in index'
      ensures index'[id] <= k && docs[index'[id]].id == id && forall j :: 0 <= j < index'[id] ==> docs[j].id != id
    {
      if id in index {
        assert docs[..k][index[id]].id == id;
        forall j | 0 <= j < index[id] ensures docs[j].id != id { assert docs[..k][j].id != id; }
      } else {
        forall j | 0 <= j < k ensures docs[j].id != id { assert docs[..k][j].id in index; }
      }
    }
    forall i | 0 <= i < k + 1 ensures docs[i].id in index' {
      if i < k { assert docs[..k][i].id in index; }
    }
  }

  method ResolveNodes(docs: seq<NodeDoc>, registry: Registry)
    returns (status: Status, nodes: seq<PlanNode>, index: map<string, nat>)
    ensures status == OK || status == BAD_INDEX
    ensures status == OK <==> forall i :: 0 <= i < |docs| ==> GoodNode(registry, docs[i])
    ensures status == OK ==> |nodes| == |docs| && Indexes(docs, index)
    ensures status == OK ==> forall i :: 0 <= i < |docs| ==> nodes[i] == Instance(registry, docs[i])
  {
    nodes, index := [], map[];
    for k := 0 to |docs|
      invariant |nodes| == k && Indexes(docs[..k], index)
      invariant forall i :: 0 <= i < k ==> GoodNode(registry, docs[i]) && nodes[i] == Instance(registry, docs[i])
    {
      var node := docs[k];
      if node.kind == CONVERTER {
        return BAD_INDEX, nodes, index;
      }
      if node.kind !in registry {
        return BAD_INDEX, nodes, index;
      }
      if registry[node.kind].None? || !node.paramsValid {
        return BAD_INDEX, nodes, index;
      }
      IndexStep(docs, index, k);
      index := Emplace(index, node.id, |nodes|);
      nodes := nodes + [Instance(registry, node)];
    }
    assert docs[..|docs|] == docs;
    status := OK;
  }

  ghost predicate Known(docs: seq<NodeDoc>, id: string)
  {
    exists i :: 0 <= i < |docs| && docs[i].id == id
  }

  /** Edge `edge` of the graph is what entry `doc` names. */
  ghost predicate Names(docs: seq<NodeDoc>, doc: EdgeDoc, edge: PlanEdge)
  {
    && edge.from < |docs| && docs[edge.from].id == NodeOf(doc.from) && edge.fromPort == PortOf(doc.from)
    && edge.to < |docs| && docs[edge.to].id == NodeOf(doc.to) && edge.toPort == PortOf(doc.to)
    && (forall j :: 0 <= j < edge.from ==> docs[j].id != NodeOf(doc.from))
    && (forall j :: 0 <= j < edge.to ==> docs[j].id != NodeOf(doc.to))
  }

  method ResolveEdges(docs: seq<NodeDoc>, index: map<string, nat>, edgeDocs: seq<EdgeDoc>)
    returns (status: Status, edges: seq<PlanEdge>)
    requires Indexes(docs, index)
    ensures status == OK || status == BAD_INDEX
    ensures status == OK <==>
            forall k :: 0 <= k < |edgeDocs| ==>
              Known(docs, NodeOf(edgeDocs[k].from)) && Known(docs, NodeOf(edgeDocs[k].to))
    ensures status == OK ==>
      |edges| == |edgeDocs| && forall k :: 0 <= k < |edges| ==> Names(docs, edgeDocs[k], edges[k])
  {
    edges := [];
    for k := 0 to |edgeDocs|
      invariant |edges| == k
      invariant forall i :: 0 <= i < k ==>
        Known(docs, NodeOf(edgeDocs[i].from)) && Known(docs, NodeOf(edgeDocs[i].to)) &&
          Names(docs, edgeDocs[i], edges[i])
    {
      var from, to := NodeOf(edgeDocs[k].from), NodeOf(edgeDocs[k].to);
      if from !in index || to !in index {
        return BAD_INDEX, edges;
      }
      edges := edges + [PlanEdge(index[from], index[to], PortOf(edgeDocs[k].from), PortOf(edgeDocs[k].to))];
    }
    status := OK;
  }

  // ---------------------------------------------------------------- checks on edges

  predicate RolesCompatible(produced: string, required: string)
  {
    produced == "" || required == "" || produced == "any" || required == "any" || produced == required
  }

  /** Two named roles are compatible when they are the same; an empty role and "any" are compatible with every role. */
  lemma RolesMatch(produced: string, required: string)
    ensures produced !in {"", "any"} && required !in {"", "any"} ==>
              (RolesCompatible(produced, required) <==> produced == required)
    ensures produced in {"", "any"} || required in {"", "any"} ==> RolesCompatible(produced, required)
  {
  }

  function OutputRole(d: Descriptor): string { if d.None? then "any" else d.value.outputRole }

  function InputRole(d: Descriptor): string { if d.None? then "any" else d.value.inputRole }

  /** Every step the edge's in port requires is set by the producer or one of its ancestors. */
  ghost predicate StepsMet(nodes: seq<PlanNode>, edges: seq<PlanEdge>, e: PlanEdge)
  {
    InRange(nodes, e) && forall s :: s in StepsRequired(nodes[e.to].descriptor, e.toPort) ==>
      Produced(nodes, edges, e.from, s)
  }

  predicate RolesMet(nodes: seq<PlanNode>, e: PlanEdge)
  {
    InRange(nodes, e) && RolesCompatible(OutputRole(nodes[e.from].descriptor), InputRole(nodes[e.to].descriptor))
  }

  ghost predicate EdgesMet(nodes: seq<PlanNode>, edges: seq<PlanEdge>)
  {
    forall k :: 0 <= k < |edges| ==> StepsMet(nodes, edges, edges[k]) && RolesMet(nodes, edges[k])
  }

  method CheckEdges(nodes: seq<PlanNode>, edges: seq<PlanEdge>, cumulative: seq<seq<string>>) returns (status: Status)
    requires forall j :: 0 <= j < |edges| ==> InRange(nodes, edges[j])
    requires |cumulative| == |nodes| && forall v :: 0 <= v < |nodes| ==> Exact(nodes, edges, v, cumulative[v])
    ensures status == if EdgesMet(nodes, edges) then OK else NEED_METADATA
  {
    for k := 0 to |edges|
      invariant forall j :: 0 <= j < k ==> StepsMet(nodes, edges, edges[j]) && RolesMet(nodes, edges[j])
    {
      var met := CheckSteps(nodes, edges, edges[k], cumulative[edges[k].from]);
      if !met {
        return NEED_METADATA;
      }
      if !RolesMet(nodes, edges[k]) {
        return NEED_METADATA;
      }
    }
    status := OK;
  }

  /** Whether the steps that hold after an edge's producer include all the edge requires. */
  method CheckSteps(nodes: seq<PlanNode>, ghost edges: seq<PlanEdge>, edge: PlanEdge, present: seq<string>)
    returns (met: bool)
    requires InRange(nodes, edge) && Exact(nodes, edges, edge.from, present)
    ensures met <==> StepsMet(nodes, edges, edge)
  {
    var required := StepsRequired(nodes[edge.to].descriptor, edge.toPort);
    for i := 0 to |required|
      invariant forall j :: 0 <= j < i ==> Produced(nodes, edges, edge.from, required[j])
    {
      if required[i] !in present {
        assert required[i] in required && !Produced(nodes, edges, edge.from, required[i]);
        return false;
      }
    }
    return true;
  }

  // ---------------------------------------------------------------- load

  function BytesPerPixel(d: Descriptor): nat { if d.None? then 0 else d.value.outPixelBytes }

  /** What a successful load leaves behind. */
  datatype Loaded = Loaded(nodes: seq<PlanNode>, layout: MP.Layout, peakBytes: nat)

  ghost predicate Resolves(doc: Document, registry: Registry)
  {
    && (forall i :: 0 <= i < |doc.nodes| ==> GoodNode(registry, doc.nodes[i]))
    && (forall k :: 0 <= k < |doc.edges| ==>
          Known(doc.nodes, NodeOf(doc.edges[k].from)) && Known(doc.nodes, NodeOf(doc.edges[k].to)))
  }

  /** The graph the document describes. */
  ghost predicate Describes(doc: Document, registry: Registry, nodes: seq<PlanNode>, edges: seq<PlanEdge>)
  {
    && Resolves(doc, registry)
    && |nodes| == |doc.nodes| && (forall i :: 0 <= i < |nodes| ==> nodes[i] == Instance(registry, doc.nodes[i]))
    && |edges| == |doc.edges| && (forall k :: 0 <= k < |edges| ==> Names(doc.nodes, doc.edges[k], edges[k]))
  }

  /** Which answer a resolved graph gets: the first check that fails decides. */
  ghost function Verdict(nodes: seq<PlanNode>, edges: seq<PlanEdge>, converter: Option<Descriptor>, peak: nat,
                         cap: nat): Status
  {
    if !Acyclic(|nodes|, Ends(edges)) then FAILED
    else if !EdgesMet(nodes, edges) then NEED_METADATA
    else if !AllPlannable(nodes, converter, edges) then BAD_PRECISION
    else if peak > cap then OOM
    else OK
  }

  /** The loaded nodes are those of the plan, each after everything the plan feeds it from, and
      by who came first. */
  ghost predicate Runs(nodes: seq<PlanNode>, edges: seq<PlanEdge>, converter: Option<Descriptor>, plan: PrecisionPlan,
                       order: seq<nat>, sequence: seq<PlanNode>)
  {
    && PlannedUpTo(nodes, edges, converter, |edges|, plan)
    && Permutation(|plan.nodes|, order) && Forward(|plan.nodes|, Ends(plan.edges), order)
    && FirstServed(|plan.nodes|, Ends(plan.edges), order)
    && |sequence| == |order| && forall i :: 0 <= i < |order| ==> sequence[i] == plan.nodes[order[i]]
  }

  /** A graph can be loaded in one way only. */
  lemma OneSequence(nodes: seq<PlanNode>, edges: seq<PlanEdge>, converter: Option<Descriptor>, plan: PrecisionPlan,
                    order: seq<nat>, sequence: seq<PlanNode>, plan': PrecisionPlan, order': seq<nat>,
                    sequence': seq<PlanNode>)
    requires Runs(nodes, edges, converter, plan, order, sequence)
    requires Runs(nodes, edges, converter, plan', order', sequence')
    ensures plan == plan' && order == order' && sequence == sequence'
  {
    OnePlan(nodes, edges, converter, |edges|, plan, plan');
    OneOrder(|plan.nodes|, Ends(plan.edges), order, order');
  }

  function OutputBytes(nodes: seq<PlanNode>): (bytes: seq<nat>)
  {
    seq(|nodes|, i requires 0 <= i < |nodes| => BytesPerPixel(nodes[i].descriptor))
  }

  /** A node's pixels have the size its manifest says, and none without one. */
  lemma OutputBytesAre(nodes: seq<PlanNode>, i: nat)
    requires i < |nodes|
    ensures OutputBytes(nodes)[i] == match nodes[i].descriptor case None => 0 case Some(m) => m.outPixelBytes
  {
  }

  /** The peak is that of a sound memory plan for the planned graph. */
  ghost predicate Needs(layout: MP.Layout, plan: PrecisionPlan, peak: nat)
  {
    exists memory :: MP.Plans(layout, OutputBytes(plan.nodes), Ends(plan.edges), memory) && memory.peakBytes == peak
  }

  function PrimaryLayout(doc: Document): MP.Layout
  {
    if doc.inputs == [] then MP.Layout(0, 0, 0, 0) else doc.inputs[0].layout
  }

  /** From the resolved graph to the loaded pipeline. The range and cycle checks after
      converter insertion stay in the code, but no graph that got there can fail them. */
  method LoadGraph(nodes: seq<PlanNode>, edges: seq<PlanEdge>, converter: Option<Descriptor>, layout: MP.Layout,
                   cap: nat)
    returns (status: Status, loaded: Loaded, ghost plan: PrecisionPlan, ghost order: seq<nat>)
    requires forall j :: 0 <= j < |edges| ==> InRange(nodes, edges[j])
    ensures status == Verdict(nodes, edges, converter, loaded.peakBytes, cap)
    ensures status == OK ==> loaded.layout == layout && loaded.peakBytes <= cap
    ensures status == OK || status == OOM ==> Runs(nodes, edges, converter, plan, order, loaded.nodes)
    ensures status == OK || status == OOM ==> Needs(layout, plan, loaded.peakBytes)
  {
    loaded, plan, order := Loaded([], layout, 0), PrecisionPlan([], [], []), [];
    var ends := PlainEdges(edges);
    var sorted := Kahn(|nodes|, ends);
    if |sorted| != |nodes| {
      return FAILED, loaded, plan, order;
    }
    var cumulative := CumulativeSteps(nodes, edges, sorted);
    status := CheckEdges(nodes, edges, cumulative);
    if status != OK {
      return;
    }
    var precision;
    status, precision := AutoInsert(nodes, edges, converter);
    if status != OK {
      return;
    }
    plan := precision;
    AutoInsertKeepsGraph(nodes, edges, converter, precision);
    var planEnds := PlainEdges(precision.edges);
    var planned: seq<nat>;
    status, planned := Reorder(|precision.nodes|, planEnds);
    if status != OK {
      assert false;
    }
    order := planned;
    var sequence := seq(|planned|, i requires 0 <= i < |planned| => precision.nodes[planned[i]]);
    var memory := MP.PlanGraph(layout, OutputBytes(precision.nodes), planEnds);
    loaded := Loaded(sequence, layout, memory.peakBytes);
    status := if memory.peakBytes > cap then OOM else OK;
  }

  method PlainEdges(edges: seq<PlanEdge>) returns (ends: seq<Edge>)
    ensures ends == Ends(edges)
  {
    ends := [];
    for k := 0 to |edges|
      invariant |ends| == k && forall i :: 0 <= i < k ==> ends[i] == Edge(edges[i].from, edges[i].to)
    {
      ends := ends + [Edge(edges[k].from, edges[k].to)];
    }
  }

  /** The second ordering, with its own range and cycle checks. */
  method Reorder(n: nat, ends: seq<Edge>) returns (status: Status, order: seq<nat>)
    ensures status == if exists i :: 0 <= i < |ends| && (ends[i].from >= n || ends[i].to >= n) then BAD_INDEX
                      else if Acyclic(n, ends) then OK else FAILED
    ensures status == OK ==> Permutation(n, order) && Forward(n, ends, order) && FirstServed(n, ends, order)
  {
    for k := 0 to |ends|
      invariant forall i :: 0 <= i < k ==> ends[i].from < n && ends[i].to < n
    {
      if ends[k].from >= n || ends[k].to >= n {
        return BAD_INDEX, [];
      }
    }
    order := Kahn(n, ends);
    status := if |order| != n then FAILED else OK;
  }

  /** Everything load does before it touches the pipeline. */
  method LoadDocument(doc: Document, registry: Registry, cap: nat)
    returns (status: Status, loaded: Loaded, ghost original: seq<PlanNode>, ghost edges: seq<PlanEdge>,
             ghost plan: PrecisionPlan,
             ghost order: seq<nat>)
    ensures !Resolves(doc, registry) ==> status == BAD_INDEX
    ensures Resolves(doc, registry) ==> Describes(doc, registry, original, edges)
    ensures Resolves(doc, registry) ==> status == Verdict(original, edges, ConverterIn(registry), loaded.peakBytes, cap)
    ensures status == OK || status == OOM ==> Needs(PrimaryLayout(doc), plan, loaded.peakBytes)
    ensures status == OK ==> loaded.layout == PrimaryLayout(doc) && loaded.peakBytes <= cap
    ensures status == OK ==> Runs(original, edges, ConverterIn(registry), plan, order, loaded.nodes)
  {
    loaded := Loaded([], PrimaryLayout(doc), 0);
    original, edges, plan, order := [], [], PrecisionPlan([], [], []), [];
    var found, index, linked;
    status, found, index := ResolveNodes(doc.nodes, registry);
    if status != OK {
      return;
    }
    status, linked := ResolveEdges(doc.nodes, index, doc.edges);
    if status != OK {
      return;
    }
    original, edges := found, linked;
    status, loaded, plan, order := LoadGraph(found, linked, ConverterIn(registry), PrimaryLayout(doc), cap);
  }

  /** A plugin bound to an input, with its parameters. */
  datatype Source = Source(plugin: string, descriptor: Descriptor, parameters: string)

  class Pipeline {
    var inputs: seq<InputDoc>
    var nodes: seq<PlanNode>
    var layout: MP.Layout
    var sources: map<string, Source>
    var known: Option<Registry>
    var memoryCap: nat
    var peakBytes: nat

    constructor (cap: nat)
      ensures inputs == [] && nodes == [] && sources == map[] && known == None && memoryCap == cap
    {
      inputs, nodes, layout, sources, known := [], [], MP.Layout(0, 0, 0, 0), map[], None;
      memoryCap, peakBytes := cap, 0;
    }

    predicate HasInput(port: string)
      reads this`inputs
    {
      exists i :: 0 <= i < |inputs| && inputs[i].port == port
    }

    /** Every bound source is for an input of the loaded document and names a known plugin. */
    ghost predicate Valid()
      reads this
    {
      forall port :: port in sources ==>
        HasInput(port) && known.Some? && sources[port].plugin in known.value &&
        sources[port].descriptor == known.value[sources[port].plugin]
    }

    /** Bind a source to an input; a later binding replaces an earlier one. */
    method SetSource(port: string, plugin: string, parameters: string) returns (status: Status)
      requires Valid()
      modifies this`sources
      ensures Valid()
      ensures status == if HasInput(port) && known.Some? && plugin in known.value then OK else BAD_INDEX
      ensures status != OK ==> sources == old(sources)
      ensures status == OK ==> sources == old(sources)[port := Source(plugin, known.value[plugin], parameters)]
    {
      if !HasInput(port) {
        return BAD_INDEX;
      }
      if known.None? || plugin !in known.value {
        return BAD_INDEX;
      }
      sources := sources[port := Source(plugin, known.value[plugin], parameters)];
      return OK;
    }

    /** Load a document. A refused document leaves the pipeline as it was. */
    method Load(doc: Document, registry: Registry)
      returns (status: Status, ghost original: seq<PlanNode>, ghost edges: seq<PlanEdge>, ghost plan: PrecisionPlan,
               ghost order: seq<nat>, ghost peak: nat)
      modifies this
      ensures memoryCap == old(memoryCap) && (old(Valid()) ==> Valid())
      ensures !Resolves(doc, registry) ==> status == BAD_INDEX
      ensures Resolves(doc, registry) ==> Describes(doc, registry, original, edges)
      ensures Resolves(doc, registry) ==> status == Verdict(original, edges, ConverterIn(registry), peak, memoryCap)
      ensures status != OK ==> unchanged(this)
      ensures status == OK || status == OOM ==> Needs(PrimaryLayout(doc), plan, peak)
      ensures status == OK ==> inputs == doc.inputs && layout == PrimaryLayout(doc) && peakBytes == peak <= memoryCap
      ensures status == OK ==> sources == map[] && known == Some(registry)
      ensures status == OK ==> Runs(original, edges, ConverterIn(registry), plan, order, nodes)
    {
      var loaded;
      status, loaded, original, edges, plan, order := LoadDocument(doc, registry, memoryCap);
      peak := loaded.peakBytes;
      if status != OK {
        return;
      }
      Install(doc.inputs, loaded, registry);
    }

    /** Replace what was loaded before; no source is bound yet. */
    method Install(newInputs: seq<InputDoc>, loaded: Loaded, registry: Registry)
      modifies this
      ensures inputs == newInputs && layout == loaded.layout && nodes == loaded.nodes && peakBytes == loaded.peakBytes
      ensures sources == map[] && known == Some(registry) && memoryCap == old(memoryCap)
    {
      inputs, layout, nodes := newInputs, loaded.layout, loaded.nodes;
      sources, known, peakBytes := map[], Some(registry), loaded.peakBytes;
    }
  }
}
