/** Sizing of the intermediate buffers of a node graph: live ranges along a
    topological order, an interference graph, and greedy assignment to slots. */
module MemoryPlanner {
  import opened Fifo
  import opened Graph
  import opened TopologicalSort

  /** Byte counts are unsigned 64-bit and wrap. */
  const WORD: nat := 0x1_0000_0000_0000_0000

  type U64 = x: int | 0 <= x < 0x1_0000_0000_0000_0000

  /** An input layout: its byte size, its rank and its first two extents. */
  datatype Layout = Layout(sizeBytes: U64, ndim: nat, dim0: nat, dim1: nat)

  /** The output of one node is live over the half-open range [start, end) of steps. */
  datatype LiveBuffer = LiveBuffer(node: nat, start: nat, end: nat, size: nat, slot: nat)

  datatype Assignment = Assignment(bufferId: nat, node: nat, slot: nat, size: nat)

  datatype Plan = Plan(peakBytes: nat, slotCount: nat, assignments: seq<Assignment>)

  function PixelCount(layout: Layout): (pixels: nat)
  {
    if layout.ndim < 2 then 0 else layout.dim0 * layout.dim1 % WORD
  }

  predicate Overlaps(a: LiveBuffer, b: LiveBuffer)
  {
    a.start < b.end && b.start < a.end
  }

  predicate LiveAt(b: LiveBuffer, step: nat)
  {
    b.start <= step < b.end
  }

  function Max(a: nat, b: nat): nat { if a < b then b else a }

  // ---------------------------------------------------------------- specification

  ghost predicate Inverse(n: nat, order: seq<nat>, positions: seq<nat>)
  {
    |order| == n && |positions| == n && forall i :: 0 <= i < n ==> order[i] < n && positions[order[i]] == i
  }

  /** The step after which the output of v is no longer needed. */
  ghost function LastUse(n: nat, edges: seq<Edge>, positions: seq<nat>, v: nat): (end: nat)
    requires |positions| == n && v < n
    ensures end > positions[v]
  {
    if edges == [] then positions[v] + 1
    else
      var e := edges[|edges| - 1];
      var end := LastUse(n, edges[..|edges| - 1], positions, v);
      if e.from == v && e.to < n then Max(end, positions[e.to]) else end
  }

  /** What LastUse means: no consumer comes after it, and it is either the step
      right after the producer or the step of a consumer. */
  lemma {:induction false} LastUseIsLastConsumer(n: nat, edges: seq<Edge>, positions: seq<nat>, v: nat)
    requires |positions| == n && v < n
    ensures forall c: nat :: Adjacent(n, edges, v, c) ==> positions[c] <= LastUse(n, edges, positions, v)
    ensures LastUse(n, edges, positions, v) == positions[v] + 1 ||
            exists c: nat :: Adjacent(n, edges, v, c) && positions[c] == LastUse(n, edges, positions, v)
  {
    if edges != [] {
      var front, e := edges[..|edges| - 1], edges[|edges| - 1];
      LastUseIsLastConsumer(n, front, positions, v);
      assert edges == front + [e];
      if e.from == v && e.to < n && LastUse(n, edges, positions, v) == positions[e.to] {
        assert Adjacent(n, edges, v, e.to);
      } else if LastUse(n, front, positions, v) != positions[v] + 1 {
        var c: nat :| Adjacent(n, front, v, c) && positions[c] == LastUse(n, front, positions, v);
        assert Adjacent(n, edges, v, c);
      }
    }
  }

  /** The byte size of one node output. */
  function BufferSize(pixels: nat, bytesPerPixel: nat): (size: nat)
  {
    pixels * bytesPerPixel % WORD
  }

  /** The live ranges in execution order: entry i belongs to the node run at step i. */
  ghost predicate RangesOf(edges: seq<Edge>, sizes: seq<nat>, order: seq<nat>, positions: seq<nat>,
                           ranges: seq<LiveBuffer>)
  {
    && |ranges| == |sizes| && Inverse(|sizes|, order, positions)
    && forall i :: 0 <= i < |ranges| ==>
      ranges[i].node == order[i] && ranges[i].start == i &&
      ranges[i].end == LastUse(|sizes|, edges, positions, order[i]) &&
      ranges[i].size == sizes[order[i]]
  }

  ghost function LiveSet(ranges: seq<LiveBuffer>, step: nat): (live: set<nat>)
  {
    set i: nat | i < |ranges| && LiveAt(ranges[i], step)
  }

  ghost function Total(sizes: seq<nat>): (sum: nat)
  {
    if sizes == [] then 0 else Total(sizes[..|sizes| - 1]) + sizes[|sizes| - 1]
  }

  ghost function TotalBytes(ranges: seq<LiveBuffer>): (sum: nat)
  {
    if ranges == [] then 0 else TotalBytes(ranges[..|ranges| - 1]) + ranges[|ranges| - 1].size
  }

  ghost function LiveBytes(ranges: seq<LiveBuffer>, step: nat): (sum: nat)
  {
    if ranges == [] then 0
    else
      var b := ranges[|ranges| - 1];
      LiveBytes(ranges[..|ranges| - 1], step) + if LiveAt(b, step) then b.size else 0
  }

  /** Overlapping buffers sit in different slots. */
  ghost predicate Apart(ranges: seq<LiveBuffer>, slots: seq<nat>)
  {
    |slots| == |ranges| &&
    forall i, j {:trigger Overlaps(ranges[i], ranges[j])} :: 0 <= i < j < |ranges| && Overlaps(ranges[i], ranges[j]) ==>
      slots[i] != slots[j]
  }

  ghost function SlotsAt(slots: seq<nat>, chosen: set<nat>): (image: set<nat>)
  {
    set i | i in chosen && i < |slots| :: slots[i]
  }

  ghost function SlotsOf(plan: Plan): (slots: seq<nat>)
  {
    seq(|plan.assignments|, i requires 0 <= i < |plan.assignments| => plan.assignments[i].slot)
  }

  /** The plan uses exactly as many slots as the busiest step has live buffers. */
  ghost predicate Tight(ranges: seq<LiveBuffer>, slotCount: nat)
  {
    && (forall step: nat :: |LiveSet(ranges, step)| <= slotCount)
    && (ranges == [] ==> slotCount == 0)
    && (ranges != [] ==> exists step: nat :: step < |ranges| && |LiveSet(ranges, step)| == slotCount)
  }

  // ---------------------------------------------------------------- the planner

  /** A size is the product of the first two extents and the bytes of a pixel, as a 64-bit number; a layout of fewer
      than two dimensions has no pixels. */
  lemma SizesAreProducts(layout: Layout, bytesPerPixel: seq<nat>, v: nat)
    requires v < |bytesPerPixel|
    ensures Sizes(layout, bytesPerPixel)[v] ==
            if layout.ndim < 2 then 0
            else layout.dim0 * layout.dim1 * bytesPerPixel[v] % 0x1_0000_0000_0000_0000
  {
    CutFactor(layout.dim0 * layout.dim1, bytesPerPixel[v], WORD);
  }

  /** Cutting a factor before multiplying does not change the cut product. */
  lemma CutFactor(a: nat, b: nat, m: nat)
    requires m > 0
    ensures a % m * b % m == a * b % m
  {
    Expand(a, b, a / m, a % m, m);
    CutMultiples(a % m * b, a / m * b, m);
  }

  lemma Expand(a: nat, b: nat, q: nat, r: nat, m: nat)
    requires a == q * m + r
    ensures a * b == r * b + q * b * m
  {
  }

  lemma CutMultiples(x: nat, k: nat, m: nat)
    requires m > 0
    ensures (x + k * m) % m == x % m
  {
    var y := x + k * m;
    var d := y / m - x / m - k;
    assert d * m == x % m - y % m;
    assert d >= 1 ==> (d - 1) * m >= 0;
    assert d <= -1 ==> (-d - 1) * m >= 0;
  }

  /** Every edge goes forward in the order and who came first is served first, or the graph
      has a cycle and the nodes come by index. */
  ghost predicate StepOrder(n: nat, edges: seq<Edge>, order: seq<nat>)
  {
    && (Forward(n, edges, order) <==> Acyclic(n, edges))
    && (if Acyclic(n, edges) then FirstServed(n, edges, order) else forall i :: 0 <= i < |order| ==> order[i] == i)
  }

  /** The planner has no choice of order. */
  lemma OneStepOrder(n: nat, edges: seq<Edge>, order: seq<nat>, other: seq<nat>)
    requires Permutation(n, order) && StepOrder(n, edges, order)
    requires Permutation(n, other) && StepOrder(n, edges, other)
    ensures order == other
  {
    if Acyclic(n, edges) {
      OneOrder(n, edges, order, other);
    }
  }

  /** Kahn's order, or index order when the graph has a cycle. */
  method TopologicalOrder(n: nat, edges: seq<Edge>) returns (order: seq<nat>)
    ensures Permutation(n, order)
    ensures StepOrder(n, edges, order)
  {
    order := Kahn(n, edges);
    if |order| != n {
      order := seq(n, i => i);
    }
    if Forward(n, edges, order) {
      ForwardImpliesAcyclic(n, edges, order);
    }
  }

  method TopologicalPositions(n: nat, order: seq<nat>) returns (positions: seq<nat>)
    requires Permutation(n, order)
    ensures Inverse(n, order, positions)
  {
    positions := seq(n, _ => 0);
    for p := 0 to n
      invariant |positions| == n
      invariant forall i :: 0 <= i < p ==> positions[order[i]] == i
    {
      positions := positions[order[p] := p];
    }
  }

  lemma Everywhere(order: seq<nat>, positions: seq<nat>)
    requires Permutation(|order|, order) && Inverse(|order|, order, positions)
    ensures forall v :: 0 <= v < |order| ==> positions[v] < |order| && order[positions[v]] == v
  {
    NodesFit(|order|, order);
    forall v | 0 <= v < |order| ensures positions[v] < |order| && order[positions[v]] == v {
      assert v in order;
    }
  }

  method MakeLiveBuffers(bytesPerPixel: seq<nat>, order: seq<nat>, pixels: nat) returns (buffers: array<LiveBuffer>)
    requires Permutation(|bytesPerPixel|, order)
    ensures fresh(buffers) && buffers.Length == |bytesPerPixel|
    ensures forall i :: 0 <= i < |order| ==>
      buffers[order[i]] == LiveBuffer(order[i], i, i + 1, BufferSize(pixels, bytesPerPixel[order[i]]), 0)
  {
    buffers := new LiveBuffer[|bytesPerPixel|](_ => LiveBuffer(0, 0, 0, 0, 0));
    for p := 0 to |order|
      invariant forall i :: 0 <= i < p ==>
        buffers[order[i]] == LiveBuffer(order[i], i, i + 1, BufferSize(pixels, bytesPerPixel[order[i]]), 0)
    {
      var node := order[p];
      buffers[node] := LiveBuffer(node, p, p + 1, BufferSize(pixels, bytesPerPixel[node]), 0);
    }
  }

  method ExtendLiveRanges(buffers: array<LiveBuffer>, positions: seq<nat>, edges: seq<Edge>)
    requires |positions| == buffers.Length
    requires forall v :: 0 <= v < buffers.Length ==> buffers[v].end == positions[v] + 1
    modifies buffers
    ensures forall v :: 0 <= v < buffers.Length ==>
      buffers[v] == old(buffers[v]).(end := LastUse(buffers.Length, edges, positions, v))
  {
    var n := buffers.Length;
    for k := 0 to |edges|
      invariant forall v :: 0 <= v < n ==>
        buffers[v] == old(buffers[v]).(end := LastUse(n, edges[..k], positions, v))
    {
      var edge := edges[k];
      assert edges[..k + 1][..k] == edges[..k];
      if edge.from >= n || edge.to >= n {
        continue;
      }
      buffers[edge.from] := buffers[edge.from].(end := Max(buffers[edge.from].end, positions[edge.to]));
    }
    assert edges[..|edges|] == edges;
  }

  method BuildInterferenceGraph(buffers: array<LiveBuffer>) returns (interference: array2<bool>)
    ensures fresh(interference) && interference.Length0 == interference.Length1 == buffers.Length
    ensures forall i, j :: 0 <= i < buffers.Length && 0 <= j < buffers.Length ==>
      interference[i, j] == (i != j && Overlaps(buffers[i], buffers[j]))
  {
    var n := buffers.Length;
    interference := new bool[n, n]((_, _) => false);
    for lhs := 0 to n
      invariant forall i, j :: 0 <= i < n && 0 <= j < n ==>
        interference[i, j] == (i != j && (i < lhs || j < lhs) && Overlaps(buffers[i], buffers[j]))
    {
      for rhs := lhs + 1 to n
        invariant forall i, j :: 0 <= i < n && 0 <= j < n ==>
          interference[i, j] == (i != j && (i < lhs || j < lhs || (i == lhs && j < rhs) || (j == lhs && i < rhs)) &&
                                 Overlaps(buffers[i], buffers[j]))
      {
        if Overlaps(buffers[lhs], buffers[rhs]) {
          interference[lhs, rhs] := true;
          interference[rhs, lhs] := true;
        }
      }
    }
  }

  predicate SlotAvailable(placed: seq<LiveBuffer>, interference: array2<bool>, current: LiveBuffer, slot: nat)
    requires interference.Length0 == interference.Length1 && current.node < interference.Length0
    requires forall k :: 0 <= k < |placed| ==> placed[k].node < interference.Length0
    reads interference
  {
    forall k :: 0 <= k < |placed| ==> !(placed[k].slot == slot && interference[current.node, placed[k].node])
  }

  ghost predicate Placed(buffers: seq<LiveBuffer>, order: seq<nat>, placed: seq<LiveBuffer>)
  {
    && |placed| <= |order| == |buffers| && Permutation(|buffers|, order)
    && forall k :: 0 <= k < |placed| ==> placed[k] == buffers[order[k]].(slot := placed[k].slot)
  }

  lemma PlacedStep(buffers: seq<LiveBuffer>, order: seq<nat>, placed: seq<LiveBuffer>, current: LiveBuffer)
    requires Placed(buffers, order, placed) && |placed| < |order|
    requires current == buffers[order[|placed|]].(slot := current.slot)
    ensures Placed(buffers, order, placed + [current])
  {
  }

  /** The slot sizes after a buffer goes into `slot`, which may be one past the last. */
  function Grown(sizes: seq<nat>, current: LiveBuffer, slot: nat): (sizes': seq<nat>)
    requires slot <= |sizes|
  {
    if slot == |sizes| then sizes + [current.size] else sizes[slot := Max(sizes[slot], current.size)]
  }

  ghost predicate KeptApart(placed: seq<LiveBuffer>)
  {
    forall i, j {:trigger Overlaps(placed[i], placed[j])} ::
      0 <= i < j < |placed| && Overlaps(placed[i], placed[j]) ==> placed[i].slot != placed[j].slot
  }

  ghost predicate Fitted(placed: seq<LiveBuffer>, sizes: seq<nat>)
  {
    forall i :: 0 <= i < |placed| ==> placed[i].slot < |sizes| && placed[i].size <= sizes[placed[i].slot]
  }

  ghost predicate Crowded(placed: seq<LiveBuffer>, slotCount: nat)
  {
    if placed == [] then slotCount == 0
    else exists step: nat :: step < |placed| && |LiveSet(placed, step)| >= slotCount
  }

  /** What the colouring loop keeps: overlapping buffers are apart, each fits its slot, the
      slots together are no larger than the buffers together, and some step already needs
      that many slots. */
  ghost predicate Coloured(placed: seq<LiveBuffer>, sizes: seq<nat>)
  {
    KeptApart(placed) && Fitted(placed, sizes) && Total(sizes) <= TotalBytes(placed) && Crowded(placed, |sizes|)
  }

  /** The buffers start one after another along the order and the matrix says which overlap. */
  ghost predicate Colourable(buffers: array<LiveBuffer>, order: seq<nat>, interference: array2<bool>)
    reads buffers, interference
  {
    && Permutation(buffers.Length, order)
    && (forall i :: 0 <= i < |order| ==>
          buffers[order[i]].node == order[i] && buffers[order[i]].start == i && buffers[order[i]].end > i)
    && interference.Length0 == interference.Length1 == buffers.Length
    && (forall i, j :: 0 <= i < buffers.Length && 0 <= j < buffers.Length ==>
          interference[i, j] == (i != j && Overlaps(buffers[i], buffers[j])))
  }

  /** The slot holds a buffer that is live at the step about to be placed. */
  ghost predicate Blocked(placed: seq<LiveBuffer>, slot: nat)
  {
    exists k :: 0 <= k < |placed| && placed[k].slot == slot && LiveAt(placed[k], |placed|)
  }

  /** Every buffer is in the lowest slot it could have: each lower one held a buffer live at its step. */
  ghost predicate FirstFitted(placed: seq<LiveBuffer>)
  {
    forall i: nat, slot: nat :: i < |placed| && slot < placed[i].slot ==> Blocked(placed[..i], slot)
  }

  function Assigned(placed: seq<LiveBuffer>): (assignments: seq<Assignment>)
  {
    seq(|placed|, i requires 0 <= i < |placed| =>
      Assignment(placed[i].node, placed[i].node, placed[i].slot, placed[i].size))
  }

  /** The size of the largest buffer assigned to a slot. */
  ghost function Largest(assignments: seq<Assignment>, slot: nat): (size: nat)
  {
    if assignments == [] then 0
    else
      var front, last := assignments[..|assignments| - 1], assignments[|assignments| - 1];
      Max(Largest(front, slot), if last.slot == slot then last.size else 0)
  }

  /** The largest buffers of the first slots, together. */
  ghost function SlotTotal(assignments: seq<Assignment>, slots: nat): (total: nat)
  {
    if slots == 0 then 0 else SlotTotal(assignments, slots - 1) + Largest(assignments, slots - 1)
  }

  /** Every slot is as large as its largest buffer. */
  ghost predicate SizedToFit(placed: seq<LiveBuffer>, sizes: seq<nat>)
  {
    && (forall i :: 0 <= i < |placed| ==> placed[i].slot < |sizes|)
    && forall slot: nat :: slot < |sizes| ==> sizes[slot] == Largest(Assigned(placed), slot)
  }

  method ColorBuffers(buffers: array<LiveBuffer>, order: seq<nat>, interference: array2<bool>)
    returns (placed: seq<LiveBuffer>, slotSizes: seq<nat>)
    requires Colourable(buffers, order, interference)
    ensures |placed| == |order| && Placed(buffers[..], order, placed)
    ensures Coloured(placed, slotSizes) && FirstFitted(placed) && SizedToFit(placed, slotSizes)
  {
    placed, slotSizes := [], [];
    for i := 0 to |order|
      invariant |placed| == i && Placed(buffers[..], order, placed)
      invariant Coloured(placed, slotSizes) && FirstFitted(placed) && SizedToFit(placed, slotSizes)
    {
      placed, slotSizes := PlaceNext(buffers, order, interference, placed, slotSizes);
    }
  }

  method PlaceNext(buffers: array<LiveBuffer>, order: seq<nat>, interference: array2<bool>, placed: seq<LiveBuffer>,
                   slotSizes: seq<nat>)
    returns (placed': seq<LiveBuffer>, slotSizes': seq<nat>)
    requires Colourable(buffers, order, interference)
    requires Placed(buffers[..], order, placed) && |placed| < |order|
    requires Coloured(placed, slotSizes) && FirstFitted(placed) && SizedToFit(placed, slotSizes)
    ensures |placed'| == |placed| + 1 && Placed(buffers[..], order, placed')
    ensures Coloured(placed', slotSizes') && FirstFitted(placed') && SizedToFit(placed', slotSizes')
  {
    var slot := FirstFit(buffers, order, interference, placed, |slotSizes|);
    var current := buffers[order[|placed|]].(slot := slot);
    ColouredStep(placed, slotSizes, current, slot);
    FirstFittedStep(placed, current);
    SizedStep(placed, slotSizes, current, slot);
    PlacedStep(buffers[..], order, placed, current);
    slotSizes' := Grown(slotSizes, current, slot);
    placed' := placed + [current];
  }

  /** The lowest slot, or the first new one, that holds no buffer overlapping the next one. */
  method FirstFit(buffers: array<LiveBuffer>, order: seq<nat>, interference: array2<bool>, placed: seq<LiveBuffer>,
                  slotCount: nat) returns (slot: nat)
    requires Colourable(buffers, order, interference)
    requires Placed(buffers[..], order, placed) && |placed| < |order|
    requires forall k :: 0 <= k < |placed| ==> placed[k].slot < slotCount
    ensures slot <= slotCount
    ensures forall s: nat :: s < slot ==> Blocked(placed, s)
    ensures forall k :: 0 <= k < |placed| && Overlaps(placed[k], buffers[order[|placed|]]) ==> placed[k].slot != slot
  {
    var current := buffers[order[|placed|]];
    slot := 0;
    while !SlotAvailable(placed, interference, current, slot)
      invariant slot <= slotCount
      invariant forall s: nat :: s < slot ==> Blocked(placed, s)
      decreases slotCount - slot
    {
      NotAvailable(buffers, order, interference, placed, slot);
      slot := slot + 1;
    }
    forall k | 0 <= k < |placed| && Overlaps(placed[k], current) ensures placed[k].slot != slot {
      assert interference[order[|placed|], order[k]];
    }
  }

  lemma NotAvailable(buffers: array<LiveBuffer>, order: seq<nat>, interference: array2<bool>, placed: seq<LiveBuffer>,
                     slot: nat)
    requires Colourable(buffers, order, interference)
    requires Placed(buffers[..], order, placed) && |placed| < |order|
    requires !SlotAvailable(placed, interference, buffers[order[|placed|]], slot)
    ensures Blocked(placed, slot)
  {
    var current := buffers[order[|placed|]];
    var k :| 0 <= k < |placed| && placed[k].slot == slot && interference[current.node, placed[k].node];
    assert Overlaps(placed[k], current);
  }

  lemma WrapsOnce(a: nat, b: nat)
    ensures (a % WORD + b) % WORD == (a + b) % WORD
  {
  }

  method MakePlan(inputBytes: nat, slotSizes: seq<nat>, placed: seq<LiveBuffer>) returns (plan: Plan)
    requires inputBytes < WORD
    ensures plan.peakBytes == (inputBytes + Total(slotSizes)) % WORD
    ensures plan.slotCount == |slotSizes|
    ensures plan.assignments == Assigned(placed)
  {
    var peak := inputBytes;
    for k := 0 to |slotSizes|
      invariant peak == (inputBytes + Total(slotSizes[..k])) % WORD
    {
      assert slotSizes[..k + 1][..k] == slotSizes[..k];
      WrapsOnce(inputBytes + Total(slotSizes[..k]), slotSizes[k]);
      peak := (peak + slotSizes[k]) % WORD;
    }
    assert slotSizes[..|slotSizes|] == slotSizes;
    var assignments: seq<Assignment> := [];
    for k := 0 to |placed|
      invariant assignments == Assigned(placed[..k])
    {
      assignments := assignments + [Assignment(placed[k].node, placed[k].node, placed[k].slot, placed[k].size)];
    }
    assert placed[..|placed|] == placed;
    plan := Plan(peak, |slotSizes|, assignments);
  }

  /** The plan lists the buffers in execution order, each in one of its slots. */
  ghost predicate Lists(ranges: seq<LiveBuffer>, plan: Plan)
  {
    && |plan.assignments| == |ranges|
    && forall i :: 0 <= i < |ranges| ==>
      plan.assignments[i].bufferId == plan.assignments[i].node == ranges[i].node &&
      plan.assignments[i].size == ranges[i].size && plan.assignments[i].slot < plan.slotCount
  }

  /** The peak covers the input and whatever is live at any step, and is no more than everything together. */
  ghost predicate Covers(inputBytes: nat, ranges: seq<LiveBuffer>, peakBytes: nat)
  {
    && peakBytes <= inputBytes + TotalBytes(ranges)
    && forall step: nat :: inputBytes + LiveBytes(ranges, step) <= peakBytes
  }

  /** What a plan promises about the live ranges it was made for. The peak is the input and
      the largest buffer of every slot, in 64 bits; it covers what is live if that sum fits. */
  ghost predicate Sound(inputBytes: nat, ranges: seq<LiveBuffer>, plan: Plan)
  {
    && Lists(ranges, plan)
    && Apart(ranges, SlotsOf(plan))
    && Tight(ranges, plan.slotCount)
    && Peaks(inputBytes, ranges, plan.peakBytes, inputBytes + SlotTotal(plan.assignments, plan.slotCount))
  }

  ghost predicate Peaks(inputBytes: nat, ranges: seq<LiveBuffer>, peakBytes: nat, sum: nat)
  {
    peakBytes == sum % WORD && (sum < WORD ==> Covers(inputBytes, ranges, peakBytes))
  }

  ghost function Sizes(layout: Layout, bytesPerPixel: seq<nat>): (sizes: seq<nat>)
  {
    seq(|bytesPerPixel|, i requires 0 <= i < |bytesPerPixel| => BufferSize(PixelCount(layout), bytesPerPixel[i]))
  }

  /** The order, the step of each node, and the live range of each node's output. */
  method LiveRanges(pixels: nat, bytesPerPixel: seq<nat>, edges: seq<Edge>)
    returns (order: seq<nat>, positions: seq<nat>, buffers: array<LiveBuffer>)
    ensures Permutation(|bytesPerPixel|, order) && Inverse(|bytesPerPixel|, order, positions)
    ensures StepOrder(|bytesPerPixel|, edges, order)
    ensures fresh(buffers) && buffers.Length == |bytesPerPixel|
    ensures forall i :: 0 <= i < |order| ==>
      buffers[order[i]] == LiveBuffer(order[i], i, LastUse(|bytesPerPixel|, edges, positions, order[i]),
                                      BufferSize(pixels, bytesPerPixel[order[i]]), 0)
  {
    var n := |bytesPerPixel|;
    order := TopologicalOrder(n, edges);
    positions := TopologicalPositions(n, order);
    buffers := MakeLiveBuffers(bytesPerPixel, order, pixels);
    Everywhere(order, positions);
    ExtendLiveRanges(buffers, positions, edges);
  }

  method PlanGraph(layout: Layout, bytesPerPixel: seq<nat>, edges: seq<Edge>) returns (plan: Plan)
    ensures Plans(layout, bytesPerPixel, edges, plan)
  {
    var n := |bytesPerPixel|;
    if n == 0 {
      plan := Plan(layout.sizeBytes, 0, []);
      NoBuffers(layout.sizeBytes);
      ForwardImpliesAcyclic(n, edges, []);
      assert PlansBy(layout, bytesPerPixel, edges, plan, [], [], []);
      return;
    }
    plan := PlanNodes(layout, bytesPerPixel, edges);
  }

  /** A plan that is sound for the live ranges of this order. */
  ghost predicate PlansBy(layout: Layout, bytesPerPixel: seq<nat>, edges: seq<Edge>, plan: Plan, order: seq<nat>,
                          positions: seq<nat>, ranges: seq<LiveBuffer>)
  {
    && Permutation(|bytesPerPixel|, order)
    && StepOrder(|bytesPerPixel|, edges, order)
    && RangesOf(edges, Sizes(layout, bytesPerPixel), order, positions, ranges)
    && Sound(layout.sizeBytes, ranges, plan)
  }

  ghost predicate Plans(layout: Layout, bytesPerPixel: seq<nat>, edges: seq<Edge>, plan: Plan)
  {
    exists order, positions, ranges :: PlansBy(layout, bytesPerPixel, edges, plan, order, positions, ranges)
  }

  /** The live ranges, coloured. */
  method PlaceBuffers(layout: Layout, bytesPerPixel: seq<nat>, edges: seq<Edge>)
    returns (placed: seq<LiveBuffer>, slotSizes: seq<nat>, ghost order: seq<nat>, ghost positions: seq<nat>)
    ensures Permutation(|bytesPerPixel|, order) && StepOrder(|bytesPerPixel|, edges, order)
    ensures RangesOf(edges, Sizes(layout, bytesPerPixel), order, positions, placed)
    ensures Coloured(placed, slotSizes) && FirstFitted(placed) && SizedToFit(placed, slotSizes)
  {
    var steps, at, buffers := LiveRanges(PixelCount(layout), bytesPerPixel, edges);
    order, positions := steps, at;
    var interference := BuildInterferenceGraph(buffers);
    placed, slotSizes := ColorBuffers(buffers, steps, interference);
    PlacedAreRanges(layout, bytesPerPixel, edges, order, positions, buffers[..], placed);
  }

  method PlanNodes(layout: Layout, bytesPerPixel: seq<nat>, edges: seq<Edge>) returns (plan: Plan)
    requires |bytesPerPixel| > 0
    ensures Plans(layout, bytesPerPixel, edges, plan)
  {
    var placed, slotSizes, order, positions := PlaceBuffers(layout, bytesPerPixel, edges);
    plan := MakePlan(layout.sizeBytes, slotSizes, placed);
    ColouredIsSound(layout.sizeBytes, placed, slotSizes, plan);
    NodesPlanned(layout, bytesPerPixel, edges, plan, order, positions, placed);
  }

  lemma NodesPlanned(layout: Layout, bytesPerPixel: seq<nat>, edges: seq<Edge>, plan: Plan, order: seq<nat>,
                     positions: seq<nat>, ranges: seq<LiveBuffer>)
    requires Permutation(|bytesPerPixel|, order) && StepOrder(|bytesPerPixel|, edges, order)
    requires RangesOf(edges, Sizes(layout, bytesPerPixel), order, positions, ranges)
    requires Sound(layout.sizeBytes, ranges, plan)
    ensures Plans(layout, bytesPerPixel, edges, plan)
  {
    assert PlansBy(layout, bytesPerPixel, edges, plan, order, positions, ranges);
  }

  lemma PlacedAreRanges(layout: Layout, bytesPerPixel: seq<nat>, edges: seq<Edge>, order: seq<nat>, positions: seq<nat>,
                        buffers: seq<LiveBuffer>, placed: seq<LiveBuffer>)
    requires Inverse(|bytesPerPixel|, order, positions) && |placed| == |order| && Placed(buffers, order, placed)
    requires |buffers| == |bytesPerPixel|
    requires forall i :: 0 <= i < |order| ==>
      buffers[order[i]] == LiveBuffer(order[i], i, LastUse(|bytesPerPixel|, edges, positions, order[i]),
                                      BufferSize(PixelCount(layout), bytesPerPixel[order[i]]), 0)
    ensures RangesOf(edges, Sizes(layout, bytesPerPixel), order, positions, placed)
  {
    forall i | 0 <= i < |placed| ensures placed[i] == buffers[order[i]].(slot := placed[i].slot) {
    }
  }

  // ---------------------------------------------------------------- counting

  lemma {:induction false} ImageCardinality(slots: seq<nat>, chosen: set<nat>)
    requires forall i :: i in chosen ==> i < |slots|
    ensures |SlotsAt(slots, chosen)| <= |chosen|
    ensures (forall i, j :: i in chosen && j in chosen && i != j ==> slots[i] != slots[j]) ==>
            |SlotsAt(slots, chosen)| == |chosen|
  {
    if chosen == {} {
      assert SlotsAt(slots, chosen) == {};
    } else {
      var i :| i in chosen;
      ImageCardinality(slots, chosen - {i});
      assert SlotsAt(slots, chosen) == SlotsAt(slots, chosen - {i}) + {slots[i]};
    }
  }

  /** Buffers live at one step overlap pairwise, so slots that keep overlapping
      buffers apart are as many at that step as the buffers. */
  lemma LiveNeedSlots(ranges: seq<LiveBuffer>, slots: seq<nat>, step: nat)
    requires Apart(ranges, slots)
    ensures |SlotsAt(slots, LiveSet(ranges, step))| == |LiveSet(ranges, step)|
  {
    var live := LiveSet(ranges, step);
    forall i, j | i in live && j in live && i != j ensures slots[i] != slots[j] {
      var lo, hi := if i < j then i else j, if i < j then j else i;
      assert Overlaps(ranges[lo], ranges[hi]);
    }
    ImageCardinality(slots, live);
  }

  lemma LiveSetGrows(ranges: seq<LiveBuffer>, b: LiveBuffer, step: nat)
    ensures |LiveSet(ranges, step)| <= |LiveSet(ranges + [b], step)|
  {
    assert LiveSet(ranges, step) <= LiveSet(ranges + [b], step);
    SubsetCardinality(LiveSet(ranges, step), LiveSet(ranges + [b], step));
  }

  /** First fit opens a new slot only when every old slot holds a buffer live at this step. */
  lemma CrowdedStep(placed: seq<LiveBuffer>, current: LiveBuffer, slot: nat)
    requires current.slot == slot && LiveAt(current, |placed|)
    requires forall s: nat :: s < slot ==> Blocked(placed, s)
    ensures |LiveSet(placed + [current], |placed|)| >= slot + 1
  {
    var ranges := placed + [current];
    var slots := seq(|ranges|, i requires 0 <= i < |ranges| => ranges[i].slot);
    var live := LiveSet(ranges, |placed|);
    ImageCardinality(slots, live);
    forall s | s in Below(slot + 1) ensures s in SlotsAt(slots, live) {
      if s == slot {
        assert slots[|placed|] == s && |placed| in live;
      } else {
        assert Blocked(placed, s);
        var k: nat :| 0 <= k < |placed| && placed[k].slot == s && LiveAt(placed[k], |placed|);
        assert slots[k] == s && k in live;
      }
    }
    SubsetCardinality(Below(slot + 1), SlotsAt(slots, live));
  }

  lemma {:induction false} TotalUpdate(sizes: seq<nat>, slot: nat, size: nat)
    requires slot < |sizes| && size >= sizes[slot]
    ensures Total(sizes[slot := size]) == Total(sizes) + size - sizes[slot]
  {
    var front := sizes[..|sizes| - 1];
    if slot == |sizes| - 1 {
      assert sizes[slot := size][..|sizes| - 1] == front;
    } else {
      assert sizes[slot := size][..|sizes| - 1] == front[slot := size];
      TotalUpdate(front, slot, size);
    }
  }

  lemma ApartStep(placed: seq<LiveBuffer>, current: LiveBuffer)
    requires KeptApart(placed)
    requires forall k :: 0 <= k < |placed| && Overlaps(placed[k], current) ==> placed[k].slot != current.slot
    ensures KeptApart(placed + [current])
  {
  }

  lemma FittedStep(placed: seq<LiveBuffer>, sizes: seq<nat>, current: LiveBuffer, slot: nat)
    requires Fitted(placed, sizes) && slot <= |sizes| && current.slot == slot
    ensures Fitted(placed + [current], Grown(sizes, current, slot))
  {
  }

  lemma TotalStep(placed: seq<LiveBuffer>, sizes: seq<nat>, current: LiveBuffer, slot: nat)
    requires Total(sizes) <= TotalBytes(placed) && slot <= |sizes|
    ensures Total(Grown(sizes, current, slot)) <= TotalBytes(placed + [current])
  {
    assert (placed + [current])[..|placed|] == placed;
    if slot == |sizes| {
      assert Grown(sizes, current, slot)[..|sizes|] == sizes;
    } else {
      TotalUpdate(sizes, slot, Max(sizes[slot], current.size));
    }
  }

  lemma StillCrowded(placed: seq<LiveBuffer>, slotCount: nat, current: LiveBuffer)
    requires Crowded(placed, slotCount) && placed != []
    ensures Crowded(placed + [current], slotCount)
  {
    var step: nat :| step < |placed| && |LiveSet(placed, step)| >= slotCount;
    LiveSetGrows(placed, current, step);
    assert |LiveSet(placed + [current], step)| >= slotCount;
  }

  lemma ColouredStep(placed: seq<LiveBuffer>, sizes: seq<nat>, current: LiveBuffer, slot: nat)
    requires Coloured(placed, sizes)
    requires slot <= |sizes| && current.slot == slot && LiveAt(current, |placed|)
    requires forall k :: 0 <= k < |placed| && Overlaps(placed[k], current) ==> placed[k].slot != slot
    requires forall s: nat :: s < slot ==> Blocked(placed, s)
    ensures Coloured(placed + [current], Grown(sizes, current, slot))
  {
    ApartStep(placed, current);
    FittedStep(placed, sizes, current, slot);
    TotalStep(placed, sizes, current, slot);
    if slot == |sizes| {
      CrowdedStep(placed, current, slot);
    } else {
      StillCrowded(placed, |sizes|, current);
    }
  }

  lemma FirstFittedStep(placed: seq<LiveBuffer>, current: LiveBuffer)
    requires FirstFitted(placed) && forall slot: nat :: slot < current.slot ==> Blocked(placed, slot)
    ensures FirstFitted(placed + [current])
  {
    var placed' := placed + [current];
    forall i: nat, slot: nat | i < |placed'| && slot < placed'[i].slot ensures Blocked(placed'[..i], slot) {
      assert placed'[..i] == if i == |placed| then placed else placed[..i];
    }
  }

  lemma LargestStep(placed: seq<LiveBuffer>, current: LiveBuffer, slot: nat)
    ensures Largest(Assigned(placed + [current]), slot) ==
            Max(Largest(Assigned(placed), slot), if current.slot == slot then current.size else 0)
  {
    var assignments := Assigned(placed + [current]);
    assert assignments[..|placed|] == Assigned(placed);
  }

  lemma {:induction false} EmptySlot(placed: seq<LiveBuffer>, slot: nat)
    requires forall i :: 0 <= i < |placed| ==> placed[i].slot != slot
    ensures Largest(Assigned(placed), slot) == 0
  {
    if placed != [] {
      var front, last := placed[..|placed| - 1], placed[|placed| - 1];
      EmptySlot(front, slot);
      LargestStep(front, last, slot);
      assert front + [last] == placed;
    }
  }

  lemma SizedStep(placed: seq<LiveBuffer>, sizes: seq<nat>, current: LiveBuffer, slot: nat)
    requires SizedToFit(placed, sizes) && slot <= |sizes| && current.slot == slot
    ensures SizedToFit(placed + [current], Grown(sizes, current, slot))
  {
    var sizes' := Grown(sizes, current, slot);
    forall s: nat | s < |sizes'| ensures sizes'[s] == Largest(Assigned(placed + [current]), s) {
      LargestStep(placed, current, s);
      if s == |sizes| {
        EmptySlot(placed, s);
      }
    }
  }

  lemma {:induction false} TotalOfLargest(placed: seq<LiveBuffer>, sizes: seq<nat>, k: nat)
    requires SizedToFit(placed, sizes) && k <= |sizes|
    ensures Total(sizes[..k]) == SlotTotal(Assigned(placed), k)
  {
    if k != 0 {
      TotalOfLargest(placed, sizes, k - 1);
      assert sizes[..k][..k - 1] == sizes[..k - 1];
    }
  }

  // ---------------------------------------------------------------- peak bytes

  /** The bytes live in one slot at one step. */
  ghost function SlotBytes(ranges: seq<LiveBuffer>, slot: nat, step: nat): (sum: nat)
  {
    if ranges == [] then 0
    else
      var b := ranges[|ranges| - 1];
      SlotBytes(ranges[..|ranges| - 1], slot, step) + if b.slot == slot && LiveAt(b, step) then b.size else 0
  }

  ghost function SlotBytesUpTo(ranges: seq<LiveBuffer>, slots: nat, step: nat): (sum: nat)
  {
    if slots == 0 then 0 else SlotBytesUpTo(ranges, slots - 1, step) + SlotBytes(ranges, slots - 1, step)
  }

  lemma {:induction false} SlotBytesSnoc(ranges: seq<LiveBuffer>, b: LiveBuffer, slots: nat, step: nat)
    ensures SlotBytesUpTo(ranges + [b], slots, step) ==
            SlotBytesUpTo(ranges, slots, step) + if b.slot < slots && LiveAt(b, step) then b.size else 0
  {
    assert (ranges + [b])[..|ranges|] == ranges;
    if slots != 0 {
      SlotBytesSnoc(ranges, b, slots - 1, step);
    }
  }

  /** Counting the live bytes slot by slot counts them all. */
  lemma {:induction false} LiveBytesBySlot(ranges: seq<LiveBuffer>, slots: nat, step: nat)
    requires forall i :: 0 <= i < |ranges| ==> ranges[i].slot < slots
    ensures LiveBytes(ranges, step) == SlotBytesUpTo(ranges, slots, step)
  {
    if ranges == [] {
      NothingLive(slots, step);
    } else {
      var front, b := ranges[..|ranges| - 1], ranges[|ranges| - 1];
      LiveBytesBySlot(front, slots, step);
      assert ranges == front + [b];
      SlotBytesSnoc(front, b, slots, step);
    }
  }

  lemma {:induction false} NothingLive(slots: nat, step: nat)
    ensures SlotBytesUpTo([], slots, step) == 0
  {
    if slots != 0 {
      NothingLive(slots - 1, step);
    }
  }

  /** At one step a slot holds at most one live buffer, which fits it. */
  lemma {:induction false} SlotHoldsOne(ranges: seq<LiveBuffer>, sizes: seq<nat>, slot: nat, step: nat)
    requires slot < |sizes|
    requires KeptApart(ranges) && Fitted(ranges, sizes)
    ensures SlotBytes(ranges, slot, step) <= sizes[slot]
    ensures (forall i :: 0 <= i < |ranges| && ranges[i].slot == slot ==> !LiveAt(ranges[i], step)) ==>
            SlotBytes(ranges, slot, step) == 0
  {
    if ranges != [] {
      var front, b := ranges[..|ranges| - 1], ranges[|ranges| - 1];
      SlotHoldsOne(front, sizes, slot, step);
      if b.slot == slot && LiveAt(b, step) {
        forall i | 0 <= i < |front| && front[i].slot == slot ensures !LiveAt(front[i], step) {
          assert !Overlaps(ranges[i], ranges[|ranges| - 1]);
        }
      }
    }
  }

  lemma {:induction false} SlotBytesFit(ranges: seq<LiveBuffer>, sizes: seq<nat>, slots: nat, step: nat)
    requires Coloured(ranges, sizes) && slots <= |sizes|
    ensures SlotBytesUpTo(ranges, slots, step) <= Total(sizes[..slots])
  {
    if slots != 0 {
      SlotBytesFit(ranges, sizes, slots - 1, step);
      SlotHoldsOne(ranges, sizes, slots - 1, step);
      assert sizes[..slots][..slots - 1] == sizes[..slots - 1];
    }
  }

  // ---------------------------------------------------------------- main results

  lemma ColouredIsSound(inputBytes: nat, ranges: seq<LiveBuffer>, sizes: seq<nat>, plan: Plan)
    requires inputBytes < WORD && ranges != [] && Coloured(ranges, sizes) && SizedToFit(ranges, sizes)
    requires plan.peakBytes == (inputBytes + Total(sizes)) % WORD && plan.slotCount == |sizes|
    requires plan.assignments == Assigned(ranges)
    ensures Sound(inputBytes, ranges, plan)
  {
    PlanIsTight(ranges, sizes, plan);
    PlanPeaks(inputBytes, ranges, sizes, plan.peakBytes);
  }

  lemma PlanPeaks(inputBytes: nat, ranges: seq<LiveBuffer>, sizes: seq<nat>, peakBytes: nat)
    requires Coloured(ranges, sizes) && SizedToFit(ranges, sizes) && peakBytes == (inputBytes + Total(sizes)) % WORD
    ensures Peaks(inputBytes, ranges, peakBytes, inputBytes + SlotTotal(Assigned(ranges), |sizes|))
  {
    assert sizes[..|sizes|] == sizes;
    TotalOfLargest(ranges, sizes, |sizes|);
    ColouredPeaks(inputBytes, ranges, sizes, peakBytes);
  }

  lemma ColouredPeaks(inputBytes: nat, ranges: seq<LiveBuffer>, sizes: seq<nat>, peakBytes: nat)
    requires Coloured(ranges, sizes) && peakBytes == (inputBytes + Total(sizes)) % WORD
    ensures Peaks(inputBytes, ranges, peakBytes, inputBytes + Total(sizes))
  {
    ColouredCovers(inputBytes, ranges, sizes);
  }

  lemma PlanIsTight(ranges: seq<LiveBuffer>, sizes: seq<nat>, plan: Plan)
    requires ranges != [] && Coloured(ranges, sizes)
    requires plan.slotCount == |sizes| && plan.assignments == Assigned(ranges)
    ensures Lists(ranges, plan) && Apart(ranges, SlotsOf(plan)) && Tight(ranges, plan.slotCount)
  {
    ColouredIsListed(ranges, sizes, plan);
    ColouredIsTight(ranges, sizes, SlotsOf(plan));
  }

  lemma ColouredIsListed(ranges: seq<LiveBuffer>, sizes: seq<nat>, plan: Plan)
    requires KeptApart(ranges) && Fitted(ranges, sizes) && plan.slotCount == |sizes| &&
      plan.assignments == Assigned(ranges)
    ensures Lists(ranges, plan) && Apart(ranges, SlotsOf(plan))
    ensures forall k :: 0 <= k < |ranges| ==> SlotsOf(plan)[k] < |sizes|
  {
  }

  lemma ColouredIsTight(ranges: seq<LiveBuffer>, sizes: seq<nat>, slots: seq<nat>)
    requires ranges != [] && Coloured(ranges, sizes) && Apart(ranges, slots)
    requires forall k :: 0 <= k < |ranges| ==> slots[k] < |sizes|
    ensures Tight(ranges, |sizes|)
  {
    forall step: nat ensures |LiveSet(ranges, step)| <= |sizes| {
      LiveNeedSlots(ranges, slots, step);
      assert SlotsAt(slots, LiveSet(ranges, step)) <= Below(|sizes|);
      SubsetCardinality(SlotsAt(slots, LiveSet(ranges, step)), Below(|sizes|));
    }
    var step: nat :| step < |ranges| && |LiveSet(ranges, step)| >= |sizes|;
    assert |LiveSet(ranges, step)| == |sizes|;
  }

  lemma ColouredCovers(inputBytes: nat, ranges: seq<LiveBuffer>, sizes: seq<nat>)
    requires Coloured(ranges, sizes)
    ensures Covers(inputBytes, ranges, inputBytes + Total(sizes))
  {
    forall step: nat ensures LiveBytes(ranges, step) <= Total(sizes) {
      LiveBytesBySlot(ranges, |sizes|, step);
      SlotBytesFit(ranges, sizes, |sizes|, step);
      assert sizes[..|sizes|] == sizes;
    }
  }

  lemma NoBuffers(inputBytes: nat)
    requires inputBytes < WORD
    ensures Sound(inputBytes, [], Plan(inputBytes, 0, []))
  {
    forall step: nat ensures LiveSet([], step) == {} {
    }
  }

  /** No assignment that keeps overlapping buffers apart uses fewer slots than the plan. */
  lemma SlotCountOptimal(inputBytes: nat, ranges: seq<LiveBuffer>, plan: Plan, other: seq<nat>)
    requires Sound(inputBytes, ranges, plan) && Apart(ranges, other)
    ensures |Elements(SlotsOf(plan))| == plan.slotCount
    ensures plan.slotCount <= |Elements(other)|
  {
    if ranges != [] {
      var step: nat :| step < |ranges| && |LiveSet(ranges, step)| == plan.slotCount;
      SlotsNeeded(ranges, other, step);
      SlotsNeeded(ranges, SlotsOf(plan), step);
      assert Elements(SlotsOf(plan)) <= Below(plan.slotCount);
      SubsetCardinality(Elements(SlotsOf(plan)), Below(plan.slotCount));
    }
  }

  lemma SlotsNeeded(ranges: seq<LiveBuffer>, slots: seq<nat>, step: nat)
    requires Apart(ranges, slots)
    ensures |LiveSet(ranges, step)| <= |Elements(slots)|
  {
    LiveNeedSlots(ranges, slots, step);
    assert SlotsAt(slots, LiveSet(ranges, step)) <= Elements(slots);
    SubsetCardinality(SlotsAt(slots, LiveSet(ranges, step)), Elements(slots));
  }

  /** A node that runs after a producer and before one of its consumers never gets the producer's slot. */
  lemma ProducerSlotIsSafe(edges: seq<Edge>, sizes: seq<nat>, order: seq<nat>, positions: seq<nat>,
                           ranges: seq<LiveBuffer>, inputBytes: nat, plan: Plan, i: nat, k: nat, j: nat)
    requires RangesOf(edges, sizes, order, positions, ranges) && Sound(inputBytes, ranges, plan)
    requires i < k < j < |order| && Adjacent(|sizes|, edges, order[i], order[j])
    ensures plan.assignments[i].slot != plan.assignments[k].slot
  {
    LastUseIsLastConsumer(|sizes|, edges, positions, order[i]);
    assert Overlaps(ranges[i], ranges[k]);
    assert SlotsOf(plan)[i] != SlotsOf(plan)[k];
  }

  // ---------------------------------------------------------------- linear pipelines

  ghost function ChainEdges(n: nat): (edges: seq<Edge>)
  {
    if n <= 1 then [] else ChainEdges(n - 1) + [Edge(n - 2, n - 1)]
  }

  lemma {:induction false} ChainAdjacent(n: nat, u: nat, v: nat)
    ensures Edge(u, v) in ChainEdges(n) <==> u + 1 == v && v < n
  {
    if n > 1 {
      ChainAdjacent(n - 1, u, v);
    }
  }

  /** The chain has one forward order. */
  lemma {:induction false} ChainOrder(n: nat, order: seq<nat>, positions: seq<nat>, v: nat)
    requires Permutation(n, order) && Forward(n, ChainEdges(n), order) && Inverse(n, order, positions) && v < n
    ensures v <= positions[v] && positions[v] < n && order[positions[v]] == v
  {
    NodesFit(n, order);
    assert v in order;
    if v > 0 {
      ChainOrder(n, order, positions, v - 1);
      ChainAdjacent(n, v - 1, v);
      assert Adjacent(n, ChainEdges(n), order[positions[v - 1]], order[positions[v]]);
    }
  }

  lemma {:induction false} ChainOrderUpper(n: nat, order: seq<nat>, positions: seq<nat>, v: nat)
    requires Permutation(n, order) && Forward(n, ChainEdges(n), order) && Inverse(n, order, positions) && v < n
    ensures positions[v] == v && order[v] == v
    decreases n - v
  {
    ChainOrder(n, order, positions, v);
    if v + 1 < n {
      ChainOrderUpper(n, order, positions, v + 1);
      ChainAdjacent(n, v, v + 1);
      assert Adjacent(n, ChainEdges(n), order[positions[v]], order[positions[v + 1]]);
    }
  }

  lemma ChainIsAcyclic(n: nat)
    ensures Acyclic(n, ChainEdges(n))
  {
    var order: seq<nat> := seq(n, i => i);
    forall i, j | 0 <= i < n && 0 <= j < n && Adjacent(n, ChainEdges(n), order[i], order[j]) ensures i < j {
      ChainAdjacent(n, order[i], order[j]);
    }
    ForwardImpliesAcyclic(n, ChainEdges(n), order);
  }

  lemma ChainRange(n: nat, order: seq<nat>, positions: seq<nat>, i: nat)
    requires Permutation(n, order) && Forward(n, ChainEdges(n), order) && Inverse(n, order, positions) && i < n
    ensures LastUse(n, ChainEdges(n), positions, order[i]) == i + 1
  {
    ChainOrderUpper(n, order, positions, i);
    LastUseIsLastConsumer(n, ChainEdges(n), positions, i);
    forall c: nat | Adjacent(n, ChainEdges(n), i, c) ensures positions[c] == i + 1 {
      ChainAdjacent(n, i, c);
      ChainOrderUpper(n, order, positions, c);
    }
  }

  /** In a linear pipeline exactly one output is live at each step. */
  lemma ChainNeedsOneSlot(sizes: seq<nat>, order: seq<nat>, positions: seq<nat>, ranges: seq<LiveBuffer>,
                          inputBytes: nat, plan: Plan)
    requires Permutation(|sizes|, order) && Forward(|sizes|, ChainEdges(|sizes|), order)
    requires RangesOf(ChainEdges(|sizes|), sizes, order, positions, ranges)
    requires Sound(inputBytes, ranges, plan) && sizes != []
    ensures plan.slotCount == 1
  {
    forall i | 0 <= i < |ranges| ensures ranges[i].start == i && ranges[i].end == i + 1 {
      ChainRange(|sizes|, order, positions, i);
    }
    var step: nat :| step < |ranges| && |LiveSet(ranges, step)| == plan.slotCount;
    assert LiveSet(ranges, step) == {step};
  }

  /** Plan for a linear pipeline. */
  method PlanLinear(layout: Layout, bytesPerPixel: seq<nat>) returns (plan: Plan)
    ensures Plans(layout, bytesPerPixel, ChainEdges(|bytesPerPixel|), plan)
    ensures plan.slotCount == if bytesPerPixel == [] then 0 else 1
  {
    var edges: seq<Edge> := [];
    var node := 1;
    while node < |bytesPerPixel|
      invariant 1 <= node && (node <= |bytesPerPixel| || (|bytesPerPixel| == 0 && node == 1))
      invariant edges == ChainEdges(node)
    {
      edges := edges + [Edge(node - 1, node)];
      node := node + 1;
    }
    assert ChainEdges(0) == ChainEdges(1);
    plan := PlanGraph(layout, bytesPerPixel, edges);
    LinearNeedsOneSlot(layout, bytesPerPixel, plan);
  }

  lemma LinearNeedsOneSlot(layout: Layout, bytesPerPixel: seq<nat>, plan: Plan)
    requires Plans(layout, bytesPerPixel, ChainEdges(|bytesPerPixel|), plan)
    ensures plan.slotCount == if bytesPerPixel == [] then 0 else 1
  {
    var order, positions, ranges :| PlansBy(layout, bytesPerPixel, ChainEdges(|bytesPerPixel|), plan, order, positions,
                                            ranges);
    ChainIsAcyclic(|bytesPerPixel|);
    if bytesPerPixel != [] {
      ChainNeedsOneSlot(Sizes(layout, bytesPerPixel), order, positions, ranges, layout.sizeBytes, plan);
    }
  }
}
