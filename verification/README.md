# cpipe verification

A Dafny model of the hard parts of cpipe, an image-pipeline runtime, with proofs about
every input, every run or every reachable state. `dafny verify dfyconfig.toml` checks it.

What is modelled, file by file:

- **Graph.dfy, Fifo.dfy, TopologicalSort.dfy, MemoryPlanner.dfy** - Kahn's sort and the one
  order it can give, live ranges, the interference graph and greedy slot colouring, with the
  optimality of the slot count.
- **Manifest.dfy, PrecisionPlanner.dfy, PrecisionGraph.dfy** - the insertion of precision
  converters, and that it keeps the graph.
- **StepFlow.dfy, Pipeline.dfy** - the metadata-step dataflow and `Pipeline::load` as a
  whole, on documents that are already parsed.
- **Scheduler.dfy, PipelineRun.dfy** - `Scheduler::run` as a transition system over all
  interleavings with one atomic status cell, the chain `run_bound` builds, and the
  soundness of the load-time step check for the run.
- **Brent.dfy** - the Brent search for the scene's colour temperature, over the reals.
- **Bytes.dfy, RecordList.dfy, OpcodeList3.dfy, OpcodeParser.dfy, Opcode3Blob.dfy,
  OpcodeImage.dfy, OpcodeLaws.dfy, Opcode3Kernel.dfy, OpcodeNode.dfy** - the third DNG
  opcode list (chapter 7 of the Adobe DNG Specification) from bytes to opcodes, to the
  parameter blob, to the image.
- **GainMaps.dfy, GainMapFormat.dfy, GainKernel.dfy, GainShading.dfy, GainNode.dfy** - gain
  maps of the second opcode list, from bytes to shaded pixels.
- **IccProfile.dfy, IccWriter.dfy, IccAlignment.dfy, IccTies.dfy** - the rebuilt ICC profile
  (section 7.3 of ICC.1:2022).
- **Debounce.dfy** - the editor server's debouncer, a timed state machine of two threads.
- **Remosaic.dfy, Lut3d.dfy, Reals.dfy** - the Quad Bayer remosaic in exact 32-bit
  arithmetic and three-dimensional colour lookup over the reals.

Code that updates things step by step is modelled by methods and classes whose contracts
tie them to specification functions; the theorems are about those functions and about runs.

How the model reads the code:

- Live ranges are half-open and end at the last consumer, so a last consumer may reuse its
  input's slot.
- `run_bound` passes one current buffer along the planned order, so the step check is
  proved for that chain and not for the data flow of the graph.
- A node's `process` is any function under one stated contract: if it returns OK it keeps
  the applied steps and adds those its out ports declare.
- The parabola in the Brent search is used only when its denominator is positive; the code
  does not flip signs, and the model does not either. A positive denominator alone does not
  say that the parabola opens upwards; that it does is an invariant of the search. The sign
  of a zero step, which `copysign` looks at, is a parameter.
- Bytes are big-endian in files and little-endian in the parameter blobs; padding is zero.
- Half-floats, floats and doubles are bit patterns; how they are read as numbers, and the
  square root, are parameters.

Some properties one might expect are false of the code. For these the model gives the
exact condition under which they hold, and an input or a run that fails it:

- A bad-pixel rect patches the pixels it names only if no corner of 2^31 or more is read as
  a negative int where that matters (`OpcodeImage.HugeRectVisitsNothing`,
  `OpcodeImage.RectVisitsItsPixels`).
- The debouncer decides under its lock after 200 quiet milliseconds, but queues the rerun
  after dropping the lock, when a newer update may have come in, or a newer update and a
  stop. The queueing is quiet too if no update came since the release, and within 200 ms of
  the release only then (`Debounce.QueueMayFollowAnUpdate`, `Debounce.QueueIsQuiet`).
- A small image may hold no sample of a pixel's new colour, and the remosaic then gives
  zero. Whether every pixel finds one depends on the image's first column and row and its
  size alone (`Remosaic.TwoByTwoFindsNothing`, `Remosaic.ColorsAreFoundExactly`).
- The rebuilt ICC profile's length is a multiple of four, whatever the sort, if and only if
  every kept tag that can come last has such a length, since only starts are aligned
  (`IccAlignment.UnalignedBase`, `IccAlignment.LengthIsAlignedExactly`).
- Rebuilding a rebuilt ICC profile changes nothing, whatever the sort, if and only if tags
  kept under one signature are the same (`IccTies.UnstableBase`,
  `IccTies.RebuildIsStableExactly`).

## Model

| member | source | states |
|---|---|---|
| TopologicalSort.BuildAdjacency | src/cpipe/runtime/MemoryPlanner.cpp:31-41 | each node's successor list is the targets of its in-range edges in edge order, repeats included, and each count is the number of edges that enter the node |
| TopologicalSort.Sources | src/cpipe/runtime/Pipeline.cpp:449-454 | the queue starts with exactly the nodes no edge enters, by index, and what the main loop keeps holds |
| TopologicalSort.Kahn | src/cpipe/runtime/Pipeline.cpp:447-474 | the order has no repeats and lists every node after all its predecessors; it is complete exactly when the graph has no cycle, and then it is a permutation in which every edge goes forward; always, who comes first is served first: a node stands before another if its last predecessor does, or if both wait for the same last predecessor and its final edge from it is the earlier one, or if both are sources and its index is smaller |
| TopologicalSort.Complete | src/cpipe/runtime/Pipeline.cpp:470-474 | when the queue runs empty, nodes are missing if and only if there is a cycle |
| Fifo.OneOrder | src/cpipe/runtime/Pipeline.cpp:447-474 | a graph has at most one complete forward order that serves first who came first, so the law above leaves the sort no choice |
| Fifo.LastVisits | src/cpipe/runtime/Pipeline.cpp:456-468 | along a node's successor list, the last visits come in the order of the final edges, whatever edges are repeated |
| Fifo.LastPredecessorIsLast | src/cpipe/runtime/Pipeline.cpp:456-468 | the position the law speaks of is that of a predecessor, and no later entry is one |
| Fifo.FinalEdgeIsLast | src/cpipe/runtime/Pipeline.cpp:447-455 | the edge the law speaks of joins the two nodes, and no later one does |
| MemoryPlanner.TopologicalOrder | src/cpipe/runtime/MemoryPlanner.cpp:31-71 | always a permutation; all edges go forward if and only if the graph is acyclic, and then who came first is served first; otherwise it is index order |
| MemoryPlanner.OneStepOrder | src/cpipe/runtime/MemoryPlanner.cpp:31-71 | every graph, cyclic ones included, has exactly one such order |
| MemoryPlanner.SizesAreProducts | src/cpipe/runtime/MemoryPlanner.cpp:15-20 | a buffer's size is the product of the first two extents and the bytes of a pixel modulo 2^64, cut once although the code cuts twice; fewer than two dimensions make it zero |
| MemoryPlanner.MakeLiveBuffers | src/cpipe/runtime/MemoryPlanner.cpp:96-108 | each output starts to live at its node's step and lives at least one step |
| MemoryPlanner.ExtendLiveRanges | src/cpipe/runtime/MemoryPlanner.cpp:110-120 | in place: each live range now ends at LastUse and nothing else changes |
| MemoryPlanner.LastUseIsLastConsumer | src/cpipe/runtime/MemoryPlanner.cpp:110-120 | LastUse is the step of the last consumer, or the step after the producer if no consumer is later |
| MemoryPlanner.BuildInterferenceGraph | src/cpipe/runtime/MemoryPlanner.cpp:122-133 | two buffers interfere if and only if they differ and their half-open ranges overlap |
| MemoryPlanner.FirstFit | src/cpipe/runtime/MemoryPlanner.cpp:150-156 | the chosen slot is free of overlapping buffers and every lower slot holds one |
| MemoryPlanner.ColorBuffers | src/cpipe/runtime/MemoryPlanner.cpp:142-165 | buffers are placed in execution order, each in the lowest slot whose buffers do not overlap it, and every slot is exactly as large as its largest buffer |
| MemoryPlanner.MakePlan | src/cpipe/runtime/MemoryPlanner.cpp:167-184 | the peak is the input plus all slot sizes, in 64-bit wrapping arithmetic, and the assignments list the placed buffers |
| MemoryPlanner.PlanGraph | src/cpipe/runtime/MemoryPlanner.cpp:198-217 | for every graph, cyclic ones included: overlapping buffers have different slots, the slot count is the largest number of buffers live at one step, the peak is the input plus the largest buffer of every slot modulo 2^64, and if that sum is below 2^64 the peak covers the input plus everything live at any step and is at most the input plus all buffers |
| MemoryPlanner.SlotCountOptimal | src/cpipe/runtime/MemoryPlanner.cpp:83-165 | no assignment that keeps overlapping buffers apart uses fewer slots |
| MemoryPlanner.ProducerSlotIsSafe | src/cpipe/runtime/MemoryPlanner.cpp:96-165 | no node strictly between a producer and one of its consumers gets the producer's slot |
| MemoryPlanner.ColouredIsTight | src/cpipe/runtime/MemoryPlanner.cpp:142-165 | the number of slots is reached by the buffers live at some one step |
| MemoryPlanner.ColouredCovers | src/cpipe/runtime/MemoryPlanner.cpp:142-184 | slot sizes add up to at least the bytes live at any step and at most the bytes of all buffers |
| MemoryPlanner.ChainNeedsOneSlot | src/cpipe/runtime/MemoryPlanner.cpp:188-196 | any sound plan for a chain has exactly one slot |
| MemoryPlanner.PlanLinear | src/cpipe/runtime/MemoryPlanner.cpp:188-196 | the plan of a linear pipeline is sound and has one slot, or none for no nodes |
| PrecisionPlanner.AutoInsert | src/cpipe/runtime/PrecisionPlanner.cpp:130-186 | succeeds if and only if every edge is in range and agrees or is convertible with a converter at hand; otherwise the status is that of the first bad edge; on success the nodes, edges and inserted indices are those of the rewrite, and every planned edge either joins two original ports that share a precision or is one of two edges through a converter between two original ports that share none, whose target is the format of the port it feeds and directly convertible from the format of the port that feeds it |
| PrecisionPlanner.PlanEdgeAt | src/cpipe/runtime/PrecisionPlanner.cpp:145-183 | one edge more: it is kept, replaced by two edges around a converter, or refused with the right status |
| PrecisionPlanner.PlannableByPorts | src/cpipe/runtime/PrecisionPlanner.cpp:145-165 | which edges are refused, said of the two ports: those out of range, and those whose ports share no precision and whose formats have no direct conversion or no converter for it |
| PrecisionPlanner.OnePlan | src/cpipe/runtime/PrecisionPlanner.cpp:141-186 | the nodes, edges and descriptor decide the plan |
| PrecisionPlanner.FormatSpellsCaps | src/cpipe/runtime/PrecisionPlanner.cpp:69-91 | the name of a format spells the channels and the precision it stands for |
| PrecisionPlanner.ConversionsAre | src/cpipe/runtime/PrecisionPlanner.cpp:93-98 | the four direct conversions: one channel from integers to floats, that to four half-float channels, and those to eight or sixteen bits |
| PrecisionPlanner.ConversionsAreOneWay | src/cpipe/runtime/PrecisionPlanner.cpp:93-98 | a direct conversion is between formats that ports can have, and no conversion undoes it |
| PrecisionPlanner.IntersectsMeans | src/cpipe/runtime/PrecisionPlanner.cpp:100-107 | a port that names no precision suits every other, and two that do must name one in common |
| Manifest.PortSpeaks | src/cpipe/runtime/PrecisionPlanner.cpp:23-67 | what is said of a port is read from the first one of its kind and name |
| PrecisionPlanner.ConverterIdsDiffer | src/cpipe/runtime/PrecisionPlanner.cpp:171-173 | ids made with different sequence numbers differ, whatever the ends |
| PrecisionPlanner.ConverterIdSequence | src/cpipe/runtime/PrecisionPlanner.cpp:171-173 | the sequence number can be read back from a converter's id |
| PrecisionGraph.ContractPlanned | src/cpipe/runtime/PrecisionPlanner.cpp:141-183 | merging the edges around converters gives back the original edge list |
| PrecisionGraph.OneInOneOut | src/cpipe/runtime/PrecisionPlanner.cpp:169-180 | every inserted node has exactly one edge in and one edge out |
| PrecisionGraph.AutoInsertKeepsGraph | src/cpipe/runtime/PrecisionPlanner.cpp:141-186 | contracting gives back the original edges, every planned edge is in range, reachability between original nodes is unchanged, and the plan is acyclic if and only if the original graph is |
| PrecisionGraph.ConvertersAreFresh | src/cpipe/runtime/PrecisionPlanner.cpp:145-183 | exactly one converter per disagreeing edge, each joined by one edge in and one edge out, no two with the same id |
| StepFlow.AppendUnique | src/cpipe/runtime/Pipeline.cpp:347-356 | the result has no repeats, starts with the given steps and holds exactly the steps of both lists |
| StepFlow.CumulativeSteps | src/cpipe/runtime/Pipeline.cpp:476-490 | each node's list is, without repeats, exactly the union over its ancestors and itself of the steps set on the ports of their outgoing edges |
| StepFlow.ProducedOneStep | src/cpipe/runtime/Pipeline.cpp:476-490 | what a node has produced is what it sets itself and what its predecessors have produced |
| Pipeline.ResolveNodes | src/cpipe/runtime/Pipeline.cpp:395-418 | accepted if and only if every node type is known, not reserved and has valid parameters; node ids resolve to the first node with that id |
| Pipeline.ResolveEdges | src/cpipe/runtime/Pipeline.cpp:425-445 | accepted if and only if both ends of every edge name a node; the edges join the nodes they name |
| Pipeline.CheckEdges | src/cpipe/runtime/Pipeline.cpp:492-513 | passes if and only if every edge's required steps are produced by ancestors of its producer or the producer itself, and its colour roles are compatible |
| Pipeline.Reorder | src/cpipe/runtime/Pipeline.cpp:542-578 | the second sort refuses exactly edges out of range and cycles; its order goes forward and serves first who came first |
| Pipeline.LoadGraph | src/cpipe/runtime/Pipeline.cpp:447-600 | the status is the verdict on the graph, in which the second sort's two errors do not occur; the peak is that of a sound memory plan for the planned graph; on OK the loaded nodes are those of the plan in the one forward order that serves first who came first, within the memory cap |
| Pipeline.OneSequence | src/cpipe/runtime/Pipeline.cpp:515-592 | a graph can be loaded in one way only: the plan, the order and the sequence of nodes are decided by it |
| Pipeline.OutputBytesAre | src/cpipe/runtime/MemoryPlanner.cpp:22-29 | a node's pixels have the size its manifest says, and none without a manifest |
| Pipeline.EndpointSplits | src/cpipe/runtime/Pipeline.cpp:61-67 | an endpoint is its node id, which has no dot, or that id, a dot and its port |
| Pipeline.RolesMatch | src/cpipe/runtime/Pipeline.cpp:358-361 | named roles are compatible exactly when equal; an empty role and the role any are compatible with all |
| Pipeline.LoadDocument | src/cpipe/runtime/Pipeline.cpp:395-592 | for every document and registry: BAD_INDEX if a node or an edge does not resolve, otherwise the verdict on the graph the document describes |
| Pipeline.Pipeline.Load | src/cpipe/runtime/Pipeline.cpp:368-601 | for every document and registry: the verdict, and an object that is unchanged unless the status is OK; then the document's inputs, layout, planned nodes and peak are installed, the registry is remembered and no source is bound |
| Pipeline.Pipeline.SetSource | src/cpipe/runtime/Pipeline.cpp:603-617 | bound if and only if the loaded document has the input and its registry the plugin, replacing an earlier binding; otherwise nothing changes; every bound source stays valid |
| Scheduler.Dispatch | src/cpipe/runtime/Scheduler.cpp:65-106 | a plain loop if and only if nothing has a dependency; refused if and only if a dependency is out of range, before anything is processed |
| Scheduler.RunInv | src/cpipe/runtime/Scheduler.cpp:83-109 | every reachable state of every interleaving keeps the invariant that ties calls, phases and the status cell together |
| Scheduler.ProcessedOnceAfterDependencies | src/cpipe/runtime/Scheduler.cpp:85-108 | at any moment of any run each node was processed at most once, and only after all its dependencies finished |
| Scheduler.DependentsOfFailureAreNotProcessed | src/cpipe/runtime/Scheduler.cpp:87-96 | no transitive dependent of a failed node is ever processed |
| Scheduler.ResultIsFirstFailure | src/cpipe/runtime/Scheduler.cpp:92-109 | the result is OK exactly when every node ran and returned OK; otherwise it is the status of the failure whose compare-exchange came first |
| Scheduler.NoDeadlock | src/cpipe/runtime/Scheduler.cpp:99-108 | with acyclic dependencies in range, every unfinished reachable state has an enabled step |
| Scheduler.StuckRunIsComplete | src/cpipe/runtime/Scheduler.cpp:99-109 | a run that cannot go on has finished every task |
| Scheduler.RunsTerminate | src/cpipe/runtime/Scheduler.cpp:85-108 | every run takes at most four steps per task |
| Scheduler.RunSequential | src/cpipe/runtime/Scheduler.cpp:68-78 | the loop without dependencies processes in order and returns at the first failure |
| Scheduler.ChainNeverOverlaps | src/cpipe/runtime/Pipeline.cpp:698-703 | on the chain no two closures are ever in flight together |
| Scheduler.ChainEqualsLoop | src/cpipe/runtime/Pipeline.cpp:698-703 | every complete run of the chain ends with the store, the status and the calls of the plain loop |
| Scheduler.ChainEntersInOrder | src/cpipe/runtime/Pipeline.cpp:698-703 | a closure is entered with the store the plain loop has after all earlier closures returned OK |
| PipelineRun.BuildChain | src/cpipe/runtime/Pipeline.cpp:698-703 | the dependencies form a chain: each node depends on exactly the node before it |
| PipelineRun.EveryRunIsTheLoop | src/cpipe/runtime/Pipeline.cpp:698-791 | however the tasks of the chain interleave, a run takes at most four steps per node, and one that cannot go on has the buffer, the status and the calls of the plain loop over the nodes |
| PipelineRun.RunEnds | src/cpipe/runtime/Pipeline.cpp:698-791 | for every run that cannot go on, in terms of what the plugins did: the status is OK if and only if every node's create, process and destroy succeeded and every output had a layout; otherwise, at the first node where something failed, it is create's status, else FAILED for an unknown layout, else process's status, else destroy's, the nodes up to that one were called in order, and the current buffer is the one that node was given |
| PipelineRun.CurrentIsLastOutput | src/cpipe/runtime/Pipeline.cpp:724-787 | the current buffer is the one produced by the last node with an output before it, or the first buffer if there is none |
| PipelineRun.StepsAccumulate | src/cpipe/runtime/Pipeline.cpp:698-788 | as long as nothing fails, the buffer carries the declared steps of every node already run |
| PipelineRun.StepHasProducer | src/cpipe/runtime/Pipeline.cpp:476-501 | a step an accepted edge requires is declared by some ancestor of the edge's consumer |
| PipelineRun.AncestorRunsEarlier | src/cpipe/runtime/Pipeline.cpp:542-574 | an ancestor of a node of the document runs before it, converters or not |
| PipelineRun.StepsHoldInLoop | src/cpipe/runtime/Pipeline.cpp:476-501 | when the plain loop reaches a node of an accepted pipeline, its input carries every step its incoming edges require |
| PipelineRun.StepsHoldAtEveryStart | src/cpipe/runtime/Pipeline.cpp:698-791 | the same for every interleaving: whenever the scheduler enters a node's closure, the current buffer carries every required step |
| Brent.BrentSearch.ParabolicStep | src/cpipe/nodes/wb/WbMetadata.hpp:163-187 | a step is given if and only if the denominator is positive and the vertex is usable; it goes to the vertex, or is the tolerance towards the middle when the trial would come within two tolerances of an end; with a positive denominator the last step is recorded |
| Brent.UsableQuotient | src/cpipe/nodes/wb/WbMetadata.hpp:172-176 | the three comparisons, made without dividing, hold if and only if the step is shorter than half the step before last and leads strictly inside the bracket |
| Brent.BrentSearch.NextStep | src/cpipe/nodes/wb/WbMetadata.hpp:189-197 | the parabola is taken if and only if the step before last was longer than the tolerance and the vertex is usable, otherwise the golden section of the larger side; the step it will be compared with is the last one or the larger side |
| Brent.StepToStationaryPoint | src/cpipe/nodes/wb/WbMetadata.hpp:163-187 | the parabolic step goes to the stationary point of every parabola through the three points |
| Brent.UsableVertexIsMinimum | src/cpipe/nodes/wb/WbMetadata.hpp:163-187 | for every error function and every state of the search, a usable vertex is the minimum of every parabola through the three recorded points: the parabola opens upwards although the code looks only at the sign of the denominator |
| Brent.BrentSearch.VertexIsMinimum | src/cpipe/nodes/wb/WbMetadata.hpp:163-187 | the same of the search object: in every valid state a usable vertex is the minimum |
| Brent.VertexIsNear | src/cpipe/nodes/wb/WbMetadata.hpp:163-187 | a usable vertex between the second best point and the best is at least as near to the best |
| Brent.PlanIsNear | src/cpipe/nodes/wb/WbMetadata.hpp:189-254 | whatever step is planned, the trial is a new point inside the bracket, and one between the second best point and the best is at least as near to the best; this keeps the invariant that rules out maxima |
| Brent.PlanFollowsRules | src/cpipe/nodes/wb/WbMetadata.hpp:189-254 | what is computed follows the rule: if the vertex is not used, the trial divides the larger side of the bracket at 0.3819660112501051 of its length from the best, or is one tolerance towards that side when this is shorter; if the vertex is used, is a tolerance away and two from both ends, the trial is the vertex; else it is one tolerance away, towards the middle for a vertex near an end and towards the vertex otherwise |
| Brent.OneTurn | src/cpipe/nodes/wb/WbMetadata.hpp:241-261 | a turn is decided by the state before it and the sign of a zero step |
| Brent.TrialInside | src/cpipe/nodes/wb/WbMetadata.hpp:241-253 | whatever step was chosen, the trial is a new point strictly inside the bracket |
| Brent.BrentSearch.AcceptTrial | src/cpipe/nodes/wb/WbMetadata.hpp:199-211 | the trial becomes the best and the old best an end of the bracket; the state stays valid, so the three recorded points are the best, second and third best of all points tried, as soon as three were tried |
| Brent.BrentSearch.RejectTrial | src/cpipe/nodes/wb/WbMetadata.hpp:213-231 | the trial becomes an end of the bracket; the two runners-up are still the second and third best of all points tried, and the third best, if between the other two from below, is at least as near to the best, given that the trial is |
| Brent.RunnersUpAfterReject | src/cpipe/nodes/wb/WbMetadata.hpp:213-231 | whichever of the three updates applies, the recorded runners-up are the second and third best of the points tried with the new one |
| Brent.BrentSearch.Iterate | src/cpipe/nodes/wb/WbMetadata.hpp:241-261 | stops if and only if both ends are within twice the tolerance; otherwise it makes one turn by the rule: the vertex is used exactly after a step longer than the tolerance, with a positive denominator, less than half of that step away and inside the bracket; the trial and the recorded steps are as said under PlanFollowsRules; the trial is new and inside, becomes the best or an end of the bracket, and the bracket strictly shrinks; the minimiser of a strictly unimodal function stays in it |
| Brent.MinimiserStays | src/cpipe/nodes/wb/WbMetadata.hpp:199-231 | comparing two points of a strictly unimodal function tells on which side of the worse one its minimiser lies |
| Brent.StillBracketed | src/cpipe/nodes/wb/WbMetadata.hpp:199-231 | trying a new point keeps this: all points tried differ, none is better than the best, and the best is the only one inside the bracket |
| Brent.EstimateSceneCct | src/cpipe/nodes/wb/WbMetadata.hpp:233-263 | for every error function: the search starts at 5750 in the bracket from 1500 to 10000 and makes turns by the rule of Iterate, each from the state the last one left, until the bracket is narrow or 80 are made; the best error is minimal over all points tried; the bracket's ends were tried or are the search limits; a strictly unimodal minimiser never leaves the bracket |
| Brent.OneAnswer | src/cpipe/nodes/wb/WbMetadata.hpp:233-263 | the error function and the signs of its zero steps decide the answer |
| Brent.EarlyAnswerIsClose | src/cpipe/nodes/wb/WbMetadata.hpp:243-246 | after an early stop the answer is within twice the tolerance of a strictly unimodal minimiser |
| RecordList.ManyPrinted | src/cpipe/ingest/dng_opcode/OpcodeList3.cpp:243-275 | parsing printed records gives what they mean, whatever precedes and follows them |
| RecordList.ManyReprint | src/cpipe/ingest/dng_opcode/OpcodeList3.cpp:243-275 | records that were parsed print back to exactly the bytes they came from |
| RecordList.ItemHasRecord | src/cpipe/ingest/dng_opcode/OpcodeList2.cpp:155-176 | every parsed item is the meaning of a record whose parameters are shorter than 2^32 bytes |
| OpcodeList3.ParamsRoundTrip | src/cpipe/ingest/dng_opcode/OpcodeList3.cpp:83-208 | reading printed parameters gives them back, for all five kinds |
| OpcodeList3.ParamsReprint | src/cpipe/ingest/dng_opcode/OpcodeList3.cpp:83-208 | parameters that could be read print back to the words they were read from |
| OpcodeList3.WellFormedIsMeaning | src/cpipe/ingest/dng_opcode/OpcodeList3.cpp:250-274 | an opcode is well formed if and only if it is what its own record means |
| OpcodeList3.ListRoundTrip | src/cpipe/ingest/dng_opcode/OpcodeList3.cpp:231-281 | parsing the printed form of any well-formed list returns the list, whatever bytes follow |
| OpcodeList3.NumberDecides | src/cpipe/ingest/dng_opcode/OpcodeList3.cpp:66-81 | an accepted record holds a warp exactly for number 1, a vignette for 3, a constant for 4, a bad-pixel list for 5 and bounds for 6; other numbers are accepted only when marked optional |
| Bytes.BigEndian | src/cpipe/ingest/dng_opcode/OpcodeList3.cpp:27-35 | the first byte of a word weighs most |
| Bytes.LittleEndian | src/cpipe/nodes/lens/dng_opcode_list_3_dispatch.cpp:293-331 | in the parameter blob the last byte of a word weighs most |
| OpcodeList3.ListReprint | src/cpipe/ingest/dng_opcode/OpcodeList3.cpp:231-281 | bytes that parse hold only well-formed opcodes, and reprinting ids, versions, flags and raw parameters gives exactly the consumed prefix |
| OpcodeParser.Reader.ReadU32 | src/cpipe/ingest/dng_opcode/OpcodeList3.cpp:20-46 | reads four bytes in range, the most significant first, and moves on by four |
| OpcodeParser.ParseWarpRectilinear | src/cpipe/ingest/dng_opcode/OpcodeList3.cpp:83-115 | the parameters the bytes mean, or none |
| OpcodeParser.ParseFixVignetteRadial | src/cpipe/ingest/dng_opcode/OpcodeList3.cpp:117-131 | the parameters the bytes mean, or none |
| OpcodeParser.ParseFixBadPixelsConstant | src/cpipe/ingest/dng_opcode/OpcodeList3.cpp:133-144 | the parameters the bytes mean, or none |
| OpcodeParser.ListSizeAlwaysFits | src/cpipe/ingest/dng_opcode/OpcodeList3.cpp:146-162 | the checked size of a list never overflows 64 bits, so that check never refuses |
| OpcodeParser.ParseFixBadPixelsList | src/cpipe/ingest/dng_opcode/OpcodeList3.cpp:164-195 | the parameters the bytes mean, or none; every point and rect in order |
| OpcodeParser.ParseTrimBounds | src/cpipe/ingest/dng_opcode/OpcodeList3.cpp:197-208 | the parameters the bytes mean, or none |
| OpcodeParser.ParseRecord | src/cpipe/ingest/dng_opcode/OpcodeList3.cpp:246-274 | one record: the reader ends right after it and the result is what the record means |
| OpcodeParser.Parse | src/cpipe/ingest/dng_opcode/OpcodeList3.cpp:231-281 | on bytes of any length and content: the status and opcodes that the list means, every read in range |
| Opcode3Blob.RecordKept | src/cpipe/nodes/lens/dng_opcode_list_3_dispatch.cpp:305-306 | a record written into the words is the record the kernel reads there, field by field |
| Opcode3Blob.BuildRecords | src/cpipe/nodes/lens/dng_opcode_list_3.cpp:102-151 | for every list: records and pools as the opcodes give them, offsets being the pool sizes so far cut to 32 bits |
| Opcode3Blob.Pack | src/cpipe/nodes/lens/dng_opcode_list_3.cpp:102-168 | for every list: the blob is the header, the records, the points and the rects, in that order, with counts cut to 32 bits |
| Opcode3Blob.CheckedParamBlob | src/cpipe/nodes/lens/dng_opcode_list_3_dispatch.cpp:293-331 | on blobs of any size and content: accepted if and only if the header, the records it counts and the pools they index fit, with the pool starts the records imply |
| Opcode3Blob.EndsArePoolSizes | src/cpipe/nodes/lens/dng_opcode_list_3_dispatch.cpp:309-318 | the largest slice end equals the pool size, so the second pool is found where it starts |
| Opcode3Blob.SlicesAreTheOpcodes | src/cpipe/nodes/lens/dng_opcode_list_3.cpp:126-143 | each record's slices are exactly its opcode's points and rects |
| Opcode3Blob.PackedIsAccepted | src/cpipe/nodes/lens/dng_opcode_list_3_dispatch.cpp:293-331 | every packed blob is accepted with the layout it was packed with |
| Opcode3Blob.PackedRecord | src/cpipe/nodes/lens/dng_opcode_list_3_dispatch.cpp:305-306 | the kernel reads back the record packed for each opcode |
| Opcode3Blob.PackedPools | src/cpipe/nodes/lens/dng_opcode_list_3_dispatch.cpp:326-328 | the kernel reads back both pools |
| Opcode3Blob.PackThenCheck | src/cpipe/nodes/lens/dng_opcode_list_3.cpp:102-168 | packing and then checking succeeds and finds the true layout |
| OpcodeImage.OffsetDecodes | src/cpipe/nodes/lens/dng_opcode_list_3_dispatch.cpp:34-39 | an address lies in the image and decodes to its coordinates |
| OpcodeImage.DecodeEncodes | src/cpipe/nodes/lens/dng_opcode_list_3_dispatch.cpp:34-39 | every address of the image has coordinates in range that encode back to it |
| OpcodeImage.UndistortedImage | src/cpipe/nodes/lens/dng_opcode_list_3_dispatch.cpp:41-124 | a warp whose only coefficient is a leading one keeps an image if and only if it is degenerate or every value of the image survives being read and stored |
| OpcodeImage.BicubicAtPixel | src/cpipe/nodes/lens/dng_opcode_list_3_dispatch.cpp:48-73 | a bicubic sample at a pixel is the pixel |
| OpcodeImage.FlatVignette | src/cpipe/nodes/lens/dng_opcode_list_3_dispatch.cpp:126-158 | a vignette with only zero coefficients keeps an image if and only if it is degenerate or every colour value of the image survives being read and stored |
| OpcodeLaws.WarpIsAdditive | src/cpipe/nodes/lens/dng_opcode_list_3_dispatch.cpp:104-121 | the distance of the position read from the centre is additive in the six coefficients |
| OpcodeLaws.RadialWarp | src/cpipe/nodes/lens/dng_opcode_list_3_dispatch.cpp:104-121 | without tangential coefficients the position is on the ray through the pixel, at kr0 + kr1 r^2 + kr2 r^4 + kr3 r^6 times its distance from the centre |
| OpcodeLaws.TangentialWarp | src/cpipe/nodes/lens/dng_opcode_list_3_dispatch.cpp:104-121 | without radial coefficients, for t = (kt1, kt0) and the pixel d, the position is r^2 t + 2 (t . d) d from the centre, in units of the farthest corner's distance |
| OpcodeLaws.TangentialWarpOnAxes | src/cpipe/nodes/lens/dng_opcode_list_3_dispatch.cpp:104-121 | kt0 moves a pixel of the horizontal axis by kt0 dx^2 vertically and one of the vertical axis by 3 kt0 dy^2, neither horizontally; for kt1 the axes change roles |
| OpcodeLaws.WarpedValue | src/cpipe/nodes/lens/dng_opcode_list_3_dispatch.cpp:104-121 | a warped value is the bicubic sample at that position, with the plane of its channel or the last one |
| OpcodeLaws.CentreIsAtFractions | src/cpipe/nodes/lens/dng_opcode_list_3_dispatch.cpp:96-98 | the centre is at the given fractions of the width and the height, each on its own axis |
| OpcodeLaws.DegenerateExactly | src/cpipe/nodes/lens/dng_opcode_list_3_dispatch.cpp:92-102 | which images a warp or a vignette leaves alone |
| OpcodeLaws.UnitIsFarthestCorner | src/cpipe/nodes/lens/dng_opcode_list_3_dispatch.cpp:75-83 | the unit of distance is the root of the largest squared distance of a corner from the centre |
| OpcodeLaws.NoPixelIsFarther | src/cpipe/nodes/lens/dng_opcode_list_3_dispatch.cpp:75-83 | no pixel is farther from the centre than the farthest corner, wherever the centre is |
| OpcodeLaws.VignettedValue | src/cpipe/nodes/lens/dng_opcode_list_3_dispatch.cpp:126-158 | a vignette scales the three colours of a pixel by one gain and leaves its alpha |
| OpcodeLaws.GainIsSeries | src/cpipe/nodes/lens/dng_opcode_list_3_dispatch.cpp:138-149 | the gain is 1 + k0 r^2 + k1 r^4 + k2 r^6 + k3 r^8 + k4 r^10 for the relative distance r |
| OpcodeLaws.CubicIsHermite | src/cpipe/nodes/lens/dng_opcode_list_3_dispatch.cpp:48-53 | the interpolant passes through the two inner points with the slopes of the chords between their neighbours |
| OpcodeLaws.CubicKeepsQuadratics | src/cpipe/nodes/lens/dng_opcode_list_3_dispatch.cpp:48-53 | a parabola sampled at -1, 0, 1 and 2 is given back exactly |
| OpcodeLaws.BicubicKeepsQuadratics | src/cpipe/nodes/lens/dng_opcode_list_3_dispatch.cpp:55-73 | where the sixteen samples around a position are a parabola along x times one along y, the sample is that product at the position |
| OpcodeLaws.EdgesRepeat | src/cpipe/nodes/lens/dng_opcode_list_3_dispatch.cpp:55-58 | a position outside the image reads the nearest one on its edge |
| OpcodeLaws.BorderRepeats | src/cpipe/nodes/lens/dng_opcode_list_3_dispatch.cpp:41-46 | a pixel outside the image reads the nearest one inside |
| OpcodeLaws.PatchIsMean | src/cpipe/nodes/lens/dng_opcode_list_3_dispatch.cpp:160-179 | a patched value is the mean of those of the pixels left, right, above and below that exist, or the pixel's own if none does |
| OpcodeLaws.ConstantPatches | src/cpipe/nodes/lens/dng_opcode_list_3_dispatch.cpp:192-209 | a pixel's colours, and not its alpha, are patched exactly when one of them is within 0.0001 of the constant |
| OpcodeLaws.TrimKeepsBounds | src/cpipe/nodes/lens/dng_opcode_list_3_dispatch.cpp:235-252 | pixels of the half-open rectangle are kept and all others cleared, alpha included |
| OpcodeImage.PatchWithin | src/cpipe/nodes/lens/dng_opcode_list_3_dispatch.cpp:160-179 | in an image of more than one pixel a patched value lies between the smallest and the largest neighbour; a lone pixel keeps its value |
| OpcodeImage.RectVisitsItsPixels | src/cpipe/nodes/lens/dng_opcode_list_3_dispatch.cpp:222-232 | the pixels visited for a rect are the ones it names if and only if no corner of 2^31 or more is read as negative where it matters |
| OpcodeImage.HugeRectVisitsNothing | src/cpipe/nodes/lens/dng_opcode_list_3_dispatch.cpp:222-232 | a rect whose bottom and right are 2^31 names every pixel and visits none |
| OpcodeImage.BelowSignBitIsSafe | src/cpipe/nodes/lens/dng_opcode_list_3_dispatch.cpp:222-232 | corners below 2^31 are always safe |
| OpcodeImage.BadListHasSetSemantics | src/cpipe/nodes/lens/dng_opcode_list_3_dispatch.cpp:211-233 | a channel is patched from the source image exactly when some point or rect names its pixel and it is not alpha; all else is unchanged |
| OpcodeImage.BadListIgnoresOrder | src/cpipe/nodes/lens/dng_opcode_list_3_dispatch.cpp:211-233 | lists with the same points and rects in any order and with any repeats make the same image |
| Opcode3Kernel.ApplyWarp | src/cpipe/nodes/lens/dng_opcode_list_3_dispatch.cpp:89-124 | the destination becomes the image the warp means, degenerate cases included |
| Opcode3Kernel.UnknownExactly | src/cpipe/nodes/lens/dng_opcode_list_3_dispatch.cpp:333-398 | which records are answered as unsupported: other numbers, and number 0 when it is not optional |
| Opcode3Kernel.ApplyVignette | src/cpipe/nodes/lens/dng_opcode_list_3_dispatch.cpp:126-158 | colour channels are scaled by the radial gain, alpha is copied |
| Opcode3Kernel.AverageNeighbours | src/cpipe/nodes/lens/dng_opcode_list_3_dispatch.cpp:160-179 | the mean of the neighbours that exist, or the sample itself |
| Opcode3Kernel.PatchPixel | src/cpipe/nodes/lens/dng_opcode_list_3_dispatch.cpp:181-190 | only the three colour channels of the one pixel change, and only if it is in the image |
| Opcode3Kernel.ApplyBadPixelsConstant | src/cpipe/nodes/lens/dng_opcode_list_3_dispatch.cpp:192-209 | exactly the pixels with a colour channel at the constant are patched from the source image |
| Opcode3Kernel.ApplyBadPixelsList | src/cpipe/nodes/lens/dng_opcode_list_3_dispatch.cpp:211-233 | exactly the visited pixels are patched from the source image |
| Opcode3Kernel.ApplyTrimBounds | src/cpipe/nodes/lens/dng_opcode_list_3_dispatch.cpp:235-252 | every channel outside the bounds is zero, everything inside is copied |
| Opcode3Kernel.RunRecords | src/cpipe/nodes/lens/dng_opcode_list_3_dispatch.cpp:359-392 | the loop over two swapped buffers computes the left fold of the records' effects, optional unknown records being identity; UNSUPPORTED if and only if some record is |
| Opcode3Kernel.PlaneOfChannel | src/cpipe/nodes/lens/dng_opcode_list_3_dispatch.cpp:110-113 | the plane a channel uses is the one the kernel's index picks, whatever count a record holds |
| Opcode3Kernel.Kernel | src/cpipe/nodes/lens/dng_opcode_list_3_dispatch.cpp:333-398 | on every blob and image size: BAD_INDEX if and only if the blob is not acceptable or the image is empty, otherwise the outcome of its records |
| Opcode3Kernel.RecordMeansOpcode | src/cpipe/nodes/lens/dng_opcode_list_3.cpp:111-151 | the record packed for a well-formed opcode asks for exactly what the opcode means |
| Opcode3Kernel.PackAndRun | src/cpipe/nodes/lens/dng_opcode_list_3_dispatch.cpp:333-398 | a well-formed list, packed and run on any image, is never refused, and the image is the fold of what its opcodes mean |
| OpcodeNode.ParsedIsPackable | src/cpipe/nodes/lens/dng_opcode_list_3.cpp:204-213 | a list parsed from fewer than 2^35 bytes is well formed and packing cuts none of its counts or offsets |
| OpcodeNode.Process | src/cpipe/nodes/lens/dng_opcode_list_3.cpp:180-222 | from the bytes of the tag to the image: no tag copies the image, a tag that does not parse gives the parser's status, and a tag that parses is never refused and gives the fold of what its opcodes mean |
| GainMaps.CheckedGainCount | src/cpipe/ingest/dng_opcode/OpcodeList2.cpp:53-71 | gives the number of entries if and only if no dimension is zero and the product fits 64 bits |
| GainMaps.AcceptedIsSound | src/cpipe/ingest/dng_opcode/OpcodeList2.cpp:94-142 | every accepted map has one entry per lattice point and fewer than 2^30 entries |
| GainMaps.ShapeIs | src/cpipe/ingest/dng_opcode/OpcodeList2.cpp:73-92 | which shapes are supported: plane 0 of one or any plane of four, a table of one plane, positive pitches, a finite origin and finite positive spacing |
| GainMapFormat.MapRoundTrip | src/cpipe/ingest/dng_opcode/OpcodeList2.cpp:94-142 | every sound map prints to bytes that read as the map, whatever bytes follow |
| GainMapFormat.MapReprint | src/cpipe/ingest/dng_opcode/OpcodeList2.cpp:94-142 | bytes that read as a map start with the bytes the map prints to |
| GainMapFormat.GainListRoundTrip | src/cpipe/ingest/dng_opcode/OpcodeList2.cpp:146-186 | a printed list gives its maps in order, whatever other records stand between them and whatever follows |
| GainMaps.ParsedMapsAreSound | src/cpipe/ingest/dng_opcode/OpcodeList2.cpp:146-181 | so has every map of every list that parses |
| GainMapParser.ParseGainMap | src/cpipe/ingest/dng_opcode/OpcodeList2.cpp:94-142 | on any parameter bytes: the map they mean, or the status, the size being judged before the shape |
| GainMapParser.ParseGainMaps | src/cpipe/ingest/dng_opcode/OpcodeList2.cpp:146-181 | on any bytes: the maps of the list in order, other opcodes skipped, or the status of the first refusal |
| GainKernel.ValidateGainMaps | src/cpipe/nodes/lens/shading_gainmap.cpp:76-94 | OK if and only if there is one map for all pixels or four maps with the four planes; NEED_METADATA if and only if there is none |
| GainKernel.EveryPlaneIsThere | src/cpipe/nodes/lens/shading_gainmap.cpp:86-93 | four maps with four different planes have every plane |
| GainKernel.PackGainMaps | src/cpipe/nodes/lens/shading_gainmap.cpp:96-137 | header, records with 32-bit running offsets, then the tables, as bytes |
| GainKernel.SampleAxis | src/cpipe/nodes/lens/shading_gainmap_dispatch.cpp:23-36 | both lattice lines are in range, the weight is in [0, 1), and together they are the coordinate clamped to the lattice |
| GainKernel.GainWithinTable | src/cpipe/nodes/lens/shading_gainmap_dispatch.cpp:61-73 | the gain lies between the smallest and the largest entry of the table |
| GainKernel.GainAtLatticePoint | src/cpipe/nodes/lens/shading_gainmap_dispatch.cpp:61-73 | a pixel on a lattice point gets that point's entry |
| GainKernel.GainIsBilinear | src/cpipe/nodes/lens/shading_gainmap_dispatch.cpp:23-73 | a table that is a line along its rows times a line along its columns gives that product at every pixel, at the pixel's lattice coordinates kept on the lattice |
| GainShading.CheckBlob | src/cpipe/nodes/lens/shading_gainmap_dispatch.cpp:82-109 | on any blob: the status the checks give and the view of records and gains they admit |
| GainShading.SelectMap | src/cpipe/nodes/lens/shading_gainmap_dispatch.cpp:42-59 | the only map, or the first for the pixel's plane; none if and only if there is none |
| GainShading.PlaneByGroup | src/cpipe/nodes/lens/shading_gainmap_dispatch.cpp:49-52 | a block is two groups wide and high, a group one pixel or two by two; planes 0 and 1 are above, 2 and 3 below |
| GainShading.EntryDoesNotWrap | src/cpipe/nodes/lens/shading_gainmap_dispatch.cpp:67-71 | no table index wraps 32 bits or leaves the table |
| GainShading.SampleGain | src/cpipe/nodes/lens/shading_gainmap_dispatch.cpp:61-73 | the gain is the bilinear interpolation in the first gains of the record's slice, one per lattice point |
| GainShading.ReadsFitExactly | src/cpipe/nodes/lens/shading_gainmap_dispatch.cpp:61-73 | every pixel of every image reads among the gains if and only if the record's whole lattice lies there |
| GainShading.ShadeImage | src/cpipe/nodes/lens/shading_gainmap_dispatch.cpp:111-131 | every pixel is scaled by its map's gain; NEED_METADATA if and only if some pixel has no map |
| GainShading.TotalGains | src/cpipe/nodes/lens/shading_gainmap.cpp:103-121 | the tables of sound maps together keep within 2^30 entries per map |
| GainShading.RecordHasItsTable | src/cpipe/nodes/lens/shading_gainmap.cpp:103-121 | no offset or count was cut: each record's slice of the gains is its map's table |
| GainShading.PackedIsFound | src/cpipe/nodes/lens/shading_gainmap_dispatch.cpp:82-109 | the kernel's checks pass on every packed blob and find what was packed |
| GainShading.PackAndShade | src/cpipe/nodes/lens/shading_gainmap_dispatch.cpp:75-132 | sound, complete maps are never refused, on images of any size, and every pixel is scaled by the gain of the map for its plane |
| GainNode.Process | src/cpipe/nodes/lens/shading_gainmap.cpp:149-201 | from the bytes of the tag to the image: NEED_METADATA without a colour filter, the parser's status for a list that does not parse, UNSUPPORTED for an incomplete set of maps; a copy without maps, else every pixel scaled by the gain of its plane's map and never beyond the range of the entries; nothing is written unless the status is OK |
| GainNode.ShadedWithin | src/cpipe/nodes/lens/shading_gainmap_dispatch.cpp:61-131 | no pixel is multiplied by a gain outside the range of the tables' entries |
| IccWriter.ReadTagRecords | src/cpipe/color/IccV4_4Writer.cpp:90-114 | accepted if and only if the signature, the whole table and every payload are there; the records are those of the table |
| IccWriter.ByteVector.Align4 | src/cpipe/color/IccV4_4Writer.cpp:51-55 | appends the fewest zeros that make the length a multiple of four |
| IccWriter.ByteVector.WriteU32 | src/cpipe/color/IccV4_4Writer.cpp:37-42 | overwrites four bytes, the most significant first, and nothing else |
| IccWriter.AppendPayloads | src/cpipe/color/IccV4_4Writer.cpp:169-177 | payloads are appended in order, each aligned, and the records hold their places and sizes |
| IccWriter.Bt2020Pq | src/cpipe/color/IccV4_4Writer.cpp:142-194 | for every base profile: refused if and only if its table is, otherwise the bytes of the rebuilt profile |
| IccProfile.BodyHolds | src/cpipe/color/IccV4_4Writer.cpp:169-177 | each payload is in the body exactly where its record says |
| IccProfile.BodyDisjoint | src/cpipe/color/IccV4_4Writer.cpp:169-177 | an earlier payload ends before a later one starts |
| IccProfile.ProfileIsAccepted | src/cpipe/color/IccV4_4Writer.cpp:90-114 | a profile of less than 2^32 bytes is accepted again, its size field is its length, and its tags and payloads are the ones it was made of |
| IccProfile.PayloadInBytes | src/cpipe/color/IccV4_4Writer.cpp:90-114 | the count is at byte 128, the table at 132 with signature, offset and size of four bytes each, and the payload where they say |
| IccProfile.AcceptedIsSigned | src/cpipe/color/IccV4_4Writer.cpp:90-97 | an accepted profile has the letters acsp at byte 36 |
| IccProfile.TagsAreWellPlaced | src/cpipe/color/IccV4_4Writer.cpp:169-177 | tags are on multiples of four, after the table, and do not overlap |
| IccProfile.LengthFollowsLast | src/cpipe/color/IccV4_4Writer.cpp:169-179 | the last payload is not padded: the length of the file leaves the same remainder by four as that payload's |
| IccWriter.RebuiltIsSound | src/cpipe/color/IccV4_4Writer.cpp:142-194 | whatever order ties are sorted in: the rebuilt profile is accepted, has version 4.4, sorted, aligned and disjoint tags, and exactly the kept payloads plus the two new ones |
| IccWriter.RebuiltHolds | src/cpipe/color/IccV4_4Writer.cpp:145-163 | the rebuilt profile holds every payload as often as the base, except that cicp and A2B0 are there once, with the new contents |
| IccWriter.RebuiltKeepsHeader | src/cpipe/color/IccV4_4Writer.cpp:168-185 | apart from the size and the version the header is the base's |
| IccWriter.NewTagBytes | src/cpipe/color/IccV4_4Writer.cpp:116-139 | the two new payloads, byte by byte |
| IccWriter.ArrangementIsUnique | src/cpipe/color/IccV4_4Writer.cpp:160-161 | payloads of which those under one signature are the same have one sorted arrangement |
| IccWriter.RebuildIsIdempotent | src/cpipe/color/IccV4_4Writer.cpp:142-194 | rebuilding a rebuilt profile gives the same bytes when tags kept from the base under one signature are the same |
| IccAlignment.LengthIsAlignedExactly | src/cpipe/color/IccV4_4Writer.cpp:142-194 | for every accepted base: every sort makes the rebuilt length a multiple of four if and only if each kept tag with the largest signature, if beyond cicp, has a length that is |
| IccAlignment.AlignedLength | src/cpipe/color/IccV4_4Writer.cpp:142-194 | under that condition on the base, the rebuilt length is a multiple of four whatever the sort |
| IccAlignment.UnalignedBase | src/cpipe/color/IccV4_4Writer.cpp:142-194 | an accepted base with one tag of one byte, whose rebuilt length leaves remainder one under every sort |
| IccTies.RebuildIsStableExactly | src/cpipe/color/IccV4_4Writer.cpp:142-194 | for every accepted base of which no order reaches 2^32 bytes: every sort makes rebuilding twice the same as once if and only if tags kept under one signature are the same |
| IccTies.TwoTagsAreUnstable | src/cpipe/color/IccV4_4Writer.cpp:160-161 | any two different small tags under one signature make an accepted base and a sort under which rebuilding twice gives other bytes |
| IccTies.UnstableBase | src/cpipe/color/IccV4_4Writer.cpp:160-161 | there is such a base, with tags of one byte each |
| Debounce.RunKeepsInv | src/cpipe/server/EditorServer.cpp:563-608 | every interleaving of updates, notifications, wake-ups, time and stop keeps the invariant |
| Debounce.ReleaseIsQuiet | src/cpipe/server/EditorServer.cpp:578-587 | a rerun is released only when at least 200 ms passed since the latest update |
| Debounce.UpdatesAreKept | src/cpipe/server/EditorServer.cpp:563-587 | until a stop, a rerun is pending exactly when some update is not covered by a release; only a release, which covers all, or a stop takes it away |
| Debounce.NoMoreReleasesThanUpdates | src/cpipe/server/EditorServer.cpp:563-593 | queued reruns are at most released ones, and those at most updates |
| Debounce.NothingQueuedAfterStop | src/cpipe/server/EditorServer.cpp:598-608 | once a stop returned, no run releases or queues anything any more |
| Debounce.SleeperIsWoken | src/cpipe/server/EditorServer.cpp:570-577 | a sleeping thread with work to do was notified or is about to be |
| Debounce.EveryRunReleases | src/cpipe/server/EditorServer.cpp:573-596 | every run of time, notifications and the thread without spurious wake-ups, in whatever order: with an update pending it has released exactly one rerun, which covers all updates, where it comes to rest, and at the latest after a bounded number of steps other than time |
| Debounce.EveryRunEnds | src/cpipe/server/EditorServer.cpp:573-608 | every such run after a stop takes a bounded number of steps other than time, and where it comes to rest the thread has ended |
| Debounce.EveryRunGoesToRest | src/cpipe/server/EditorServer.cpp:573-608 | every such run from every reachable state goes on to one that comes to rest, so neither result is about runs that cannot exist |
| Debounce.ReleasesArePaidFor | src/cpipe/server/EditorServer.cpp:563-587 | in every such run the releases made and the update pending, together, stay the same, and so do the updates |
| Debounce.PendingCanBeReleased | src/cpipe/server/EditorServer.cpp:573-596 | so from every reachable state a pending update can be released by time and the thread alone, without spurious wake-ups |
| Debounce.StopIsAnswered | src/cpipe/server/EditorServer.cpp:573-608 | so from every state after a stop the thread can end, without spurious wake-ups |
| Debounce.BusyIsNeverStuck | src/cpipe/server/EditorServer.cpp:573-596 | with an update pending, the thread or its notification can move unless a deadline is still ahead, so only time can be missing |
| Debounce.QueueMayFollowAnUpdate | src/cpipe/server/EditorServer.cpp:587-593 | a run that queues a rerun in the millisecond of the latest update: queueing happens after the lock is dropped |
| Debounce.QueueIsQuiet | src/cpipe/server/EditorServer.cpp:587-593 | in every reachable state about to queue, stopped or not: if no update came since the release, 200 ms passed since the latest one; and before 200 ms passed since the release, only then |
| Remosaic.Weight | src/cpipe/nodes/demosaic/demosaic_quad_bayer_remosaic_generator.cpp:39-50 | at most 1024, and positive exactly for samples of the pixel's new colour |
| Remosaic.SumsFit | src/cpipe/nodes/demosaic/demosaic_quad_bayer_remosaic_generator.cpp:35-58 | neither 32-bit sum overflows, nor the sum with its rounding term |
| Remosaic.Average | src/cpipe/nodes/demosaic/demosaic_quad_bayer_remosaic_generator.cpp:35-58 | the loop in 32-bit arithmetic computes the rounded weighted mean, or zero without any weight |
| Remosaic.WeightFavoursFlatAndNear | src/cpipe/nodes/demosaic/demosaic_quad_bayer_remosaic_generator.cpp:39-50 | a tap of the right colour weighs 65536 over a penalty, rounded down but at least one; the penalty is 64 plus the contrast across and down at the tap plus 16 for every column and row to the pixel |
| Remosaic.AverageWithin | src/cpipe/nodes/demosaic/demosaic_quad_bayer_remosaic_generator.cpp:56-58 | the result lies between the smallest and largest weighted sample and is the integer nearest to the weighted mean |
| Remosaic.ColorIsFound | src/cpipe/nodes/demosaic/demosaic_quad_bayer_remosaic_generator.cpp:26-50 | on every image of at least 3x3, wherever it starts, every pixel finds a sample of its colour |
| Remosaic.FindsByPlace | src/cpipe/nodes/demosaic/demosaic_quad_bayer_remosaic_generator.cpp:26-50 | a pixel finds a sample of its colour if and only if its parity goes with the halves of four that the two axes hold |
| Remosaic.ColorsAreFoundExactly | src/cpipe/nodes/demosaic/demosaic_quad_bayer_remosaic_generator.cpp:26-50 | every pixel finds a sample of its colour if and only if a condition on the place and size of the image holds: both axes hold both halves of a group of four, or one does and the other is a single line whose parity goes with its half, or the image is one pixel whose old and new colours agree |
| Remosaic.TwoByTwoFindsNothing | src/cpipe/nodes/demosaic/demosaic_quad_bayer_remosaic_generator.cpp:26-50 | in a 2x2 image at the origin the pixel at (1, 1) finds no sample of its colour, and becomes zero |
| Remosaic.RemosaicIsSound | src/cpipe/nodes/demosaic/demosaic_quad_bayer_remosaic_generator.cpp:26-58 | on every image, of any size and place: the result lies in the range of the same-colour samples of the clamped window, or is zero where the pixel's parity and the halves on the two axes leave none |
| Lut3d.Cell | src/cpipe/nodes/color/lut3d_generator.cpp:59-64 | the cell and its far corner are both in the table |
| Lut3d.Fraction | src/cpipe/nodes/color/lut3d_generator.cpp:65-67 | the fraction is in [0, 1] and with the cell gives the scaled coordinate back |
| Lut3d.IndexInTable | src/cpipe/nodes/color/lut3d_generator.cpp:83-86 | every index is below the table's size |
| Lut3d.IndexStrides | src/cpipe/nodes/color/lut3d_generator.cpp:83-86 | a step in blue moves one entry on, in green a row, in red a slice |
| Lut3d.SharesAddUp | src/cpipe/nodes/color/lut3d_generator.cpp:100-115 | the corner shares are not negative and add up to one |
| Lut3d.TetrahedralIsMix | src/cpipe/nodes/color/lut3d_generator.cpp:88-116 | tetrahedral interpolation is the mix of the corners by one symmetric formula of shares, and equals every case whose guard holds, so ties agree |
| Lut3d.TetrahedralWithin | src/cpipe/nodes/color/lut3d_generator.cpp:88-116 | the result lies in the range of the cell's corners |
| Lut3d.TrilinearWithin | src/cpipe/nodes/color/lut3d_generator.cpp:118-137 | the result lies in the range of the cell's corners |
| Lut3d.TrilinearAtCorners | src/cpipe/nodes/color/lut3d_generator.cpp:118-137 | at each corner of the cell the result is that corner |
| Lut3d.TrilinearIsEven | src/cpipe/nodes/color/lut3d_generator.cpp:118-137 | along each axis the result goes evenly from one face of the cell to the other; with the corners this decides it |
| Lut3d.AffineLookup | src/cpipe/nodes/color/lut3d_generator.cpp:52-137 | on an affine table both interpolations compute the affine function at every colour |
| Lut3d.InterpolateWithin | src/cpipe/nodes/color/lut3d_generator.cpp:52-137 | either interpolation of any colour stays in the range of the table |
| Lut3d.LookupNeedsNoClamp | src/cpipe/nodes/color/lut3d_generator.cpp:70-75 | a table of colours gives colours, so the final clamp changes nothing |

## Left out

- JSON parsing, schema validation and parameter checking: a document is already parsed, and whether a node's parameters are valid is a field of it.
- Files, sockets, the HTTP and WebSocket plumbing, logging and tracing.
- Vulkan, Halide, lcms2, Taskflow and other libraries: the executor is any order of atomic steps, and the base ICC profile is any byte string.
- Rounding, infinities and not-a-number values of floating point: arithmetic is over the reals.
- `std::sort` in the ICC writer: any function that arranges payloads by signature, with ties in any order, passed as a parameter.
- Buffer strides and the copying of images in and out of runtime buffers: images are dense.
- Memory that cannot be allocated, such as a vector reserved for a count read from a file.
- Sizes in bytes of a pipeline's input layout: the value of `size_bytes` is a field of the layout.
- The other demosaic, denoise, tone and sharpen kernels: formulas without state, easy next to the rest.
- The colour-temperature error function itself and the weights made from the temperature found: the search is proved for every error function.
- wb_dual_illuminant.cpp, which repeats the same Brent search.
- Starting the debouncer again after a stop, and updates that arrive before its thread is started.
- IccWriter.RebuildIsIdempotent: asks that tags kept under one signature are the same, because otherwise some sort breaks it (IccTies.RebuildIsStableExactly).
- IccWriter.RebuiltIsSound: asks for less than 2^32 bytes, because offsets and sizes are 32-bit fields.
- OpcodeNode.Process: asks for a tag of fewer than 2^35 bytes, because the blob's counts and offsets are 32-bit fields; a tag's own byte count is a 32-bit field too.
- GainShading.ShadeImage: asks that every record's lattice, of fewer than 2^32 points at distances other than zero, lies in the gains, because the kernel indexes and divides without a check and reads outside them otherwise (GainShading.ReadsFitExactly); packed blobs always meet this.
- IccTies.RebuildIsStableExactly: asks that no order of the tags reaches 2^32 bytes, because offsets and sizes are 32-bit fields.
- The calibration record of a shaded buffer: whether it has a colour filter, and which, is a parameter.
