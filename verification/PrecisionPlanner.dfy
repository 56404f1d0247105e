/** Insertion of precision converters on edges whose ends share no precision. */
module PrecisionPlanner {
  import opened Options
  import opened Status
  import opened Manifest

  datatype Params = Given(json: string) | TargetFormat(format: string)

  datatype PlanNode = PlanNode(id: string, descriptor: Descriptor, params: Params, implicit: bool)

  datatype PlanEdge = PlanEdge(from: nat, to: nat, fromPort: string, toPort: string)

  datatype PrecisionPlan = PrecisionPlan(nodes: seq<PlanNode>, edges: seq<PlanEdge>, inserted: seq<nat>)

  // ---------------------------------------------------------------- one edge

  predicate Intersects(lhs: seq<string>, rhs: seq<string>)
  {
    lhs == [] || rhs == [] || exists item :: item in lhs && item in rhs
  }

  /** A port that names no precision suits every other; two that do must name one in common. */
  lemma IntersectsMeans(lhs: seq<string>, rhs: seq<string>)
    ensures Intersects(lhs, []) && Intersects([], rhs)
    ensures lhs != [] && rhs != [] ==>
      (Intersects(lhs, rhs) <==> exists i, j :: 0 <= i < |lhs| && 0 <= j < |rhs| && lhs[i] == rhs[j])
  {
    if i, j :| 0 <= i < |lhs| && 0 <= j < |rhs| && lhs[i] == rhs[j] {
      assert lhs[i] in lhs && lhs[i] in rhs;
    }
  }

  function FormatFromCaps(channels: seq<string>, precisions: seq<string>): (format: Option<string>)
  {
    if channels == ["r"] && precisions == ["u16"] then Some("R16_UINT")
    else if channels == ["r"] && precisions == ["f32"] then Some("R32_SFLOAT")
    else if channels == ["rgba"] && precisions == ["f16"] then Some("R16G16B16A16_SFLOAT")
    else if channels == ["rgba"] && precisions == ["u8"] then Some("R8G8B8A8_UNORM")
    else if channels == ["rgba"] && precisions == ["u16"] then Some("R16G16B16A16_UNORM")
    else None
  }

  predicate DirectConversionSupported(from: string, to: string)
  {
    || (from == "R16_UINT" && to == "R32_SFLOAT")
    || (from == "R32_SFLOAT" && to == "R16G16B16A16_SFLOAT")
    || (from == "R16G16B16A16_SFLOAT" && to == "R8G8B8A8_UNORM")
    || (from == "R16G16B16A16_SFLOAT" && to == "R16G16B16A16_UNORM")
  }

  predicate InRange(nodes: seq<PlanNode>, e: PlanEdge)
  {
    e.from < |nodes| && e.to < |nodes|
  }

  /** The two ends share a precision, or one end names none. */
  predicate Agrees(nodes: seq<PlanNode>, e: PlanEdge)
    requires InRange(nodes, e)
  {
    Intersects(Precisions(nodes[e.from].descriptor, Out, e.fromPort), Precisions(nodes[e.to].descriptor, In, e.toPort))
  }

  function FromFormat(nodes: seq<PlanNode>, e: PlanEdge): Option<string>
    requires InRange(nodes, e)
  {
    var d := nodes[e.from].descriptor;
    FormatFromCaps(Channels(d, Out, e.fromPort), Precisions(d, Out, e.fromPort))
  }

  function ToFormat(nodes: seq<PlanNode>, e: PlanEdge): Option<string>
    requires InRange(nodes, e)
  {
    var d := nodes[e.to].descriptor;
    FormatFromCaps(Channels(d, In, e.toPort), Precisions(d, In, e.toPort))
  }

  predicate Convertible(nodes: seq<PlanNode>, e: PlanEdge)
    requires InRange(nodes, e)
  {
    var from, to := FromFormat(nodes, e), ToFormat(nodes, e);
    from.Some? && to.Some? && DirectConversionSupported(from.value, to.value)
  }

  /** The edge can be kept or given a converter. */
  predicate Plannable(nodes: seq<PlanNode>, converter: Option<Descriptor>, e: PlanEdge)
  {
    InRange(nodes, e) && (Agrees(nodes, e) || (Convertible(nodes, e) && converter.Some?))
  }

  predicate AllPlannable(nodes: seq<PlanNode>, converter: Option<Descriptor>, edges: seq<PlanEdge>)
  {
    forall k :: 0 <= k < |edges| ==> Plannable(nodes, converter, edges[k])
  }

  // ---------------------------------------------------------------- what a plan is for

  /** The format of the port the edge leaves from, if its channels and precisions have one. */
  predicate Gives(nodes: seq<PlanNode>, e: PlanEdge, format: string)
  {
    e.from < |nodes| &&
    FormatFromCaps(Channels(nodes[e.from].descriptor, Out, e.fromPort),
                   Precisions(nodes[e.from].descriptor, Out, e.fromPort)) == Some(format)
  }

  /** The format of the port the edge enters. */
  predicate Takes(nodes: seq<PlanNode>, e: PlanEdge, format: string)
  {
    e.to < |nodes| &&
    FormatFromCaps(Channels(nodes[e.to].descriptor, In, e.toPort),
                   Precisions(nodes[e.to].descriptor, In, e.toPort)) == Some(format)
  }

  /** Some precision suits both the port that edge `a` leaves from and the port that edge `b` enters. */
  predicate Shared(nodes: seq<PlanNode>, a: PlanEdge, b: PlanEdge)
  {
    a.from < |nodes| && b.to < |nodes| &&
    Intersects(Precisions(nodes[a.from].descriptor, Out, a.fromPort), Precisions(nodes[b.to].descriptor, In, b.toPort))
  }

  /** Two edges through an inserted node: it is set to the format that the consumer takes, the format it is
      given converts to that directly, and the producer and the consumer share no precision. */
  ghost predicate ConvertsBetween(nodes: seq<PlanNode>, a: PlanEdge, b: PlanEdge)
  {
    && a.to == b.from < |nodes| && !Shared(nodes, a, b)
    && exists given, taken :: Gives(nodes, a, given) && Takes(nodes, b, taken) &&
         DirectConversionSupported(given, taken) && nodes[b.from].params == TargetFormat(taken)
  }

  /** What every edge of a plan over n original nodes keeps: its ends share a precision, or it is one
      of the two edges through a converter between two original nodes. */
  ghost predicate Fits(n: nat, plan: PrecisionPlan, f: PlanEdge)
  {
    if f.from < n && f.to < n then Shared(plan.nodes, f, f)
    else if f.to < n then exists a :: a in plan.edges && a.from < n && ConvertsBetween(plan.nodes, a, f)
    else f.from < n && exists b :: b in plan.edges && b.to < n && ConvertsBetween(plan.nodes, f, b)
  }

  ghost predicate AllFit(n: nat, plan: PrecisionPlan)
  {
    && n <= |plan.nodes|
    && forall f :: f in plan.edges ==> InRange(plan.nodes, f) && Fits(n, plan, f)
  }

  /** Which edges are refused, in terms of the two ports: those that leave the graph, and those whose ports
      share no precision and between whose formats there is no direct conversion, or no converter for it. */
  lemma PlannableByPorts(nodes: seq<PlanNode>, converter: Option<Descriptor>, e: PlanEdge)
    ensures Plannable(nodes, converter, e) <==>
            InRange(nodes, e) && (Shared(nodes, e, e) || (converter.Some? && DirectlyConvertible(nodes, e)))
  {
    if Plannable(nodes, converter, e) && !Agrees(nodes, e) {
      assert Gives(nodes, e, FromFormat(nodes, e).value) && Takes(nodes, e, ToFormat(nodes, e).value);
    }
  }

  ghost predicate DirectlyConvertible(nodes: seq<PlanNode>, e: PlanEdge)
  {
    exists given, taken ::
      Gives(nodes, e, given) && Takes(nodes, e, taken) && DirectConversionSupported(given, taken)
  }

  // ---------------------------------------------------------------- format names

  function Upper(c: char): char
  {
    if 'a' <= c <= 'z' then c - 'a' + 'A' else c
  }

  /** How a sample is stored: floating point, a plain integer in one channel, a fraction in several. */
  function Storage(kind: char, channels: nat): string
  {
    if kind == 'f' then "_SFLOAT" else if channels == 1 then "_UINT" else "_UNORM"
  }

  /** Each channel's letter in upper case followed by the width, then the storage. */
  function Spelled(channels: string, kind: char, width: string): string
    requires |channels| == 1 || |channels| == 4
  {
    (if |channels| == 1 then [Upper(channels[0])] + width
     else [Upper(channels[0])] + width + [Upper(channels[1])] + width +
          [Upper(channels[2])] + width + [Upper(channels[3])] + width)
    + Storage(kind, |channels|)
  }

  ghost predicate Spells(channels: seq<string>, precisions: seq<string>, letters: string, kind: char, width: string)
  {
    && (|letters| == 1 || |letters| == 4) && channels == [letters] && precisions == [[kind] + width]
    && FormatFromCaps(channels, precisions) == Some(Spelled(letters, kind, width))
  }

  /** A format's name spells the channels and the precision it stands for. */
  lemma FormatSpellsCaps(channels: seq<string>, precisions: seq<string>)
    requires FormatFromCaps(channels, precisions).Some?
    ensures exists letters, kind, width :: Spells(channels, precisions, letters, kind, width)
  {
    if channels == ["r"] {
      OneChannelSpelled(precisions);
    } else {
      FourChannelsSpelled(precisions);
    }
  }

  lemma OneChannelSpelled(precisions: seq<string>)
    requires precisions == ["u16"] || precisions == ["f32"]
    ensures exists letters, kind, width :: Spells(["r"], precisions, letters, kind, width)
  {
    if precisions == ["u16"] {
      assert ['u'] + "16" == "u16" && Spelled("r", 'u', "16") == "R16_UINT";
      assert Spells(["r"], precisions, "r", 'u', "16");
    } else {
      assert ['f'] + "32" == "f32" && Spelled("r", 'f', "32") == "R32_SFLOAT";
      assert Spells(["r"], precisions, "r", 'f', "32");
    }
  }

  lemma FourChannelsSpelled(precisions: seq<string>)
    requires precisions == ["f16"] || precisions == ["u8"] || precisions == ["u16"]
    ensures exists letters, kind, width :: Spells(["rgba"], precisions, letters, kind, width)
  {
    FloatLanes();
    NarrowLanes();
    WideLanes();
    if precisions == ["f16"] {
      assert ['f'] + "16" == "f16";
      assert Spells(["rgba"], precisions, "rgba", 'f', "16");
    } else if precisions == ["u8"] {
      assert ['u'] + "8" == "u8";
      assert Spells(["rgba"], precisions, "rgba", 'u', "8");
    } else {
      assert ['u'] + "16" == "u16";
      assert Spells(["rgba"], precisions, "rgba", 'u', "16");
    }
  }

  lemma FloatLanes()
    ensures Spelled("rgba", 'f', "16") == "R16G16B16A16_SFLOAT"
  {
  }

  lemma NarrowLanes()
    ensures Spelled("rgba", 'u', "8") == "R8G8B8A8_UNORM"
  {
  }

  lemma WideLanes()
    ensures Spelled("rgba", 'u', "16") == "R16G16B16A16_UNORM"
  {
  }

  /** One channel goes from integers to floats to four half-float channels, and these to eight or sixteen bits. */
  lemma ConversionsAre(given: string, taken: string)
    ensures DirectConversionSupported(given, taken) <==>
      (given, taken) in {("R16_UINT", "R32_SFLOAT"), ("R32_SFLOAT", "R16G16B16A16_SFLOAT"),
                         ("R16G16B16A16_SFLOAT", "R8G8B8A8_UNORM"), ("R16G16B16A16_SFLOAT", "R16G16B16A16_UNORM")}
  {
  }

  /** A direct conversion is between two known formats, and is not undone by another. */
  lemma ConversionsAreOneWay(given: string, taken: string)
    requires DirectConversionSupported(given, taken)
    ensures !DirectConversionSupported(taken, given)
    ensures exists channels, precisions :: FormatFromCaps(channels, precisions) == Some(given)
    ensures exists channels, precisions :: FormatFromCaps(channels, precisions) == Some(taken)
  {
    assert FormatFromCaps(["r"], ["u16"]).Some? && FormatFromCaps(["r"], ["f32"]).Some?;
    assert FormatFromCaps(["rgba"], ["f16"]).Some? && FormatFromCaps(["rgba"], ["u8"]).Some?;
    assert FormatFromCaps(["rgba"], ["u16"]).Some?;
  }

  // ---------------------------------------------------------------- ids

  function Digit(d: nat): (c: char)
    requires d < 10
    ensures c != '_'
  {
    ['0', '1', '2', '3', '4', '5', '6', '7', '8', '9'][d]
  }

  function ToString(k: nat): (s: string)
    ensures s != [] && '_' !in s
  {
    if k < 10 then [Digit(k)] else ToString(k / 10) + [Digit(k % 10)]
  }

  function ConverterId(from: nat, to: nat, sequence: nat): (id: string)
  {
    "__precision_convert_" + ToString(from) + "_" + ToString(to) + "_" + ToString(sequence)
  }

  ghost function Value(s: string): (k: nat)
  {
    if s == [] then 0
    else Value(s[..|s| - 1]) * 10 + if '0' <= s[|s| - 1] <= '9' then s[|s| - 1] as int - '0' as int else 0
  }

  lemma {:induction false} ValueOfToString(k: nat)
    ensures Value(ToString(k)) == k
  {
    var s := ToString(k);
    if k < 10 {
      assert s[..0] == [];
    } else {
      ValueOfToString(k / 10);
      assert s[..|s| - 1] == ToString(k / 10);
    }
  }

  /** What follows the last underscore. */
  ghost function Tail(s: string): (tail: string)
  {
    if s == [] || s[|s| - 1] == '_' then [] else Tail(s[..|s| - 1]) + [s[|s| - 1]]
  }

  lemma {:induction false} TailIsSequence(prefix: string, s: string)
    requires '_' !in s
    ensures Tail(prefix + "_" + s) == s
  {
    var whole := prefix + "_" + s;
    if s != [] {
      var front := s[..|s| - 1];
      TailIsSequence(prefix, front);
      assert whole[..|whole| - 1] == prefix + "_" + front;
      assert s == front + [s[|s| - 1]];
    }
  }

  lemma ConverterIdsDiffer(from: nat, to: nat, i: nat, from': nat, to': nat, j: nat)
    requires i != j
    ensures ConverterId(from, to, i) != ConverterId(from', to', j)
  {
    ConverterIdSequence(from, to, i);
    ConverterIdSequence(from', to', j);
  }

  /** The sequence number can be read back from a converter's id. */
  lemma ConverterIdSequence(from: nat, to: nat, sequence: nat)
    ensures Value(Tail(ConverterId(from, to, sequence))) == sequence
  {
    TailIsSequence("__precision_convert_" + ToString(from) + "_" + ToString(to), ToString(sequence));
    ValueOfToString(sequence);
  }

  // ---------------------------------------------------------------- the rewrite

  /** How many of the first k edges get a converter. */
  ghost function Inserted(nodes: seq<PlanNode>, edges: seq<PlanEdge>, k: nat): (count: nat)
    requires k <= |edges|
    ensures count <= k
  {
    if k == 0 then 0
    else Inserted(nodes, edges, k - 1) + if Converted(nodes, edges, k - 1) then 1 else 0
  }

  ghost predicate Converted(nodes: seq<PlanNode>, edges: seq<PlanEdge>, k: nat)
    requires k < |edges|
  {
    InRange(nodes, edges[k]) && !Agrees(nodes, edges[k])
  }

  /** The node index of the converter put on edge k. */
  ghost function ConverterAt(nodes: seq<PlanNode>, edges: seq<PlanEdge>, k: nat): (c: nat)
    requires k < |edges|
    ensures c >= |nodes|
  {
    |nodes| + Inserted(nodes, edges, k)
  }

  ghost function Before(nodes: seq<PlanNode>, edges: seq<PlanEdge>, k: nat): PlanEdge
    requires k < |edges|
  {
    PlanEdge(edges[k].from, ConverterAt(nodes, edges, k), edges[k].fromPort, "in")
  }

  ghost function After(nodes: seq<PlanNode>, edges: seq<PlanEdge>, k: nat): PlanEdge
    requires k < |edges|
  {
    PlanEdge(ConverterAt(nodes, edges, k), edges[k].to, "out", edges[k].toPort)
  }

  ghost function ConverterNode(nodes: seq<PlanNode>, edges: seq<PlanEdge>, descriptor: Descriptor, k: nat): PlanNode
    requires k < |edges| && InRange(nodes, edges[k]) && ToFormat(nodes, edges[k]).Some?
  {
    PlanNode(ConverterId(edges[k].from, edges[k].to, Inserted(nodes, edges, k)), descriptor,
             TargetFormat(ToFormat(nodes, edges[k]).value), true)
  }

  /** The plan after the first k edges. */
  ghost predicate PlannedUpTo(nodes: seq<PlanNode>, edges: seq<PlanEdge>, converter: Option<Descriptor>, k: nat,
                              plan: PrecisionPlan)
    requires k <= |edges|
  {
    && AllPlannable(nodes, converter, edges[..k])
    && |plan.nodes| == |nodes| + Inserted(nodes, edges, k) && plan.nodes[..|nodes|] == nodes
    && |plan.inserted| == Inserted(nodes, edges, k)
    && (forall i :: 0 <= i < |plan.inserted| ==> plan.inserted[i] == |nodes| + i)
    && (forall j :: 0 <= j < k && Converted(nodes, edges, j) ==>
          ConverterAt(nodes, edges, j) < |plan.nodes| && Convertible(nodes, edges[j]) && converter.Some? &&
          plan.nodes[ConverterAt(nodes, edges, j)] == ConverterNode(nodes, edges, converter.value, j))
    && plan.edges == PlannedEdges(nodes, edges, k)
  }

  ghost function PlannedEdges(nodes: seq<PlanNode>, edges: seq<PlanEdge>, k: nat): (planned: seq<PlanEdge>)
    requires k <= |edges|
  {
    if k == 0 then []
    else
      PlannedEdges(nodes, edges, k - 1) +
      if Converted(nodes, edges, k - 1) then [Before(nodes, edges, k - 1), After(nodes, edges, k - 1)]
        else [edges[k - 1]]
  }

  /** Every converter sits on some edge. */
  lemma {:induction false} ConverterHasEdge(nodes: seq<PlanNode>, edges: seq<PlanEdge>, k: nat, c: nat)
    returns (j: nat)
    requires k <= |edges| && |nodes| <= c < |nodes| + Inserted(nodes, edges, k)
    ensures j < k && Converted(nodes, edges, j) && ConverterAt(nodes, edges, j) == c
  {
    if c < |nodes| + Inserted(nodes, edges, k - 1) {
      j := ConverterHasEdge(nodes, edges, k - 1, c);
    } else {
      j := k - 1;
    }
  }

  /** The edges decide the plan. */
  lemma OnePlan(nodes: seq<PlanNode>, edges: seq<PlanEdge>, converter: Option<Descriptor>, k: nat, plan: PrecisionPlan,
                other: PrecisionPlan)
    requires k <= |edges| && PlannedUpTo(nodes, edges, converter, k, plan)
    requires PlannedUpTo(nodes, edges, converter, k, other)
    ensures plan == other
  {
    forall c | 0 <= c < |plan.nodes| ensures plan.nodes[c] == other.nodes[c] {
      if c < |nodes| {
        assert plan.nodes[..|nodes|][c] == other.nodes[..|nodes|][c];
      } else {
        var j := ConverterHasEdge(nodes, edges, k, c);
      }
    }
    assert plan.nodes == other.nodes;
    assert plan.inserted == other.inserted;
  }

  lemma KeepStep(nodes: seq<PlanNode>, edges: seq<PlanEdge>, converter: Option<Descriptor>, k: nat, plan: PrecisionPlan)
    requires k < |edges| && PlannedUpTo(nodes, edges, converter, k, plan)
    requires InRange(nodes, edges[k]) && Agrees(nodes, edges[k])
    ensures PlannedUpTo(nodes, edges, converter, k + 1, plan.(edges := plan.edges + [edges[k]]))
  {
    assert edges[..k + 1] == edges[..k] + [edges[k]];
  }

  lemma ConvertStep(nodes: seq<PlanNode>, edges: seq<PlanEdge>, converter: Option<Descriptor>, k: nat,
                    plan: PrecisionPlan)
    requires k < |edges| && PlannedUpTo(nodes, edges, converter, k, plan)
    requires InRange(nodes, edges[k]) && !Agrees(nodes, edges[k]) && Convertible(nodes, edges[k]) && converter.Some?
    ensures PlannedUpTo(nodes, edges, converter, k + 1,
                        PrecisionPlan(plan.nodes + [ConverterNode(nodes, edges, converter.value, k)],
                                      plan.edges + [Before(nodes, edges, k), After(nodes, edges, k)],
                                      plan.inserted + [|plan.nodes|]))
  {
    assert edges[..k + 1] == edges[..k] + [edges[k]];
    var nodes' := plan.nodes + [ConverterNode(nodes, edges, converter.value, k)];
    assert nodes'[..|nodes|] == plan.nodes[..|nodes|];
  }

  lemma KeepFits(n: nat, plan: PrecisionPlan, e: PlanEdge)
    requires AllFit(n, plan) && e.from < n && e.to < n && Shared(plan.nodes, e, e)
    ensures AllFit(n, plan.(edges := plan.edges + [e]))
  {
    var longer := plan.(edges := plan.edges + [e]);
    forall f | f in longer.edges ensures InRange(longer.nodes, f) && Fits(n, longer, f) {
      if f in plan.edges {
        StillFits(n, plan, longer, f);
      }
    }
  }

  lemma ConvertFits(n: nat, plan: PrecisionPlan, node: PlanNode, a: PlanEdge, b: PlanEdge)
    requires AllFit(n, plan) && a.from < n && b.to < n && a.to == |plan.nodes|
    requires ConvertsBetween(plan.nodes + [node], a, b)
    ensures AllFit(n, PrecisionPlan(plan.nodes + [node], plan.edges + [a, b], plan.inserted + [|plan.nodes|]))
  {
    var longer := PrecisionPlan(plan.nodes + [node], plan.edges + [a, b], plan.inserted + [|plan.nodes|]);
    forall f | f in longer.edges ensures InRange(longer.nodes, f) && Fits(n, longer, f) {
      if f in plan.edges {
        StillFits(n, plan, longer, f);
      } else {
        assert a in longer.edges && b in longer.edges;
      }
    }
  }

  lemma StillFits(n: nat, plan: PrecisionPlan, longer: PrecisionPlan, f: PlanEdge)
    requires n <= |plan.nodes| && InRange(plan.nodes, f) && Fits(n, plan, f)
    requires plan.nodes <= longer.nodes && plan.edges <= longer.edges
    requires forall g :: g in plan.edges ==> InRange(plan.nodes, g)
    ensures Fits(n, longer, f)
  {
    if f.from >= n {
      var a :| a in plan.edges && a.from < n && ConvertsBetween(plan.nodes, a, f);
      StillConverts(plan.nodes, longer.nodes, a, f);
      assert a in longer.edges;
    } else if f.to >= n {
      var b :| b in plan.edges && b.to < n && ConvertsBetween(plan.nodes, f, b);
      StillConverts(plan.nodes, longer.nodes, f, b);
      assert b in longer.edges;
    }
  }

  lemma StillConverts(nodes: seq<PlanNode>, longer: seq<PlanNode>, a: PlanEdge, b: PlanEdge)
    requires nodes <= longer && InRange(nodes, a) && InRange(nodes, b) && ConvertsBetween(nodes, a, b)
    ensures ConvertsBetween(longer, a, b)
  {
    var given, taken :| Gives(nodes, a, given) && Takes(nodes, b, taken) &&
      DirectConversionSupported(given, taken) && nodes[b.from].params == TargetFormat(taken);
    assert Gives(longer, a, given) && Takes(longer, b, taken);
  }

  ghost predicate FirstBad(nodes: seq<PlanNode>, converter: Option<Descriptor>, edges: seq<PlanEdge>, k: nat)
    requires k < |edges|
  {
    AllPlannable(nodes, converter, edges[..k]) && !Plannable(nodes, converter, edges[k])
  }

  /** Plan one more edge: keep it, put a converter on it, or refuse it. */
  method PlanEdgeAt(nodes: seq<PlanNode>, edges: seq<PlanEdge>, converter: Option<Descriptor>, k: nat,
                    plan: PrecisionPlan)
    returns (status: Status, longer: PrecisionPlan)
    requires k < |edges| && PlannedUpTo(nodes, edges, converter, k, plan) && AllFit(|nodes|, plan)
    ensures status == OK ==> PlannedUpTo(nodes, edges, converter, k + 1, longer) && AllFit(|nodes|, longer)
    ensures status != OK ==>
      FirstBad(nodes, converter, edges, k) && status == if InRange(nodes, edges[k]) then BAD_PRECISION else BAD_INDEX
  {
    var edge := edges[k];
    if edge.from >= |nodes| || edge.to >= |nodes| {
      return BAD_INDEX, plan;
    }
    if Agrees(nodes, edge) {
      KeepStep(nodes, edges, converter, k, plan);
      SamePorts(nodes, plan.nodes, edge);
      KeepFits(|nodes|, plan, edge);
      return OK, plan.(edges := plan.edges + [edge]);
    }
    if !Convertible(nodes, edge) {
      return BAD_PRECISION, plan;
    }
    if converter.None? {
      return BAD_PRECISION, plan;
    }
    longer := AddConverter(nodes, edges, converter, k, plan);
    status := OK;
  }

  /** Append a converter and the two edges that replace the one it sits on. */
  method AddConverter(nodes: seq<PlanNode>, edges: seq<PlanEdge>, converter: Option<Descriptor>, k: nat,
                      plan: PrecisionPlan)
    returns (longer: PrecisionPlan)
    requires k < |edges| && PlannedUpTo(nodes, edges, converter, k, plan) && AllFit(|nodes|, plan)
    requires InRange(nodes, edges[k]) && !Agrees(nodes, edges[k]) && Convertible(nodes, edges[k]) && converter.Some?
    ensures PlannedUpTo(nodes, edges, converter, k + 1, longer) && AllFit(|nodes|, longer)
  {
    ConvertStep(nodes, edges, converter, k, plan);
    var edge, index, sequence := edges[k], |plan.nodes|, |plan.inserted|;
    var node := PlanNode(ConverterId(edge.from, edge.to, sequence), converter.value,
                         TargetFormat(ToFormat(nodes, edge).value), true);
    longer := PrecisionPlan(plan.nodes + [node],
                            plan.edges + [PlanEdge(edge.from, index, edge.fromPort, "in"),
                                          PlanEdge(index, edge.to, "out", edge.toPort)],
                            plan.inserted + [index]);
    PutBetween(nodes, plan.nodes, edge, node);
    ConvertFits(|nodes|, plan, node, PlanEdge(edge.from, index, edge.fromPort, "in"),
                PlanEdge(index, edge.to, "out", edge.toPort));
  }

  lemma SamePorts(nodes: seq<PlanNode>, longer: seq<PlanNode>, e: PlanEdge)
    requires |nodes| <= |longer| && longer[..|nodes|] == nodes && InRange(nodes, e)
    ensures Shared(longer, e, e) <==> Agrees(nodes, e)
  {
    assert longer[e.from] == longer[..|nodes|][e.from] && longer[e.to] == longer[..|nodes|][e.to];
  }

  /** A converter set to the consumer's format converts between the two ends of the edge it is put on. */
  lemma PutBetween(nodes: seq<PlanNode>, before: seq<PlanNode>, e: PlanEdge, node: PlanNode)
    requires |nodes| <= |before| && before[..|nodes|] == nodes
    requires InRange(nodes, e) && !Agrees(nodes, e) && Convertible(nodes, e)
    requires Takes(nodes, e, ToFormat(nodes, e).value) && node.params == TargetFormat(ToFormat(nodes, e).value)
    ensures ConvertsBetween(before + [node], PlanEdge(e.from, |before|, e.fromPort, "in"),
                            PlanEdge(|before|, e.to, "out", e.toPort))
  {
    var after := before + [node];
    var a, b := PlanEdge(e.from, |before|, e.fromPort, "in"), PlanEdge(|before|, e.to, "out", e.toPort);
    assert after[e.from] == before[..|nodes|][e.from] && after[e.to] == before[..|nodes|][e.to];
    assert Gives(after, a, FromFormat(nodes, e).value) && Takes(after, b, ToFormat(nodes, e).value);
  }

  method AutoInsert(nodes: seq<PlanNode>, edges: seq<PlanEdge>, converter: Option<Descriptor>)
    returns (status: Status, plan: PrecisionPlan)
    ensures status == OK <==> AllPlannable(nodes, converter, edges)
    ensures status == OK ==> PlannedUpTo(nodes, edges, converter, |edges|, plan) && AllFit(|nodes|, plan)
    ensures status != OK ==> exists k: nat ::
              k < |edges| && FirstBad(nodes, converter, edges, k) &&
              status == if InRange(nodes, edges[k]) then BAD_PRECISION else BAD_INDEX
  {
    plan := PrecisionPlan(nodes, [], []);
    for k := 0 to |edges|
      invariant PlannedUpTo(nodes, edges, converter, k, plan) && AllFit(|nodes|, plan)
    {
      status, plan := PlanEdgeAt(nodes, edges, converter, k, plan);
      if status != OK {
        return;
      }
    }
    assert edges[..|edges|] == edges;
    status := OK;
  }
}
