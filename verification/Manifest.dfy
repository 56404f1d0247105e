/** Node manifests as parsed records. */
module Manifest {
  import opened Options

  datatype PortKind = In | Out

  /** A port with its capability lists and metadata steps; a missing list is empty. */
  datatype Port = Port(kind: PortKind, name: string, channels: seq<string>, precisions: seq<string>,
                       setsSteps: seq<string>, requiresSteps: seq<string>)

  datatype Manifest = Manifest(ports: seq<Port>, outPixelBytes: nat, inputRole: string, outputRole: string)

  /** A node type; the manifest may be missing. */
  type Descriptor = Option<Manifest>

  function FirstPort(ports: seq<Port>, kind: PortKind, name: string): (found: Option<Port>)
    ensures found.Some? ==> found.value in ports && found.value.kind == kind && found.value.name == name
    ensures found.None? ==> forall p :: p in ports ==> p.kind != kind || p.name != name
  {
    if ports == [] then None
    else if ports[0].kind == kind && ports[0].name == name then Some(ports[0])
    else FirstPort(ports[1..], kind, name)
  }

  function FindPort(descriptor: Descriptor, kind: PortKind, name: string): (found: Option<Port>)
  {
    if descriptor.None? then None else FirstPort(descriptor.value.ports, kind, name)
  }

  function Precisions(descriptor: Descriptor, kind: PortKind, name: string): seq<string>
  {
    var port := FindPort(descriptor, kind, name);
    if port.None? then [] else port.value.precisions
  }

  function Channels(descriptor: Descriptor, kind: PortKind, name: string): seq<string>
  {
    var port := FindPort(descriptor, kind, name);
    if port.None? then [] else port.value.channels
  }

  /** The steps a named out port says it applies. */
  function StepsSet(descriptor: Descriptor, name: string): seq<string>
  {
    var port := FindPort(descriptor, Out, name);
    if port.None? then [] else port.value.setsSteps
  }

  /** The steps a named in port requires. */
  function StepsRequired(descriptor: Descriptor, name: string): seq<string>
  {
    var port := FindPort(descriptor, In, name);
    if port.None? then [] else port.value.requiresSteps
  }

  lemma {:induction false} FirstPortIs(ports: seq<Port>, i: nat)
    requires i < |ports| && forall k :: 0 <= k < i ==> ports[k].kind != ports[i].kind || ports[k].name != ports[i].name
    ensures FirstPort(ports, ports[i].kind, ports[i].name) == Some(ports[i])
  {
    if i > 0 {
      FirstPortIs(ports[1..], i - 1);
    }
  }

  /** What is said of a port is read from the first one of its kind and name, and nothing is said of a missing one. */
  lemma PortSpeaks(manifest: Manifest, i: nat)
    requires i < |manifest.ports|
    requires forall k :: 0 <= k < i ==>
      manifest.ports[k].kind != manifest.ports[i].kind || manifest.ports[k].name != manifest.ports[i].name
    ensures var d, p := Some(manifest), manifest.ports[i];
      && Channels(d, p.kind, p.name) == p.channels && Precisions(d, p.kind, p.name) == p.precisions
      && (p.kind == Out ==> HasOutput(d) && StepsSet(d, p.name) == p.setsSteps)
      && (p.kind == In ==> StepsRequired(d, p.name) == p.requiresSteps)
  {
    FirstPortIs(manifest.ports, i);
  }

  predicate HasOutput(descriptor: Descriptor)
  {
    descriptor.Some? && exists p :: p in descriptor.value.ports && p.kind == Out
  }
}
