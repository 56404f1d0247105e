/** The node that corrects lens shading: the gain maps of the second opcode list are parsed,
    judged, packed for the kernel, and run. */
module GainNode {
  import opened Status
  import opened Options
  import opened Bytes
  import opened GainKernel
  import opened GainShading
  import GainMapParser
  import G = GainMaps

  /** Every entry of every map lies in a range. */
  ghost predicate EntriesWithin(n: Numbers, maps: seq<GainMap>, lo: real, hi: real)
  {
    forall i: nat :: i < |maps| ==> TableWithin(n, maps[i].gain, lo, hi)
  }

  ghost predicate TableWithin(n: Numbers, table: seq<U32>, lo: real, hi: real)
  {
    forall k :: 0 <= k < |table| ==> lo <= n.gainOf(table[k]) <= hi
  }

  /** Every pixel was multiplied by a gain in a range. */
  ghost predicate GainsWithin(input: seq<real>, output: seq<real>, lo: real, hi: real)
  {
    |input| == |output| && forall k :: 0 <= k < |input| ==> MultipliedWithin(input[k], output[k], lo, hi)
  }

  ghost predicate MultipliedWithin(input: real, output: real, lo: real, hi: real)
  {
    exists gain: real :: lo <= gain <= hi && Multiplied(input, gain, output)
  }

  predicate Multiplied(input: real, gain: real, output: real) { output == input * gain }

  lemma MapGainWithin(n: Numbers, maps: seq<GainMap>, i: nat, x: nat, y: nat, lo: real, hi: real)
    requires i < |maps| && G.Sound(n, maps[i]) && TableWithin(n, maps[i].gain, lo, hi)
    ensures lo <= MapGains(n, maps)(i, x, y) <= hi
  {
    SoundIsUsable(n, maps[i]);
    GainWithinTable(n, maps[i].grid, maps[i].gain, x, y, lo, hi);
  }

  /** No pixel is brightened or dimmed beyond the entries of the tables. */
  lemma ShadedWithin(n: Numbers, maps: seq<GainMap>, quad: bool, width: nat, input: seq<real>, output: seq<real>,
                     lo: real, hi: real)
    requires forall i :: 0 <= i < |maps| ==> G.Sound(n, maps[i])
    requires ScaledTo(MapGains(n, maps), MapPlanes(maps), quad, width, input, output, |input|)
    requires EntriesWithin(n, maps, lo, hi)
    ensures GainsWithin(input, output, lo, hi)
  {
    forall k: nat | k < |input| ensures MultipliedWithin(input[k], output[k], lo, hi) {
      PixelWithin(n, maps, quad, Column(width, k), Row(width, k), input[k], output[k], lo, hi);
    }
  }

  lemma PixelWithin(n: Numbers, maps: seq<GainMap>, quad: bool, x: nat, y: nat, input: real, output: real,
                    lo: real, hi: real)
    requires (forall i :: 0 <= i < |maps| ==> G.Sound(n, maps[i])) && EntriesWithin(n, maps, lo, hi)
    requires Scaled(MapGains(n, maps), MapPlanes(maps), quad, x, y, input, output)
    ensures MultipliedWithin(input, output, lo, hi)
  {
    var i: nat :| Picks(MapPlanes(maps), quad, x, y, i) && output == input * MapGains(n, maps)(i, x, y);
    MapGainWithin(n, maps, i, x, y, lo, hi);
    assert Multiplied(input, MapGains(n, maps)(i, x, y), output);
  }

  method CopyImage(input: seq<real>, output: array<real>)
    requires output.Length == |input|
    modifies output
    ensures output[..] == input
  {
    for i := 0 to |input|
      invariant output[..i] == input[..i]
    {
      output[i] := input[i];
    }
    assert output[..] == output[..|input|] && input == input[..|input|];
  }

  /** What the node answers: a colour filter is needed, and a list that is there has to parse
      to no map at all or to a complete set. */
  ghost function Verdict(n: Numbers, cfa: Option<Cfa>, tag: Option<seq<Byte>>): Status
  {
    if cfa.None? then NEED_METADATA
    else if tag.None? then OK
    else
      var parsed := G.ParseList(n, tag.value);
      if parsed.Err? then parsed.status
      else if G.Kept(parsed.items) == [] || CompletePlanes(G.Kept(parsed.items)) then OK
      else UNSUPPORTED
  }

  /** The maps of a list that is there and parses. */
  ghost function MapsOf(n: Numbers, tag: Option<seq<Byte>>): seq<GainMap>
  {
    if tag.None? || G.ParseList(n, tag.value).Err? then [] else G.Kept(G.ParseList(n, tag.value).items)
  }

  predicate Quad(cfa: Cfa) { cfa.repeatRows == 4 && cfa.repeatColumns == 4 }

  /** The image a successful run leaves: a copy without maps, else every pixel scaled by the
      gain of the map for its plane, which stays in the range of the entries. */
  ghost predicate Shaded(n: Numbers, cfa: Cfa, maps: seq<GainMap>, width: nat, input: seq<real>, output: seq<real>)
  {
    if maps == [] then output == input
    else
      && ScaledTo(MapGains(n, maps), MapPlanes(maps), Quad(cfa), width, input, output, |input|)
      && forall lo: real, hi: real :: EntriesWithin(n, maps, lo, hi) ==> GainsWithin(input, output, lo, hi)
  }

  /** From the bytes of the tag to the image, on bytes of any length and content and images of
      any size; the output is written only on success. */
  method Process(n: Numbers, cfa: Option<Cfa>, tag: Option<seq<Byte>>, width: nat, height: nat, input: seq<real>,
                 output: array<real>) returns (status: Status)
    requires cfa.Some? ==> |cfa.value.pattern| == 16
    requires |input| == output.Length == width * height
    modifies output
    ensures status == Verdict(n, cfa, tag)
    ensures status != OK ==> output[..] == old(output[..])
    ensures status == OK ==> Shaded(n, cfa.value, MapsOf(n, tag), width, input, output[..])
  {
    if cfa.None? {
      return NEED_METADATA;
    }
    if tag.None? {
      CopyImage(input, output);
      return OK;
    }
    var parsed, maps := GainMapParser.ParseGainMaps(n, tag.value);
    if parsed != OK {
      return parsed;
    }
    if maps == [] {
      CopyImage(input, output);
      return OK;
    }
    var valid := ValidateGainMaps(maps);
    if valid != OK {
      return valid;
    }
    status := ShadeWith(n, cfa.value, maps, width, height, input, output);
  }

  method ShadeWith(n: Numbers, cfa: Cfa, maps: seq<GainMap>, width: nat, height: nat, input: seq<real>,
                   output: array<real>) returns (status: Status)
    requires |cfa.pattern| == 16 && CompletePlanes(maps) && forall i :: 0 <= i < |maps| ==> G.Sound(n, maps[i])
    requires |input| == output.Length == width * height
    modifies output
    ensures status == OK && Shaded(n, cfa, maps, width, input, output[..])
  {
    status := PackAndShade(n, cfa, maps, width, height, input, output);
    forall lo: real, hi: real | EntriesWithin(n, maps, lo, hi) ensures GainsWithin(input, output[..], lo, hi) {
      ShadedWithin(n, maps, Quad(cfa), width, input, output[..], lo, hi);
    }
  }
}
