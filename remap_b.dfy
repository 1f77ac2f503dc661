/** The remap driver of config/drivers/led_strip_remap: layer overlays only
    (no indicators); a label addresses the first overlay with exactly that
    name; the layer number is reduced modulo 4 when stored; layer overlays
    start inactive; init only compares the strip length with the chain length. */
module RemapB {
  import opened LedStrip
  import opened Compositor

  // ---------------------------------------------------------------------------
  // RGB_FROM_UINT32

  /** Decodes a devicetree color word: red from bits 16-23, green from bits
      8-15, blue from bits 0-7 (each a `uint8_t` truncation of a right shift).
      The decoded pixel is exactly the low 24 bits of the word. */
  function RgbFromUint32(v: uint32): (c: Rgb)
    ensures PackRgb(c) as int == v as int % 0x100_0000
  {
    LowBytes(v as int);
    Rgb(((v as int / 0x1_0000) % 0x100) as uint8,
        ((v as int / 0x100) % 0x100) as uint8,
        (v as int % 0x100) as uint8)
  }

  /** The color word `r << 16 | g << 8 | b` that decodes to `c`. */
  function PackRgb(c: Rgb): (v: uint32)
    ensures v < 0x100_0000
  {
    (c.r as int * 0x1_0000 + c.g as int * 0x100 + c.b as int) as uint32
  }

  /** The three low bytes of `x`, read off by shifting and truncating, add
      back up to the low 24 bits of `x`. */
  lemma LowBytes(x: nat)
    ensures (x / 0x1_0000 % 0x100) * 0x1_0000 + (x / 0x100 % 0x100) * 0x100 + x % 0x100
         == x % 0x100_0000
  {
    var q1, q2 := x / 0x100, x / 0x1_0000;
    assert x == 0x100 * q1 + x % 0x100;
    assert q2 == q1 / 0x100;
    assert q1 == 0x100 * q2 + q1 % 0x100;
    assert q2 == 0x100 * (q2 / 0x100) + q2 % 0x100;
    assert x == 0x100_0000 * (q2 / 0x100) + (q2 % 0x100) * 0x1_0000 + (q1 % 0x100) * 0x100 + x % 0x100;
  }

  /** Packing a pixel and decoding the word gives the pixel back. */
  lemma RgbRoundTrip(c: Rgb)
    ensures RgbFromUint32(PackRgb(c)) == c
  {
    var v := PackRgb(c) as int;
    assert v / 0x1_0000 == c.r as int;
    assert v / 0x100 == c.r as int * 0x100 + c.g as int;
  }

  /** The top byte of a color word is ignored. */
  lemma RgbIgnoresTopByte(v: uint32, w: uint32)
    requires v as int % 0x100_0000 == w as int % 0x100_0000
    ensures RgbFromUint32(v) == RgbFromUint32(w)
  {
    var a, b := RgbFromUint32(v), RgbFromUint32(w);
    assert PackRgb(a) == PackRgb(b);
    RgbRoundTrip(a);
    RgbRoundTrip(b);
  }

  // ---------------------------------------------------------------------------
  // Layer overlay lookup and state changes

  /** The first layer overlay whose label is exactly `target` (the `strcmp`
      loop that stops at its first hit). */
  function FindLayer(lc: seq<LayerLedConfig>, target: string): (r: Option<nat>)
    ensures r.Some? ==> r.value < |lc| && lc[r.value].name == target
    ensures r.Some? ==> forall j :: 0 <= j < r.value ==> lc[j].name != target
    ensures r.None? ==> forall j :: 0 <= j < |lc| ==> lc[j].name != target
  {
    if lc == [] then None
    else if lc[0].name == target then Some(0)
    else match FindLayer(lc[1..], target)
      case None => None
      case Some(k) => Some(k + 1)
  }

  /** Layer state after `set_layer(target, layer)`: only the first matching
      overlay changes; it stores `layer % 4` and becomes active. */
  function SetLayerStates(lst: seq<LayerState>, lc: seq<LayerLedConfig>, target: string,
                          layer: uint8): (r: seq<LayerState>)
    requires |lst| == |lc|
    ensures |r| == |lst|
    ensures FindLayer(lc, target).None? ==> r == lst
    ensures FindLayer(lc, target).Some? ==>
      var k := FindLayer(lc, target).value;
      r[k] == LayerState(layer % 4, true) &&
      forall j :: 0 <= j < |r| && j != k ==> r[j] == lst[j]
  {
    match FindLayer(lc, target)
    case None => lst
    case Some(k) => lst[k := LayerState(layer % 4, true)]
  }

  /** Layer state after `disable_layer(target)`: only the first matching
      overlay changes; it becomes inactive and keeps its layer. */
  function DisableLayerStates(lst: seq<LayerState>, lc: seq<LayerLedConfig>, target: string): (r: seq<LayerState>)
    requires |lst| == |lc|
    ensures |r| == |lst|
    ensures FindLayer(lc, target).None? ==> r == lst
    ensures FindLayer(lc, target).Some? ==>
      var k := FindLayer(lc, target).value;
      !r[k].active && r[k].currentLayer == lst[k].currentLayer &&
      forall j :: 0 <= j < |r| && j != k ==> r[j] == lst[j]
  {
    match FindLayer(lc, target)
    case None => lst
    case Some(k) => lst[k := lst[k].(active := false)]
  }

  /** Every stored layer number is a valid color slot. */
  predicate LayersReduced(lst: seq<LayerState>) {
    forall k :: 0 <= k < |lst| ==> lst[k].currentLayer < 4
  }

  /** One remap device: its constant configuration, the strip it drives and
      the state arrays of `struct led_strip_remap_data`. */
  class Device {
    const config: Config
    const ledStrip: Strip
    const pixels: array<Rgb>
    const output: array<Rgb>
    const indicators: array<IndicatorState>
    const layerLeds: array<LayerState>

    /** Both frames are `map_len` long, there are no indicators, one state
        per layer overlay, and every stored layer number is below 4. */
    ghost predicate Valid()
      reads layerLeds
    {
      pixels != output &&
      pixels.Length == output.Length == |config.remap| &&
      config.indicators == [] && indicators.Length == 0 &&
      layerLeds.Length == |config.layerLeds| &&
      LayersReduced(layerLeds[..])
    }

    /** The statically allocated device: zeroed frames, no indicators and a
        zeroed layer state array. */
    constructor (chainLength: nat, ledStripLen: nat, remap: seq<nat>, layers: seq<LayerLedConfig>, ledStrip: Strip)
      ensures Valid()
      ensures config == Config(chainLength, ledStripLen, remap, [], layers) && this.ledStrip == ledStrip
      ensures fresh(pixels) && fresh(output) && fresh(indicators) && fresh(layerLeds)
      ensures forall i :: 0 <= i < pixels.Length ==> pixels[i] == Black && output[i] == Black
      ensures forall i :: 0 <= i < layerLeds.Length ==> layerLeds[i] == LayerState(0, false)
    {
      config := Config(chainLength, ledStripLen, remap, [], layers);
      this.ledStrip := ledStrip;
      pixels := new Rgb[|remap|](_ => Black);
      output := new Rgb[|remap|](_ => Black);
      indicators := new IndicatorState[0];
      layerLeds := new LayerState[|layers|](_ => LayerState(0, false));
    }

    /** `led_strip_remap_apply`: rebuild `output` and push it to the strip.
        Every layer overlay index must lie inside the frame; nothing
        establishes this for the driver, so it is the caller's obligation. */
    method Apply() returns (ret: int)
      requires Valid() && config.IndexesFit()
      modifies output, ledStrip
      ensures output[..] == Render(pixels[..], [], [], config.layerLeds, layerLeds[..])
      ensures ledStrip.shown == output[..]
      ensures ret == ledStrip.status
      ensures unchanged(pixels, indicators, layerLeds)
    {
      assert indicators[..] == [];
      RenderInto(output, pixels, config.indicators, indicators, config.layerLeds, layerLeds);
      ret := ledStrip.UpdateRgb(output, |config.remap|);
    }

    /** `led_strip_remap_set_layer`: the first overlay labelled `target`
        stores `layer % 4` and becomes active; with no such overlay nothing
        changes. The frame is re-rendered either way. */
    method SetLayer(target: string, layer: uint8) returns (ret: int)
      requires Valid() && config.IndexesFit()
      modifies layerLeds, output, ledStrip
      ensures Valid()
      ensures layerLeds[..] == SetLayerStates(old(layerLeds[..]), config.layerLeds, target, layer)
      ensures output[..] == Render(pixels[..], [], [], config.layerLeds, layerLeds[..])
      ensures ledStrip.shown == output[..]
      ensures ret == ledStrip.status
      ensures unchanged(pixels)
    {
      var i := 0;
      while i < layerLeds.Length
        modifies layerLeds
        invariant 0 <= i <= layerLeds.Length
        invariant forall j :: 0 <= j < i ==> config.layerLeds[j].name != target
        invariant layerLeds[..] == old(layerLeds[..])
      {
        if config.layerLeds[i].name == target {
          assert FindLayer(config.layerLeds, target) == Some(i);
          layerLeds[i] := LayerState(layer % 4, true);
          break;
        }
        i := i + 1;
      }
      assert layerLeds[..] == SetLayerStates(old(layerLeds[..]), config.layerLeds, target, layer);
      ret := Apply();
    }

    /** `led_strip_remap_disable_layer`: the first overlay labelled `target`
        becomes inactive; with no such overlay nothing changes. The frame is
        re-rendered either way. */
    method DisableLayer(target: string) returns (ret: int)
      requires Valid() && config.IndexesFit()
      modifies layerLeds, output, ledStrip
      ensures Valid()
      ensures layerLeds[..] == DisableLayerStates(old(layerLeds[..]), config.layerLeds, target)
      ensures output[..] == Render(pixels[..], [], [], config.layerLeds, layerLeds[..])
      ensures ledStrip.shown == output[..]
      ensures ret == ledStrip.status
      ensures unchanged(pixels)
    {
      var i := 0;
      while i < layerLeds.Length
        modifies layerLeds
        invariant 0 <= i <= layerLeds.Length
        invariant forall j :: 0 <= j < i ==> config.layerLeds[j].name != target
        invariant layerLeds[..] == old(layerLeds[..])
      {
        if config.layerLeds[i].name == target {
          assert FindLayer(config.layerLeds, target) == Some(i);
          layerLeds[i] := layerLeds[i].(active := false);
          break;
        }
        i := i + 1;
      }
      assert layerLeds[..] == DisableLayerStates(old(layerLeds[..]), config.layerLeds, target);
      ret := Apply();
    }

    /** `led_strip_remap_init`: -EINVAL, changing nothing, when the strip is
        shorter than the chain; otherwise every layer overlay is reset to
        layer 0, inactive. Overlay indexes are not checked. */
    method Init() returns (ret: int)
      requires Valid()
      modifies layerLeds
      ensures Valid()
      ensures ret == 0 || ret == -EINVAL
      ensures ret == -EINVAL <==> config.ledStripLen < config.chainLength
      ensures ret == -EINVAL ==> layerLeds[..] == old(layerLeds[..])
      ensures ret == 0 ==> forall k :: 0 <= k < layerLeds.Length ==> layerLeds[k] == LayerState(0, false)
    {
      if config.ledStripLen < config.chainLength {
        return -EINVAL;
      }
      for i := 0 to layerLeds.Length
        invariant forall k :: 0 <= k < i ==> layerLeds[k] == LayerState(0, false)
      {
        layerLeds[i] := LayerState(0, false);
      }
      return 0;
    }
  }

  // ---------------------------------------------------------------------------
  // Properties of the variant

  /** `set_layer` keeps every stored layer number below 4, and the matched
      overlay holds exactly `layer % 4`, active; every other overlay is as before. */
  lemma SetLayerStoresReduced(lst: seq<LayerState>, lc: seq<LayerLedConfig>, target: string, layer: uint8)
    requires |lst| == |lc| && LayersReduced(lst)
    ensures LayersReduced(SetLayerStates(lst, lc, target, layer))
    ensures FindLayer(lc, target).Some? ==>
      var k := FindLayer(lc, target).value;
      SetLayerStates(lst, lc, target, layer)[k] == LayerState(layer % 4, true) &&
      forall j :: 0 <= j < |lst| && j != k ==> SetLayerStates(lst, lc, target, layer)[j] == lst[j]
  {
  }

  /** The wrap law on concrete layer numbers: 4, 5 and 255 are stored as 0, 1 and 3. */
  lemma SetLayerWrapExamples(lst: seq<LayerState>, lc: seq<LayerLedConfig>, target: string)
    requires |lst| == |lc| && FindLayer(lc, target).Some?
    ensures SetLayerStates(lst, lc, target, 4)[FindLayer(lc, target).value].currentLayer == 0
    ensures SetLayerStates(lst, lc, target, 5)[FindLayer(lc, target).value].currentLayer == 1
    ensures SetLayerStates(lst, lc, target, 255)[FindLayer(lc, target).value].currentLayer == 3
  {
  }

  /** `set_layer` twice with the same arguments leaves the state, and so the
      frame, of one call. */
  lemma SetLayerIdempotent(base: seq<Rgb>, lst: seq<LayerState>, lc: seq<LayerLedConfig>, target: string, layer: uint8)
    requires RenderReady(base, [], [], lc, lst)
    ensures SetLayerStates(SetLayerStates(lst, lc, target, layer), lc, target, layer)
         == SetLayerStates(lst, lc, target, layer)
    ensures Render(base, [], [], lc, SetLayerStates(SetLayerStates(lst, lc, target, layer), lc, target, layer))
         == Render(base, [], [], lc, SetLayerStates(lst, lc, target, layer))
  {
  }

  /** After `set_layer`, a pixel that the matched overlay lists, and no later
      active overlay lists, shows that overlay's `colors[layer % 4]`. */
  lemma SetLayerShowsColor(base: seq<Rgb>, lst: seq<LayerState>, lc: seq<LayerLedConfig>,
                           target: string, layer: uint8, p: nat)
    requires RenderReady(base, [], [], lc, lst)
    requires FindLayer(lc, target).Some?
    requires p in lc[FindLayer(lc, target).value].ledIndexes
    requires forall j :: FindLayer(lc, target).value < j < |lc| ==> !(lst[j].active && p in lc[j].ledIndexes)
    ensures p < |base|
    ensures Render(base, [], [], lc, SetLayerStates(lst, lc, target, layer))[p]
         == lc[FindLayer(lc, target).value].colors[layer as int % 4]
  {
    var k := FindLayer(lc, target).value;
    var after := SetLayerStates(lst, lc, target, layer);
    assert after[k] == LayerState(layer % 4, true);
    LayerWins(base, [], [], lc, after, k, p);
  }

  /** After `disable_layer`, the frame is the one rendered as if the matched
      overlay did not exist, every other overlay keeping its state. */
  lemma DisableLayerHidesOverlay(base: seq<Rgb>, lst: seq<LayerState>, lc: seq<LayerLedConfig>, target: string)
    requires RenderReady(base, [], [], lc, lst)
    requires FindLayer(lc, target).Some?
    ensures RenderReady(base, [], [], Without(lc, FindLayer(lc, target).value), Without(lst, FindLayer(lc, target).value))
    ensures Render(base, [], [], lc, DisableLayerStates(lst, lc, target))
         == Render(base, [], [], Without(lc, FindLayer(lc, target).value), Without(lst, FindLayer(lc, target).value))
  {
    var k := FindLayer(lc, target).value;
    var after := DisableLayerStates(lst, lc, target);
    InactiveLayerIgnored(base, [], [], lc, after, k);
    assert Without(after, k) == Without(lst, k);
  }

  /** Right after a successful `init` every layer overlay is off, and with no
      indicators the frame is exactly the base pixels. */
  lemma InitShowsBase(base: seq<Rgb>, lc: seq<LayerLedConfig>, lst: seq<LayerState>)
    requires RenderReady(base, [], [], lc, lst)
    requires forall k :: 0 <= k < |lst| ==> lst[k] == LayerState(0, false)
    ensures Render(base, [], [], lc, lst) == base
  {
    AllLayersInactive(base, [], [], lc, lst);
    PaintStrokesAllInactive(base, []);
  }
}
