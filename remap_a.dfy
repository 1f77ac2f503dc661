/** The remap driver of config/drivers/led_strip: indicators and layer
    overlays; a missing (NULL) target addresses every layer overlay; the layer
    number is stored as given and reduced modulo 4 when rendering; layer
    overlays start active; init checks layer indexes against the strip length. */
module RemapA {
  import opened LedStrip
  import opened Compositor

  /** The target filter of `set_layer`/`disable_layer`: NULL matches every overlay. */
  predicate LabelMatches(target: Option<string>, name: string) {
    target.None? || target.value == name
  }

  /** Layer state after `set_layer(target, layer)`: every matching overlay
      holds `layer` unreduced and is active. */
  function SetLayerStates(lst: seq<LayerState>, lc: seq<LayerLedConfig>, target: Option<string>,
                          layer: uint8): (r: seq<LayerState>)
    requires |lst| == |lc|
    ensures |r| == |lst|
    ensures forall k :: 0 <= k < |r| && LabelMatches(target, lc[k].name) ==>
      r[k].currentLayer == layer && r[k].active
    ensures forall k :: 0 <= k < |r| && !LabelMatches(target, lc[k].name) ==> r[k] == lst[k]
  {
    seq(|lst|, k requires 0 <= k < |lst| =>
      if LabelMatches(target, lc[k].name) then LayerState(layer, true) else lst[k])
  }

  /** Layer state after `disable_layer(target)`: every matching overlay is
      inactive; no stored layer number changes. */
  function DisableLayerStates(lst: seq<LayerState>, lc: seq<LayerLedConfig>,
                              target: Option<string>): (r: seq<LayerState>)
    requires |lst| == |lc|
    ensures |r| == |lst|
    ensures forall k :: 0 <= k < |r| ==> r[k].currentLayer == lst[k].currentLayer
    ensures forall k :: 0 <= k < |r| ==>
      r[k].active == (lst[k].active && !LabelMatches(target, lc[k].name))
  {
    seq(|lst|, k requires 0 <= k < |lst| =>
      if LabelMatches(target, lc[k].name) then lst[k].(active := false) else lst[k])
  }

  predicate LayerIndexesBelow(lc: seq<LayerLedConfig>, bound: nat) {
    forall i :: 0 <= i < |lc| ==> IndexesBelow(lc[i].ledIndexes, bound)
  }

  /** The validation loop of `led_strip_remap_init`: is every layer overlay
      index below the strip length? */
  method CheckLayerIndexes(lc: seq<LayerLedConfig>, ledStripLen: nat) returns (ok: bool)
    ensures ok <==> LayerIndexesBelow(lc, ledStripLen)
  {
    for i := 0 to |lc|
      invariant forall i' :: 0 <= i' < i ==> IndexesBelow(lc[i'].ledIndexes, ledStripLen)
    {
      var idxs := lc[i].ledIndexes;
      for j := 0 to |idxs|
        invariant forall j' :: 0 <= j' < j ==> idxs[j'] < ledStripLen
      {
        if idxs[j] >= ledStripLen {
          return false;
        }
      }
    }
    return true;
  }

  /** One remap device: its constant configuration, the strip it drives and
      the state arrays of `struct led_strip_remap_data`. */
  class Device {
    const config: Config
    const ledStrip: Strip
    const pixels: array<Rgb>
    const output: array<Rgb>
    const indicators: array<IndicatorState>
    const layerLeds: array<LayerState>

    /** Both frames are `map_len` long and there is one state per overlay. */
    ghost predicate Valid() {
      pixels != output &&
      pixels.Length == output.Length == |config.remap| &&
      indicators.Length == |config.indicators| &&
      layerLeds.Length == |config.layerLeds|
    }

    /** The statically allocated device: zeroed frames, the given indicator
        states and a zeroed layer state array. */
    constructor (config: Config, indicatorStates: seq<IndicatorState>, ledStrip: Strip)
      requires |indicatorStates| == |config.indicators|
      ensures Valid()
      ensures this.config == config && this.ledStrip == ledStrip
      ensures fresh(pixels) && fresh(output) && fresh(indicators) && fresh(layerLeds)
      ensures forall i :: 0 <= i < pixels.Length ==> pixels[i] == Black && output[i] == Black
      ensures indicators[..] == indicatorStates
      ensures forall i :: 0 <= i < layerLeds.Length ==> layerLeds[i] == LayerState(0, false)
    {
      this.config := config;
      this.ledStrip := ledStrip;
      var n := |config.remap|;
      pixels := new Rgb[n](_ => Black);
      output := new Rgb[n](_ => Black);
      indicators := new IndicatorState[|indicatorStates|](i requires 0 <= i < |indicatorStates| => indicatorStates[i]);
      layerLeds := new LayerState[|config.layerLeds|](_ => LayerState(0, false));
      new;
      assert indicators[..] == indicatorStates;
    }

    /** `led_strip_remap_apply`: rebuild `output` and push it to the strip.
        Every overlay index must lie inside the frame; nothing establishes
        this for the driver, so it is the caller's obligation. */
    method Apply() returns (ret: int)
      requires Valid() && config.IndexesFit()
      modifies output, ledStrip
      ensures output[..] == Render(pixels[..], config.indicators, indicators[..], config.layerLeds, layerLeds[..])
      ensures ledStrip.shown == output[..]
      ensures ret == ledStrip.status
      ensures unchanged(pixels, indicators, layerLeds)
    {
      RenderInto(output, pixels, config.indicators, indicators, config.layerLeds, layerLeds);
      ret := ledStrip.UpdateRgb(output, |config.remap|);
    }

    /** `led_strip_remap_set_layer`: every overlay matching `target` (all of
        them for NULL) stores `layer` and becomes active; then re-render. */
    method SetLayer(target: Option<string>, layer: uint8) returns (ret: int)
      requires Valid() && config.IndexesFit()
      modifies layerLeds, output, ledStrip
      ensures layerLeds[..] == SetLayerStates(old(layerLeds[..]), config.layerLeds, target, layer)
      ensures output[..] == Render(pixels[..], config.indicators, indicators[..], config.layerLeds, layerLeds[..])
      ensures ledStrip.shown == output[..]
      ensures ret == ledStrip.status
      ensures unchanged(pixels, indicators)
    {
      for i := 0 to layerLeds.Length
        modifies layerLeds
        invariant forall k :: 0 <= k < i ==>
          layerLeds[k] == (if LabelMatches(target, config.layerLeds[k].name) then LayerState(layer, true) else old(layerLeds[k]))
        invariant forall k :: i <= k < layerLeds.Length ==> layerLeds[k] == old(layerLeds[k])
      {
        if target.Some? && config.layerLeds[i].name != target.value {
          continue;
        }
        layerLeds[i] := layerLeds[i].(currentLayer := layer, active := true);
      }
      assert layerLeds[..] == SetLayerStates(old(layerLeds[..]), config.layerLeds, target, layer);
      ret := Apply();
    }

    /** `led_strip_remap_disable_layer`: every overlay matching `target` (all
        of them for NULL) becomes inactive; then re-render. */
    method DisableLayer(target: Option<string>) returns (ret: int)
      requires Valid() && config.IndexesFit()
      modifies layerLeds, output, ledStrip
      ensures layerLeds[..] == DisableLayerStates(old(layerLeds[..]), config.layerLeds, target)
      ensures output[..] == Render(pixels[..], config.indicators, indicators[..], config.layerLeds, layerLeds[..])
      ensures ledStrip.shown == output[..]
      ensures ret == ledStrip.status
      ensures unchanged(pixels, indicators)
    {
      for i := 0 to layerLeds.Length
        modifies layerLeds
        invariant forall k :: 0 <= k < i ==>
          layerLeds[k] == (if LabelMatches(target, config.layerLeds[k].name) then old(layerLeds[k]).(active := false) else old(layerLeds[k]))
        invariant forall k :: i <= k < layerLeds.Length ==> layerLeds[k] == old(layerLeds[k])
      {
        if target.Some? && config.layerLeds[i].name != target.value {
          continue;
        }
        layerLeds[i] := layerLeds[i].(active := false);
      }
      assert layerLeds[..] == DisableLayerStates(old(layerLeds[..]), config.layerLeds, target);
      ret := Apply();
    }

    /** `led_strip_remap_init`: reject a layer overlay index at or beyond the
        strip length with -EINVAL and change nothing; otherwise reset every
        layer overlay to layer 0, active. */
    method Init() returns (ret: int)
      requires Valid()
      modifies layerLeds
      ensures ret == 0 || ret == -EINVAL
      ensures ret == -EINVAL <==> !LayerIndexesBelow(config.layerLeds, config.ledStripLen)
      ensures ret == -EINVAL ==> layerLeds[..] == old(layerLeds[..])
      ensures ret == 0 ==> forall k :: 0 <= k < layerLeds.Length ==> layerLeds[k] == LayerState(0, true)
    {
      var ok := CheckLayerIndexes(config.layerLeds, config.ledStripLen);
      if !ok {
        return -EINVAL;
      }
      for i := 0 to layerLeds.Length
        invariant forall k :: 0 <= k < i ==> layerLeds[k] == LayerState(0, true)
      {
        layerLeds[i] := LayerState(0, true);
      }
      return 0;
    }
  }

  // ---------------------------------------------------------------------------
  // Properties of the variant

  /** The stored layer number may be any `uint8_t`, yet after `set_layer` a
      pixel that a matching overlay lists, and no later active overlay lists,
      shows that overlay's `colors[layer % 4]`. */
  lemma SetLayerShowsColor(base: seq<Rgb>, ic: seq<IndicatorConfig>, ist: seq<IndicatorState>,
                           lc: seq<LayerLedConfig>, lst: seq<LayerState>,
                           target: Option<string>, layer: uint8, i: nat, p: nat)
    requires RenderReady(base, ic, ist, lc, lst)
    requires i < |lc| && LabelMatches(target, lc[i].name) && p in lc[i].ledIndexes
    requires forall j :: i < j < |lc| ==>
      !(SetLayerStates(lst, lc, target, layer)[j].active && p in lc[j].ledIndexes)
    ensures p < |base|
    ensures Render(base, ic, ist, lc, SetLayerStates(lst, lc, target, layer))[p] == lc[i].colors[layer as int % 4]
  {
    LayerWins(base, ic, ist, lc, SetLayerStates(lst, lc, target, layer), i, p);
  }

  /** `set_layer` twice with the same arguments leaves the state of once. */
  lemma SetLayerIdempotent(lst: seq<LayerState>, lc: seq<LayerLedConfig>, target: Option<string>, layer: uint8)
    requires |lst| == |lc|
    ensures SetLayerStates(SetLayerStates(lst, lc, target, layer), lc, target, layer)
         == SetLayerStates(lst, lc, target, layer)
  {
  }

  /** `disable_layer(NULL)` turns every layer overlay off, leaving the frame
      of the base pixels and the indicators alone. */
  lemma DisableAllShowsIndicatorsOnly(base: seq<Rgb>, ic: seq<IndicatorConfig>, ist: seq<IndicatorState>,
                                      lc: seq<LayerLedConfig>, lst: seq<LayerState>)
    requires RenderReady(base, ic, ist, lc, lst)
    ensures Render(base, ic, ist, lc, DisableLayerStates(lst, lc, None)) == Render(base, ic, ist, [], [])
  {
    AllLayersInactive(base, ic, ist, lc, DisableLayerStates(lst, lc, None));
  }

  /** Right after a successful `init` every layer overlay is on at layer 0:
      a pixel that overlay `i` lists, and no later overlay lists, shows its
      `colors[0]`. */
  lemma InitShowsLayerZero(base: seq<Rgb>, ic: seq<IndicatorConfig>, ist: seq<IndicatorState>,
                           lc: seq<LayerLedConfig>, lst: seq<LayerState>, i: nat, p: nat)
    requires RenderReady(base, ic, ist, lc, lst)
    requires forall k :: 0 <= k < |lst| ==> lst[k] == LayerState(0, true)
    requires i < |lc| && p in lc[i].ledIndexes
    requires forall j :: i < j < |lc| ==> p !in lc[j].ledIndexes
    ensures Render(base, ic, ist, lc, lst)[p] == lc[i].colors[0]
  {
    LayerWins(base, ic, ist, lc, lst, i, p);
  }

  /** What `init` validates is enough for the layer part of the render's
      bounds only when the strip is no longer than the `map_len`-long frame. */
  lemma InitCheckBoundsLayers(lc: seq<LayerLedConfig>, ledStripLen: nat, mapLen: nat)
    requires LayerIndexesBelow(lc, ledStripLen) && ledStripLen <= mapLen
    ensures Fits(mapLen, [], lc)
  {
  }

  /** `init` accepts a layer index that lies beyond the output frame: with a
      strip of 8 LEDs and a 4-entry map, index 5 passes the check although
      `output` has only 4 entries. */
  lemma InitCheckMissesFrameBound()
    ensures LayerIndexesBelow([LayerLedConfig("L", [5], [Black, Black, Black, Black])], 8)
    ensures !Fits(4, [], [LayerLedConfig("L", [5], [Black, Black, Black, Black])])
  {
    var lc := [LayerLedConfig("L", [5], [Black, Black, Black, Black])];
    assert lc[0].ledIndexes[0] == 5;
  }
}
