/** The render pass shared by both driver variants (`led_strip_remap_apply`):
    the device's configuration and overlay state, the frame it must produce
    (specified as three painting passes and, independently, pixel by pixel),
    and the in-place loops that build it in the `output` array. */
module Compositor {
  import opened LedStrip

  datatype Option<T> = None | Some(value: T)

  /** The four per-layer colors of a layer overlay (`struct led_rgb colors[4]`). */
  type ColorTable = s: seq<Rgb> | |s| == 4 witness [Black, Black, Black, Black]

  /** `struct led_strip_remap_indicator`: a named group of LEDs. */
  datatype IndicatorConfig = IndicatorConfig(name: string, ledIndexes: seq<nat>)

  /** `struct led_strip_remap_indicator_state`. */
  datatype IndicatorState = IndicatorState(active: bool, color: Rgb)

  /** `struct layer_led_config`: a named group of LEDs with one color per layer slot. */
  datatype LayerLedConfig = LayerLedConfig(name: string, ledIndexes: seq<nat>, colors: ColorTable)

  /** `struct layer_led_state`. */
  datatype LayerState = LayerState(currentLayer: uint8, active: bool)

  /** `struct led_strip_remap_config`; `map_len` is the length of `map`, whose
      entries the render never reads. */
  datatype Config = Config(
    chainLength: nat,
    ledStripLen: nat,
    remap: seq<nat>,
    indicators: seq<IndicatorConfig>,
    layerLeds: seq<LayerLedConfig>)
  {
    /** Every index an overlay lists lies inside the `map_len`-long output frame. */
    predicate IndexesFit() {
      Fits(|remap|, indicators, layerLeds)
    }
  }

  predicate IndexesBelow(idxs: seq<nat>, n: nat) {
    forall k :: 0 <= k < |idxs| ==> idxs[k] < n
  }

  predicate Fits(n: nat, ic: seq<IndicatorConfig>, lc: seq<LayerLedConfig>) {
    (forall i :: 0 <= i < |ic| ==> IndexesBelow(ic[i].ledIndexes, n)) &&
    (forall i :: 0 <= i < |lc| ==> IndexesBelow(lc[i].ledIndexes, n))
  }

  /** What the render needs of its inputs: one state per overlay, and every
      overlay index inside the frame. */
  predicate RenderReady(base: seq<Rgb>, ic: seq<IndicatorConfig>, ist: seq<IndicatorState>,
                        lc: seq<LayerLedConfig>, lst: seq<LayerState>) {
    |ic| == |ist| && |lc| == |lst| && Fits(|base|, ic, lc)
  }

  // ---------------------------------------------------------------------------
  // The frame as a sequence of painting passes

  /** One overlay as the render sees it: whether it is drawn, where, in which color. */
  datatype Stroke = Stroke(active: bool, indexes: seq<nat>, color: Rgb)

  predicate Covers(s: Stroke, p: nat) {
    s.active && p in s.indexes
  }

  predicate StrokesFit(ss: seq<Stroke>, n: nat) {
    forall i :: 0 <= i < |ss| ==> IndexesBelow(ss[i].indexes, n)
  }

  /** The color-table slot used for a stored layer number. */
  function ColorSlot(layer: uint8): (slot: nat)
    ensures slot < 4
    ensures layer < 4 ==> slot == layer as nat
  {
    layer as nat % 4
  }

  /** The color a layer overlay shows: `colors[current_layer % 4]`. */
  function LayerColor(cfg: LayerLedConfig, st: LayerState): (c: Rgb)
    ensures c in cfg.colors
    ensures st.currentLayer < 4 ==> c == cfg.colors[st.currentLayer]
  {
    cfg.colors[ColorSlot(st.currentLayer)]
  }

  function IndicatorStrokes(ic: seq<IndicatorConfig>, ist: seq<IndicatorState>): (ss: seq<Stroke>)
    requires |ic| == |ist|
    ensures |ss| == |ic|
    ensures forall i :: 0 <= i < |ss| ==>
      ss[i].active == ist[i].active && ss[i].indexes == ic[i].ledIndexes && ss[i].color == ist[i].color
  {
    seq(|ic|, i requires 0 <= i < |ic| => Stroke(ist[i].active, ic[i].ledIndexes, ist[i].color))
  }

  function LayerStrokes(lc: seq<LayerLedConfig>, lst: seq<LayerState>): (ss: seq<Stroke>)
    requires |lc| == |lst|
    ensures |ss| == |lc|
    ensures forall i :: 0 <= i < |ss| ==>
      ss[i].active == lst[i].active && ss[i].indexes == lc[i].ledIndexes && ss[i].color in lc[i].colors
  {
    seq(|lc|, i requires 0 <= i < |lc| => Stroke(lst[i].active, lc[i].ledIndexes, LayerColor(lc[i], lst[i])))
  }

  /** `frame` with color `c` written at each of `idxs`, in order. */
  function PaintIndexes(frame: seq<Rgb>, idxs: seq<nat>, c: Rgb): (r: seq<Rgb>)
    requires IndexesBelow(idxs, |frame|)
    ensures |r| == |frame|
    ensures forall p :: 0 <= p < |frame| ==> r[p] == if p in idxs then c else frame[p]
    decreases |idxs|
  {
    if idxs == [] then frame
    else
      var init, last := idxs[..|idxs| - 1], idxs[|idxs| - 1];
      assert idxs == init + [last];
      PaintIndexes(frame, init, c)[last := c]
  }

  /** `frame` with every active stroke painted over it, in order. */
  function PaintStrokes(frame: seq<Rgb>, ss: seq<Stroke>): (r: seq<Rgb>)
    requires StrokesFit(ss, |frame|)
    ensures |r| == |frame|
    decreases |ss|
  {
    if ss == [] then frame
    else
      var g := PaintStrokes(frame, ss[..|ss| - 1]);
      var s := ss[|ss| - 1];
      if s.active then PaintIndexes(g, s.indexes, s.color) else g
  }

  /** The frame `led_strip_remap_apply` builds: the base pixels, then the
      active indicators, then the active layer overlays. */
  function Render(base: seq<Rgb>, ic: seq<IndicatorConfig>, ist: seq<IndicatorState>,
                  lc: seq<LayerLedConfig>, lst: seq<LayerState>): (out: seq<Rgb>)
    requires RenderReady(base, ic, ist, lc, lst)
    ensures |out| == |base|
  {
    PaintStrokes(PaintStrokes(base, IndicatorStrokes(ic, ist)), LayerStrokes(lc, lst))
  }

  // ---------------------------------------------------------------------------
  // The frame pixel by pixel

  /** The position of the last active stroke that lists `p`, if any. */
  function LastCover(ss: seq<Stroke>, p: nat): (r: Option<nat>)
    ensures r.None? ==> forall i :: 0 <= i < |ss| ==> !Covers(ss[i], p)
    ensures r.Some? ==> r.value < |ss| && Covers(ss[r.value], p)
    ensures r.Some? ==> forall i :: r.value < i < |ss| ==> !Covers(ss[i], p)
    decreases |ss|
  {
    if ss == [] then None
    else if Covers(ss[|ss| - 1], p) then Some(|ss| - 1)
    else LastCover(ss[..|ss| - 1], p)
  }

  /** Painting strokes in order leaves each pixel with the color of the last
      active stroke that lists it, or untouched when none does. */
  lemma {:induction false} PaintStrokesAt(frame: seq<Rgb>, ss: seq<Stroke>, p: nat)
    requires StrokesFit(ss, |frame|) && p < |frame|
    ensures PaintStrokes(frame, ss)[p] ==
      match LastCover(ss, p)
      case None => frame[p]
      case Some(i) => ss[i].color
  {
    if ss != [] {
      PaintStrokesAt(frame, ss[..|ss| - 1], p);
    }
  }

  /** The render pixel by pixel: the last active layer overlay listing `p`
      decides; failing one, the last active indicator listing `p`; failing
      both, the base pixel. */
  lemma RenderAt(base: seq<Rgb>, ic: seq<IndicatorConfig>, ist: seq<IndicatorState>,
                 lc: seq<LayerLedConfig>, lst: seq<LayerState>, p: nat)
    requires RenderReady(base, ic, ist, lc, lst) && p < |base|
    ensures Render(base, ic, ist, lc, lst)[p] ==
      match LastCover(LayerStrokes(lc, lst), p)
      case Some(i) => LayerColor(lc[i], lst[i])
      case None =>
        match LastCover(IndicatorStrokes(ic, ist), p)
        case Some(i) => ist[i].color
        case None => base[p]
  {
    var mid := PaintStrokes(base, IndicatorStrokes(ic, ist));
    PaintStrokesAt(base, IndicatorStrokes(ic, ist), p);
    PaintStrokesAt(mid, LayerStrokes(lc, lst), p);
  }

  /** A pixel that no active overlay lists shows the base pixel. */
  lemma BaseFallThrough(base: seq<Rgb>, ic: seq<IndicatorConfig>, ist: seq<IndicatorState>,
                        lc: seq<LayerLedConfig>, lst: seq<LayerState>, p: nat)
    requires RenderReady(base, ic, ist, lc, lst) && p < |base|
    requires forall i :: 0 <= i < |ic| ==> !(ist[i].active && p in ic[i].ledIndexes)
    requires forall i :: 0 <= i < |lc| ==> !(lst[i].active && p in lc[i].ledIndexes)
    ensures Render(base, ic, ist, lc, lst)[p] == base[p]
  {
    RenderAt(base, ic, ist, lc, lst, p);
    var ind, lay := IndicatorStrokes(ic, ist), LayerStrokes(lc, lst);
    assert forall j :: 0 <= j < |ic| ==> !Covers(ind[j], p);
    assert forall j :: 0 <= j < |lc| ==> !Covers(lay[j], p);
  }

  /** A pixel that active indicator `i` lists, that no later active indicator
      lists and that no active layer overlay lists, shows indicator `i`'s color. */
  lemma IndicatorOverBase(base: seq<Rgb>, ic: seq<IndicatorConfig>, ist: seq<IndicatorState>,
                          lc: seq<LayerLedConfig>, lst: seq<LayerState>, i: nat, p: nat)
    requires RenderReady(base, ic, ist, lc, lst)
    requires i < |ic| && ist[i].active && p in ic[i].ledIndexes
    requires forall j :: i < j < |ic| ==> !(ist[j].active && p in ic[j].ledIndexes)
    requires forall j :: 0 <= j < |lc| ==> !(lst[j].active && p in lc[j].ledIndexes)
    ensures p < |base|
    ensures Render(base, ic, ist, lc, lst)[p] == ist[i].color
  {
    var k :| 0 <= k < |ic[i].ledIndexes| && ic[i].ledIndexes[k] == p;
    RenderAt(base, ic, ist, lc, lst, p);
    var ind, lay := IndicatorStrokes(ic, ist), LayerStrokes(lc, lst);
    assert Covers(ind[i], p);
    assert forall j :: i < j < |ic| ==> !Covers(ind[j], p);
    assert forall j :: 0 <= j < |lc| ==> !Covers(lay[j], p);
  }

  /** A pixel that active layer overlay `i` lists, and no later active layer
      overlay lists, shows `colors[current_layer % 4]` of overlay `i`,
      whatever the indicators and the base pixel are. */
  lemma LayerWins(base: seq<Rgb>, ic: seq<IndicatorConfig>, ist: seq<IndicatorState>,
                  lc: seq<LayerLedConfig>, lst: seq<LayerState>, i: nat, p: nat)
    requires RenderReady(base, ic, ist, lc, lst)
    requires i < |lc| && lst[i].active && p in lc[i].ledIndexes
    requires forall j :: i < j < |lc| ==> !(lst[j].active && p in lc[j].ledIndexes)
    ensures p < |base|
    ensures Render(base, ic, ist, lc, lst)[p] == lc[i].colors[lst[i].currentLayer as int % 4]
  {
    var k :| 0 <= k < |lc[i].ledIndexes| && lc[i].ledIndexes[k] == p;
    RenderAt(base, ic, ist, lc, lst, p);
    var lay := LayerStrokes(lc, lst);
    assert Covers(lay[i], p);
    assert forall j :: i < j < |lc| ==> !Covers(lay[j], p);
  }

  /** With no indicators (`indicator_cnt == 0`) the frame is the base pixels
      overwritten only by the active layer overlays. */
  lemma NoIndicatorsAt(base: seq<Rgb>, lc: seq<LayerLedConfig>, lst: seq<LayerState>, p: nat)
    requires RenderReady(base, [], [], lc, lst) && p < |base|
    ensures Render(base, [], [], lc, lst)[p] ==
      match LastCover(LayerStrokes(lc, lst), p)
      case Some(i) => LayerColor(lc[i], lst[i])
      case None => base[p]
  {
    RenderAt(base, [], [], lc, lst, p);
  }

  // ---------------------------------------------------------------------------
  // Inactive overlays

  function Without<T>(s: seq<T>, i: nat): (r: seq<T>)
    requires i < |s|
    ensures |r| == |s| - 1
    ensures forall k :: 0 <= k < i ==> r[k] == s[k]
    ensures forall k :: i <= k < |r| ==> r[k] == s[k + 1]
  {
    s[..i] + s[i + 1..]
  }

  /** An inactive stroke paints nothing: dropping it leaves the result unchanged. */
  lemma {:induction false} PaintStrokesSkipsInactive(frame: seq<Rgb>, ss: seq<Stroke>, i: nat)
    requires StrokesFit(ss, |frame|) && i < |ss| && !ss[i].active
    ensures StrokesFit(Without(ss, i), |frame|)
    ensures PaintStrokes(frame, ss) == PaintStrokes(frame, Without(ss, i))
    decreases |ss|
  {
    var n := |ss|;
    var init := ss[..n - 1];
    if i == n - 1 {
      assert Without(ss, i) == init;
    } else {
      PaintStrokesSkipsInactive(frame, init, i);
      var w := Without(ss, i);
      assert w[..|w| - 1] == Without(init, i);
      assert w[|w| - 1] == ss[n - 1];
    }
  }

  /** Strokes that are all inactive leave the frame as it is. */
  lemma {:induction false} PaintStrokesAllInactive(frame: seq<Rgb>, ss: seq<Stroke>)
    requires StrokesFit(ss, |frame|)
    requires forall i :: 0 <= i < |ss| ==> !ss[i].active
    ensures PaintStrokes(frame, ss) == frame
    decreases |ss|
  {
    if ss != [] {
      PaintStrokesAllInactive(frame, ss[..|ss| - 1]);
    }
  }

  /** An inactive indicator contributes nothing: the frame is the one
      rendered without it. */
  lemma InactiveIndicatorIgnored(base: seq<Rgb>, ic: seq<IndicatorConfig>, ist: seq<IndicatorState>,
                                 lc: seq<LayerLedConfig>, lst: seq<LayerState>, i: nat)
    requires RenderReady(base, ic, ist, lc, lst)
    requires i < |ic| && !ist[i].active
    ensures RenderReady(base, Without(ic, i), Without(ist, i), lc, lst)
    ensures Render(base, ic, ist, lc, lst) == Render(base, Without(ic, i), Without(ist, i), lc, lst)
  {
    var ind := IndicatorStrokes(ic, ist);
    assert IndicatorStrokes(Without(ic, i), Without(ist, i)) == Without(ind, i);
    PaintStrokesSkipsInactive(base, ind, i);
  }

  /** An inactive layer overlay contributes nothing: the frame is the one
      rendered without it. */
  lemma InactiveLayerIgnored(base: seq<Rgb>, ic: seq<IndicatorConfig>, ist: seq<IndicatorState>,
                             lc: seq<LayerLedConfig>, lst: seq<LayerState>, i: nat)
    requires RenderReady(base, ic, ist, lc, lst)
    requires i < |lc| && !lst[i].active
    ensures RenderReady(base, ic, ist, Without(lc, i), Without(lst, i))
    ensures Render(base, ic, ist, lc, lst) == Render(base, ic, ist, Without(lc, i), Without(lst, i))
  {
    var lay := LayerStrokes(lc, lst);
    assert LayerStrokes(Without(lc, i), Without(lst, i)) == Without(lay, i);
    PaintStrokesSkipsInactive(PaintStrokes(base, IndicatorStrokes(ic, ist)), lay, i);
  }

  /** With every layer overlay inactive the frame is the one rendered with
      no layer overlays at all. */
  lemma AllLayersInactive(base: seq<Rgb>, ic: seq<IndicatorConfig>, ist: seq<IndicatorState>,
                          lc: seq<LayerLedConfig>, lst: seq<LayerState>)
    requires RenderReady(base, ic, ist, lc, lst)
    requires forall i :: 0 <= i < |lst| ==> !lst[i].active
    ensures Render(base, ic, ist, lc, lst) == Render(base, ic, ist, [], [])
  {
    var lay := LayerStrokes(lc, lst);
    assert forall i :: 0 <= i < |lay| ==> !lay[i].active;
    PaintStrokesAllInactive(PaintStrokes(base, IndicatorStrokes(ic, ist)), lay);
  }

  // ---------------------------------------------------------------------------
  // The render loops

  /** The copy loop of one overlay: color `c` into `output` at each of `idxs`. */
  method PaintInPlace(output: array<Rgb>, idxs: seq<nat>, c: Rgb)
    requires IndexesBelow(idxs, output.Length)
    modifies output
    ensures output[..] == PaintIndexes(old(output[..]), idxs, c)
  {
    for j := 0 to |idxs|
      invariant output[..] == PaintIndexes(old(output[..]), idxs[..j], c)
    {
      output[idxs[j]] := c;
      assert idxs[..j + 1][..j] == idxs[..j];
    }
    assert idxs[..|idxs|] == idxs;
  }

  /** The three passes of `led_strip_remap_apply`, writing `output` in place:
      copy the base pixels, paint each active indicator, then paint each
      active layer overlay with `colors[current_layer % 4]`. */
  method RenderInto(output: array<Rgb>, pixels: array<Rgb>,
                    ic: seq<IndicatorConfig>, ist: array<IndicatorState>,
                    lc: seq<LayerLedConfig>, lst: array<LayerState>)
    requires output != pixels && output.Length == pixels.Length
    requires RenderReady(pixels[..], ic, ist[..], lc, lst[..])
    modifies output
    ensures output[..] == Render(pixels[..], ic, ist[..], lc, lst[..])
  {
    // 1. base pixels
    for i := 0 to output.Length
      invariant output[..i] == pixels[..i]
    {
      output[i] := pixels[i];
    }
    assert output[..] == output[..output.Length];

    // 2. indicators
    ghost var ind := IndicatorStrokes(ic, ist[..]);
    for i := 0 to |ic|
      invariant output[..] == PaintStrokes(pixels[..], ind[..i])
    {
      if ist[i].active {
        PaintInPlace(output, ic[i].ledIndexes, ist[i].color);
      }
      assert ind[..i + 1][..i] == ind[..i];
    }
    assert ind[..|ic|] == ind;

    // 3. layer overlays, highest priority
    ghost var mid := output[..];
    ghost var lay := LayerStrokes(lc, lst[..]);
    for i := 0 to |lc|
      invariant output[..] == PaintStrokes(mid, lay[..i])
    {
      if lst[i].active {
        var slot := ColorSlot(lst[i].currentLayer);
        PaintInPlace(output, lc[i].ledIndexes, lc[i].colors[slot]);
      }
      assert lay[..i + 1][..i] == lay[..i];
    }
    assert lay[..|lc|] == lay;
  }
}
