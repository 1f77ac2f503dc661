# LED strip remap compositor

A Dafny model of the `led_strip_remap` driver of a ZMK keyboard firmware. The driver
composes the frame sent to a physical LED strip from three layers:

1. the base pixel array `pixels`;
2. indicator overlays, each a group of LEDs with an `active` flag and one color;
3. layer overlays, each a group of LEDs with an `active` flag, a stored
   `current_layer` and a table of four colors. The overlay shows
   `colors[current_layer % 4]`.

Each render pass (`led_strip_remap_apply`) does four things in order:

- it copies the base pixels into `output`;
- it paints every active indicator, in configuration order;
- it paints every active layer overlay, in configuration order, as the highest priority;
- it hands `output` to the strip driver.

The setters `led_strip_remap_set_layer` and `led_strip_remap_disable_layer` change layer overlay
state by label, then re-render. `led_strip_remap_init` validates the configuration and seeds the
layer state.

The repository has two diverging copies of the driver, and both are modelled:

| | Variant A, `config/drivers/led_strip/led_strip_remap.c` | Variant B, `config/drivers/led_strip_remap/led_strip_remap.c` |
|---|---|---|
| label | a NULL label addresses every layer overlay, and every match is updated | exact match; only the first match is updated |
| stored layer | raw `uint8_t`, reduced `% 4` when rendering | reduced `% 4` when stored |
| default after init | active | inactive |
| init validation | each layer index must be `< led_strip_len` | only `led_strip_len >= chain_length` |
| indicators | configured | none (`indicator_cnt == 0`) |

Files:

- `led_strip.dfy` (module `LedStrip`): `uint8`, `uint32`, the pixel `Rgb`, the errno `EINVAL`, and class `Strip`,
  which stands in for `led_strip_update_rgb`. The strip records the frame it is handed and
  returns the status its hardware reports. That status is an input of the model.
- `compositor.dfy` (module `Compositor`) holds the render shared by both variants. The two
  `apply` bodies are the same up to where `% 4` is written. The module contains:
  - the configuration and state datatypes;
  - the frame specified as painting passes (`PaintIndexes`, `PaintStrokes`, `Render`);
  - the same frame specified pixel by pixel (`LastCover`, `RenderAt`), and the priority lemmas;
  - the in-place loops `RenderInto` and `PaintInPlace` over the `output` array.
- `remap_a.dfy` (module `RemapA`) and `remap_b.dfy` (module `RemapB`) each hold one `Device`
  class. Its fields are the state arrays of `struct led_strip_remap_data`, and its methods
  `Apply`, `SetLayer`, `DisableLayer` and `Init` follow the C functions. Each module also has
  the pure state-change functions that specify those methods, and lemmas about them.
  `RemapB` also models the `RGB_FROM_UINT32` color decoder.

Memory safety of the render is not established by either `init`. `output` has `map_len`
entries (A:243-244, B:169). Variant A checks layer indexes against `led_strip_len` instead.
Variant B checks no index at all. Neither checks indicator indexes. So every render entry point
carries an explicit `requires config.IndexesFit()`: every overlay index must be below `map_len`.
`RemapA.InitCheckMissesFrameBound` shows a configuration that A's check accepts with an index
outside the frame. `RemapA.InitCheckBoundsLayers` shows that A's check is enough for the layer
overlays when `led_strip_len <= map_len`.

Where the code departs from what the compositor's design calls for, the model follows the code:

- An unknown label is not an error. The setters still re-render and return the strip's status.
- Variant A stores the layer number unreduced.
- The index validation at init compares against the strip length, not the frame length
  (Variant A), or is absent (Variant B).
- The indicator setters of Variant A have empty bodies.

## Model

| member | source | states |
|---|---|---|
| `Compositor.ColorSlot` | config/drivers/led_strip/led_strip_remap.c:100-101 | the color table slot of any stored `uint8_t` layer is in [0,4); it is the stored value itself when that is already below 4, so Variant B's second reduction at render is harmless |
| `Compositor.LayerColor` | config/drivers/led_strip/led_strip_remap.c:100-101 | a layer overlay shows one of its four table colors, and exactly `colors[current_layer]` when the stored layer is below 4 |
| `Compositor.IndicatorStrokes` | config/drivers/led_strip/led_strip_remap.c:79-89 | one paint stroke per indicator, in configuration order, with that indicator's active flag, LED indexes and color |
| `Compositor.LayerStrokes` | config/drivers/led_strip/led_strip_remap.c:91-108 | one paint stroke per layer overlay, in configuration order, with its active flag, its LED indexes and a color from its table |
| `Compositor.PaintStrokes` | config/drivers/led_strip/led_strip_remap.c:79-108 | painting the active overlays in order keeps the frame length; `Compositor.PaintStrokesAt` gives its value pixel by pixel |
| `Compositor.Render` | config/drivers/led_strip/led_strip_remap.c:71-108 | the frame `apply` builds (also config/drivers/led_strip_remap/led_strip_remap.c:60-86) has `map_len` entries; `Compositor.RenderAt` gives its value pixel by pixel |
| `Compositor.PaintIndexes` | config/drivers/led_strip/led_strip_remap.c:85-88 | writing one color at each listed index leaves exactly the listed pixels with that color and every other pixel as it was |
| `Compositor.LastCover` | config/drivers/led_strip/led_strip_remap.c:94-107 | finds the last active overlay in configuration order that lists a pixel, or reports that no active overlay lists it |
| `Compositor.PaintStrokesAt` | config/drivers/led_strip/led_strip_remap.c:79-89 | painting overlays in order leaves each pixel with the color of the last active overlay listing it, or untouched: the last writer wins |
| `Compositor.RenderAt` | config/drivers/led_strip/led_strip_remap.c:71-108 | the rendered pixel is `colors[current_layer % 4]` of the last active layer overlay listing it; else the color of the last active indicator listing it; else the base pixel |
| `Compositor.BaseFallThrough` | config/drivers/led_strip/led_strip_remap.c:72-74 | a pixel listed by no active indicator and no active layer overlay shows the base pixel |
| `Compositor.IndicatorOverBase` | config/drivers/led_strip/led_strip_remap.c:79-89 | a pixel listed by active indicator i, by no later active indicator and by no active layer overlay shows indicator i's color |
| `Compositor.LayerWins` | config/drivers/led_strip/led_strip_remap.c:91-108 | a pixel listed by active layer overlay i and by no later active layer overlay shows its `colors[current_layer % 4]`, whatever the indicators and the base say |
| `Compositor.NoIndicatorsAt` | config/drivers/led_strip_remap/led_strip_remap.c:61-86 | with `indicator_cnt == 0` each pixel is the base pixel unless an active layer overlay lists it, in which case the last such overlay's color shows |
| `Compositor.PaintStrokesSkipsInactive` | config/drivers/led_strip/led_strip_remap.c:83-98 | an inactive overlay paints nothing: removing it from the sequence leaves the painted frame unchanged |
| `Compositor.PaintStrokesAllInactive` | config/drivers/led_strip/led_strip_remap.c:94-98 | overlays that are all inactive leave the frame as it is |
| `Compositor.InactiveIndicatorIgnored` | config/drivers/led_strip/led_strip_remap.c:83 | the frame with an inactive indicator equals the frame rendered without that indicator |
| `Compositor.InactiveLayerIgnored` | config/drivers/led_strip/led_strip_remap.c:98 | the frame with an inactive layer overlay equals the frame rendered without that overlay |
| `Compositor.AllLayersInactive` | config/drivers/led_strip/led_strip_remap.c:91-108 | with every layer overlay inactive, the frame equals the one rendered with no layer overlays at all |
| `Compositor.PaintInPlace` | config/drivers/led_strip/led_strip_remap.c:103-107 | the in-place copy loop of one overlay leaves `output` equal to `PaintIndexes` of its old contents |
| `Compositor.RenderInto` | config/drivers/led_strip/led_strip_remap.c:71-108 | the three in-place passes leave `output` equal to `Render` of the base pixels and the overlay state |
| `LedStrip.Strip.UpdateRgb` | config/drivers/led_strip/led_strip_remap.c:111 | the strip shows the first `map_len` entries of `output` and returns the status of that call, which the environment chooses afresh each time |
| `RemapA.SetLayerStates` | config/drivers/led_strip/led_strip_remap.c:149-156 | every overlay matching the label, or every overlay for NULL, holds the raw layer and is active; every other overlay is unchanged |
| `RemapA.DisableLayerStates` | config/drivers/led_strip/led_strip_remap.c:170-176 | every overlay's stored layer is kept; an overlay is active afterwards exactly when it was active before and does not match the label (NULL matches all) |
| `RemapA.CheckLayerIndexes` | config/drivers/led_strip/led_strip_remap.c:192-202 | the validation loop succeeds exactly when every layer overlay index is below `led_strip_len` |
| `RemapA.Device.constructor` | config/drivers/led_strip/led_strip_remap.c:242-258 | static instantiation: zeroed `map_len`-long frames, the configured indicator states, layer states zeroed (layer 0, inactive) |
| `RemapA.Device.Apply` | config/drivers/led_strip/led_strip_remap.c:63-116 | `output` becomes `Render` of the current state, the strip shows it, the strip's status is returned, and pixels and overlay state are unchanged |
| `RemapA.Device.SetLayer` | config/drivers/led_strip/led_strip_remap.c:142-160 | the layer state becomes `SetLayerStates` of the old one; then the frame is re-rendered and the strip's status returned; pixels and indicators are unchanged |
| `RemapA.Device.DisableLayer` | config/drivers/led_strip/led_strip_remap.c:163-180 | the layer state becomes `DisableLayerStates` of the old one; then the frame is re-rendered and the strip's status returned; pixels and indicators are unchanged |
| `RemapA.Device.Init` | config/drivers/led_strip/led_strip_remap.c:182-211 | returns -EINVAL, changing nothing, exactly when some layer index is `>= led_strip_len`; otherwise returns 0 with every layer state at layer 0 and active |
| `RemapA.SetLayerShowsColor` | config/drivers/led_strip/led_strip_remap.c:149-159 | after `set_layer`, a pixel of a matching overlay with no later active overlay listing it shows `colors[layer % 4]`, although the stored layer is unreduced |
| `RemapA.SetLayerIdempotent` | config/drivers/led_strip/led_strip_remap.c:149-156 | `set_layer` twice with the same arguments gives the state of one call |
| `RemapA.DisableAllShowsIndicatorsOnly` | config/drivers/led_strip/led_strip_remap.c:170-176 | after `disable_layer(NULL)` the frame equals the one rendered with no layer overlays |
| `RemapA.InitShowsLayerZero` | config/drivers/led_strip/led_strip_remap.c:205-208 | in the state `init` seeds, a pixel whose last listing overlay is i shows i's layer-0 color |
| `RemapA.InitCheckBoundsLayers` | config/drivers/led_strip/led_strip_remap.c:193-202 | the strip-length check implies that the layer overlays fit the frame when `led_strip_len <= map_len` |
| `RemapA.InitCheckMissesFrameBound` | config/drivers/led_strip/led_strip_remap.c:196 | a layer index of 5 passes the check for an 8-LED strip, yet lies outside a 4-entry frame |
| `RemapB.RgbFromUint32` | config/drivers/led_strip_remap/led_strip_remap.c:15-16 | the decoded pixel, packed back as `r << 16` plus `g << 8` plus `b`, is exactly the low 24 bits of the word |
| `RemapB.LowBytes` | config/drivers/led_strip_remap/led_strip_remap.c:15-16 | the three bytes read off by `>> 16`, `>> 8` and the `uint8_t` truncations add back up to the low 24 bits of the word |
| `RemapB.RgbRoundTrip` | config/drivers/led_strip_remap/led_strip_remap.c:15-16 | packing (r,g,b) and decoding returns (r,g,b) |
| `RemapB.RgbIgnoresTopByte` | config/drivers/led_strip_remap/led_strip_remap.c:15-16 | two words that agree on their low 24 bits decode to the same pixel |
| `RemapB.FindLayer` | config/drivers/led_strip_remap/led_strip_remap.c:100-106 | finds the first overlay whose label equals the target exactly, and every earlier label differs; or reports that no label matches |
| `RemapB.SetLayerStates` | config/drivers/led_strip_remap/led_strip_remap.c:100-106 | the first overlay whose label matches exactly holds `layer % 4` and is active, every other overlay is unchanged; with no match nothing changes |
| `RemapB.DisableLayerStates` | config/drivers/led_strip_remap/led_strip_remap.c:118-123 | the first overlay whose label matches exactly becomes inactive and keeps its stored layer, every other overlay is unchanged; with no match nothing changes |
| `RemapB.Device.constructor` | config/drivers/led_strip_remap/led_strip_remap.c:167-197 | static instantiation: no indicators, zeroed `map_len`-long frames, layer states zeroed |
| `RemapB.Device.Apply` | config/drivers/led_strip_remap/led_strip_remap.c:55-92 | `output` becomes `Render` with no indicators, the strip shows it, the strip's status is returned, and pixels and overlay state are unchanged |
| `RemapB.Device.SetLayer` | config/drivers/led_strip_remap/led_strip_remap.c:95-110 | the layer state becomes `SetLayerStates` of the old one, every stored layer stays below 4, and the frame is re-rendered and the strip's status returned, even when no label matches |
| `RemapB.Device.DisableLayer` | config/drivers/led_strip_remap/led_strip_remap.c:113-127 | the layer state becomes `DisableLayerStates` of the old one, and the frame is re-rendered and the strip's status returned, even when no label matches |
| `RemapB.Device.Init` | config/drivers/led_strip_remap/led_strip_remap.c:130-148 | returns -EINVAL, changing nothing, exactly when `led_strip_len < chain_length`; otherwise returns 0 with every layer state at layer 0 and inactive |
| `RemapB.SetLayerStoresReduced` | config/drivers/led_strip_remap/led_strip_remap.c:100-106 | `set_layer` keeps every stored layer below 4; the first match holds `layer % 4` and is active; every other overlay is unchanged |
| `RemapB.SetLayerWrapExamples` | config/drivers/led_strip_remap/led_strip_remap.c:102 | layers 4, 5 and 255 are stored as 0, 1 and 3 |
| `RemapB.SetLayerIdempotent` | config/drivers/led_strip_remap/led_strip_remap.c:102-103 | `set_layer` twice with the same arguments gives the state and the frame of one call |
| `RemapB.SetLayerShowsColor` | config/drivers/led_strip_remap/led_strip_remap.c:100-109 | after `set_layer`, a pixel of the matched overlay with no later active overlay listing it shows `colors[layer % 4]` |
| `RemapB.DisableLayerHidesOverlay` | config/drivers/led_strip_remap/led_strip_remap.c:118-126 | after `disable_layer`, the frame equals the one rendered as if the matched overlay did not exist, with every other overlay in its old state |
| `RemapB.InitShowsBase` | config/drivers/led_strip_remap/led_strip_remap.c:142-147 | in the state `init` seeds, every layer overlay is off and the frame is exactly the base pixels |

## Left out

- Locking (`k_mutex_lock`/`k_mutex_unlock`) is left out because the model is sequential. The setters
  release the lock before calling `apply`, which leaves a window for another caller; that race is not modelled.
- The hardware transport behind `led_strip_update_rgb` is reduced to `LedStrip.Strip`. The strip
  records the frame and returns a status supplied by the environment. The model assumes the driver
  only reads the buffer.
- Variant A's `led_strip_remap_update_rgb`, `led_strip_remap_update_channels`, `led_strip_remap_set`
  and `led_strip_remap_clear` have empty bodies, so they have no behaviour to model. As a result,
  nothing writes `pixels` or the indicator states after construction, and no indicator setter or
  base-frame writer is modelled.
- Devicetree instantiation macros and `LOG_ERR` are code generation and logging. The device
  constructors take the configuration as parameters instead.
- Variant A's initial indicator states come from a macro that is not part of this model. They are a
  constructor parameter.
- The `map` remap table is stored but never read by the render. Only its length (`map_len`) is used.
- `config/drivers/led_strip_remap/include/led_strip_remap.h` and the two `zmk_behavior_layer_led.c`
  files are not part of this model. The header holds declarations only. The behavior files are glue
  that forwards keymap events to `set_layer`/`disable_layer`.
- LED indexes are `uint32_t` in the driver and `nat` in the model. Indexes are only compared with
  lengths, so no wrap-around arises.
- Labels are compared as whole strings, as `strcmp` compares NUL-free strings. Variant B's `strcmp`
  on a NULL label is undefined, so Variant B's setters take a non-null label.
- The model lets the setters be called before `init` has succeeded. The device framework normally
  prevents that.
- RemapA.Device.Apply, RemapA.Device.SetLayer and RemapA.Device.DisableLayer require every overlay
  index to be below `map_len`. The driver does not check this, and an index outside the frame is an
  out-of-bounds write that the model does not describe.
- RemapB.Device.Apply, RemapB.Device.SetLayer and RemapB.Device.DisableLayer carry the same
  requirement on layer overlay indexes, for the same reason.
- Variant A's `init` has a placeholder comment where further validation would go
  (config/drivers/led_strip/led_strip_remap.c:189) and no code under it. The model follows the code,
  so it has no indicator-index or chain-length check, just as it follows the empty indicator setters.
