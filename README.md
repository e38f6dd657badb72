# Topographic shader, modelled in Dafny

This project models the colouring core of Dynmap's topographic map shader
(`TopoHDShader`). It renders a column of a voxel world as a topographic
image. Flat ground is tinted by elevation, edges next to hidden blocks are
outlined, water gets a translucent tint, and configured block types are
invisible. The model covers four parts:

- `readColor`: reads a `"#RRGGBB"` configuration value as an opaque colour
  (module `HexColor`, file `read_color.dfy`);
- the constructor's elevation ramp: 256 colours, with black and white
  defaults at the ends and integer linear interpolation between configured
  anchors (module `ElevationRamp`, file `ramp.dfy`);
- the constructor's hidden-id bitmask: 2048 32-bit words, one bit per block
  id, with air always hidden (module `HiddenIds`, file `hidden_ids.dfy`);
- the per-ray state `OurShaderState`: the height shift
  (`height_shift.dfy`); `reset`, `isHidden`, `processBlock` and
  `getRayColor` (class `TopoShader.ShaderState` in `shader.dfy`); and
  front-to-back compositing (`compositing.dfy`).

The shader's configuration is a class, `TopoShader.TopoHDShader`, whose
constructor fills its arrays with the source's loops. The ray state is a
class, `TopoShader.ShaderState`, with the accumulator array, scratch colours
and water flag as fields. Each method that changes state is proved against
a specification function. `Choose` picks a block's contribution (hidden,
line, water, elevation fill), and `Composite` composites the lit colours
into the accumulators. The lemmas state the properties of those functions.

`org/dynmap/Color.java` is not part of this model. A colour is a value with
four channels in 0..255. `new Color()` and `setTransparent` give
(0,0,0,0), `isTransparent` tests alpha 0, and `new Color(r,g,b)` is opaque.

The zero-total branch of the compositing (TopoHDShader.java:279-281) can
never run: the accumulator's alpha is at least 1 there, so the total is too
(`Compositing.CompositeAlpha`).

## Model

| member | source | states |
|---|---|---|
| `Colors.WeightedMean` | src/main/java/org/dynmap/hdmap/TopoHDShader.java:69 | the floored weighted mean of two channel values lies between them, so it is a channel again; the ramp interpolation and the alpha blend are both this mean |
| `HexColor.ParseHexInt` | src/main/java/org/dynmap/hdmap/TopoHDShader.java:32 | radix-16 parsing of an optional sign and hexadecimal digits (either case) gives the signed value of the digits when it fits a 32-bit `int`; it fails on an empty string, a lone sign, any other character, or a value out of range |
| `HexColor.ReadColor` | src/main/java/org/dynmap/hdmap/TopoHDShader.java:28-39 | the value is absent exactly when it is unset, does not start with `#`, or its rest is not a radix-16 `int`; a colour read is opaque |
| `HexColor.ReadSixDigits` | src/main/java/org/dynmap/hdmap/TopoHDShader.java:30-33 | `#` followed by any six hexadecimal digits, in either letter case, reads as the opaque colour whose red, green and blue are the three digit pairs |
| `HexColor.ReadHexLiteral` | src/main/java/org/dynmap/hdmap/TopoHDShader.java:28-39 | reading the `"#RRGGBB"` literal of any colour gives back its red, green and blue channels, opaque |
| `ElevationRamp.PrevAnchor` | src/main/java/org/dynmap/hdmap/TopoHDShader.java:61-73 | the anchor a gap bucket interpolates from is present, at or below it, with no anchor in between |
| `ElevationRamp.NextAnchor` | src/main/java/org/dynmap/hdmap/TopoHDShader.java:61-73 | the anchor a gap bucket interpolates towards is present, at or above it, with no anchor in between |
| `ElevationRamp.Lerp` | src/main/java/org/dynmap/hdmap/TopoHDShader.java:69 | an interpolated colour is opaque and each channel lies between the two anchors' channels |
| `ElevationRamp.Ramp` | src/main/java/org/dynmap/hdmap/TopoHDShader.java:55-73 | the ramp has a colour for each of the 256 buckets, with no gaps |
| `ElevationRamp.RampKeepsAnchors` | src/main/java/org/dynmap/hdmap/TopoHDShader.java:62-71 | a configured anchor is never overwritten |
| `ElevationRamp.RampEnds` | src/main/java/org/dynmap/hdmap/TopoHDShader.java:55-60 | bucket 0 is black and bucket 255 white unless configured |
| `ElevationRamp.RampBetween` | src/main/java/org/dynmap/hdmap/TopoHDShader.java:64-70 | between consecutive anchors s and i, bucket s+j is `(c0*(delta-j) + c1*j)/delta` per channel, with `delta = i - s` |
| `ElevationRamp.RampOpaque` | src/main/java/org/dynmap/hdmap/TopoHDShader.java:43-73 | every bucket of a ramp built from configuration values is opaque |
| `ElevationRamp.GreyScaleRamp` | src/main/java/org/dynmap/hdmap/TopoHDShader.java:55-73 | with no anchors configured, bucket k is (k, k, k) |
| `ElevationRamp.BuildRamp` | src/main/java/org/dynmap/hdmap/TopoHDShader.java:43-73 | the array built by the constructor's loops holds, in every bucket, the ramp's colour (never null) |
| `ElevationRamp.Interpolate` | src/main/java/org/dynmap/hdmap/TopoHDShader.java:61-73 | the gap-filling scan turns an array with both ends present into the ramp of those anchors |
| `HiddenIds.HiddenSetMembers` | src/main/java/org/dynmap/hdmap/TopoHDShader.java:74-86 | an id is hidden exactly when it is 0 or a configured integer strictly between 0 and 65535; every other id in 1..65535, and every out-of-range or non-integer entry, is not |
| `HiddenIds.SetBit` | src/main/java/org/dynmap/hdmap/TopoHDShader.java:82 | or-ing bit `v & 0x1F` into word `v >> 5` adds v to the set and nothing else |
| `HiddenIds.AirOnlyMask` | src/main/java/org/dynmap/hdmap/TopoHDShader.java:74-75 | the initial mask, word 0 equal to 1, holds air only |
| `HiddenIds.MaskStep` | src/main/java/org/dynmap/hdmap/TopoHDShader.java:78-84 | each list entry handled keeps the mask equal to the set of the entries so far |
| `HiddenIds.BuildMask` | src/main/java/org/dynmap/hdmap/TopoHDShader.java:74-86 | the bitmask built by the constructor's loop represents exactly the hidden set |
| `HeightShift.ComputeHeightShift` | src/main/java/org/dynmap/hdmap/TopoHDShader.java:151-156 | the loop ends with `worldHeight >> shift <= 256`, and `worldHeight >> (shift - 1) > 256` when shift > 0 |
| `HeightShift.HeightShiftLeast` | src/main/java/org/dynmap/hdmap/TopoHDShader.java:153-156 | for a positive height the shift is the least one that brings the height to at most 256 |
| `HeightShift.PowerOfTwoHeightFits` | src/main/java/org/dynmap/hdmap/TopoHDShader.java:236 | when the world height is a power of two, `y >> heightshift` is a bucket 0..255 for every height y in the world |
| `HeightShift.NonPowerOfTwoOverflows` | src/main/java/org/dynmap/hdmap/TopoHDShader.java:255 | for world height 513 the shift is 1, and height 512 maps to bucket 256, one past the ramp |
| `Compositing.AddedAlpha` | src/main/java/org/dynmap/hdmap/TopoHDShader.java:272 | `b*(255-a0)/255` never takes the total alpha past 255, and an opaque contribution fills exactly the remainder |
| `Compositing.Blend` | src/main/java/org/dynmap/hdmap/TopoHDShader.java:274-278 | a blended slot's alpha is the total alpha, and each channel lies between the accumulated and the lit channel |
| `Compositing.Composite` | src/main/java/org/dynmap/hdmap/TopoHDShader.java:263-284 | compositing keeps the number of slots |
| `Compositing.CompositeIntoTransparent` | src/main/java/org/dynmap/hdmap/TopoHDShader.java:264-268 | a transparent accumulator copies the lit colours exactly, and the ray stops exactly when alpha is 255 |
| `Compositing.CompositeAlpha` | src/main/java/org/dynmap/hdmap/TopoHDShader.java:270-283 | otherwise every slot's alpha becomes `a0 + b*(255-a0)/255`, between a0 (at least 1, so never 0) and 255, and the ray stops exactly when it is at least 254 |
| `Compositing.CompositeChannelsBetween` | src/main/java/org/dynmap/hdmap/TopoHDShader.java:275-278 | each blended channel lies between the accumulated and the lit channel of its slot |
| `Compositing.OpaqueStops` | src/main/java/org/dynmap/hdmap/TopoHDShader.java:263-284 | an opaque contribution always stops the ray and leaves slot 0 opaque |
| `Compositing.TwoContributions` | src/main/java/org/dynmap/hdmap/TopoHDShader.java:263-284 | contributions of alpha a and then b into a transparent accumulator end at alpha `a + b*(255-a)/255` |
| `TopoShader.WaterAlphaWithoutWaterColor` | src/main/java/org/dynmap/hdmap/TopoHDShader.java:50-53 | `wateralpha` below 1 with no `watercolor` dereferences null |
| `TopoShader.WaterColor` | src/main/java/org/dynmap/hdmap/TopoHDShader.java:49-53 | the water colour is present exactly when configured, keeps its channels and takes the water alpha when that is below 255 |
| `TopoShader.WaterColorAgrees` | src/main/java/org/dynmap/hdmap/TopoHDShader.java:49-53 | the constructor as written fails exactly when there is no water colour and the alpha is below 255; otherwise it gives `WaterColor` |
| `TopoShader.TopoHDShader.constructor` | src/main/java/org/dynmap/hdmap/TopoHDShader.java:40-87 | after construction the ramp array has no null entry and holds `Ramp` of the configured anchors, the bitmask represents `HiddenSet`, and the line and water colours are read |
| `TopoShader.ChooseContinue` | src/main/java/org/dynmap/hdmap/TopoHDShader.java:205-259 | a block contributes nothing exactly when it is hidden, or when it is a water block off any line, with water tinting on, while already in water |
| `TopoShader.ChooseWaterFlag` | src/main/java/org/dynmap/hdmap/TopoHDShader.java:218-258 | the water flag is set exactly by the first water block of a run, which paints the water colour; line and elevation paints clear it |
| `TopoShader.WaterPaintsOnce` | src/main/java/org/dynmap/hdmap/TopoHDShader.java:226-233 | of two consecutive visible water blocks, the first paints the water colour and the second contributes nothing |
| `TopoShader.GreyRampSingleBlock` | src/main/java/org/dynmap/hdmap/TopoHDShader.java:235-268 | with no anchors, line or water colour, one visible block at height y ends a fresh ray at once in the opaque grey (y, y, y) |
| `TopoShader.ShaderState.constructor` | src/main/java/org/dynmap/hdmap/TopoHDShader.java:136-164 | a new state has one slot (two with day and night lighting), every slot transparent, not in water, and the height shift of the world height |
| `TopoShader.ShaderState.Reset` | src/main/java/org/dynmap/hdmap/TopoHDShader.java:189-193 | every slot becomes transparent and the water flag clears; nothing else changes |
| `TopoShader.ShaderState.IsHidden` | src/main/java/org/dynmap/hdmap/TopoHDShader.java:195-200 | the bit test (word `id >> 5`, always below 2048) answers exactly membership of the hidden set |
| `TopoShader.ShaderState.ProcessBlock` | src/main/java/org/dynmap/hdmap/TopoHDShader.java:205-284 | when `Choose` gives no contribution, the step returns false and changes nothing; otherwise the step paints the chosen colour, sets the water flag as chosen, lights it per slot, and leaves the accumulators and the stop flag as `Composite` gives them |
| `TopoShader.ShaderState.Accumulate` | src/main/java/org/dynmap/hdmap/TopoHDShader.java:263-284 | the compositing loops leave the accumulators and the stop flag as `Composite` gives them |
| `TopoShader.ShaderState.ApplyLighting` | src/main/java/org/dynmap/hdmap/TopoHDShader.java:261 | the scratch colours hold one lit colour per slot |
| `TopoShader.ShaderState.RayColor` | src/main/java/org/dynmap/hdmap/TopoHDShader.java:296-298 | the result for a slot is its accumulated colour |

## Findings

| source | as written | input that shows it | evidently intended | confidence | as-written member | corrected member |
|---|---|---|---|---|---|---|
| src/main/java/org/dynmap/hdmap/TopoHDShader.java:50-53 | `watercolor.setAlpha(...)` runs whenever `wateralpha < 1.0`, also when no `watercolor` is configured | `wateralpha: 0.5` with no `watercolor`: `watercolor` is null and the constructor throws `NullPointerException` | apply the alpha only to a configured water colour; with none, water tinting stays off | high (not executed) | `TopoShader.WaterColorAsWritten` (`TopoShader.WaterAlphaWithoutWaterColor`) | `TopoShader.WaterColor` (`TopoShader.WaterColorAgrees`) |

## Left out

- `applyLighting` (TopoHDShader.java:261) is a foreign lighting model. `ProcessBlock` takes it as a function from the raw colour and a slot index to that slot's lit colour. Its dependence on the ray position and light levels is folded into the function the caller passes for each step.
- The traversal collaborators `getBlockTypeIDAt`, `getY`, `getSubblockCoord` and `getLastBlockStep` are inputs: a `Step` record and a neighbour function. `getWorldHeight` is a constructor parameter.
- `wateralpha` is a float. The model takes `(int)(255 * wateralpha)` as a given channel value, with 255 standing for "at least 1.0". A negative `wateralpha` is not modelled.
- `HexColor.ParseHexInt`: `Integer.parseInt` also accepts non-ASCII Unicode digits; the model accepts only ASCII hexadecimal digits (with an optional sign and the 32-bit range).
- The `Log.severe` message for a malformed colour is not modelled: the value is simply absent.
- Not modelled: the capability flags (TopoHDShader.java:89-117), `getName`, `getShader`, `getMap`, `getLighting`, `getStateInstance`, `rayFinished` and `cleanup` (both empty), `getCTMTextureCache`, `getLightingTable`, the brightness-table lookup (TopoHDShader.java:157-162), `addClientConfiguration`, `exportAsMaterialLibrary` (always throws) and `getCurrentBlockMaterials`. These are wiring, constants or I/O.
- An absent `hiddenids` list is modelled as an empty list.
- `TopoShader.ShaderState.ProcessBlock` requires the bucket `y >> heightshift` to be in 0..255 for every block. The source reads the ramp only on the elevation-fill path and throws there otherwise. `HeightShift.PowerOfTwoHeightFits` shows that the requirement holds for power-of-two world heights.
- `TopoShader.ShaderState.ProcessBlock` requires every block id, and every neighbour id, to be in 0..65535. The source looks up neighbours only on edges, and `isHidden` throws outside that range.
- `TopoShader.ShaderState.Accumulate`: the zero-total branch (TopoHDShader.java:279-281) is marked unreachable rather than modelled, because `Compositing.CompositeAlpha` proves the total is at least 1 there.
- `HeightShift.Shr` models `>>` as repeated floor halving. Java's masking of the shift distance to 5 bits never applies at the shifts used.
- Concurrency is not modelled: each ray state is used by one tile task at a time. No `int` overflow can occur: every product is at most 2 * 255 * 255.
