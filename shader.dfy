/** The topographic shader: its immutable configuration (ramp, hidden ids,
    line and water colours) and the per-ray state machine that walks a ray
    through blocks, chooses what each block contributes and composites it. */
module TopoShader {
  import opened Colors
  import opened HexColor
  import opened ElevationRamp
  import opened HiddenIds
  import opened HeightShift
  import opened Compositing

  /** The configuration values the shader reads. */
  datatype Configuration = Configuration(
    colors: seq<Option<string>>,  // color0 .. color255
    lineColor: Option<string>,
    waterColor: Option<string>,
    waterAlpha: Channel,          // (int)(255 * wateralpha); 255 when wateralpha is at least 1
    hiddenIds: seq<ListEntry>)    // an absent list reads as []

  /** The outcome of a step that can fail by dereferencing null. */
  datatype Outcome<T> = Ok(value: T) | NullPointerException

  /** The water colour as the constructor derives it: a water alpha below
      255 is set on the configured water colour, also when there is none. */
  function WaterColorAsWritten(water: Option<Color>, waterAlpha: Channel): Outcome<Option<Color>>
  {
    if waterAlpha < 255 then
      if water.None? then NullPointerException else Ok(Some(water.value.(alpha := waterAlpha)))
    else Ok(water)
  }

  /** Configuring `wateralpha` below 1 without a `watercolor` fails. */
  lemma WaterAlphaWithoutWaterColor()
    ensures WaterColorAsWritten(None, 128) == NullPointerException
  {
  }

  /** The water colour with the water alpha applied only when there is a
      water colour: absent stays absent (water tinting off), and a present
      colour keeps its channels and takes the alpha. */
  function WaterColor(water: Option<Color>, waterAlpha: Channel): (r: Option<Color>)
    ensures r.Some? <==> water.Some?
    ensures r.Some? ==>
      r.value.red == water.value.red && r.value.green == water.value.green && r.value.blue == water.value.blue
    ensures r.Some? ==> r.value.alpha == if waterAlpha < 255 then waterAlpha else water.value.alpha
  {
    if waterAlpha < 255 && water.Some? then Some(water.value.(alpha := waterAlpha)) else water
  }

  /** Wherever the constructor as written does not fail it agrees with
      WaterColor. */
  lemma WaterColorAgrees(water: Option<Color>, waterAlpha: Channel)
    ensures WaterColorAsWritten(water, waterAlpha).Ok? <==> (water.Some? || waterAlpha == 255)
    ensures WaterColorAsWritten(water, waterAlpha).Ok? ==>
      WaterColorAsWritten(water, waterAlpha).value == WaterColor(water, waterAlpha)
  {
  }

  /** The shader's configuration as values: what a ray state consults. */
  datatype Palette = Palette(line: Option<Color>, water: Option<Color>, fill: seq<Color>, hidden: set<int>)

  class TopoHDShader {
    const lineColor: Option<Color>
    const waterColor: Option<Color>
    const fillColor: array<Option<Color>>
    const hiddenIds: array<bv32>
    /** The ramp and the hidden set that the two arrays hold. */
    ghost const ramp: seq<Color>
    ghost const hidden: set<int>

    ghost predicate Valid()
      reads fillColor, hiddenIds
    {
      fillColor.Length == RampSize && |ramp| == RampSize &&
      (forall k | 0 <= k < RampSize :: fillColor[k] == Some(ramp[k])) &&
      0 in hidden && Represents(hiddenIds[..], hidden)
    }

    ghost function Settings(): Palette {
      Palette(lineColor, waterColor, ramp, hidden)
    }

    constructor (config: Configuration)
      requires |config.colors| == RampSize
      ensures Valid() && fresh(fillColor) && fresh(hiddenIds)
      ensures ramp == Ramp(Anchors(config.colors))
      ensures hidden == HiddenSet(config.hiddenIds)
      ensures lineColor == ReadColor(config.lineColor)
      ensures waterColor == WaterColor(ReadColor(config.waterColor), config.waterAlpha)
    {
      var fill := BuildRamp(config.colors);
      var mask := BuildMask(config.hiddenIds);
      fillColor := fill;
      lineColor := ReadColor(config.lineColor);
      waterColor := WaterColor(ReadColor(config.waterColor), config.waterAlpha);
      hiddenIds := mask;
      ramp := Ramp(Anchors(config.colors));
      hidden := HiddenSet(config.hiddenIds);
    }
  }

  /** The face by which the ray entered a block. */
  datatype BlockStep = XPlus | YPlus | ZPlus | XMinus | YMinus | ZMinus

  /** What the traversal reports for the block the ray has just entered:
      its type id, its sub-block coordinates, the entry face and its world
      height. */
  datatype Step = Step(blockType: int, subX: int, subY: int, subZ: int, lastStep: BlockStep, y: int)

  /** What a block contributes: nothing (the ray goes on and the state is
      untouched), or a raw colour together with the new water flag. */
  datatype Contribution = Continue | Paint(raw: Color, inWater: bool)

  /** Whether the block is drawn in the line colour. Entered through its top
      or bottom, a block is on a line when its sub-block position touches a
      side whose neighbour is hidden; entered through a side, when its
      sub-block position is the top layer. */
  predicate LineHit(p: Palette, scale: int, s: Step, neighbour: BlockStep -> int) {
    p.line.Some? &&
    if s.lastStep == YMinus || s.lastStep == YPlus then
      (s.subX == 0 && neighbour(XMinus) in p.hidden) ||
      (s.subX == scale - 1 && neighbour(XPlus) in p.hidden) ||
      (s.subZ == 0 && neighbour(ZMinus) in p.hidden) ||
      (s.subZ == scale - 1 && neighbour(ZPlus) in p.hidden)
    else
      s.subY == scale - 1
  }

  predicate IsWater(blockType: int) {
    blockType == 8 || blockType == 9
  }

  /** The contribution of one block, in priority order: hidden, line, water
      (only the first water block of a run paints), elevation fill. */
  function Choose(p: Palette, shift: nat, scale: int, s: Step, neighbour: BlockStep -> int, inWater: bool): Contribution
    requires |p.fill| == RampSize && 0 <= Shr(s.y, shift) < RampSize
  {
    if s.blockType in p.hidden then Continue
    else if LineHit(p, scale, s, neighbour) then Paint(p.line.value, false)
    else if p.water.Some? && IsWater(s.blockType) then
      if !inWater then Paint(p.water.value, true) else Continue
    else Paint(p.fill[Shr(s.y, shift)], false)
  }

  /** A block contributes nothing exactly when it is hidden, or when it is a
      water block, not on a line, with water tinting on, inside a water run. */
  lemma ChooseContinue(p: Palette, shift: nat, scale: int, s: Step, neighbour: BlockStep -> int, inWater: bool)
    requires |p.fill| == RampSize && 0 <= Shr(s.y, shift) < RampSize
    ensures Choose(p, shift, scale, s, neighbour, inWater) == Continue <==>
      s.blockType in p.hidden ||
      (!LineHit(p, scale, s, neighbour) && p.water.Some? && IsWater(s.blockType) && inWater)
  {
  }

  /** A painting block sets the water flag exactly when it paints the water
      colour as the first block of a water run; line and fill paints clear
      the flag. */
  lemma ChooseWaterFlag(p: Palette, shift: nat, scale: int, s: Step, neighbour: BlockStep -> int, inWater: bool)
    requires |p.fill| == RampSize && 0 <= Shr(s.y, shift) < RampSize
    requires Choose(p, shift, scale, s, neighbour, inWater).Paint?
    ensures var r := Choose(p, shift, scale, s, neighbour, inWater);
      (r.inWater <==> !LineHit(p, scale, s, neighbour) && p.water.Some? && IsWater(s.blockType)) &&
      (r.inWater ==> !inWater && r.raw == p.water.value) &&
      (!r.inWater ==> r.raw == (if LineHit(p, scale, s, neighbour) then p.line.value else p.fill[Shr(s.y, shift)]))
  {
  }

  /** Through two consecutive visible water blocks off any line, the first
      paints the water colour and the second contributes nothing. */
  lemma WaterPaintsOnce(p: Palette, shift: nat, scale: int, s1: Step, s2: Step, n1: BlockStep -> int, n2: BlockStep -> int)
    requires |p.fill| == RampSize && 0 <= Shr(s1.y, shift) < RampSize && 0 <= Shr(s2.y, shift) < RampSize
    requires p.water.Some? && IsWater(s1.blockType) && IsWater(s2.blockType)
    requires s1.blockType !in p.hidden && s2.blockType !in p.hidden
    requires !LineHit(p, scale, s1, n1) && !LineHit(p, scale, s2, n2)
    ensures Choose(p, shift, scale, s1, n1, false) == Paint(p.water.value, true)
    ensures Choose(p, shift, scale, s2, n2, Choose(p, shift, scale, s1, n1, false).inWater) == Continue
  {
  }

  /** With a grey-scale ramp (no anchors), no line or water colour, no
      shift and lighting that passes colours through, a fresh one-slot ray
      meeting a visible block at height y ends at once in the opaque grey
      (y, y, y). */
  lemma GreyRampSingleBlock(anchors: seq<Option<Color>>, hidden: set<int>, scale: int, s: Step, neighbour: BlockStep -> int)
    requires |anchors| == RampSize && forall m | 0 <= m < RampSize :: anchors[m].None?
    requires 0 <= s.y < RampSize && s.blockType !in hidden
    ensures var r := Choose(Palette(None, None, Ramp(anchors), hidden), 0, scale, s, neighbour, false);
      r.Paint? && Composite([Transparent], [r.raw]) == ([Color(s.y, s.y, s.y, 255)], true)
  {
    GreyScaleRamp(anchors, s.y);
  }

  /** The lit colours of one raw colour, one per accumulator slot. */
  function Lit(lighting: (Color, int) -> Color, raw: Color, n: nat): (r: seq<Color>)
    ensures |r| == n
  {
    seq(n, i => lighting(raw, i))
  }

  /** The state of one ray: the accumulated colour per lighting slot, the
      scratch colours, and whether the ray is inside a run of water blocks. */
  class ShaderState {
    const shader: TopoHDShader
    const color: array<Color>
    const tmpColor: array<Color>
    var c: Color
    const scale: int
    const heightShift: nat
    var inWater: bool

    ghost predicate Valid()
      reads shader.fillColor, shader.hiddenIds
    {
      shader.Valid() && 1 <= color.Length && tmpColor.Length == color.Length && color != tmpColor &&
      color as object != shader.hiddenIds && tmpColor as object != shader.hiddenIds
    }

    /** A fresh state: one slot, or two when day and night are both lit,
        every slot transparent, not in water. */
    constructor (shader: TopoHDShader, worldHeight: int, scale: int, nightAndDay: bool)
      requires shader.Valid()
      ensures Valid() && this.shader == shader && this.scale == scale
      ensures fresh(color) && fresh(tmpColor)
      ensures color.Length == if nightAndDay then 2 else 1
      ensures forall i | 0 <= i < color.Length :: color[i] == Transparent
      ensures IsHeightShift(worldHeight, heightShift)
      ensures !inWater
    {
      this.shader := shader;
      var n := if nightAndDay then 2 else 1;
      color := new Color[n](_ => Transparent);
      tmpColor := new Color[n](_ => Transparent);
      this.scale := scale;
      c := Transparent;
      var shift := ComputeHeightShift(worldHeight);
      heightShift := shift;
      inWater := false;
    }

    /** Start a new ray: every slot transparent, not in water; nothing else
        changes. */
    method Reset()
      requires Valid()
      modifies this`inWater, color
      ensures Valid()
      ensures forall i | 0 <= i < color.Length :: color[i] == Transparent
      ensures !inWater
    {
      for i := 0 to color.Length
        invariant forall k | 0 <= k < i :: color[k] == Transparent
      {
        color[i] := Transparent;
      }
      inWater := false;
    }

    /** Whether block type id is hidden: air always, otherwise its bit. */
    function IsHidden(id: int): (r: bool)
      reads shader.fillColor, shader.hiddenIds
      requires shader.Valid() && 0 <= id < IdCount
      ensures r <==> id in shader.hidden
    {
      id == 0 || shader.hiddenIds[id / 32] & Mask(id % 32) != 0
    }

    /** Process the next block on the ray and tell whether the ray is done.
        The contribution is chosen by Choose; a painting block's colour goes
        through the lighting, one lit colour per slot, and is composited
        into the accumulators by Composite. */
    method ProcessBlock(s: Step, neighbour: BlockStep -> int, lighting: (Color, int) -> Color) returns (done: bool)
      requires Valid()
      requires 0 <= s.blockType < IdCount && forall d :: 0 <= neighbour(d) < IdCount
      requires 0 <= Shr(s.y, heightShift) < RampSize
      modifies this`c, this`inWater, color, tmpColor
      ensures Valid()
      ensures match Choose(shader.Settings(), heightShift, scale, s, neighbour, old(inWater))
        case Continue => !done && unchanged(this, color, tmpColor)
        case Paint(raw, water) =>
          c == raw && inWater == water &&
          tmpColor[..] == Lit(lighting, raw, color.Length) &&
          (color[..], done) == Composite(old(color[..]), tmpColor[..])
    {
      ghost var p := shader.Settings();
      ghost var r := Choose(p, heightShift, scale, s, neighbour, inWater);
      if IsHidden(s.blockType) {
        assert r == Continue;
        return false;
      }
      var lineHit: bool;
      match s.lastStep {
        case YMinus | YPlus =>
          lineHit := shader.lineColor.Some? &&
            ((s.subX == 0 && IsHidden(neighbour(XMinus))) ||
             (s.subX == scale - 1 && IsHidden(neighbour(XPlus))) ||
             (s.subZ == 0 && IsHidden(neighbour(ZMinus))) ||
             (s.subZ == scale - 1 && IsHidden(neighbour(ZPlus))));
        case _ =>
          lineHit := shader.lineColor.Some? && s.subY == scale - 1;
      }
      assert lineHit == LineHit(p, scale, s, neighbour);
      if lineHit {
        c := shader.lineColor.value;
        inWater := false;
      } else if shader.waterColor.Some? && (s.blockType == 8 || s.blockType == 9) {
        if !inWater {
          c := shader.waterColor.value;
          inWater := true;
        } else {
          assert r == Continue;
          return false;
        }
      } else {
        c := shader.fillColor[Shr(s.y, heightShift)].value;
        inWater := false;
      }
      assert r == Paint(c, inWater);
      ApplyLighting(lighting);
      done := Accumulate();
    }

    /** Composite the lit colours into the accumulators. */
    method Accumulate() returns (done: bool)
      requires Valid()
      modifies color
      ensures Valid()
      ensures (color[..], done) == Composite(old(color[..]), tmpColor[..])
    {
      if color[0].IsTransparent() {
        for i := 0 to color.Length
          invariant forall k | 0 <= k < i :: color[k] == tmpColor[k]
        {
          color[i] := tmpColor[i];
        }
        assert color[..] == tmpColor[..];
        done := color[0].alpha == 255;
      } else {
        var alpha := color[0].alpha;
        var alpha2 := AddedAlpha(alpha, tmpColor[0].alpha);
        var talpha := alpha + alpha2;
        if talpha > 0 {
          for i := 0 to color.Length
            invariant forall k | 0 <= k < i :: color[k] == Blend(old(color[k]), tmpColor[k], alpha, alpha2)
            invariant forall k | i <= k < color.Length :: color[k] == old(color[k])
          {
            color[i] := Blend(color[i], tmpColor[i], alpha, alpha2);
          }
          assert color[..] == Composite(old(color[..]), tmpColor[..]).0;
        } else {
          // The source makes every slot transparent here, but alpha is at
          // least 1 in this branch, so talpha is too.
          assert false;
        }
        done := talpha >= 254;
      }
    }

    /** The lighting collaborator: one lit colour of c per slot, into the
        scratch colours. */
    method ApplyLighting(lighting: (Color, int) -> Color)
      requires Valid()
      modifies tmpColor
      ensures Valid()
      ensures tmpColor[..] == Lit(lighting, c, tmpColor.Length)
    {
      for i := 0 to tmpColor.Length
        invariant forall k | 0 <= k < i :: tmpColor[k] == lighting(c, k)
      {
        tmpColor[i] := lighting(c, i);
      }
    }

    /** The accumulated colour of one slot, read when the ray is done. */
    method RayColor(index: int) returns (r: Color)
      requires 0 <= index < color.Length
      ensures r == color[index]
    {
      r := color[index];
    }
  }
}
