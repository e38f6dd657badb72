/** Front-to-back compositing of a block's lit colours under the colours a
    ray has accumulated so far, one accumulator per lighting slot. Slot 0
    decides for all slots: its transparency picks the branch and its alphas
    weight every slot's blend. */
module Compositing {
  import opened Colors

  /** The coverage a contribution of alpha b adds under an accumulator of
      alpha a0: `b * (255 - a0) / 255`. It never takes the total past 255,
      and an opaque contribution fills exactly what is left. */
  function AddedAlpha(a0: Channel, b: Channel): (a1: int)
    ensures 0 <= a1 <= 255 - a0
    ensures b == 255 ==> a1 == 255 - a0
  {
    ScaledAlphaBound(a0, b);
    b * (255 - a0) / 255
  }

  lemma ScaledAlphaBound(a0: Channel, b: Channel)
    ensures 0 <= b * (255 - a0) / 255 <= 255 - a0
  {
    assert 0 <= b * (255 - a0) <= 255 * (255 - a0);
  }

  /** A slot blended from accumulated colour `under` (weight a0) and lit
      colour `over` (weight a1); its alpha is the total weight. */
  function Blend(under: Color, over: Color, a0: int, a1: int): (r: Color)
    requires 0 <= a0 && 0 <= a1 && 0 < a0 + a1 <= 255
    ensures r.alpha == a0 + a1
    ensures Min(under.red, over.red) <= r.red <= Max(under.red, over.red)
    ensures Min(under.green, over.green) <= r.green <= Max(under.green, over.green)
    ensures Min(under.blue, over.blue) <= r.blue <= Max(under.blue, over.blue)
  {
    Color(WeightedMean(under.red, a0, over.red, a1),
          WeightedMean(under.green, a0, over.green, a1),
          WeightedMean(under.blue, a0, over.blue, a1),
          a0 + a1)
  }

  /** One compositing step: the new accumulators and whether the ray is
      done. A transparent accumulator takes the lit colours as they are and
      is done when they are opaque; otherwise every slot is blended and the
      ray is done once the total alpha reaches 254. */
  function Composite(acc: seq<Color>, lit: seq<Color>): (r: (seq<Color>, bool))
    requires 0 < |acc| == |lit|
    ensures |r.0| == |acc|
  {
    if acc[0].IsTransparent() then (lit, lit[0].alpha == 255)
    else
      var a0 := acc[0].alpha;
      var a1 := AddedAlpha(a0, lit[0].alpha);
      (seq(|acc|, i requires 0 <= i < |acc| => Blend(acc[i], lit[i], a0, a1)), a0 + a1 >= 254)
  }

  /** Into a transparent accumulator the lit colours are copied exactly, and
      the ray stops exactly when slot 0 became opaque. */
  lemma CompositeIntoTransparent(acc: seq<Color>, lit: seq<Color>)
    requires 0 < |acc| == |lit| && acc[0].IsTransparent()
    ensures Composite(acc, lit).0 == lit
    ensures Composite(acc, lit).1 <==> lit[0].alpha == 255
  {
  }

  /** Over a non-transparent accumulator every slot gets alpha
      `a0 + b * (255 - a0) / 255`, which is at least a0 and at most 255, and
      the ray stops exactly when that reaches 254. The total is therefore
      never 0 here. */
  lemma CompositeAlpha(acc: seq<Color>, lit: seq<Color>, i: int)
    requires 0 < |acc| == |lit| && !acc[0].IsTransparent() && 0 <= i < |acc|
    ensures var a0, b := acc[0].alpha, lit[0].alpha;
      Composite(acc, lit).0[i].alpha == a0 + b * (255 - a0) / 255
    ensures 0 < acc[0].alpha <= Composite(acc, lit).0[i].alpha <= 255
    ensures Composite(acc, lit).1 <==> Composite(acc, lit).0[0].alpha >= 254
  {
  }

  /** Over a non-transparent accumulator each channel of each slot lands
      between the accumulated channel and the lit channel. */
  lemma CompositeChannelsBetween(acc: seq<Color>, lit: seq<Color>, i: int)
    requires 0 < |acc| == |lit| && !acc[0].IsTransparent() && 0 <= i < |acc|
    ensures var c := Composite(acc, lit).0[i];
      Min(acc[i].red, lit[i].red) <= c.red <= Max(acc[i].red, lit[i].red) &&
      Min(acc[i].green, lit[i].green) <= c.green <= Max(acc[i].green, lit[i].green) &&
      Min(acc[i].blue, lit[i].blue) <= c.blue <= Max(acc[i].blue, lit[i].blue)
  {
  }

  /** An opaque contribution always ends the ray, leaving slot 0 opaque. */
  lemma OpaqueStops(acc: seq<Color>, lit: seq<Color>)
    requires 0 < |acc| == |lit| && lit[0].alpha == 255
    ensures Composite(acc, lit).1 && Composite(acc, lit).0[0].alpha == 255
  {
  }

  /** Two contributions of alphas a and then b into a transparent
      accumulator end at alpha `a + b * (255 - a) / 255` (with a = 0 the
      first leaves it transparent and the second is copied as it is). */
  lemma TwoContributions(acc: seq<Color>, lit1: seq<Color>, lit2: seq<Color>)
    requires 0 < |acc| == |lit1| == |lit2| && acc[0].IsTransparent()
    ensures var a, b := lit1[0].alpha, lit2[0].alpha;
      Composite(Composite(acc, lit1).0, lit2).0[0].alpha == a + b * (255 - a) / 255
  {
  }
}
