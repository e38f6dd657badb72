/** Colours as the shader sees them: four 8-bit channels, with alpha 0 fully
    transparent and alpha 255 fully opaque. */
module Colors {

  /** One 8-bit colour channel. */
  type Channel = x: int | 0 <= x <= 255

  datatype Option<T> = None | Some(value: T)

  datatype Color = Color(red: Channel, green: Channel, blue: Channel, alpha: Channel) {
    predicate IsTransparent() { alpha == 0 }
  }

  /** What `setTransparent` leaves behind: every channel zero. */
  const Transparent: Color := Color(0, 0, 0, 0)
  const Black: Color := Color(0, 0, 0, 255)
  const White: Color := Color(255, 255, 255, 255)

  function Min(x: int, y: int): int { if x <= y then x else y }
  function Max(x: int, y: int): int { if x <= y then y else x }

  /** The floored weighted mean `(x0*w0 + x1*w1) / (w0 + w1)` of two channel
      values. Both the ramp interpolation and the alpha blend are this mean,
      with the weights written in a different order. */
  function WeightedMean(x0: Channel, w0: int, x1: Channel, w1: int): (v: Channel)
    requires 0 <= w0 && 0 <= w1 && 0 < w0 + w1
    ensures Min(x0, x1) <= v <= Max(x0, x1)
  {
    WeightedMeanBounds(x0, w0, x1, w1);
    (x0 * w0 + x1 * w1) / (w0 + w1)
  }

  lemma WeightedMeanBounds(x0: int, w0: int, x1: int, w1: int)
    requires 0 <= w0 && 0 <= w1 && 0 < w0 + w1
    ensures Min(x0, x1) <= (x0 * w0 + x1 * w1) / (w0 + w1) <= Max(x0, x1)
  {
    var lo, hi, w := Min(x0, x1), Max(x0, x1), w0 + w1;
    var s := x0 * w0 + x1 * w1;
    assert lo * w <= s by {
      assert lo * w0 <= x0 * w0 && lo * w1 <= x1 * w1;
    }
    assert s <= hi * w by {
      assert x0 * w0 <= hi * w0 && x1 * w1 <= hi * w1;
    }
    DivBetween(s, w, lo, hi);
  }

  /** If `lo * w <= s <= hi * w` then `lo <= s / w <= hi`. */
  lemma DivBetween(s: int, w: int, lo: int, hi: int)
    requires 0 < w && lo * w <= s <= hi * w
    ensures lo <= s / w <= hi
  {
    var q := s / w;
    assert q * w <= s < (q + 1) * w;
    MulLess(lo, q + 1, w);
    MulLess(q, hi + 1, w);
  }

  /** Multiplying by a positive weight keeps a strict order. */
  lemma MulLess(x: int, y: int, w: int)
    requires 0 < w && x * w < y * w
    ensures x < y
  {
    assert (y - x) * w > 0;
  }
}
