/** The elevation colour ramp: one colour for each of 256 height buckets,
    built from the anchors configured as `color0` .. `color255`. Bucket 0
    defaults to black and bucket 255 to white; every bucket without an
    anchor is the integer linear interpolation between the nearest anchor
    below it and the nearest anchor above it. */
module ElevationRamp {
  import opened Colors
  import opened HexColor

  const RampSize: int := 256

  /** The anchors read from the configuration values `color0` .. `color255`. */
  function Anchors(config: seq<Option<string>>): (a: seq<Option<Color>>)
    requires |config| == RampSize
    ensures |a| == RampSize
  {
    seq(RampSize, k requires 0 <= k < RampSize => ReadColor(config[k]))
  }

  /** 256 optional anchors of which the first and the last are present. */
  predicate Bracketed(a: seq<Option<Color>>) {
    |a| == RampSize && a[0].Some? && a[RampSize - 1].Some?
  }

  /** The anchors with black put in bucket 0 and white in bucket 255 where
      those are not configured. */
  function WithDefaults(anchors: seq<Option<Color>>): (a: seq<Option<Color>>)
    requires |anchors| == RampSize
    ensures Bracketed(a)
  {
    var a0 := if anchors[0].None? then anchors[0 := Some(Black)] else anchors;
    if a0[255].None? then a0[255 := Some(White)] else a0
  }

  /** The nearest anchor at or below bucket k. */
  function PrevAnchor(a: seq<Option<Color>>, k: int): (p: int)
    requires Bracketed(a) && 0 <= k < RampSize
    ensures 0 <= p <= k && a[p].Some?
    ensures forall m | p < m <= k :: a[m].None?
    decreases k
  {
    if a[k].Some? then k else PrevAnchor(a, k - 1)
  }

  /** The nearest anchor at or above bucket k. */
  function NextAnchor(a: seq<Option<Color>>, k: int): (q: int)
    requires Bracketed(a) && 0 <= k < RampSize
    ensures k <= q < RampSize && a[q].Some?
    ensures forall m | k <= m < q :: a[m].None?
    decreases RampSize - k
  {
    if a[k].Some? then k else NextAnchor(a, k + 1)
  }

  /** The colour j steps past anchor colour c0 on the way to anchor colour
      c1, delta steps away: per channel `(c0*(delta-j) + c1*j) / delta`. */
  function Lerp(c0: Color, c1: Color, delta: int, j: int): (c: Color)
    requires 0 < j < delta
    ensures c.alpha == 255
    ensures Min(c0.red, c1.red) <= c.red <= Max(c0.red, c1.red)
    ensures Min(c0.green, c1.green) <= c.green <= Max(c0.green, c1.green)
    ensures Min(c0.blue, c1.blue) <= c.blue <= Max(c0.blue, c1.blue)
  {
    Color(WeightedMean(c0.red, delta - j, c1.red, j),
          WeightedMean(c0.green, delta - j, c1.green, j),
          WeightedMean(c0.blue, delta - j, c1.blue, j),
          255)
  }

  /** The colour of bucket k for bracketed anchors a. */
  function RampAt(a: seq<Option<Color>>, k: int): Color
    requires Bracketed(a) && 0 <= k < RampSize
  {
    if a[k].Some? then a[k].value
    else
      var p, q := PrevAnchor(a, k), NextAnchor(a, k);
      Lerp(a[p].value, a[q].value, q - p, k - p)
  }

  /** The whole ramp for the configured anchors. */
  function Ramp(anchors: seq<Option<Color>>): (r: seq<Color>)
    requires |anchors| == RampSize
    ensures |r| == RampSize
  {
    var a := WithDefaults(anchors);
    seq(RampSize, k requires 0 <= k < RampSize => RampAt(a, k))
  }

  /** A configured anchor is never overwritten. */
  lemma RampKeepsAnchors(anchors: seq<Option<Color>>, k: int)
    requires |anchors| == RampSize && 0 <= k < RampSize && anchors[k].Some?
    ensures Ramp(anchors)[k] == anchors[k].value
  {
  }

  /** Bucket 0 is black and bucket 255 is white unless configured. */
  lemma RampEnds(anchors: seq<Option<Color>>)
    requires |anchors| == RampSize
    ensures Ramp(anchors)[0] == if anchors[0].Some? then anchors[0].value else Black
    ensures Ramp(anchors)[255] == if anchors[255].Some? then anchors[255].value else White
  {
  }

  /** Between two consecutive anchors s < i, bucket s + j is the
      interpolation j steps of i - s from anchor s to anchor i. */
  lemma RampBetween(a: seq<Option<Color>>, s: int, i: int, j: int)
    requires Bracketed(a) && 0 <= s < i < RampSize && a[s].Some? && a[i].Some?
    requires forall m | s < m < i :: a[m].None?
    requires 0 < j < i - s
    ensures RampAt(a, s + j) == Lerp(a[s].value, a[i].value, i - s, j)
  {
    var p, q := PrevAnchor(a, s + j), NextAnchor(a, s + j);
    assert p == s by {
      assert !(s < p);
      assert !(p < s) by { assert a[s].Some?; }
    }
    assert q == i by {
      assert !(q < i);
      assert !(i < q) by { assert a[i].Some?; }
    }
  }

  /** Anchors read from the configuration are opaque, so every bucket is. */
  lemma RampOpaque(config: seq<Option<string>>)
    requires |config| == RampSize
    ensures forall k | 0 <= k < RampSize :: Ramp(Anchors(config))[k].alpha == 255
  {
    var anchors := Anchors(config);
    forall k | 0 <= k < RampSize ensures Ramp(anchors)[k].alpha == 255 {
      if anchors[k].Some? {
        RampKeepsAnchors(anchors, k);
      }
    }
  }

  /** With no anchor configured the ramp is the grey scale: bucket k is
      (k, k, k). */
  lemma GreyScaleRamp(anchors: seq<Option<Color>>, k: int)
    requires |anchors| == RampSize && forall m | 0 <= m < RampSize :: anchors[m].None?
    requires 0 <= k < RampSize
    ensures Ramp(anchors)[k] == Color(k, k, k, 255)
  {
    var a := WithDefaults(anchors);
    assert a[0] == Some(Black) && a[255] == Some(White);
    if 0 < k < 255 {
      RampBetween(a, 0, 255, k);
      assert (0 * (255 - k) + 255 * k) / 255 == k;
    }
  }

  /** The ramp-building loops of the shader's constructor: load the anchors,
      put in the black and white defaults, then fill the gaps. */
  method BuildRamp(config: seq<Option<string>>) returns (fill: array<Option<Color>>)
    requires |config| == RampSize
    ensures fresh(fill) && fill.Length == RampSize
    ensures forall k | 0 <= k < RampSize :: fill[k] == Some(Ramp(Anchors(config))[k])
  {
    ghost var anchors := Anchors(config);
    fill := new Option<Color>[RampSize];
    for i := 0 to RampSize
      invariant forall k | 0 <= k < i :: fill[k] == anchors[k]
    {
      fill[i] := ReadColor(config[i]);
    }
    if fill[0].None? {
      fill[0] := Some(Black);
    }
    if fill[255].None? {
      fill[255] := Some(White);
    }
    assert fill[..] == WithDefaults(anchors);
    Interpolate(fill);
  }

  /** Scan buckets 1 .. 255 upwards; at each anchor found, fill the gap
      between it and the previous anchor. */
  method Interpolate(fill: array<Option<Color>>)
    requires fill.Length == RampSize && Bracketed(fill[..])
    modifies fill
    ensures forall k | 0 <= k < RampSize :: fill[k] == Some(RampAt(old(fill[..]), k))
  {
    ghost var a := fill[..];
    var start := 0;
    for i := 1 to RampSize
      invariant 0 <= start < i
      invariant a[start].Some? && forall m | start < m < i :: a[m].None?
      invariant forall k | 0 <= k <= start :: fill[k] == Some(RampAt(a, k))
      invariant forall k | start < k < RampSize :: fill[k] == a[k]
    {
      if fill[i].Some? {
        var delta := i - start;
        var c0, c1 := fill[start].value, fill[i].value;
        for j := 1 to delta
          invariant forall k | 0 <= k < start + j :: fill[k] == Some(RampAt(a, k))
          invariant forall k | start + j <= k < RampSize :: fill[k] == a[k]
        {
          RampBetween(a, start, i, j);
          fill[start + j] := Some(Lerp(c0, c1, delta, j));
        }
        start := i;
      }
    }
  }
}
