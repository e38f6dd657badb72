/** The colour-literal reader: a configured `"#RRGGBB"` string becomes an
    opaque colour, and an absent or malformed one becomes "absent". */
module HexColor {
  import opened Colors

  /** The range of a 32-bit two's-complement `int`. */
  const MinInt: int := -0x8000_0000
  const MaxInt: int := 0x7FFF_FFFF

  predicate IsHexDigit(ch: char) {
    '0' <= ch <= '9' || 'a' <= ch <= 'f' || 'A' <= ch <= 'F'
  }

  function DigitValue(ch: char): (d: nat)
    requires IsHexDigit(ch)
    ensures d < 16
  {
    if '0' <= ch <= '9' then ch as int - '0' as int
    else if 'a' <= ch <= 'f' then ch as int - 'a' as int + 10
    else ch as int - 'A' as int + 10
  }

  predicate AllHex(s: string) {
    forall i | 0 <= i < |s| :: IsHexDigit(s[i])
  }

  /** The value of a string of hexadecimal digits, most significant first. */
  function HexValue(s: string): nat
    requires AllHex(s)
  {
    if |s| == 0 then 0 else 16 * HexValue(s[..|s| - 1]) + DigitValue(s[|s| - 1])
  }

  function Pow16(n: nat): (p: nat)
    ensures p > 0
  {
    if n == 0 then 1 else 16 * Pow16(n - 1)
  }

  /** Radix-16 integer parsing: an optional sign, then at least one digit,
      and the value must fit in a 32-bit `int`; anything else fails. */
  function ParseHexInt(s: string): (r: Option<int>)
    ensures r.Some? ==> MinInt <= r.value <= MaxInt
    // no digits at all
    ensures |s| == 0 || s == "-" || s == "+" ==> r.None?
    // a character that is neither a digit nor a leading sign
    ensures (exists i | 0 <= i < |s| :: !IsHexDigit(s[i]) && !(i == 0 && (s[0] == '-' || s[0] == '+'))) ==> r.None?
    // unsigned or '+': the digits' value, when it fits
    ensures 0 < |s| && AllHex(s) ==> (r.Some? <==> HexValue(s) <= MaxInt) && (r.Some? ==> r.value == HexValue(s))
    ensures 1 < |s| && s[0] == '+' && AllHex(s[1..]) ==>
      (r.Some? <==> HexValue(s[1..]) <= MaxInt) && (r.Some? ==> r.value == HexValue(s[1..]))
    // '-': the negated digits' value, down to -2^31
    ensures 1 < |s| && s[0] == '-' && AllHex(s[1..]) ==>
      (r.Some? <==> HexValue(s[1..]) <= -MinInt) && (r.Some? ==> r.value == -(HexValue(s[1..]) as int))
  {
    var signed := |s| > 0 && (s[0] == '-' || s[0] == '+');
    var digits := if signed then s[1..] else s;
    if |digits| == 0 || !AllHex(digits) then None
    else
      var v: int := if signed && s[0] == '-' then -(HexValue(digits) as int) else HexValue(digits);
      if MinInt <= v <= MaxInt then Some(v) else None
  }

  /** `readColor`: a value is read only when it starts with `#`; the rest is
      parsed as a radix-16 `int` c and the channels are `(c >> 16) & 0xFF`,
      `(c >> 8) & 0xFF` and `c & 0xFF` (an arithmetic shift is a floored
      division, and masking a two's-complement value is a Euclidean
      remainder). The colour is opaque. */
  function ReadColor(value: Option<string>): (r: Option<Color>)
    ensures r.Some? ==> r.value.alpha == 255
    ensures r.Some? ==> value.Some? && |value.value| > 1 && value.value[0] == '#'
    ensures r.None? <==> value.None? || |value.value| == 0 || value.value[0] != '#' || ParseHexInt(value.value[1..]).None?
  {
    match value
    case None => None
    case Some(s) =>
      if |s| > 0 && s[0] == '#' then
        match ParseHexInt(s[1..])
        case None => None
        case Some(c) => Some(Color((c / 0x1_0000) % 0x100, (c / 0x100) % 0x100, c % 0x100, 255))
      else None
  }

  const Digits: string := "0123456789ABCDEF"

  /** Two upper-case hexadecimal digits for one channel. */
  function Hex2(x: Channel): (s: string)
    ensures |s| == 2
  {
    [Digits[x / 16], Digits[x % 16]]
  }

  /** The `"#RRGGBB"` literal of a colour's red, green and blue channels. */
  function HexLiteral(c: Color): (s: string)
    ensures |s| == 7 && s[0] == '#'
  {
    "#" + Hex2(c.red) + Hex2(c.green) + Hex2(c.blue)
  }

  lemma {:induction false} HexValueAppend(a: string, b: string)
    requires AllHex(a) && AllHex(b)
    ensures AllHex(a + b) && HexValue(a + b) == HexValue(a) * Pow16(|b|) + HexValue(b)
    decreases |b|
  {
    assert AllHex(a + b) by {
      forall i | 0 <= i < |a + b| ensures IsHexDigit((a + b)[i]) {
        if i < |a| { assert (a + b)[i] == a[i]; } else { assert (a + b)[i] == b[i - |a|]; }
      }
    }
    if |b| == 0 {
      assert a + b == a;
    } else {
      var b' := b[..|b| - 1];
      assert AllHex(b');
      assert (a + b)[..|a + b| - 1] == a + b';
      assert (a + b)[|a + b| - 1] == b[|b| - 1];
      HexValueAppend(a, b');
      var h, p, x, d := HexValue(a), Pow16(|b'|), HexValue(b'), DigitValue(b[|b| - 1]);
      assert HexValue(a + b) == 16 * (h * p + x) + d;
      assert HexValue(b) == 16 * x + d;
      assert Pow16(|b|) == 16 * p;
      Regroup(h, p, x, d);
    }
  }

  lemma Regroup(h: int, p: int, x: int, d: int)
    ensures 16 * (h * p + x) + d == h * (16 * p) + (16 * x + d)
  {
  }

  lemma Hex2Value(x: Channel)
    ensures AllHex(Hex2(x)) && HexValue(Hex2(x)) == x
  {
    var s := Hex2(x);
    assert s[..1] == [Digits[x / 16]];
    assert HexValue(s[..1]) == x / 16;
  }

  /** Reading the literal of a colour gives back its red, green and blue
      channels, made opaque. */
  lemma ReadHexLiteral(c: Color)
    ensures ReadColor(Some(HexLiteral(c))) == Some(Color(c.red, c.green, c.blue, 255))
  {
    var r, g, b := Hex2(c.red), Hex2(c.green), Hex2(c.blue);
    var d := r + g + b;
    assert HexLiteral(c) == "#" + d;
    assert d[..2] == r && d[2..4] == g && d[4..] == b;
    Hex2Value(c.red);
    Hex2Value(c.green);
    Hex2Value(c.blue);
    assert AllHex(d) by {
      forall i | 0 <= i < 6 ensures IsHexDigit(d[i]) {
        if i < 2 { assert d[i] == r[i]; }
        else if i < 4 { assert d[i] == g[i - 2]; }
        else { assert d[i] == b[i - 4]; }
      }
    }
    ReadSixDigits(d);
  }

  /** Any six hexadecimal digits, in either letter case, read as the colour
      whose channels are the three digit pairs. */
  lemma ReadSixDigits(d: string)
    requires |d| == 6 && AllHex(d)
    ensures AllHex(d[..2]) && AllHex(d[2..4]) && AllHex(d[4..])
    ensures HexValue(d[..2]) < 256 && HexValue(d[2..4]) < 256 && HexValue(d[4..]) < 256
    ensures ReadColor(Some("#" + d)) == Some(Color(HexValue(d[..2]), HexValue(d[2..4]), HexValue(d[4..]), 255))
  {
    var r, g, b := d[..2], d[2..4], d[4..];
    assert AllHex(r) && AllHex(g) && AllHex(b);
    assert d == (r + g) + b;
    HexValueBound(r);
    HexValueBound(g);
    HexValueBound(b);
    HexValueAppend(r, g);
    HexValueAppend(r + g, b);
    assert HexValue(d) == (HexValue(r) * 256 + HexValue(g)) * 256 + HexValue(b);
    PackedChannels(HexValue(r), HexValue(g), HexValue(b));
    assert ("#" + d)[1..] == d;
    assert ParseHexInt(d) == Some(HexValue(d));
  }

  lemma {:induction false} HexValueBound(s: string)
    requires AllHex(s)
    ensures HexValue(s) < Pow16(|s|)
    decreases |s|
  {
    if |s| > 0 {
      var t := s[..|s| - 1];
      assert AllHex(t);
      HexValueBound(t);
    }
  }

  /** Unpacking three channels packed into one 24-bit value. */
  lemma PackedChannels(r: Channel, g: Channel, b: Channel)
    ensures var v := (r * 256 + g) * 256 + b;
      0 <= v <= MaxInt && (v / 0x1_0000) % 0x100 == r && (v / 0x100) % 0x100 == g && v % 0x100 == b
  {
    var v := (r * 256 + g) * 256 + b;
    assert v / 0x100 == r * 256 + g;
    assert v / 0x1_0000 == (v / 0x100) / 0x100;
  }
}
