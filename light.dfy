/**
 * src/light.c: the single directional light and the scaling of a colour
 * word by a light intensity.
 *
 * The colour word is a uint32_t of four byte lanes, alpha in bits 24-31,
 * then red, green and blue. The masks the source applies (`c & 0x00FF0000`
 * and the like) each select one whole byte lane, and the lanes it combines
 * with `|` are disjoint; so a masked lane is written here as that byte times
 * the lane's unit (`Lane`), and the `|` of disjoint lanes as their sum.
 */
module Light {
  import opened Geometry

  /** light_t: a direction only. */
  datatype Light = Light(direction: Vec3)

  /** get_light: the static light, shining along +z with unit length. */
  function GetLight(): (l: Light)
    ensures l.direction.x == 0.0 && l.direction.y == 0.0 && l.direction.z > 0.0
    ensures Dot3(l.direction, l.direction) == 1.0
  {
    Light(Vec3(0.0, 0.0, 1.0))
  }

  /** The four byte lanes of a colour word. */
  datatype Channel = Alpha | Red | Green | Blue

  /** The value of one unit of a lane: alpha is the top byte, blue the bottom one. */
  function Unit(ch: Channel): (u: int)
    ensures u > 0
  {
    match ch
    case Alpha => 0x100_0000
    case Red => 0x1_0000
    case Green => 0x100
    case Blue => 0x1
  }

  /** The byte held in lane `ch`. */
  function Byte(c: int, ch: Channel): (b: int)
    ensures 0 <= b < 0x100
  {
    match ch
    case Alpha => c / 0x100_0000 % 0x100
    case Red => c / 0x1_0000 % 0x100
    case Green => c / 0x100 % 0x100
    case Blue => c % 0x100
  }

  /** `c & mask` for the mask of lane `ch`: the lane kept in place, every other bit cleared. */
  function Lane(c: int, ch: Channel): (r: int)
    ensures 0 <= r < 0x1_0000_0000
    ensures forall d: Channel :: Byte(r, d) == if d == ch then Byte(c, ch) else 0
    ensures r == Byte(c, ch) * Unit(ch)
  {
    var b := Byte(c, ch);
    FromBytesBounds(if ch == Alpha then b else 0, if ch == Red then b else 0,
                    if ch == Green then b else 0, if ch == Blue then b else 0);
    match ch
    case Alpha => (c / 0x100_0000 % 0x100) * 0x100_0000
    case Red => (c / 0x1_0000 % 0x100) * 0x1_0000
    case Green => (c / 0x100 % 0x100) * 0x100
    case Blue => c % 0x100
  }

  /** The clamp of the factor to [0, 1] at the top of light_apply_intensity. */
  function ClampFactor(f: real): (r: real)
    ensures 0.0 <= r <= 1.0
    ensures 0.0 <= f <= 1.0 ==> r == f
    ensures f < 0.0 ==> r == 0.0
    ensures f > 1.0 ==> r == 1.0
  {
    var f1 := if f < 0.0 then 0.0 else f;
    if f1 > 1.0 then 1.0 else f1
  }

  /**
   * A non-negative integer times a factor in [0, 1], converted back to an
   * integer: the float-to-uint32_t conversion truncates, so this is the
   * product rounded down, and it never exceeds `n`.
   */
  function Scale(n: nat, f: real): (r: nat)
    requires 0.0 <= f <= 1.0
    ensures r as real <= n as real * f < r as real + 1.0
    ensures r <= n
  {
    ScaledBelow(n, f);
    Trunc(n as real * f)
  }

  lemma ScaledBelow(n: nat, f: real)
    requires 0.0 <= f <= 1.0
    ensures 0.0 <= n as real * f <= n as real
  {
    assert n as real - n as real * f == n as real * (1.0 - f);
  }

  /** `uint32_t r = (c & mask) * f` for the mask of lane `ch`. */
  function ScaleLane(c: uint32, ch: Channel, f: real): (r: nat)
    requires 0.0 <= f <= 1.0
    ensures r <= Lane(c, ch)
  {
    Scale(Lane(c, ch), f)
  }

  /** The word whose lanes hold the four given bytes (the `|` of four disjoint lanes). */
  function FromBytes(a: int, r: int, g: int, b: int): int {
    a * 0x100_0000 + r * 0x1_0000 + g * 0x100 + b
  }

  /**
   * light_apply_intensity: alpha is kept, and each colour byte becomes that
   * byte times the clamped factor, rounded down, because the re-masking of
   * the scaled lane drops the bits below it.
   */
  function ApplyIntensity(originalColor: uint32, factor: real): (r: uint32)
    ensures var f := ClampFactor(factor);
      r == FromBytes(Byte(originalColor, Alpha), Scale(Byte(originalColor, Red), f),
                     Scale(Byte(originalColor, Green), f), Scale(Byte(originalColor, Blue), f))
  {
    var f := ClampFactor(factor);
    LanesAssembled(originalColor, f);
    Lane(originalColor, Alpha) + Lane(ScaleLane(originalColor, Red, f), Red)
      + Lane(ScaleLane(originalColor, Green, f), Green) + Lane(ScaleLane(originalColor, Blue, f), Blue)
  }

  /** The alpha lane and the three re-masked scaled lanes make up the word of the scaled bytes. */
  lemma LanesAssembled(c: uint32, f: real)
    requires 0.0 <= f <= 1.0
    ensures var w := FromBytes(Byte(c, Alpha), Scale(Byte(c, Red), f), Scale(Byte(c, Green), f), Scale(Byte(c, Blue), f));
      0 <= w < 0x1_0000_0000 &&
      Lane(c, Alpha) + Lane(ScaleLane(c, Red, f), Red) + Lane(ScaleLane(c, Green, f), Green)
        + Lane(ScaleLane(c, Blue, f), Blue) == w
  {
    var a, r, g, b := Byte(c, Alpha), Scale(Byte(c, Red), f), Scale(Byte(c, Green), f), Scale(Byte(c, Blue), f);
    ScaledLane(c, Red, f);
    ScaledLane(c, Green, f);
    ScaledLane(c, Blue, f);
    assert Lane(c, Alpha) == a * 0x100_0000;
    assert Lane(ScaleLane(c, Red, f), Red) == r * 0x1_0000;
    assert Lane(ScaleLane(c, Green, f), Green) == g * 0x100;
    assert Lane(ScaleLane(c, Blue, f), Blue) == b;
    FromBytesBounds(a, r, g, b);
  }

  /** Masking a scaled lane keeps the lane's byte scaled and rounded down. */
  lemma ScaledLane(c: uint32, ch: Channel, f: real)
    requires 0.0 <= f <= 1.0
    ensures Lane(ScaleLane(c, ch, f), ch) == Scale(Byte(c, ch), f) * Unit(ch)
  {
    var b, unit := Byte(c, ch), Unit(ch);
    var t, q := ScaleLane(c, ch, f), Scale(b, f);
    assert t == Scale(b * unit, f);
    ScaleOfMultiple(b, unit, f);
    ByteIsQuotient(t, ch);
    assert q % 0x100 == q;
  }

  /** Lane `ch` holds the quotient by its unit, modulo 256. */
  lemma ByteIsQuotient(t: int, ch: Channel)
    ensures Byte(t, ch) == t / Unit(ch) % 0x100
  {
  }

  /** Scaling `b` units and dividing by the unit is scaling `b`. */
  lemma ScaleOfMultiple(b: nat, unit: int, f: real)
    requires 0.0 <= f <= 1.0 && unit > 0
    ensures Scale(b * unit, f) / unit == Scale(b, f)
  {
    var q := Scale(b, f);
    var t := Scale(b * unit, f);
    var x := b as real * f;
    assert (b * unit) as real * f == x * unit as real;
    ScaledByUnit(x, q, unit);
    assert q * unit <= t by {
      assert (q * unit) as real <= t as real + 1.0;
    }
    assert t < (q + 1) * unit;
    DivBracket(t, q, unit);
  }

  /** Scaling by a positive integer preserves the bracketing of x between q and q + 1. */
  lemma ScaledByUnit(x: real, q: int, unit: int)
    requires q as real <= x < q as real + 1.0 && unit > 0
    ensures (q * unit) as real <= x * unit as real < ((q + 1) * unit) as real
  {
    var u := unit as real;
    assert (q * unit) as real == q as real * u && ((q + 1) * unit) as real == (q as real + 1.0) * u;
    var gap := q as real + 1.0 - x;
    assert 0.0 <= (x - q as real) * u;
    assert gap * u == gap + gap * (u - 1.0) && 0.0 <= gap * (u - 1.0);
  }

  lemma DivBracket(t: int, q: int, unit: int)
    requires unit > 0 && q * unit <= t < (q + 1) * unit
    ensures t / unit == q
  {
    var d, m := t / unit, t % unit;
    assert t == unit * d + m && 0 <= m < unit;
    if d > q {
      MulMonotone(unit, q + 1, d);
      assert false;
    } else if d < q {
      MulMonotone(unit, d + 1, q);
      assert false;
    }
  }

  lemma MulMonotone(a: int, b: int, c: int)
    requires 0 <= a && b <= c
    ensures a * b <= a * c
  {
    assert a * c - a * b == a * (c - b);
  }

  /** A word assembled from four bytes fits in 32 bits and gives its bytes back. */
  lemma FromBytesBounds(a: int, r: int, g: int, b: int)
    requires 0 <= a < 0x100 && 0 <= r < 0x100 && 0 <= g < 0x100 && 0 <= b < 0x100
    ensures 0 <= FromBytes(a, r, g, b) < 0x1_0000_0000
    ensures Byte(FromBytes(a, r, g, b), Alpha) == a && Byte(FromBytes(a, r, g, b), Red) == r
    ensures Byte(FromBytes(a, r, g, b), Green) == g && Byte(FromBytes(a, r, g, b), Blue) == b
  {
    var n := FromBytes(a, r, g, b);
    assert n / 0x100_0000 == a;
    assert n / 0x1_0000 == a * 0x100 + r;
    assert n / 0x100 == (a * 0x100 + r) * 0x100 + g;
  }

  /** Every word is the word of its own four bytes. */
  lemma ToBytes(c: uint32)
    ensures c == FromBytes(Byte(c, Alpha), Byte(c, Red), Byte(c, Green), Byte(c, Blue))
  {
    var c1 := c / 0x100;
    var c2 := c1 / 0x100;
    assert c == c1 * 0x100 + c % 0x100;
    assert c1 == c2 * 0x100 + c1 % 0x100;
    assert c2 == c2 / 0x100 * 0x100 + c2 % 0x100;
    assert c / 0x1_0000 == c2;
    assert c / 0x100_0000 == c2 / 0x100;
  }

  /** The alpha byte passes through unchanged. */
  lemma IntensityKeepsAlpha(c: uint32, f: real)
    ensures Byte(ApplyIntensity(c, f), Alpha) == Byte(c, Alpha)
  {
    ResultBytes(c, f);
  }

  /**
   * Each colour byte of the result is the input byte scaled by the clamped
   * factor and rounded down; so it never exceeds the input byte, and no
   * channel spills into its neighbour.
   */
  lemma IntensityChannels(c: uint32, f: real, ch: Channel)
    requires ch != Alpha
    ensures Byte(ApplyIntensity(c, f), ch) == Scale(Byte(c, ch), ClampFactor(f))
    ensures Byte(ApplyIntensity(c, f), ch) <= Byte(c, ch)
  {
    ResultBytes(c, f);
  }

  lemma ResultBytes(c: uint32, f: real)
    ensures var r := ApplyIntensity(c, f);
      var g := ClampFactor(f);
      Byte(r, Alpha) == Byte(c, Alpha) && Byte(r, Red) == Scale(Byte(c, Red), g) &&
      Byte(r, Green) == Scale(Byte(c, Green), g) && Byte(r, Blue) == Scale(Byte(c, Blue), g)
  {
    var g := ClampFactor(f);
    FromBytesBounds(Byte(c, Alpha), Scale(Byte(c, Red), g), Scale(Byte(c, Green), g), Scale(Byte(c, Blue), g));
  }

  /** A factor of 1 or more leaves the colour as it was. */
  lemma FullIntensity(c: uint32, f: real)
    requires f >= 1.0
    ensures ApplyIntensity(c, f) == c
  {
    assert ClampFactor(f) == 1.0;
    ScaleByOne(Byte(c, Red));
    ScaleByOne(Byte(c, Green));
    ScaleByOne(Byte(c, Blue));
    ToBytes(c);
  }

  lemma ScaleByOne(n: nat)
    ensures Scale(n, 1.0) == n
  {
    assert n as real * 1.0 == n as real;
  }

  /** A factor of 0 or less keeps only the alpha byte. */
  lemma ZeroIntensity(c: uint32, f: real)
    requires f <= 0.0
    ensures ApplyIntensity(c, f) == Lane(c, Alpha)
  {
    assert ClampFactor(f) == 0.0;
  }
}
