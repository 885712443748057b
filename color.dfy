/**
 * 24-bit colours: packing into a 0x00RRGGBB pixel word, scaling by a light
 * intensity with clamping, and saturating addition.
 */
module Color {
  import opened Types

  /** An RGB colour with one 8-bit channel per component. */
  datatype Rgb = Rgb(red: byte, green: byte, blue: byte)

  const Black := Rgb(0, 0, 0)

  /**
   * getColor: starting from zero, adds red, shifts left by 8, adds green,
   * shifts left by 8, adds blue, every step in uint32 arithmetic. The result
   * never wraps and leaves the top byte zero.
   */
  function GetColor(c: Rgb): (p: uint32)
    ensures p < 0x100_0000
    ensures p == c.red * 0x1_0000 + c.green * 0x100 + c.blue
  {
    var acc := Wrap32(0 + c.red);
    assert acc * 0x100 <= 0xFF * 0x100;
    var acc := Wrap32(acc * 0x100);
    var acc := Wrap32(acc + c.green);
    assert acc * 0x100 <= 0xFFFF * 0x100;
    var acc := Wrap32(acc * 0x100);
    Wrap32(acc + c.blue)
  }

  /** The red channel of a packed pixel, `(p >> 16) & 0xFF`. */
  function RedOf(p: uint32): byte
  {
    (p / 0x1_0000) % 0x100
  }

  /** The green channel of a packed pixel, `(p >> 8) & 0xFF`. */
  function GreenOf(p: uint32): byte
  {
    (p / 0x100) % 0x100
  }

  /** The blue channel of a packed pixel, `p & 0xFF`. */
  function BlueOf(p: uint32): byte
  {
    p % 0x100
  }

  /** Reading the three bytes back out of a packed pixel recovers the colour. */
  lemma {:induction false} UnpackGetColor(c: Rgb)
    ensures RedOf(GetColor(c)) == c.red
    ensures GreenOf(GetColor(c)) == c.green
    ensures BlueOf(GetColor(c)) == c.blue
  {
    var p := GetColor(c);
    var hi := c.red * 0x100 + c.green;
    assert p == hi * 0x100 + c.blue;
    assert p / 0x100 == hi && p % 0x100 == c.blue;
    assert hi / 0x100 == c.red && hi % 0x100 == c.green;
    assert p / 0x1_0000 == hi / 0x100;
  }

  /** Distinct colours pack to distinct pixel words. */
  lemma GetColorInjective(c1: Rgb, c2: Rgb)
    ensures GetColor(c1) == GetColor(c2) <==> c1 == c2
  {
    UnpackGetColor(c1);
    UnpackGetColor(c2);
  }

  /**
   * The channel `out` is the product `v * mul` converted to uint8_t with
   * clamping: 255 exactly when the product reaches 255, otherwise the
   * product truncated towards zero.
   */
  ghost predicate ClampedProduct(out: byte, v: byte, mul: real)
  {
    && (out == 255 <==> v as real * mul >= 255.0)
    && (out < 255 ==> out as real <= v as real * mul < out as real + 1.0)
  }

  /** One channel of colorMul: `(uint8_t)(v * mul)` below 255, else 255. */
  function ScaleChannel(v: byte, mul: real): (r: byte)
    requires mul >= 0.0
    ensures ClampedProduct(r, v, mul)
  {
    var product := v as real * mul;
    if product < 255.0 then product.Floor else 255
  }

  /**
   * colorMul: scales every channel by `mul`, clamping at 255; each result
   * channel is computed from the same input channel (no channel swap).
   */
  function ColorMul(color: Rgb, mul: real): (r: Rgb)
    requires mul >= 0.0
    ensures ClampedProduct(r.red, color.red, mul)
    ensures ClampedProduct(r.green, color.green, mul)
    ensures ClampedProduct(r.blue, color.blue, mul)
  {
    Rgb(red := ScaleChannel(color.red, mul),
        blue := ScaleChannel(color.blue, mul),
        green := ScaleChannel(color.green, mul))
  }

  /** Scaling by one leaves a colour unchanged; scaling by zero gives black. */
  lemma ColorMulUnitAndZero(c: Rgb)
    ensures ColorMul(c, 1.0) == c
    ensures ColorMul(c, 0.0) == Black
  {
    assert ScaleChannel(c.red, 1.0) == c.red;
    assert ScaleChannel(c.green, 1.0) == c.green;
    assert ScaleChannel(c.blue, 1.0) == c.blue;
  }

  /** Scaling is monotonic in the multiplier, channel by channel. */
  lemma {:induction false} ScaleChannelMonotonic(v: byte, m1: real, m2: real)
    requires 0.0 <= m1 <= m2
    ensures ScaleChannel(v, m1) <= ScaleChannel(v, m2)
  {
    var p1, p2 := v as real * m1, v as real * m2;
    assert p2 == p1 + v as real * (m2 - m1);
    assert v as real * (m2 - m1) >= 0.0;
    if p2 < 255.0 {
      assert p1.Floor <= p2.Floor;
    }
  }

  function Min(a: int, b: int): int
  {
    if a < b then a else b
  }

  /** One channel of colorAdd: the uint32 sum, clamped to 255. */
  function AddChannel(a: byte, b: byte): (r: byte)
    ensures r == Min(255, a + b)
  {
    var sum := Wrap32(a + b);
    if sum < 255 then sum else 255
  }

  /** colorAdd: per-channel saturating addition. */
  function ColorAdd(color: Rgb, color2: Rgb): (r: Rgb)
    ensures r.red == Min(255, color.red + color2.red)
    ensures r.green == Min(255, color.green + color2.green)
    ensures r.blue == Min(255, color.blue + color2.blue)
  {
    Rgb(red := AddChannel(color.red, color2.red),
        blue := AddChannel(color.blue, color2.blue),
        green := AddChannel(color.green, color2.green))
  }

  /** Adding never darkens a channel of either operand. */
  lemma ColorAddBounds(a: Rgb, b: Rgb)
    ensures ColorAdd(a, b).red >= a.red && ColorAdd(a, b).red >= b.red
    ensures ColorAdd(a, b).green >= a.green && ColorAdd(a, b).green >= b.green
    ensures ColorAdd(a, b).blue >= a.blue && ColorAdd(a, b).blue >= b.blue
  {
  }

  /** colorAdd is commutative, and black is its identity. */
  lemma ColorAddCommutativeIdentity(a: Rgb, b: Rgb)
    ensures ColorAdd(a, b) == ColorAdd(b, a)
    ensures ColorAdd(a, Black) == a && ColorAdd(Black, a) == a
  {
  }

  /** colorAdd is associative, so summing light contributions is order-independent. */
  lemma ColorAddAssociative(a: Rgb, b: Rgb, c: Rgb)
    ensures ColorAdd(ColorAdd(a, b), c) == ColorAdd(a, ColorAdd(b, c))
  {
  }
}
