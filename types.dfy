/** Machine-level value types shared by the ray tracer and the rasterizer. */
module Types {

  /** A value or its absence; stands for a nullable pointer. */
  datatype Option<T> = None | Some(value: T)

  /** C `uint8_t`. */
  type byte = x: int | 0 <= x < 0x100

  /** C `uint32_t`. */
  type uint32 = x: int | 0 <= x < 0x1_0000_0000

  /** Arithmetic on `uint32_t` is taken modulo 2^32. */
  function Wrap32(x: int): (r: uint32)
    ensures 0 <= x < 0x1_0000_0000 ==> r == x
  {
    x % 0x1_0000_0000
  }

  lemma {:induction false} MulMono(a: nat, b: nat, c: nat)
    requires a <= b
    ensures a * c <= b * c
  {
    if c > 0 {
      MulMono(a, b, c - 1);
      assert a * c == a * (c - 1) + a;
      assert b * c == b * (c - 1) + b;
    }
  }

  /** A point or direction; the three components are doubles in the source and are only stored here. */
  datatype Vec3 = Vec3(x: real, y: real, z: real)

  /** The largest finite double, (2 - 2^-52) * 2^1023, used as the "no hit" distance. */
  const DBL_MAX: real := 179769313486231570814527423731704356798070567525844996598917476803157260780028538760589558632766878171540458953514382464234321326889464182768467546703537516986049910576551282076245490090389328944075868508455133942304583236903222948165808559332123348274797826204144723168738177180919299881250404026184124858368.0
}
