/**
 * Value types shared by the rasterizer: the vector and texture-coordinate
 * records, the 32-bit colour word, and the C conversions from float to int.
 *
 * Every C `float` is modelled as an exact `real`; statements about results
 * therefore hold "under exact arithmetic". The helpers from vector.h
 * (vec3_sub, vec3_dot, vec4_from_vec3, the *_clone copies) are not part of
 * this model's sources and get their obvious definitions here.
 */
module Geometry {

  /** C `uint32_t`. */
  type uint32 = x: int | 0 <= x < 0x1_0000_0000

  /** C `uint8_t`. */
  type uint8 = x: int | 0 <= x < 0x100

  datatype Vec2 = Vec2(x: real, y: real)
  datatype Vec3 = Vec3(x: real, y: real, z: real)
  datatype Vec4 = Vec4(x: real, y: real, z: real, w: real)

  /** A texture coordinate pair (tex2_t). */
  datatype Tex2 = Tex2(u: real, v: real)

  function Sub3(a: Vec3, b: Vec3): Vec3 {
    Vec3(a.x - b.x, a.y - b.y, a.z - b.z)
  }

  function Dot3(a: Vec3, b: Vec3): real {
    a.x * b.x + a.y * b.y + a.z * b.z
  }

  /** vec4_from_vec3: copies x, y, z; the w it appends is not relied upon. */
  function Vec4FromVec3(v: Vec3): Vec4 {
    Vec4(v.x, v.y, v.z, 1.0)
  }

  /** vec2_from_vec4: the first two coordinates. */
  function Vec2FromVec4(v: Vec4): Vec2 {
    Vec2(v.x, v.y)
  }

  function Abs(n: int): nat {
    if n < 0 then -n else n
  }

  function MinReal(a: real, b: real): real { if a < b then a else b }
  function MaxReal(a: real, b: real): real { if a > b then a else b }

  /** C `floor` followed by conversion to int. */
  function Floor(r: real): (n: int)
    ensures n as real <= r < n as real + 1.0
  {
    r.Floor
  }

  /** C `ceil` followed by conversion to int. */
  function Ceil(r: real): (n: int)
    ensures r <= n as real < r + 1.0
  {
    -((-r).Floor)
  }

  /** Conversion of a float to int in C: truncation toward zero. */
  function Trunc(r: real): (n: int)
    ensures r >= 0.0 ==> 0 <= n && n as real <= r < n as real + 1.0
    ensures r < 0.0 ==> n <= 0 && n as real - 1.0 < r <= n as real
  {
    if r >= 0.0 then r.Floor else -((-r).Floor)
  }

  /** C `round`: to the nearest integer, halves away from zero. */
  function Round(r: real): (n: int)
    ensures r >= 0.0 ==> n as real - 0.5 <= r < n as real + 0.5
    ensures r < 0.0 ==> n as real - 0.5 < r <= n as real + 0.5
  {
    if r >= 0.0 then (r + 0.5).Floor else -((-r + 0.5).Floor)
  }

  lemma RoundOfInteger(n: int)
    ensures Round(n as real) == n
  {
  }

  /**
   * A real lying between two integers truncates to an integer between them,
   * whichever direction the truncation goes.
   */
  lemma TruncBetween(r: real, lo: int, hi: int)
    requires lo as real <= r <= hi as real
    ensures lo <= Trunc(r) <= hi
  {
  }
}
