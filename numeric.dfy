/**
 Exact-arithmetic stand-ins for the numeric conversions the steam renderer
 relies on: the `as i32` / `as u32` float-to-integer casts (which round toward
 zero) and `f32::clamp`.
 */
module Numeric {

  const U32Max: int := 0xFFFF_FFFF

  function Abs(r: real): (a: real)
    ensures a >= 0.0
    ensures a == r || a == -r
  {
    if r < 0.0 then -r else r
  }

  /** Rounds toward zero, as Rust's float-to-integer `as` casts do (not floor). */
  function Trunc(r: real): (t: int)
    ensures 0.0 <= r ==> 0 <= t && t as real <= r < t as real + 1.0
    ensures r < 0.0 ==> t <= 0 && t as real - 1.0 < r <= t as real
  {
    if r >= 0.0 then r.Floor else -((-r).Floor)
  }

  /** Everything strictly between -1 and 1 truncates to 0: in particular a
      coordinate in (-1, 0) lands in cell 0, not in cell -1. */
  lemma TruncNearZero(r: real)
    requires -1.0 < r < 1.0
    ensures Trunc(r) == 0
  {
  }

  /** Truncation is monotone, so culling by truncated coordinate is well behaved. */
  lemma TruncMonotone(a: real, b: real)
    requires a <= b
    ensures Trunc(a) <= Trunc(b)
  {
    if a < 0.0 && 0.0 <= b {
    } else if 0.0 <= a {
      assert Trunc(a) as real <= a <= b < Trunc(b) as real + 1.0;
    } else {
      assert Trunc(a) as real - 1.0 < a <= b <= Trunc(b) as real;
    }
  }

  /** The saturating conversion of an integer-valued float to `u32`. */
  function SaturateU32(t: int): (n: nat)
    ensures n <= U32Max
    ensures 0 <= t <= U32Max ==> n == t
    ensures t < 0 ==> n == 0
    ensures t > U32Max ==> n == U32Max
  {
    if t < 0 then 0 else if t > U32Max then U32Max else t
  }

  /** `f32::clamp`: the source only calls it with `lo <= hi` (it panics otherwise). */
  function Clamp(v: real, lo: real, hi: real): (r: real)
    requires lo <= hi
    ensures lo <= r <= hi
    ensures lo <= v <= hi ==> r == v
  {
    if v < lo then lo else if v > hi then hi else v
  }

  /** The clamped value is the point of `[lo, hi]` nearest to `v`. */
  lemma ClampIsNearest(v: real, lo: real, hi: real, y: real)
    requires lo <= hi
    requires lo <= y <= hi
    ensures Abs(Clamp(v, lo, hi) - v) <= Abs(y - v)
  {
  }
}
