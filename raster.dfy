/** Pixel buffers as p5.js exposes them: a flat `pixels` array of bytes, four
    per pixel (red, green, blue, alpha), row after row, for a buffer of
    `w` by `h` pixels at pixel density 1. */
module Raster {
  import opened P5

  /** One element of a `Uint8ClampedArray`. */
  newtype byte = x: int | 0 <= x < 256

  /** Offset of the red byte of pixel (x, y) in a buffer `w` pixels wide.
      The sketches write it as `(y * w + x) * 4` and as `(x + y * w) * 4`. */
  function PixelOffset(x: int, y: int, w: int): int
  {
    (y * w + x) * 4
  }

  /** Row-major numbering is undone by division and remainder by the width. */
  lemma RowMajor(x: int, y: int, w: int)
    requires 0 <= x < w && 0 <= y
    ensures (y * w + x) / w == y && (y * w + x) % w == x
  {
    var k := y * w + x;
    assert y * w <= k < (y + 1) * w;
    DivBetween(k, w, y);
    assert k % w == k - (k / w) * w;
  }

  /** Every pixel (x, y) of a `w` by `h` buffer has all four of its bytes,
      from `PixelOffset(x, y, w)` to `PixelOffset(x, y, w) + 3`, inside the
      `w * h * 4` array, and distinct pixels start on distinct multiples of 4. */
  lemma PixelInBounds(x: int, y: int, w: int, h: int)
    requires 0 <= x < w && 0 <= y < h
    ensures 0 <= PixelOffset(x, y, w) && PixelOffset(x, y, w) + 3 < w * h * 4
    ensures PixelOffset(x, y, w) % 4 == 0
    ensures PixelOffset(x, y, w) / 4 == y * w + x
  {
    assert y * w + x < (y + 1) * w;
    assert (y + 1) * w <= h * w;
  }

  /** Byte `c` (0 red, 1 green, 2 blue, 3 alpha) of pixel (x, y) is decoded
      back to the pixel's column, row and channel. */
  lemma OffsetDecode(x: int, y: int, w: int, c: int)
    requires 0 <= x < w && 0 <= y && 0 <= c < 4
    ensures (PixelOffset(x, y, w) + c) / 4 == y * w + x
    ensures (PixelOffset(x, y, w) + c) % 4 == c
    ensures ((PixelOffset(x, y, w) + c) / 4) % w == x
    ensures ((PixelOffset(x, y, w) + c) / 4) / w == y
  {
    RowMajor(c, y * w + x, 4);
    RowMajor(x, y, w);
  }

  /** Storing a number into a `Uint8ClampedArray` (ECMAScript ToUint8Clamp):
      values at or below 0 become 0, values at or above 255 become 255, and
      the rest are rounded to the nearest integer, ties to the even one. */
  function ClampedByte(v: real): (b: byte)
    ensures v <= 0.0 ==> b == 0
    ensures v >= 255.0 ==> b == 255
    ensures 0.0 <= v <= 255.0 ==> -0.5 <= b as real - v <= 0.5
    ensures v == v.Floor as real && 0.0 <= v <= 255.0 ==> b as real == v
  {
    if v <= 0.0 then 0
    else if v >= 255.0 then 255
    else
      var f := v.Floor;
      var frac := v - f as real;
      if frac < 0.5 then f as byte
      else if frac > 0.5 then (f + 1) as byte
      else if f % 2 == 0 then f as byte
      else (f + 1) as byte
  }
}
