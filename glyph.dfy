/** The brightness-to-glyph quantisation both ASCII sketches use:
    `floor(map(brightness, 0, 255, len - 1, 0))`, where `len` is the length of
    a glyph ramp ordered from dense (index 0) to sparse (index `len - 1`). */
module Glyph {
  import opened P5

  /** The ramp index for a brightness, before any clamping. For a brightness
      in [0, 255] it already lies inside the ramp; the brightest value picks
      the first (densest) glyph and black picks the last. */
  function RampIndex(brightness: real, len: nat): (i: int)
    ensures len >= 1 && 0.0 <= brightness <= 255.0 ==> 0 <= i < len
    ensures brightness == 255.0 ==> i == 0
    ensures brightness == 0.0 ==> i == len - 1
  {
    var m := Map(brightness, 0.0, 255.0, (len - 1) as real, 0.0);
    if len >= 1 && 0.0 <= brightness <= 255.0 then
      MapBetween(brightness, 0.0, 255.0, (len - 1) as real, 0.0);
      FloorMonotone(0.0, m);
      FloorMonotone(m, (len - 1) as real);
      m.Floor
    else
      m.Floor
  }

  /** A brighter pixel never selects a later (sparser) glyph. */
  lemma RampIndexMonotone(b1: real, b2: real, len: nat)
    requires len >= 1 && b1 <= b2
    ensures RampIndex(b2, len) <= RampIndex(b1, len)
  {
    var top := (len - 1) as real;
    MapMonotone(b1, b2, 0.0, 255.0, top, 0.0);
    FloorMonotone(Map(b2, 0.0, 255.0, top, 0.0), Map(b1, 0.0, 255.0, top, 0.0));
  }

  /** When the brightness is a sum of `parts` channel bytes divided by `parts`
      (the red byte alone, or the mean of red, green and blue), the ramp index
      is the integer quotient `((len - 1) * (255 * parts - sum)) / (255 * parts)`. */
  lemma RampIndexOfSum(sum: int, parts: int, len: nat)
    requires parts > 0
    ensures RampIndex(sum as real / parts as real, len)
            == ((len - 1) * (255 * parts - sum)) / (255 * parts)
  {
    var top := (len - 1) as real;
    var num := (len - 1) * (255 * parts - sum);
    var den := 255 * parts;
    var x := sum as real / parts as real;
    assert Map(x, 0.0, 255.0, top, 0.0) == num as real / den as real by {
      assert num as real == top * (255.0 * parts as real - sum as real);
      assert den as real == 255.0 * parts as real;
      QuotientForm(top, sum as real, parts as real);
    }
    FloorOfQuotient(num, den);
  }

  lemma QuotientForm(t: real, s: real, p: real)
    requires p > 0.0
    ensures Map(s / p, 0.0, 255.0, t, 0.0) == (t * (255.0 * p - s)) / (255.0 * p)
  {
    var b := s / p;
    assert Map(b, 0.0, 255.0, t, 0.0) == t * (255.0 - b) / 255.0;
    assert (255.0 * p - s) / p == (255.0 * p) / p - s / p;
    assert (255.0 * p) / p == 255.0;
  }
}
