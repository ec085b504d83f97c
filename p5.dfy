/** Exact-arithmetic counterparts of the p5.js helpers the sketches call
    (`map`, `lerp`, `constrain`, `floor`, `ceil`) and of the JavaScript `%`
    operator. Floating-point rounding is not modelled: every helper works on
    Dafny's unbounded `real` and `int`. */
module P5 {

  /** A p5 fill colour given by its red, green and blue components. */
  datatype Rgb = Rgb(r: real, g: real, b: real)

  /** p5 `map(n, start1, stop1, start2, stop2)`: linear rescaling of `n` from
      the first range to the second, without clamping. */
  function Map(n: real, start1: real, stop1: real, start2: real, stop2: real): (r: real)
    requires start1 != stop1
    ensures n == start1 ==> r == start2
    ensures n == stop1 ==> r == stop2
  {
    var d := stop1 - start1;
    assert d / d == 1.0;
    (n - start1) / d * (stop2 - start2) + start2
  }

  /** On an increasing source range, `Map` keeps the order of its input when the
      target range increases and reverses it when the target range decreases. */
  lemma MapMonotone(n1: real, n2: real, start1: real, stop1: real, start2: real, stop2: real)
    requires start1 < stop1 && n1 <= n2
    ensures start2 <= stop2 ==> Map(n1, start1, stop1, start2, stop2) <= Map(n2, start1, stop1, start2, stop2)
    ensures stop2 <= start2 ==> Map(n2, start1, stop1, start2, stop2) <= Map(n1, start1, stop1, start2, stop2)
  {
    var d := stop1 - start1;
    var t1, t2 := (n1 - start1) / d, (n2 - start1) / d;
    assert t1 <= t2 by {
      assert t2 - t1 == (n2 - n1) / d;
    }
    var e := stop2 - start2;
    assert Map(n1, start1, stop1, start2, stop2) == t1 * e + start2;
    assert Map(n2, start1, stop1, start2, stop2) == t2 * e + start2;
    assert t2 * e - t1 * e == (t2 - t1) * e;
    if e >= 0.0 {
      assert (t2 - t1) * e >= 0.0;
    }
    if e <= 0.0 {
      assert (t2 - t1) * (-e) >= 0.0;
    }
  }

  /** An input inside the source range is mapped inside the target range. */
  lemma MapBetween(n: real, start1: real, stop1: real, start2: real, stop2: real)
    requires start1 < stop1 && start1 <= n <= stop1
    ensures start2 <= stop2 ==> start2 <= Map(n, start1, stop1, start2, stop2) <= stop2
    ensures stop2 <= start2 ==> stop2 <= Map(n, start1, stop1, start2, stop2) <= start2
  {
    MapMonotone(start1, n, start1, stop1, start2, stop2);
    MapMonotone(n, stop1, start1, stop1, start2, stop2);
  }

  /** Scaling a non-negative real by a factor between two bounds lands between
      the two scaled bounds. */
  lemma MulBetween(x: real, lo: real, f: real, hi: real)
    requires x >= 0.0 && lo <= f <= hi
    ensures x * lo <= x * f <= x * hi
  {
    assert x * f - x * lo == x * (f - lo);
    assert x * hi - x * f == x * (hi - f);
  }

  /** Halving one factor halves the product. */
  lemma HalfFactor(x: real, f: real)
    ensures (x * 0.5) * f == (x * f) / 2.0
  {
  }

  /** p5 `lerp(start, stop, amt)` = `amt * (stop - start) + start`. */
  function Lerp(start: real, stop: real, amt: real): (r: real)
    ensures amt == 0.0 ==> r == start
    ensures amt == 1.0 ==> r == stop
    ensures 0.0 <= amt <= 1.0 && start <= stop ==> start <= r <= stop
    ensures 0.0 <= amt <= 1.0 && stop <= start ==> stop <= r <= start
  {
    var d := stop - start;
    assert 0.0 <= amt <= 1.0 && d >= 0.0 ==> 0.0 <= amt * d <= d;
    assert 0.0 <= amt <= 1.0 && d <= 0.0 ==> d <= amt * d <= 0.0;
    amt * d + start
  }

  /** p5 `constrain(n, low, high)` = `Math.max(Math.min(n, high), low)`. The
      result is always one of the three arguments. */
  function ConstrainReal(n: real, low: real, high: real): (r: real)
    ensures low <= high ==> low <= r <= high
    ensures low <= n <= high ==> r == n
    ensures n < low ==> r == low
    ensures low <= high < n ==> r == high
    ensures r == n || r == low || r == high
  {
    var m := if n < high then n else high;
    if m > low then m else low
  }

  /** `constrain` applied to integer arguments, whose result is then an integer. */
  function Constrain(n: int, low: int, high: int): (r: int)
    ensures low <= high ==> low <= r <= high
    ensures low <= n <= high ==> r == n
    ensures n < low ==> r == low
    ensures low <= high < n ==> r == high
  {
    var m := ConstrainReal(n as real, low as real, high as real);
    if m == n as real then n else if m == low as real then low else high
  }

  /** `Math.ceil` on an exact real. */
  function Ceil(x: real): (c: int)
    ensures x <= c as real < x + 1.0
  {
    -((-x).Floor)
  }

  /** `Math.floor` never decreases as its argument grows. */
  lemma FloorMonotone(x: real, y: real)
    requires x <= y
    ensures x.Floor <= y.Floor
  {
    assert x.Floor as real <= x <= y < y.Floor as real + 1.0;
  }

  /** The floor of an exact quotient of integers is Dafny's (Euclidean, here
      flooring) integer division. */
  lemma FloorOfQuotient(n: int, d: int)
    requires d > 0
    ensures (n as real / d as real).Floor == n / d
  {
    var q, r := n / d, n % d;
    assert n == q * d + r && 0 <= r < d;
    var x := n as real / d as real;
    assert x == q as real + r as real / d as real by {
      assert n as real == q as real * d as real + r as real;
    }
    assert 0.0 <= r as real / d as real < 1.0;
    assert q as real <= x < q as real + 1.0;
  }

  /** Multiplying by a non-negative factor keeps the order. */
  lemma MulLe(a: int, b: int, c: int)
    requires a <= b && c >= 0
    ensures a * c <= b * c
  {
    assert b * c - a * c == (b - a) * c;
  }

  /** Integer division is pinned down by the multiples of `d` around `n`. */
  lemma DivBetween(n: int, d: int, q: int)
    requires d > 0 && q * d <= n < (q + 1) * d
    ensures n / d == q
  {
    var q', r := n / d, n % d;
    assert n == q' * d + r && 0 <= r < d;
    if q' > q {
      MulLe(q + 1, q', d);
    } else if q' < q {
      MulLe(q' + 1, q, d);
    }
  }

  /** Adding the divisor adds one to the quotient. */
  lemma DivPlusDivisor(n: int, d: int)
    requires d > 0
    ensures (n + d) / d == n / d + 1
  {
    var q := n / d;
    assert q * d <= n < (q + 1) * d;
    DivBetween(n + d, d, q + 1);
  }

  /** Adding a multiple of the divisor leaves the remainder unchanged. */
  lemma ModShift(x: int, q: int, d: int)
    requires d > 0
    ensures (x + q * d) % d == x % d
  {
    var q', r := x / d, x % d;
    assert x + q * d == (q' + q) * d + r;
    DivBetween(x + q * d, d, q' + q);
  }

  /** JavaScript `a % b` for a positive divisor: the remainder truncated toward
      zero, which takes the sign of the dividend. */
  function JsRem(a: int, b: int): (r: int)
    requires b > 0
    ensures a >= 0 ==> 0 <= r < b && r == a % b
    ensures a < 0 ==> -b < r <= 0
  {
    if a >= 0 then a % b else -((-a) % b)
  }
}
