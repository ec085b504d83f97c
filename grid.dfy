/** Strided sampling loops `for (v = start; v < end; v += stride)` and the
    in-bounds guards the sketches put around them. */
module Grid {
  import opened P5

  /** The coordinates a strided loop visits, in order. */
  function Axis(start: int, end: int, stride: int): seq<int>
    requires stride > 0
    decreases end - start
  {
    if start >= end then [] else [start] + Axis(start + stride, end, stride)
  }

  /** A loop that has not finished visits its current coordinate first. */
  lemma AxisCons(start: int, end: int, stride: int)
    requires stride > 0 && start < end
    ensures Axis(start, end, stride) == [start] + Axis(start + stride, end, stride)
  {
  }

  /** How many coordinates the loop visits: `ceil((end - start) / stride)`,
      or none when the range is empty. */
  function AxisCount(start: int, end: int, stride: int): nat
    requires stride > 0
  {
    if end <= start then 0 else (end - start + stride - 1) / stride
  }

  /** The k-th visited coordinate is `start + stride * k`, and there are
      exactly `AxisCount` of them. */
  lemma {:induction false} AxisShape(start: int, end: int, stride: int)
    requires stride > 0
    ensures |Axis(start, end, stride)| == AxisCount(start, end, stride)
    ensures forall k :: 0 <= k < |Axis(start, end, stride)| ==> Axis(start, end, stride)[k] == start + stride * k
    decreases end - start
  {
    if start < end {
      AxisShape(start + stride, end, stride);
      var n := end - start - 1;
      assert AxisCount(start, end, stride) == (n + stride) / stride;
      if end <= start + stride {
        assert stride <= n + stride < 2 * stride;
        DivBetween(n + stride, stride, 1);
      } else {
        assert AxisCount(start + stride, end, stride) == n / stride;
        DivPlusDivisor(n, stride);
      }
      var s := Axis(start, end, stride);
      forall k | 0 <= k < |s|
        ensures s[k] == start + stride * k
      {
        if k > 0 {
          assert s[k] == Axis(start + stride, end, stride)[k - 1];
        }
      }
    }
  }

  /** A loop variable `start + stride * k` is still below `end` exactly when
      `k` is below `AxisCount`. */
  lemma AxisBound(start: int, end: int, stride: int, k: int)
    requires stride > 0 && k >= 0
    ensures start + stride * k < end <==> k < AxisCount(start, end, stride)
  {
    if end > start {
      var n := end - start - 1;
      var c := (n + stride) / stride;
      assert c * stride <= n + stride < (c + 1) * stride;
      if start + stride * k < end {
        if k >= c {
          MulLe(c, k, stride);
        }
      } else {
        if k < c {
          MulLe(k + 1, c, stride);
        }
      }
    }
  }

  /** The guard `0 <= v && v < bound` applied to every visited coordinate. */
  function Within(s: seq<int>, bound: int): (r: seq<int>)
    ensures forall v :: v in r <==> v in s && 0 <= v < bound
    ensures forall v :: v in r ==> 0 <= v < bound
    ensures |r| <= |s|
  {
    if s == [] then []
    else (if 0 <= s[0] < bound then [s[0]] else []) + Within(s[1..], bound)
  }

  /** A guard that every visited coordinate passes removes nothing. */
  lemma {:induction false} WithinAll(s: seq<int>, bound: int)
    requires forall v :: v in s ==> 0 <= v < bound
    ensures Within(s, bound) == s
  {
    if s != [] {
      assert s[0] in s;
      assert forall v :: v in s[1..] ==> v in s;
      WithinAll(s[1..], bound);
      assert [s[0]] + s[1..] == s;
    }
  }
}
