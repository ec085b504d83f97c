/** The halftone webcam sketch of sketch.js: a mirrored darkness sample of the
    camera frame every 7 pixels becomes a black dot, between two layers of
    pulsing orange stripes. */
module Sketch {
  import opened P5
  import opened Raster
  import opened Grid

  /** The pitch of the sampling grid, which also starts at this offset. */
  const STEP := 7
  /** The radius of the dot for a fully dark sample. */
  const MAX_RADIUS: real := 20.0
  const NUM_STRIPES := 15
  /** p5's `TWO_PI` as a double. */
  const TWO_PI: real := 6.283185307179586

  // ---------------------------------------------- getPixelDarknessAtPosition

  /** The column read for column `x` with mirroring on: `w - x - 1`. */
  function MirrorColumn(x: int, w: int): (m: int)
    ensures 0 <= x < w ==> 0 <= m < w
    ensures x + m == w - 1
  {
    w - x - 1
  }

  /** Mirroring twice gives back the column. */
  lemma MirrorInvolution(x: int, w: int)
    ensures MirrorColumn(MirrorColumn(x, w), w) == x
  {
  }

  /** The pixel number `y * w + (w - x - 1)` read for (x, y). For a point of
      the frame it is a pixel of the frame, in row `y` and mirrored column. */
  function MirroredIndex(x: int, y: int, w: int): int
  {
    y * w + MirrorColumn(x, w)
  }

  lemma MirroredIndexInBounds(x: int, y: int, w: int, h: int)
    requires 0 <= x < w && 0 <= y < h
    ensures 0 <= MirroredIndex(x, y, w) < w * h
    ensures MirroredIndex(x, y, w) % w == w - 1 - x && MirroredIndex(x, y, w) / w == y
    ensures 0 <= MirroredIndex(x, y, w) * 4 && MirroredIndex(x, y, w) * 4 + 3 < w * h * 4
  {
    var m := MirrorColumn(x, w);
    PixelInBounds(m, y, w, h);
    RowMajor(m, y, w);
  }

  /** `(255 - red) / 255`: 1 for black, 0 for full red. */
  function Darkness(red: byte): (d: real)
    ensures 0.0 <= d <= 1.0
    ensures d == 1.0 <==> red == 0
    ensures d == 0.0 <==> red == 255
  {
    (255 - red as int) as real / 255.0
  }

  /** More red never makes a sample darker. */
  lemma DarknessMonotone(r1: byte, r2: byte)
    requires r1 <= r2
    ensures Darkness(r2) <= Darkness(r1)
  {
    assert Darkness(r1) - Darkness(r2) == (r2 as int - r1 as int) as real / 255.0;
  }

  /** A loaded camera frame: its size and its RGBA bytes. */
  datatype Capture = Capture(width: int, height: int, pixels: seq<byte>)

  predicate CaptureOk(c: Capture)
  {
    c.width >= 0 && c.height >= 0 && |c.pixels| == c.width * c.height * 4
  }

  /** `getPixelDarknessAtPosition(img, x, y)`: the darkness of the red byte of
      the mirrored pixel; green, blue and alpha are never read. */
  function PixelDarkness(c: Capture, x: int, y: int): (d: real)
    requires CaptureOk(c) && 0 <= x < c.width && 0 <= y < c.height
    ensures 0.0 <= d <= 1.0
  {
    MirroredIndexInBounds(x, y, c.width, c.height);
    Darkness(c.pixels[MirroredIndex(x, y, c.width) * 4])
  }

  /** The byte read is the red byte of pixel (w - 1 - x, y) in the usual
      addressing, so the darkness depends on that byte alone. */
  lemma PixelDarknessOfRed(c: Capture, x: int, y: int)
    requires CaptureOk(c) && 0 <= x < c.width && 0 <= y < c.height
    ensures 0 <= PixelOffset(c.width - 1 - x, y, c.width) < |c.pixels|
    ensures PixelDarkness(c, x, y) == Darkness(c.pixels[PixelOffset(c.width - 1 - x, y, c.width)])
  {
    PixelInBounds(c.width - 1 - x, y, c.width, c.height);
  }

  // ------------------------------------------------------------------- draw

  /** One halftone dot: the sampled point, its canvas position and its radius. */
  datatype Dot = Dot(x: int, y: int, sx: real, sy: real, radius: real)

  /** The dot for sample point (x, y) on a canvas of the given size: at
      `x * width / img.width`, `y * height / img.height`, of radius
      `20 * darkness`, which lies in [0, 20]; the canvas position lies inside
      the canvas. */
  function DotAt(c: Capture, x: int, y: int, width: real, height: real): (d: Dot)
    requires CaptureOk(c) && 0 <= x < c.width && 0 <= y < c.height
    ensures d.x == x && d.y == y
    ensures 0.0 <= d.radius <= MAX_RADIUS
    ensures width > 0.0 ==> 0.0 <= d.sx < width
    ensures height > 0.0 ==> 0.0 <= d.sy < height
  {
    ScaleInside(x, c.width, width);
    ScaleInside(y, c.height, height);
    Dot(x, y, x as real * width / c.width as real, y as real * height / c.height as real,
        MAX_RADIUS * PixelDarkness(c, x, y))
  }

  lemma ScaleInside(v: int, size: int, extent: real)
    requires 0 <= v < size
    ensures extent > 0.0 ==> 0.0 <= v as real * extent / size as real < extent
  {
    if extent > 0.0 {
      var s := size as real;
      assert v as real * extent < s * extent;
      assert (s * extent) / s == extent;
    }
  }

  /** The sampling loops of `draw`, one row of dots per grid row: nothing when
      the capture has no width; otherwise a row for every `7 + 7 * j` strictly
      inside the frame, in drawing order. */
  method DrawDots(c: Capture, width: real, height: real) returns (grid: seq<seq<Dot>>)
    requires CaptureOk(c)
    ensures c.width == 0 ==> grid == []
    ensures c.width > 0 ==> |grid| == AxisCount(STEP, c.height, STEP)
    ensures forall j :: 0 <= j < |grid| ==>
      GridRow(grid[j], STEP + STEP * j, c, width, height)
  {
    grid := [];
    if c.width > 0 {
      var y := STEP;
      while y < c.height
        invariant y == STEP + STEP * |grid| && |grid| <= AxisCount(STEP, c.height, STEP)
        invariant forall j :: 0 <= j < |grid| ==>
          GridRow(grid[j], STEP + STEP * j, c, width, height)
      {
        AxisBound(STEP, c.height, STEP, |grid|);
        var row := DrawDotRow(c, y, width, height);
        assert forall j :: 0 <= j < |grid| ==> (grid + [row])[j] == grid[j];
        grid := grid + [row];
        y := y + STEP;
      }
      AxisBound(STEP, c.height, STEP, |grid|);
    }
  }

  /** The grid row at `y`: one dot at every `7 + 7 * i` strictly inside the
      frame, left to right. */
  predicate GridRow(row: seq<Dot>, y: int, c: Capture, width: real, height: real)
  {
    CaptureOk(c) && 0 <= y < c.height &&
    |row| == AxisCount(STEP, c.width, STEP) &&
    forall i :: 0 <= i < |row| ==>
      0 <= STEP + STEP * i < c.width && row[i] == DotAt(c, STEP + STEP * i, y, width, height)
  }

  /** The inner sampling loop of `draw` for the row at `y`. */
  method DrawDotRow(c: Capture, y: int, width: real, height: real) returns (row: seq<Dot>)
    requires CaptureOk(c) && 0 <= y < c.height
    ensures |row| == AxisCount(STEP, c.width, STEP)
    ensures forall i :: 0 <= i < |row| ==>
      0 <= STEP + STEP * i < c.width && row[i] == DotAt(c, STEP + STEP * i, y, width, height)
    ensures GridRow(row, y, c, width, height)
  {
    row := [];
    var x := STEP;
    while x < c.width
      invariant x == STEP + STEP * |row| && |row| <= AxisCount(STEP, c.width, STEP)
      invariant forall i :: 0 <= i < |row| ==>
        0 <= STEP + STEP * i < c.width && row[i] == DotAt(c, STEP + STEP * i, y, width, height)
    {
      AxisBound(STEP, c.width, STEP, |row|);
      var darkness := PixelDarkness(c, x, y);
      var radius := MAX_RADIUS * darkness;
      var sX := x as real * width / c.width as real;
      var sY := y as real * height / c.height as real;
      var dot := Dot(x, y, sX, sY, radius);
      assert dot == DotAt(c, x, y, width, height);
      row := row + [dot];
      x := x + STEP;
    }
    AxisBound(STEP, c.width, STEP, |row|);
  }

  /** The grid has `floor((n - 1) / 7)` points along a side of `n >= 1` pixels. */
  lemma AxisCountFromSeven(n: int)
    requires n >= 1
    ensures AxisCount(STEP, n, STEP) == (n - 1) / STEP
  {
  }

  // --------------------------------------------------------------- stripes

  /** One stripe record of `setup`. */
  datatype Stripe = Stripe(x: real, y: real, w: real, h: real, angle: real, speed: real,
                           thickness: real, colour: Rgb, alpha: real, offsetX: real, offsetY: real)

  /** The ranges `setup` draws each stripe's fields from. */
  predicate StripeOk(s: Stripe, width: real, height: real)
  {
    0.0 <= s.x < width && 0.0 <= s.y < height && 50.0 <= s.w < 300.0 && 100.0 <= s.h < 600.0 &&
    0.0 <= s.angle < TWO_PI && 0.0005 <= s.speed < 0.002 && 5.0 <= s.thickness < 40.0 &&
    220.0 <= s.colour.r < 255.0 && 80.0 <= s.colour.g < 150.0 && 30.0 <= s.colour.b < 80.0 &&
    100.0 <= s.alpha < 180.0 && -100.0 <= s.offsetX < 100.0 && -100.0 <= s.offsetY < 100.0
  }

  /** Which bars stripe `i` draws on a layer. */
  datatype Bars = Bars(horizontal: bool, vertical: bool)

  /** The rule of `drawAnimatedStripes`: on the top layer, every third stripe
      draws both bars and the others nothing; on the bottom layer, every stripe
      draws its horizontal bar and every second one its vertical bar too. */
  function LayerRule(i: int, topLayer: bool): (b: Bars)
    ensures topLayer ==> (b.horizontal <==> i % 3 == 0) && (b.vertical <==> i % 3 == 0)
    ensures !topLayer ==> b.horizontal && (b.vertical <==> i % 2 == 0)
  {
    if topLayer && i % 3 == 0 then Bars(true, true)
    else if !topLayer then Bars(true, i % 2 == 0)
    else Bars(false, false)
  }

  /** One rectangle drawn: the stripe it belongs to and which of its bars. */
  datatype Bar = Bar(stripe: int, vertical: bool)

  function StripeBars(i: int, topLayer: bool): seq<Bar>
  {
    var b := LayerRule(i, topLayer);
    (if b.horizontal then [Bar(i, false)] else []) + (if b.vertical then [Bar(i, true)] else [])
  }

  /** Stripe `i` draws a bar exactly when the rule says so. */
  lemma StripeBarsExact(i: int, topLayer: bool)
    ensures forall b :: b in StripeBars(i, topLayer) <==>
      b.stripe == i &&
      (if b.vertical then LayerRule(i, topLayer).vertical else LayerRule(i, topLayer).horizontal)
  {
  }

  /** The rectangles a layer draws for the first `n` stripes, in order. */
  function LayerBars(n: nat, topLayer: bool): seq<Bar>
  {
    if n == 0 then [] else LayerBars(n - 1, topLayer) + StripeBars(n - 1, topLayer)
  }

  /** A layer draws a bar exactly when the rule says so. */
  lemma {:induction false} LayerBarsExact(n: nat, topLayer: bool)
    ensures forall b :: b in LayerBars(n, topLayer) <==>
      0 <= b.stripe < n &&
      (if b.vertical then LayerRule(b.stripe, topLayer).vertical else LayerRule(b.stripe, topLayer).horizontal)
  {
    if n > 0 {
      LayerBarsExact(n - 1, topLayer);
      assert LayerBars(n, topLayer) == LayerBars(n - 1, topLayer) + StripeBars(n - 1, topLayer);
      StripeBarsExact(n - 1, topLayer);
    }
  }

  /** The top layer draws two rectangles for each of the `ceil(n / 3)` stripes
      with an index divisible by 3; the bottom layer draws `n` horizontal bars
      and `ceil(n / 2)` vertical ones. */
  lemma {:induction false} LayerBarsCount(n: nat)
    ensures |LayerBars(n, true)| == 2 * ((n + 2) / 3)
    ensures |LayerBars(n, false)| == n + (n + 1) / 2
  {
    if n > 0 {
      var m := n - 1;
      LayerBarsCount(m);
      assert |LayerBars(n, true)| == |LayerBars(m, true)| + |StripeBars(m, true)|;
      assert |LayerBars(n, false)| == |LayerBars(m, false)| + |StripeBars(m, false)|;
      CeilStep(m);
    }
  }

  /** How the counts `ceil(m / 3)` and `ceil(m / 2)` grow with one more stripe. */
  lemma CeilStep(m: nat)
    ensures (m + 3) / 3 == (m + 2) / 3 + (if m % 3 == 0 then 1 else 0)
    ensures (m + 2) / 2 == (m + 1) / 2 + (if m % 2 == 0 then 1 else 0)
  {
    var q, r := m / 3, m % 3;
    if r == 0 {
      DivBetween(m + 3, 3, q + 1);
      DivBetween(m + 2, 3, q);
    } else {
      DivBetween(m + 3, 3, q + 1);
      DivBetween(m + 2, 3, q + 1);
    }
    var h, e := m / 2, m % 2;
    if e == 0 {
      DivBetween(m + 2, 2, h + 1);
      DivBetween(m + 1, 2, h);
    } else {
      DivBetween(m + 2, 2, h + 1);
      DivBetween(m + 1, 2, h + 1);
    }
  }

  /** With the 15 stripes of `setup`, 10 rectangles on top and 23 below. */
  lemma FifteenStripes(n: nat)
    requires n == NUM_STRIPES
    ensures |LayerBars(n, true)| == 10 && |LayerBars(n, false)| == 23
  {
    LayerBarsCount(n);
    assert (n + 2) / 3 == 5 && (n + 1) / 2 == 8;
  }

  /** The global state of the sketch: the stripes and the frame counter. */
  class Sketch {
    var stripes: seq<Stripe>
    var time: int

    ghost predicate Valid(width: real, height: real)
      reads this
    {
      |stripes| == NUM_STRIPES && time >= 0 &&
      forall i :: 0 <= i < |stripes| ==> StripeOk(stripes[i], width, height)
    }

    /** `setup`: fifteen stripes, each drawn from its ranges, and time 0. */
    constructor Setup(width: real, height: real, draws: seq<Stripe>)
      requires |draws| == NUM_STRIPES
      requires forall i :: 0 <= i < |draws| ==> StripeOk(draws[i], width, height)
      ensures Valid(width, height) && stripes == draws && time == 0
    {
      time := 0;
      stripes := [];
      new;
      var i := 0;
      while i < NUM_STRIPES
        invariant 0 <= i <= NUM_STRIPES && stripes == draws[..i] && time == 0
      {
        stripes := stripes + [draws[i]];
        i := i + 1;
      }
      assert draws[..NUM_STRIPES] == draws;
    }

    /** `drawAnimatedStripes(topLayer)`: the rectangles of one layer. */
    method DrawAnimatedStripes(topLayer: bool) returns (bars: seq<Bar>)
      ensures bars == LayerBars(|stripes|, topLayer)
    {
      bars := [];
      var i := 0;
      while i < |stripes|
        invariant 0 <= i <= |stripes| && bars == LayerBars(i, topLayer)
      {
        if topLayer && i % 3 == 0 {
          bars := bars + [Bar(i, false), Bar(i, true)];
        } else if !topLayer {
          bars := bars + [Bar(i, false)];
          if i % 2 == 0 {
            bars := bars + [Bar(i, true)];
          }
        }
        i := i + 1;
      }
    }

    /** `draw`: advances `time` by one and draws the bottom stripes, the dots
        and the top stripes. */
    method Draw(c: Capture, width: real, height: real)
      returns (below: seq<Bar>, dots: seq<seq<Dot>>, above: seq<Bar>)
      requires Valid(width, height) && CaptureOk(c)
      modifies this
      ensures Valid(width, height) && stripes == old(stripes) && time == old(time) + 1
      ensures below == LayerBars(NUM_STRIPES, false) && above == LayerBars(NUM_STRIPES, true)
      ensures c.width == 0 ==> dots == []
      ensures c.width > 0 ==> |dots| == AxisCount(STEP, c.height, STEP)
      ensures forall j :: 0 <= j < |dots| ==> |dots[j]| == AxisCount(STEP, c.width, STEP)
    {
      time := time + 1;
      below := DrawAnimatedStripes(false);
      dots := DrawDots(c, width, height);
      above := DrawAnimatedStripes(true);
    }
  }
}
