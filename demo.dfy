/** The camera-free demo of demo.js: a simulated grey face image is written
    into a pixel buffer (`generateSimulatedFace`) and the central 70% of it is
    rendered as orange ASCII glyphs on an 8-pixel grid (`renderASCIIVideo`). */
module Demo {
  import opened P5
  import opened Raster
  import opened Glyph
  import opened Grid

  /** The demo's glyph ramp, dense to sparse. */
  const ASCII_CHARS: string := "@#S%?*+;:,. "
  const SIMULATED_WIDTH := 640
  const SIMULATED_HEIGHT := 480
  /** Grid pitch of `renderASCIIVideo`. */
  const CHAR_SIZE := 8
  /** Brightness above which the extra glow pass is drawn. */
  const GLOW_THRESHOLD: real := 150.0

  /** A p5 image (`createImage`) with its pixel buffer loaded. */
  class Image {
    const width: int
    const height: int
    const pixels: array<byte>

    ghost predicate Valid()
      reads this
    {
      width > 0 && height > 0 && pixels.Length == width * height * 4
    }

    /** `createImage(w, h)`: a fully transparent black buffer. */
    constructor (w: int, h: int)
      requires w > 0 && h > 0
      ensures Valid() && width == w && height == h && fresh(pixels)
      ensures forall k :: 0 <= k < pixels.Length ==> pixels[k] == 0
    {
      width, height := w, h;
      pixels := new byte[w * h * 4](_ => 0);
    }
  }

  // ------------------------------------------------- generateSimulatedFace

  /** The grey level stored for a computed brightness: `constrain(b, 0, 255)`
      written into the `Uint8ClampedArray`. */
  function Grey(v: real): (g: byte)
    ensures v <= 0.0 ==> g == 0
    ensures v >= 255.0 ==> g == 255
    ensures 0.0 <= v <= 255.0 ==> -0.5 <= g as real - v <= 0.5
    ensures v == v.Floor as real && 0.0 <= v <= 255.0 ==> g as real == v
  {
    ClampedByte(ConstrainReal(v, 0.0, 255.0))
  }

  /** The byte `generateSimulatedFace` leaves at offset `k` of a buffer `w`
      pixels wide, given the brightness `raw(x, y)` it computes for each pixel
      (face shape, features, animation and noise) before the clamp. */
  function FaceTexel(raw: (int, int) -> real, w: int, k: int): byte
    requires w > 0 && k >= 0
  {
    var p := k / 4;
    if k % 4 == 3 then 255 else Grey(raw(p % w, p / w))
  }

  /** Pixel (x, y) is stored grey and opaque: red, green and blue are the
      clamped brightness of (x, y), and alpha is 255. */
  lemma TexelOfPixel(raw: (int, int) -> real, w: int, x: int, y: int, c: int)
    requires 0 <= x < w && 0 <= y && 0 <= c < 4
    ensures FaceTexel(raw, w, PixelOffset(x, y, w) + c) == if c == 3 then 255 else Grey(raw(x, y))
  {
    OffsetDecode(x, y, w, c);
  }

  /** The grey level of the pixel numbered `q` in row-major order. */
  function PixelGrey(raw: (int, int) -> real, w: int, q: int): byte
    requires w > 0
  {
    Grey(raw(q % w, q / w))
  }

  /** A pixel whose four bytes are its grey level three times and 255. */
  ghost predicate PixelWritten(pixels: array<byte>, raw: (int, int) -> real, w: int, q: int)
    requires w > 0
    reads pixels
  {
    0 <= q && q * 4 + 3 < pixels.Length &&
    pixels[q * 4] == PixelGrey(raw, w, q) && pixels[q * 4 + 1] == PixelGrey(raw, w, q) &&
    pixels[q * 4 + 2] == PixelGrey(raw, w, q) && pixels[q * 4 + 3] == 255
  }

  /** `generateSimulatedFace`: visits every pixel once, row by row, and writes
      its four bytes at `(y * w + x) * 4`. */
  method GenerateSimulatedFace(img: Image, raw: (int, int) -> real)
    requires img.Valid()
    modifies img.pixels
    ensures forall k :: 0 <= k < img.pixels.Length ==> img.pixels[k] == FaceTexel(raw, img.width, k)
  {
    var w, h := img.width, img.height;
    ghost var n := 0;
    var y := 0;
    while y < h
      invariant 0 <= y <= h && n == y * w
      invariant forall q :: 0 <= q < n ==> PixelWritten(img.pixels, raw, w, q)
    {
      var x := 0;
      while x < w
        invariant 0 <= x <= w && n == y * w + x
        invariant forall q :: 0 <= q < n ==> PixelWritten(img.pixels, raw, w, q)
      {
        label before:
        StorePixel(img, raw, x, y);
        forall q | 0 <= q < n
          ensures PixelWritten(img.pixels, raw, w, q)
        {
          assert old@before(PixelWritten(img.pixels, raw, w, q));
        }
        n := n + 1;
        x := x + 1;
      }
      assert y * w + w == (y + 1) * w;
      y := y + 1;
    }
    assert n * 4 == img.pixels.Length;
    AllPixelsWritten(img.pixels, raw, w);
  }

  /** The body of the pixel loop of `generateSimulatedFace`: the clamped
      brightness of (x, y) into red, green and blue, and 255 into alpha. The
      bytes of every other pixel are left as they were. */
  method StorePixel(img: Image, raw: (int, int) -> real, x: int, y: int)
    requires img.Valid() && 0 <= x < img.width && 0 <= y < img.height
    modifies img.pixels
    ensures PixelWritten(img.pixels, raw, img.width, y * img.width + x)
    ensures forall k :: 0 <= k < (y * img.width + x) * 4 ==> img.pixels[k] == old(img.pixels[k])
    ensures forall k :: (y * img.width + x) * 4 + 4 <= k < img.pixels.Length ==> img.pixels[k] == old(img.pixels[k])
  {
    var w := img.width;
    var index := (y * w + x) * 4;
    PixelInBounds(x, y, w, img.height);
    RowMajor(x, y, w);
    var brightness := Grey(raw(x, y));
    img.pixels[index] := brightness;
    img.pixels[index + 1] := brightness;
    img.pixels[index + 2] := brightness;
    img.pixels[index + 3] := 255;
  }

  /** Once every pixel is written, every byte is the face texel at its offset. */
  lemma AllPixelsWritten(pixels: array<byte>, raw: (int, int) -> real, w: int)
    requires w > 0 && pixels.Length % 4 == 0
    requires forall q :: 0 <= q < pixels.Length / 4 ==> PixelWritten(pixels, raw, w, q)
    ensures forall k :: 0 <= k < pixels.Length ==> pixels[k] == FaceTexel(raw, w, k)
  {
    forall k | 0 <= k < pixels.Length
      ensures pixels[k] == FaceTexel(raw, w, k)
    {
      var q := k / 4;
      assert k == q * 4 + k % 4;
      assert PixelWritten(pixels, raw, w, q);
    }
  }

  // ------------------------------------------------------ renderASCIIVideo

  /** `floor(size / 2 - size * 0.7 / 2)`: where the sampled region starts on an axis. */
  function RegionStart(size: int): int
  {
    (size as real / 2.0 - size as real * 0.7 / 2.0).Floor
  }

  /** `floor(size / 2 + size * 0.7 / 2)`: where the sampled region ends on an axis. */
  function RegionEnd(size: int): int
  {
    (size as real / 2.0 + size as real * 0.7 / 2.0).Floor
  }

  /** The centred 70% region always lies inside the image, so the in-bounds
      guard of `renderASCIIVideo` never skips a cell. */
  lemma RegionInBounds(size: int)
    requires size >= 0
    ensures 0 <= RegionStart(size) <= RegionEnd(size) <= size
  {
    var s := size as real;
    FloorMonotone(0.0, s / 2.0 - s * 0.7 / 2.0);
    FloorMonotone(s / 2.0 - s * 0.7 / 2.0, s / 2.0 + s * 0.7 / 2.0);
    FloorMonotone(s / 2.0 + s * 0.7 / 2.0, s);
  }

  /** With the 640 by 480 simulated image the region is [96, 544) by [72, 408). */
  lemma DefaultRegion()
    ensures RegionStart(SIMULATED_WIDTH) == 96 && RegionEnd(SIMULATED_WIDTH) == 544
    ensures RegionStart(SIMULATED_HEIGHT) == 72 && RegionEnd(SIMULATED_HEIGHT) == 408
  {
    assert 640.0 / 2.0 - 640.0 * 0.7 / 2.0 == 96.0;
    assert 640.0 / 2.0 + 640.0 * 0.7 / 2.0 == 544.0;
    assert 480.0 / 2.0 - 480.0 * 0.7 / 2.0 == 72.0;
    assert 480.0 / 2.0 + 480.0 * 0.7 / 2.0 == 408.0;
  }

  /** One drawn glyph: the sampled pixel (i, j), its character, its screen
      position, its fill colour, and whether the extra glow pass is drawn. */
  datatype VideoCell = VideoCell(i: int, j: int, glyph: char, displayX: real, displayY: real,
                                 colour: Rgb, glowPass: bool)

  /** `asciiChars[floor(map(brightness, 0, 255, 11, 0))]`, unclamped. */
  function VideoGlyph(b: byte): (c: char)
    ensures c in ASCII_CHARS
    ensures b == 255 ==> c == '@'
    ensures b == 0 ==> c == ' '
  {
    ASCII_CHARS[RampIndex(b as real, |ASCII_CHARS|)]
  }

  /** `map(brightness, 0, 255, 50, 255)`. */
  function OrangeIntensity(b: byte): (o: real)
    ensures 50.0 <= o <= 255.0
    ensures b == 0 ==> o == 50.0
    ensures b == 255 ==> o == 255.0
  {
    MapBetween(b as real, 0.0, 255.0, 50.0, 255.0);
    Map(b as real, 0.0, 255.0, 50.0, 255.0)
  }

  /** `map(sine, -1, 1, 0.5, 1)` for the animation sine at the cell. */
  function GlowIntensity(sine: real): (g: real)
    ensures -1.0 <= sine <= 1.0 ==> 0.5 <= g <= 1.0
  {
    if -1.0 <= sine <= 1.0 then MapBetween(sine, -1.0, 1.0, 0.5, 1.0); Map(sine, -1.0, 1.0, 0.5, 1.0)
    else Map(sine, -1.0, 1.0, 0.5, 1.0)
  }

  /** The fill colour `(orange * glow, (orange * 0.5) * glow, 0)`: green is half
      the red, blue is 0, and the red stays within [25, 255] while the glow
      factor stays within [0.5, 1]. */
  function Amber(orange: real, glow: real): (c: Rgb)
    requires 50.0 <= orange <= 255.0
    ensures c.g == c.r / 2.0 && c.b == 0.0
    ensures 0.5 <= glow <= 1.0 ==> 25.0 <= c.r <= 255.0
  {
    HalfFactor(orange, glow);
    var c := Rgb(orange * glow, (orange * 0.5) * glow, 0.0);
    if 0.5 <= glow <= 1.0 then RedBetween(orange, glow); c else c
  }

  /** The bounds on the red component for a glow factor within [0.5, 1]. */
  lemma RedBetween(orange: real, glow: real)
    requires 50.0 <= orange <= 255.0 && 0.5 <= glow <= 1.0
    ensures 25.0 <= orange * glow && orange * glow <= 255.0
  {
    MulBetween(orange, 0.5, glow, 1.0);
    assert orange * glow <= orange * 1.0;
    assert orange * 1.0 == orange;
    var p := orange * glow;
    assert p <= orange;
    assert 25.0 <= p <= 255.0;
  }

  /** The glyph drawn for red byte `b` at pixel (i, j): an orange whose green is
      half its red and whose blue is 0, at least 25 and at most 255 in red, with
      the glow pass exactly for the bright pixels. */
  function CellAt(b: byte, i: int, j: int, scaleX: real, scaleY: real, sine: real): (c: VideoCell)
    ensures c.i == i && c.j == j && c.glyph == VideoGlyph(b)
    ensures c.colour.g == c.colour.r / 2.0 && c.colour.b == 0.0
    ensures -1.0 <= sine <= 1.0 ==> 25.0 <= c.colour.r <= 255.0
    ensures c.glowPass <==> b as real > GLOW_THRESHOLD
  {
    VideoCell(i, j, VideoGlyph(b), i as real * scaleX, j as real * scaleY,
              Amber(OrangeIntensity(b), GlowIntensity(sine)), b as real > GLOW_THRESHOLD)
  }

  /** A brighter pixel never gets a sparser glyph. */
  lemma VideoGlyphMonotone(b1: byte, b2: byte)
    requires b1 <= b2
    ensures RampIndex(b2 as real, |ASCII_CHARS|) <= RampIndex(b1 as real, |ASCII_CHARS|)
  {
    RampIndexMonotone(b1 as real, b2 as real, |ASCII_CHARS|);
  }

  /** The guard of `renderASCIIVideo`. */
  predicate Inside(i: int, j: int, w: int, h: int)
  {
    0 <= i < w && 0 <= j < h
  }

  /** The image `renderASCIIVideo` samples: its RGBA bytes, `w` by `h`. */
  datatype Frame = Frame(p: seq<byte>, w: int, h: int)

  predicate FrameOk(f: Frame)
  {
    f.w > 0 && f.h > 0 && |f.p| == f.w * f.h * 4
  }

  /** How the samples are drawn: the canvas-per-pixel scale on each axis and
      the animation sine `sine(i, j)` at each pixel. */
  datatype View = View(scaleX: real, scaleY: real, sine: (int, int) -> real)

  /** The cell for the pixel (i, j) of the frame. */
  function SampleCell(f: Frame, v: View, i: int, j: int): (c: VideoCell)
    requires FrameOk(f) && Inside(i, j, f.w, f.h)
    ensures c.i == i && c.j == j
  {
    PixelInBounds(i, j, f.w, f.h);
    CellAt(f.p[PixelOffset(i, j, f.w)], i, j, v.scaleX, v.scaleY, v.sine(i, j))
  }

  /** The cells one grid row `j` yields over the column coordinates `xs`. */
  function RowCells(f: Frame, v: View, j: int, xs: seq<int>): seq<VideoCell>
    requires FrameOk(f)
  {
    if xs == [] then []
    else
      (if Inside(xs[0], j, f.w, f.h) then [SampleCell(f, v, xs[0], j)] else [])
      + RowCells(f, v, j, xs[1..])
  }

  /** The cells the grid rows `ys` yield, row after row. */
  function RegionCells(f: Frame, v: View, ys: seq<int>, xs: seq<int>): seq<VideoCell>
    requires FrameOk(f)
  {
    if ys == [] then []
    else RowCells(f, v, ys[0], xs) + RegionCells(f, v, ys[1..], xs)
  }

  /** The column coordinates `renderASCIIVideo` visits for an image `w` wide. */
  function Columns(w: int): seq<int>
  {
    Axis(RegionStart(w), RegionEnd(w), CHAR_SIZE)
  }

  /** The row coordinates `renderASCIIVideo` visits for an image `h` high. */
  function Rows(h: int): seq<int>
  {
    Axis(RegionStart(h), RegionEnd(h), CHAR_SIZE)
  }

  /** The frame an image currently holds. */
  function FrameOf(img: Image): (f: Frame)
    requires img.Valid()
    reads img, img.pixels
    ensures FrameOk(f)
  {
    Frame(img.pixels[..], img.width, img.height)
  }

  /** `renderASCIIVideo` on a canvas of the given size: the glyph cells in
      drawing order. `sine(i, j)` is the animation sine at (i, j). */
  method RenderASCIIVideo(img: Image, width: real, height: real, sine: (int, int) -> real)
    returns (cells: seq<VideoCell>)
    requires img.Valid()
    ensures cells == RegionCells(FrameOf(img), View(width / img.width as real, height / img.height as real, sine),
                                 Rows(img.height), Columns(img.width))
  {
    var w, h := img.width, img.height;
    var scaleX := width / w as real;
    var scaleY := height / h as real;
    var startY, endY := RegionStart(h), RegionEnd(h);
    ghost var f, v := FrameOf(img), View(scaleX, scaleY, sine);
    ghost var xs := Columns(w);
    cells := [];
    var j := startY;
    while j < endY
      invariant cells + RegionCells(f, v, Axis(j, endY, CHAR_SIZE), xs) == RegionCells(f, v, Rows(h), xs)
      decreases endY - j
    {
      var row := RenderRow(img, j, scaleX, scaleY, sine);
      RegionStep(f, v, j, endY, xs, Rows(h), cells, row);
      cells := cells + row;
      j := j + CHAR_SIZE;
    }
  }

  /** One pass of the outer loop of `renderASCIIVideo`: appending the cells
      of row `j` moves the loop on to the next row. */
  lemma RegionStep(f: Frame, v: View, j: int, end: int, xs: seq<int>, all: seq<int>,
                   cells: seq<VideoCell>, row: seq<VideoCell>)
    requires FrameOk(f) && j < end
    requires cells + RegionCells(f, v, Axis(j, end, CHAR_SIZE), xs) == RegionCells(f, v, all, xs)
    requires row == RowCells(f, v, j, xs)
    ensures (cells + row) + RegionCells(f, v, Axis(j + CHAR_SIZE, end, CHAR_SIZE), xs) == RegionCells(f, v, all, xs)
  {
    var rest := Axis(j + CHAR_SIZE, end, CHAR_SIZE);
    AxisCons(j, end, CHAR_SIZE);
    RegionCellsCons(f, v, j, rest, xs);
    assert (cells + row) + RegionCells(f, v, rest, xs) == cells + (row + RegionCells(f, v, rest, xs));
  }

  lemma RegionCellsCons(f: Frame, v: View, j: int, rest: seq<int>, xs: seq<int>)
    requires FrameOk(f)
    ensures RegionCells(f, v, [j] + rest, xs) == RowCells(f, v, j, xs) + RegionCells(f, v, rest, xs)
  {
    assert ([j] + rest)[1..] == rest;
  }

  lemma RowCellsCons(f: Frame, v: View, j: int, i: int, rest: seq<int>)
    requires FrameOk(f)
    ensures RowCells(f, v, j, [i] + rest)
            == (if Inside(i, j, f.w, f.h) then [SampleCell(f, v, i, j)] else []) + RowCells(f, v, j, rest)
  {
    assert ([i] + rest)[1..] == rest;
  }

  /** The inner loop of `renderASCIIVideo`: the cells of grid row `j`. */
  method RenderRow(img: Image, j: int, scaleX: real, scaleY: real, sine: (int, int) -> real)
    returns (row: seq<VideoCell>)
    requires img.Valid()
    ensures row == RowCells(FrameOf(img), View(scaleX, scaleY, sine), j, Columns(img.width))
  {
    var w, h := img.width, img.height;
    var startX, endX := RegionStart(w), RegionEnd(w);
    ghost var f, v := FrameOf(img), View(scaleX, scaleY, sine);
    row := [];
    var i := startX;
    while i < endX
      invariant row + RowCells(f, v, j, Axis(i, endX, CHAR_SIZE)) == RowCells(f, v, j, Columns(w))
      decreases endX - i
    {
      RowStep(f, v, j, i, endX, Columns(w), row);
      if i >= 0 && i < w && j >= 0 && j < h {
        PixelInBounds(i, j, w, h);
        var index := (j * w + i) * 4;
        var brightness := img.pixels[index];
        var cell := CellAt(brightness, i, j, scaleX, scaleY, sine(i, j));
        assert cell == SampleCell(f, v, i, j);
        row := row + [cell];
      }
      i := i + CHAR_SIZE;
    }
  }

  /** One pass of the inner loop of `renderASCIIVideo`: the cell of pixel
      (i, j), when it passes the guard, is the next one of the row. */
  lemma RowStep(f: Frame, v: View, j: int, i: int, end: int, all: seq<int>, row: seq<VideoCell>)
    requires FrameOk(f) && i < end
    requires row + RowCells(f, v, j, Axis(i, end, CHAR_SIZE)) == RowCells(f, v, j, all)
    ensures (row + (if Inside(i, j, f.w, f.h) then [SampleCell(f, v, i, j)] else []))
            + RowCells(f, v, j, Axis(i + CHAR_SIZE, end, CHAR_SIZE)) == RowCells(f, v, j, all)
  {
    var rest := Axis(i + CHAR_SIZE, end, CHAR_SIZE);
    var here := if Inside(i, j, f.w, f.h) then [SampleCell(f, v, i, j)] else [];
    AxisCons(i, end, CHAR_SIZE);
    RowCellsCons(f, v, j, i, rest);
    assert (row + here) + RowCells(f, v, j, rest) == row + (here + RowCells(f, v, j, rest));
  }

  /** A grid row inside the image yields one cell per column coordinate that
      passes the guard; a row outside it yields none. */
  lemma {:induction false} RowCellsCount(f: Frame, v: View, j: int, xs: seq<int>)
    requires FrameOk(f)
    ensures |RowCells(f, v, j, xs)| == if 0 <= j < f.h then |Within(xs, f.w)| else 0
  {
    if xs != [] {
      RowCellsCount(f, v, j, xs[1..]);
    }
  }

  /** The region yields one cell per guarded row and guarded column. */
  lemma {:induction false} RegionCellsCount(f: Frame, v: View, ys: seq<int>, xs: seq<int>)
    requires FrameOk(f)
    ensures |RegionCells(f, v, ys, xs)| == |Within(ys, f.h)| * |Within(xs, f.w)|
  {
    if ys != [] {
      var a := RowCells(f, v, ys[0], xs);
      var b := RegionCells(f, v, ys[1..], xs);
      assert RegionCells(f, v, ys, xs) == a + b;
      assert Within(ys, f.h) == (if 0 <= ys[0] < f.h then [ys[0]] else []) + Within(ys[1..], f.h);
      RowCellsCount(f, v, ys[0], xs);
      RegionCellsCount(f, v, ys[1..], xs);
      SuccMul(|Within(ys[1..], f.h)|, |Within(xs, f.w)|);
    }
  }

  lemma SuccMul(n: int, c: int)
    ensures (n + 1) * c == n * c + c
  {
  }

  /** Every drawn cell samples a pixel inside the image, so each buffer read of
      `renderASCIIVideo` lands inside the `w * h * 4` array. */
  lemma {:induction false} RegionCellsInside(f: Frame, v: View, ys: seq<int>, xs: seq<int>)
    requires FrameOk(f)
    ensures forall c :: c in RegionCells(f, v, ys, xs) ==>
      Inside(c.i, c.j, f.w, f.h) && 0 <= PixelOffset(c.i, c.j, f.w) < |f.p|
  {
    if ys != [] {
      RowCellsInside(f, v, ys[0], xs);
      RegionCellsInside(f, v, ys[1..], xs);
    }
  }

  lemma {:induction false} RowCellsInside(f: Frame, v: View, j: int, xs: seq<int>)
    requires FrameOk(f)
    ensures forall c :: c in RowCells(f, v, j, xs) ==>
      Inside(c.i, c.j, f.w, f.h) && 0 <= PixelOffset(c.i, c.j, f.w) < |f.p|
  {
    if xs != [] {
      RowCellsInside(f, v, j, xs[1..]);
      if Inside(xs[0], j, f.w, f.h) {
        PixelInBounds(xs[0], j, f.w, f.h);
      }
    }
  }

  /** Every coordinate of `Axis(start, end, stride)` lies in [start, end). */
  lemma AxisInside(start: int, end: int, stride: int)
    requires stride > 0
    ensures forall v :: v in Axis(start, end, stride) ==> start <= v < end
  {
    AxisShape(start, end, stride);
    var s := Axis(start, end, stride);
    forall v | v in s
      ensures start <= v < end
    {
      var k :| 0 <= k < |s| && s[k] == v;
      AxisBound(start, end, stride, k);
    }
  }

  /** The guard of `renderASCIIVideo` never skips a coordinate of the centred
      region: filtering the visited columns (rows) by the image width (height)
      leaves them all. */
  lemma GuardKeepsRegion(size: int)
    requires size >= 0
    ensures Within(Axis(RegionStart(size), RegionEnd(size), CHAR_SIZE), size)
            == Axis(RegionStart(size), RegionEnd(size), CHAR_SIZE)
  {
    RegionInBounds(size);
    AxisInside(RegionStart(size), RegionEnd(size), CHAR_SIZE);
    WithinAll(Axis(RegionStart(size), RegionEnd(size), CHAR_SIZE), size);
  }

  /** With the 640 by 480 simulated image, 56 columns by 42 rows = 2352 glyphs
      are drawn, whatever the canvas size and the animation phase. */
  lemma DefaultCellCount(f: Frame, v: View)
    requires FrameOk(f) && f.w == SIMULATED_WIDTH && f.h == SIMULATED_HEIGHT
    ensures |RegionCells(f, v, Rows(SIMULATED_HEIGHT), Columns(SIMULATED_WIDTH))| == 2352
  {
    var xs, ys := Columns(SIMULATED_WIDTH), Rows(SIMULATED_HEIGHT);
    assert |Within(xs, SIMULATED_WIDTH)| == 56 by {
      DefaultRegion();
      GuardKeepsRegion(SIMULATED_WIDTH);
      AxisShape(96, 544, CHAR_SIZE);
    }
    assert |Within(ys, SIMULATED_HEIGHT)| == 42 by {
      DefaultRegion();
      GuardKeepsRegion(SIMULATED_HEIGHT);
      AxisShape(72, 408, CHAR_SIZE);
    }
    RegionCellsCount(f, v, ys, xs);
  }
}
