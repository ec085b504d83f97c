/** The face-driven ASCII overlay of ascii-face-standalone.js: the canvas
    bounding box of the detected face's keypoints, padded and clamped; the
    grid of 8-pixel glyph cells inside it, each sampling the video frame at a
    clamped coordinate and choosing a glyph, a colour and a glow from the
    mean brightness of that pixel; and the highlighted key landmarks. */
module AsciiFace {
  import opened P5
  import opened Raster
  import opened Glyph

  /** The glyph ramp, densest first (the source's `\/` is an escaped `/`). */
  const ASCII_CHARS: string := "@#$%&80BMWXYZQOCUPDKHNAGS" + "VRFTLJI?!{}[]()|/<>+=*~^-_:;,.` "

  const AMBER := Rgb(255.0, 191.0, 0.0)
  const DEEP_ORANGE := Rgb(255.0, 68.0, 0.0)

  /** Side of one glyph cell, in canvas pixels. */
  const ASCII_SIZE := 8
  /** Margin added around the keypoints' bounding box. */
  const PADDING := 80.0
  /** Mean brightness above which a cell gets the strong glow. */
  const GLOW_THRESHOLD := 150.0

  /** The facemesh landmarks that `drawKeypoints` highlights. */
  const KEY_INDICES: seq<nat> := [33, 133, 362, 263, 1, 4, 5, 6, 61, 291, 17, 0]

  datatype Point = Point(x: real, y: real)
  datatype Box = Box(minX: real, minY: real, maxX: real, maxY: real)

  /** One glyph cell: its grid column and row, the offset of the red byte it
      sampled, the glyph, its canvas position, fill colour and shadow blur. */
  datatype FaceGlyph = FaceGlyph(col: int, row: int, pixelIndex: int, glyph: char,
                                 posX: real, posY: real, colour: Rgb, blur: int)

  /** A highlighted landmark: its keypoint index and canvas position. */
  datatype Mark = Mark(index: nat, at: Point)

  /** Everything `drawASCIIFace` derives for one frame with a detected face. */
  datatype FaceFrame = FaceFrame(raw: Box, box: Box, cols: int, rows: int,
                                 cells: seq<FaceGlyph>, marks: seq<Mark>)

  datatype Option<T> = None | Some(value: T)

  // ---------------------------------------------------------------- glyphs

  /** `charIndex` for a pixel whose red, green and blue bytes sum to `sum`:
      the ramp index of the mean brightness `sum / 3`, constrained to the ramp.
      Full white selects `'@'`, black selects the final space, and for byte
      channels the constraint never changes the index. */
  function CharIndex(sum: int): (i: int)
    ensures 0 <= i < |ASCII_CHARS|
    ensures 0 <= sum <= 765 ==> i == (56 * (765 - sum)) / 765
    ensures sum == 765 ==> ASCII_CHARS[i] == '@'
    ensures sum == 0 ==> ASCII_CHARS[i] == ' '
  {
    var b := sum as real / 3.0;
    RampIndexOfSum(sum, 3, |ASCII_CHARS|);
    assert |ASCII_CHARS| == 57 && ASCII_CHARS[0] == '@' && ASCII_CHARS[56] == ' ';
    assert sum == 765 ==> b == 255.0;
    assert sum == 0 ==> b == 0.0;
    assert 0 <= sum <= 765 ==> 0.0 <= b <= 255.0;
    Constrain(RampIndex(b, |ASCII_CHARS|), 0, |ASCII_CHARS| - 1)
  }

  /** A brighter pixel never selects a later (sparser) glyph. */
  lemma CharIndexMonotone(sum1: int, sum2: int)
    requires sum1 <= sum2
    ensures CharIndex(sum2) <= CharIndex(sum1)
  {
    assert sum1 as real / 3.0 <= sum2 as real / 3.0;
    RampIndexMonotone(sum1 as real / 3.0, sum2 as real / 3.0, |ASCII_CHARS|);
  }

  /** The fill colour: `lerp` from `DEEP_ORANGE` to `AMBER` by `brightness / 255`. */
  function FaceColour(brightness: real): (c: Rgb)
    ensures brightness == 0.0 ==> c == DEEP_ORANGE
    ensures brightness == 255.0 ==> c == AMBER
    ensures 0.0 <= brightness <= 255.0 ==> c.r == 255.0 && 68.0 <= c.g <= 191.0 && c.b == 0.0
  {
    var t := brightness / 255.0;
    Rgb(Lerp(DEEP_ORANGE.r, AMBER.r, t), Lerp(DEEP_ORANGE.g, AMBER.g, t), Lerp(DEEP_ORANGE.b, AMBER.b, t))
  }

  /** The shadow blur of a cell: 15 above the glow threshold, 5 otherwise. */
  function GlowBlur(brightness: real): (blur: int)
    ensures blur == 5 || blur == 15
    ensures blur == 15 <==> brightness > GLOW_THRESHOLD
  {
    if brightness > GLOW_THRESHOLD then 15 else 5
  }

  // ------------------------------------------------------------- face box

  /** A keypoint in video coordinates mapped onto the canvas. */
  function ToCanvas(kp: Point, vw: real, vh: real, width: real, height: real): Point
    requires vw > 0.0 && vh > 0.0
  {
    Point(Map(kp.x, 0.0, vw, 0.0, width), Map(kp.y, 0.0, vh, 0.0, height))
  }

  predicate Encloses(b: Box, p: Point)
  {
    b.minX <= p.x <= b.maxX && b.minY <= p.y <= b.maxY
  }

  predicate InCanvas(b: Box, width: real, height: real)
  {
    0.0 <= b.minX <= width && 0.0 <= b.maxX <= width &&
    0.0 <= b.minY <= height && 0.0 <= b.maxY <= height
  }

  /** The keypoints mapped onto the canvas, in order. */
  function CanvasPoints(kps: seq<Point>, vw: real, vh: real, width: real, height: real): (pts: seq<Point>)
    requires vw > 0.0 && vh > 0.0
    ensures |pts| == |kps|
    ensures forall k :: 0 <= k < |kps| ==> pts[k] == ToCanvas(kps[k], vw, vh, width, height)
  {
    if kps == [] then []
    else CanvasPoints(kps[..|kps| - 1], vw, vh, width, height) + [ToCanvas(kps[|kps| - 1], vw, vh, width, height)]
  }

  lemma CanvasPointsSnoc(kps: seq<Point>, i: int, vw: real, vh: real, width: real, height: real)
    requires vw > 0.0 && vh > 0.0 && 0 <= i < |kps|
    ensures CanvasPoints(kps[..i + 1], vw, vh, width, height)
            == CanvasPoints(kps[..i], vw, vh, width, height) + [ToCanvas(kps[i], vw, vh, width, height)]
  {
    assert kps[..i + 1][..i] == kps[..i];
  }

  /** What a min/max accumulation over `pts` started at (width, height, 0, 0)
      computes: a box enclosing every point, each of whose sides is either its
      starting value or attained by some point. */
  predicate IsBounds(b: Box, pts: seq<Point>, width: real, height: real)
  {
    (forall k :: 0 <= k < |pts| ==> Encloses(b, pts[k])) &&
    b.minX <= width && b.minY <= height && 0.0 <= b.maxX && 0.0 <= b.maxY &&
    (b.minX == width || exists k :: 0 <= k < |pts| && b.minX == pts[k].x) &&
    (b.minY == height || exists k :: 0 <= k < |pts| && b.minY == pts[k].y) &&
    (b.maxX == 0.0 || exists k :: 0 <= k < |pts| && b.maxX == pts[k].x) &&
    (b.maxY == 0.0 || exists k :: 0 <= k < |pts| && b.maxY == pts[k].y)
  }

  /** The bounds of the face's keypoints on the canvas. */
  predicate IsKeypointBounds(b: Box, kps: seq<Point>, vw: real, vh: real, width: real, height: real)
    requires vw > 0.0 && vh > 0.0
  {
    IsBounds(b, CanvasPoints(kps, vw, vh, width, height), width, height)
  }

  /** The "Get face bounds" loop of `drawASCIIFace`. */
  method KeypointBounds(kps: seq<Point>, vw: real, vh: real, width: real, height: real) returns (b: Box)
    requires vw > 0.0 && vh > 0.0
    ensures IsKeypointBounds(b, kps, vw, vh, width, height)
  {
    var minX, minY, maxX, maxY := width, height, 0.0, 0.0;
    var i := 0;
    while i < |kps|
      invariant 0 <= i <= |kps|
      invariant IsBounds(Box(minX, minY, maxX, maxY), CanvasPoints(kps[..i], vw, vh, width, height), width, height)
    {
      var p := ToCanvas(kps[i], vw, vh, width, height);
      CanvasPointsSnoc(kps, i, vw, vh, width, height);
      BoundsStep(Box(minX, minY, maxX, maxY), CanvasPoints(kps[..i], vw, vh, width, height), p, width, height);
      minX := if p.x < minX then p.x else minX;
      maxX := if p.x > maxX then p.x else maxX;
      minY := if p.y < minY then p.y else minY;
      maxY := if p.y > maxY then p.y else maxY;
      i := i + 1;
    }
    assert kps[..|kps|] == kps;
    b := Box(minX, minY, maxX, maxY);
  }

  /** One pass of the bounds loop: the box widened to take in point `p`. */
  function Grow(b: Box, p: Point): (r: Box)
    ensures Encloses(r, p)
  {
    Box(if p.x < b.minX then p.x else b.minX, if p.y < b.minY then p.y else b.minY,
        if p.x > b.maxX then p.x else b.maxX, if p.y > b.maxY then p.y else b.maxY)
  }

  /** Widening the bounds of `pts` by point `p` gives the bounds of `pts + [p]`. */
  lemma BoundsStep(b: Box, pts: seq<Point>, p: Point, width: real, height: real)
    requires IsBounds(b, pts, width, height)
    ensures IsBounds(Grow(b, p), pts + [p], width, height)
  {
    var r, next := Grow(b, p), pts + [p];
    assert forall k :: 0 <= k < |pts| ==> next[k] == pts[k];
    assert next[|pts|] == p;
  }

  /** Padding by 80 on every side, clamped to the canvas. */
  function PadBox(b: Box, width: real, height: real): (r: Box)
    requires width >= 0.0 && height >= 0.0
    requires b.minX <= width && b.minY <= height && 0.0 <= b.maxX && 0.0 <= b.maxY
    ensures InCanvas(r, width, height)
  {
    Box(if b.minX - PADDING > 0.0 then b.minX - PADDING else 0.0,
        if b.minY - PADDING > 0.0 then b.minY - PADDING else 0.0,
        if b.maxX + PADDING < width then b.maxX + PADDING else width,
        if b.maxY + PADDING < height then b.maxY + PADDING else height)
  }

  /** The padded box still encloses every point of the keypoints' box that
      lies on the canvas, and it reaches 80 beyond that box wherever the
      canvas edge does not cut it off. */
  lemma PadBoxEncloses(b: Box, p: Point, width: real, height: real)
    requires width >= 0.0 && height >= 0.0
    requires b.minX <= width && b.minY <= height && 0.0 <= b.maxX && 0.0 <= b.maxY
    requires Encloses(b, p) && 0.0 <= p.x <= width && 0.0 <= p.y <= height
    ensures Encloses(PadBox(b, width, height), p)
    ensures b.minX >= PADDING ==> PadBox(b, width, height).minX == b.minX - PADDING
    ensures b.maxX + PADDING <= width ==> PadBox(b, width, height).maxX == b.maxX + PADDING
    ensures b.minY >= PADDING ==> PadBox(b, width, height).minY == b.minY - PADDING
    ensures b.maxY + PADDING <= height ==> PadBox(b, width, height).maxY == b.maxY + PADDING
  {
  }

  /** Every mapped keypoint that falls on the canvas lies in the padded box. */
  lemma FaceBoxEnclosesKeypoints(raw: Box, kps: seq<Point>, vw: real, vh: real, width: real, height: real, k: int)
    requires vw > 0.0 && vh > 0.0 && width >= 0.0 && height >= 0.0
    requires IsKeypointBounds(raw, kps, vw, vh, width, height)
    requires 0 <= k < |kps|
    requires var p := ToCanvas(kps[k], vw, vh, width, height); 0.0 <= p.x <= width && 0.0 <= p.y <= height
    ensures Encloses(PadBox(raw, width, height), ToCanvas(kps[k], vw, vh, width, height))
  {
    PadBoxEncloses(raw, ToCanvas(kps[k], vw, vh, width, height), width, height);
  }

  // ------------------------------------------------------------ glyph grid

  /** `floor(extent / 8)`: the number of whole cells across an extent; none
      (zero or fewer) when the extent is below one cell. */
  function CellCount(extent: real): (n: int)
    ensures n as real * 8.0 <= extent < (n + 1) as real * 8.0
    ensures extent < 8.0 ==> n <= 0
    ensures extent >= 0.0 ==> n >= 0
  {
    (extent / 8.0).Floor
  }

  /** The number of cells the nested loops draw. */
  function GridSize(cols: int, rows: int): nat
  {
    if cols > 0 && rows > 0 then cols * rows else 0
  }

  /** The video coordinate sampled for cell `x` of `cols` spanning [lo, hi]
      on a canvas `extent` wide that shows `vsize` video pixels:
      `floor(map(x, 0, cols, lo, hi) * vsize / extent)`, constrained to
      [0, vsize - 1]. */
  function VideoCoord(x: int, cols: int, lo: real, hi: real, vsize: int, extent: real): (v: int)
    requires cols > 0 && vsize > 0 && extent > 0.0
    ensures 0 <= v < vsize
  {
    Constrain((Map(x as real, 0.0, cols as real, lo, hi) * vsize as real / extent).Floor, 0, vsize - 1)
  }

  /** For a cell of the grid and a non-empty span inside the canvas, the
      sampled coordinate already lies in the video before the constraint, so
      the constraint changes nothing. */
  lemma VideoCoordUnclamped(x: int, cols: int, lo: real, hi: real, vsize: int, extent: real)
    requires cols > 0 && vsize > 0 && extent > 0.0
    requires 0 <= x < cols && 0.0 <= lo < hi <= extent
    ensures 0 <= (Map(x as real, 0.0, cols as real, lo, hi) * vsize as real / extent).Floor < vsize
  {
    var m := Map(x as real, 0.0, cols as real, lo, hi);
    SpanPoint(x, cols, lo, hi);
    ScaleBelow(m, vsize as real, extent);
    FloorBelow(m * vsize as real / extent, vsize);
  }

  /** The floor of a real in [0, n) lies in [0, n). */
  lemma FloorBelow(s: real, n: int)
    requires 0.0 <= s < n as real
    ensures 0 <= s.Floor < n
  {
    FloorMonotone(0.0, s);
    assert s.Floor as real <= s;
  }

  /** Cell `x` of `cols` is mapped into the span [lo, hi). */
  lemma SpanPoint(x: int, cols: int, lo: real, hi: real)
    requires 0 <= x < cols && lo < hi
    ensures lo <= Map(x as real, 0.0, cols as real, lo, hi) < hi
  {
    var t := x as real / cols as real;
    assert 0.0 <= t < 1.0 by {
      assert t * cols as real == x as real;
    }
    assert Map(x as real, 0.0, cols as real, lo, hi) == t * (hi - lo) + lo;
    FractionBelow(t, hi - lo);
  }

  /** A point of [0, extent) rescaled by `size / extent` lies in [0, size). */
  lemma ScaleBelow(m: real, size: real, extent: real)
    requires 0.0 <= m < extent && size > 0.0
    ensures 0.0 <= m * size / extent < size
  {
    assert m * size < extent * size by {
      assert extent * size - m * size == (extent - m) * size;
    }
    assert (extent * size) / extent == size;
  }

  lemma FractionBelow(t: real, d: real)
    requires 0.0 <= t < 1.0 && d > 0.0
    ensures 0.0 <= t * d < d
  {
    assert d - t * d == (1.0 - t) * d;
  }

  /** Sum of the red, green and blue bytes of the pixel whose red byte is at `i`. */
  function ChannelSum(pixels: seq<byte>, i: int): (s: int)
    requires 0 <= i && i + 2 < |pixels|
    ensures 0 <= s <= 765
  {
    pixels[i] as int + pixels[i + 1] as int + pixels[i + 2] as int
  }

  /** The cell in column `x` and row `y` of the face grid. Whatever the box,
      the three bytes it reads lie inside the `vw * vh * 4` pixel array. */
  function FaceCell(b: Box, cols: int, rows: int, x: int, y: int,
                    pixels: seq<byte>, vw: int, vh: int, width: real, height: real): (g: FaceGlyph)
    requires cols > 0 && rows > 0 && vw > 0 && vh > 0 && width > 0.0 && height > 0.0
    requires |pixels| == vw * vh * 4
    ensures g.col == x && g.row == y
    ensures 0 <= g.pixelIndex && g.pixelIndex + 2 < |pixels| && g.pixelIndex % 4 == 0
  {
    var vx := VideoCoord(x, cols, b.minX, b.maxX, vw, width);
    var vy := VideoCoord(y, rows, b.minY, b.maxY, vh, height);
    var idx := PixelOffset(vx, vy, vw);
    PixelInBounds(vx, vy, vw, vh);
    var sum := ChannelSum(pixels, idx);
    var brightness := sum as real / 3.0;
    FaceGlyph(x, y, idx, ASCII_CHARS[CharIndex(sum)],
              b.minX + (x * ASCII_SIZE) as real + 4.0,
              b.minY + (y * ASCII_SIZE) as real + 4.0,
              FaceColour(brightness), GlowBlur(brightness))
  }

  /** The "Draw ASCII" nested loops: row by row, `cols * rows` cells, and none
      at all when either count is zero or negative. */
  method GlyphGrid(b: Box, cols: int, rows: int, pixels: seq<byte>, vw: int, vh: int, width: real, height: real)
    returns (cells: seq<FaceGlyph>)
    requires vw > 0 && vh > 0 && width > 0.0 && height > 0.0 && |pixels| == vw * vh * 4
    ensures |cells| == GridSize(cols, rows)
    ensures cols > 0 && rows > 0 ==>
      forall k :: 0 <= k < |cells| ==> cells[k] == FaceCell(b, cols, rows, k % cols, k / cols, pixels, vw, vh, width, height)
  {
    cells := [];
    var y := 0;
    while y < rows
      invariant 0 <= y <= Positive(rows)
      invariant |cells| == y * Positive(cols)
      invariant GridCells(cells, b, cols, rows, pixels, vw, vh, width, height)
    {
      var row := GlyphRow(b, cols, rows, y, pixels, vw, vh, width, height);
      AppendGlyphRow(cells, row, b, cols, rows, y, pixels, vw, vh, width, height);
      cells := cells + row;
      y := y + 1;
    }
    assert y == Positive(rows);
  }

  /** A count, or zero when it is negative. */
  function Positive(n: int): nat
  {
    if n > 0 then n else 0
  }

  /** Every cell so far is the face cell of its row-major position. */
  predicate GridCells(cells: seq<FaceGlyph>, b: Box, cols: int, rows: int,
                      pixels: seq<byte>, vw: int, vh: int, width: real, height: real)
    requires vw > 0 && vh > 0 && width > 0.0 && height > 0.0 && |pixels| == vw * vh * 4
  {
    cols > 0 && rows > 0 ==>
      forall k :: 0 <= k < |cells| ==> cells[k] == FaceCell(b, cols, rows, k % cols, k / cols, pixels, vw, vh, width, height)
  }

  /** The inner loop of "Draw ASCII": the cells of row `y`, left to right. */
  method GlyphRow(b: Box, cols: int, rows: int, y: int, pixels: seq<byte>, vw: int, vh: int, width: real, height: real)
    returns (row: seq<FaceGlyph>)
    requires vw > 0 && vh > 0 && width > 0.0 && height > 0.0 && |pixels| == vw * vh * 4
    requires 0 <= y < rows
    ensures |row| == Positive(cols)
    ensures forall x :: 0 <= x < |row| ==> row[x] == FaceCell(b, cols, rows, x, y, pixels, vw, vh, width, height)
  {
    row := [];
    var x := 0;
    while x < cols
      invariant x == |row| <= Positive(cols)
      invariant forall i :: 0 <= i < |row| ==> row[i] == FaceCell(b, cols, rows, i, y, pixels, vw, vh, width, height)
    {
      row := row + [FaceCell(b, cols, rows, x, y, pixels, vw, vh, width, height)];
      x := x + 1;
    }
  }

  /** Appending row `y` to the first `y` rows keeps every cell at its
      row-major position. */
  lemma AppendGlyphRow(cells: seq<FaceGlyph>, row: seq<FaceGlyph>, b: Box, cols: int, rows: int, y: int,
                       pixels: seq<byte>, vw: int, vh: int, width: real, height: real)
    requires vw > 0 && vh > 0 && width > 0.0 && height > 0.0 && |pixels| == vw * vh * 4
    requires 0 <= y < rows && |cells| == y * Positive(cols) && |row| == Positive(cols)
    requires GridCells(cells, b, cols, rows, pixels, vw, vh, width, height)
    requires forall x :: 0 <= x < |row| ==> row[x] == FaceCell(b, cols, rows, x, y, pixels, vw, vh, width, height)
    ensures |cells + row| == (y + 1) * Positive(cols)
    ensures GridCells(cells + row, b, cols, rows, pixels, vw, vh, width, height)
  {
    assert y * Positive(cols) + Positive(cols) == (y + 1) * Positive(cols);
    if cols > 0 {
      forall k | 0 <= k < |cells + row|
        ensures (cells + row)[k] == FaceCell(b, cols, rows, k % cols, k / cols, pixels, vw, vh, width, height)
      {
        if k < |cells| {
          assert (cells + row)[k] == cells[k];
        } else {
          assert (cells + row)[k] == row[k - y * cols];
          RowMajor(k - y * cols, y, cols);
        }
      }
    }
  }

  // -------------------------------------------------------------- keypoints

  /** The landmarks among `keys` that the face actually has, in order, with
      their canvas positions (the `idx < face.keypoints.length` guard). */
  function KeyMarks(keys: seq<nat>, kps: seq<Point>, vw: real, vh: real, width: real, height: real): seq<Mark>
    requires vw > 0.0 && vh > 0.0
  {
    if keys == [] then []
    else
      (if keys[0] < |kps| then [Mark(keys[0], ToCanvas(kps[keys[0]], vw, vh, width, height))] else [])
      + KeyMarks(keys[1..], kps, vw, vh, width, height)
  }

  /** Only listed landmarks that the face has are highlighted, each at its
      keypoint's canvas position, and never more than listed. */
  lemma {:induction false} KeyMarksSound(keys: seq<nat>, kps: seq<Point>, vw: real, vh: real, width: real, height: real)
    requires vw > 0.0 && vh > 0.0
    ensures |KeyMarks(keys, kps, vw, vh, width, height)| <= |keys|
    ensures forall m :: m in KeyMarks(keys, kps, vw, vh, width, height) ==>
      m.index < |kps| && m.index in keys && m.at == ToCanvas(kps[m.index], vw, vh, width, height)
  {
    if keys != [] {
      KeyMarksSound(keys[1..], kps, vw, vh, width, height);
      assert forall i :: i in keys[1..] ==> i in keys;
    }
  }

  /** Every listed landmark that exists is highlighted. */
  lemma {:induction false} KeyMarksComplete(keys: seq<nat>, kps: seq<Point>, vw: real, vh: real, width: real, height: real, i: nat)
    requires vw > 0.0 && vh > 0.0
    requires i in keys && i < |kps|
    ensures Mark(i, ToCanvas(kps[i], vw, vh, width, height)) in KeyMarks(keys, kps, vw, vh, width, height)
  {
    if keys[0] != i {
      KeyMarksComplete(keys[1..], kps, vw, vh, width, height, i);
    }
  }

  /** A face with more keypoints than the largest listed index (facemesh
      reports 468) gets every one of the twelve landmarks, in list order. */
  lemma {:induction false} KeyMarksAll(keys: seq<nat>, kps: seq<Point>, vw: real, vh: real, width: real, height: real)
    requires vw > 0.0 && vh > 0.0
    requires forall t :: 0 <= t < |keys| ==> keys[t] < |kps|
    ensures |KeyMarks(keys, kps, vw, vh, width, height)| == |keys|
    ensures forall t :: 0 <= t < |keys| ==> KeyMarks(keys, kps, vw, vh, width, height)[t].index == keys[t]
  {
    if keys != [] {
      KeyMarksAll(keys[1..], kps, vw, vh, width, height);
      var ms := KeyMarks(keys, kps, vw, vh, width, height);
      forall t | 0 <= t < |keys|
        ensures ms[t].index == keys[t]
      {
        if t > 0 {
          assert ms[t] == KeyMarks(keys[1..], kps, vw, vh, width, height)[t - 1];
        }
      }
    }
  }

  lemma FullFaceHasAllKeys(kps: seq<Point>, vw: real, vh: real, width: real, height: real)
    requires vw > 0.0 && vh > 0.0 && |kps| == 468
    ensures |KeyMarks(KEY_INDICES, kps, vw, vh, width, height)| == 12
  {
    KeyMarksAll(KEY_INDICES, kps, vw, vh, width, height);
  }

  /** `drawKeypoints`: the loop over the landmark list (called with
      `KEY_INDICES`) with its length guard. */
  method DrawKeypoints(keys: seq<nat>, kps: seq<Point>, vw: real, vh: real, width: real, height: real) returns (marks: seq<Mark>)
    requires vw > 0.0 && vh > 0.0
    ensures marks == KeyMarks(keys, kps, vw, vh, width, height)
  {
    marks := [];
    var t := 0;
    while t < |keys|
      invariant 0 <= t <= |keys|
      invariant marks + KeyMarks(keys[t..], kps, vw, vh, width, height) == KeyMarks(keys, kps, vw, vh, width, height)
    {
      var idx := keys[t];
      KeyMarksStep(keys, t, kps, vw, vh, width, height, marks);
      if idx < |kps| {
        marks := marks + [Mark(idx, ToCanvas(kps[idx], vw, vh, width, height))];
      }
      t := t + 1;
    }
  }

  /** One pass of the `drawKeypoints` loop: landmark `keys[t]`, when the face
      has it, is the next mark. */
  lemma KeyMarksStep(keys: seq<nat>, t: int, kps: seq<Point>, vw: real, vh: real, width: real, height: real,
                     marks: seq<Mark>)
    requires vw > 0.0 && vh > 0.0 && 0 <= t < |keys|
    requires marks + KeyMarks(keys[t..], kps, vw, vh, width, height) == KeyMarks(keys, kps, vw, vh, width, height)
    ensures (marks + (if keys[t] < |kps| then [Mark(keys[t], ToCanvas(kps[keys[t]], vw, vh, width, height))] else []))
            + KeyMarks(keys[t + 1..], kps, vw, vh, width, height) == KeyMarks(keys, kps, vw, vh, width, height)
  {
    var here := if keys[t] < |kps| then [Mark(keys[t], ToCanvas(kps[keys[t]], vw, vh, width, height))] else [];
    var rest := KeyMarks(keys[t + 1..], kps, vw, vh, width, height);
    assert keys[t..][1..] == keys[t + 1..];
    assert KeyMarks(keys[t..], kps, vw, vh, width, height) == here + rest;
    assert (marks + here) + rest == marks + (here + rest);
  }

  // ------------------------------------------------------------- the frame

  /** `drawASCIIFace` for the current detections: nothing without a face;
      otherwise the first face's keypoint bounds, the padded box inside the
      canvas, the glyph grid over it and the highlighted landmarks. */
  method DrawASCIIFace(faces: seq<seq<Point>>, vw: int, vh: int, pixels: seq<byte>, width: real, height: real)
    returns (frame: Option<FaceFrame>)
    requires vw > 0 && vh > 0 && width > 0.0 && height > 0.0 && |pixels| == vw * vh * 4
    ensures frame.None? <==> faces == []
    ensures frame.Some? ==>
      var f := frame.value;
      var kps := faces[0];
      IsKeypointBounds(f.raw, kps, vw as real, vh as real, width, height) &&
      f.box == PadBox(f.raw, width, height) &&
      InCanvas(f.box, width, height) &&
      f.cols == CellCount(f.box.maxX - f.box.minX) &&
      f.rows == CellCount(f.box.maxY - f.box.minY) &&
      |f.cells| == GridSize(f.cols, f.rows) &&
      (f.cols > 0 && f.rows > 0 ==>
        forall k :: 0 <= k < |f.cells| ==>
          f.cells[k] == FaceCell(f.box, f.cols, f.rows, k % f.cols, k / f.cols, pixels, vw, vh, width, height)) &&
      f.marks == KeyMarks(KEY_INDICES, kps, vw as real, vh as real, width, height)
  {
    if faces == [] {
      return None;
    }
    var kps := faces[0];
    var raw := KeypointBounds(kps, vw as real, vh as real, width, height);
    var box := PadBox(raw, width, height);
    var cols := CellCount(box.maxX - box.minX);
    var rows := CellCount(box.maxY - box.minY);
    var cells := GlyphGrid(box, cols, rows, pixels, vw, vh, width, height);
    var marks := DrawKeypoints(KEY_INDICES, kps, vw as real, vh as real, width, height);
    frame := Some(FaceFrame(raw, box, cols, rows, cells, marks));
  }
}
