/** The animated state of ascii-face-standalone.js outside the face overlay:
    the 80-column Matrix rain (`initMatrixRain`, the per-glyph update in
    `drawMatrixRain`, `getRandomChar`, `windowResized`) and the sweeping
    scanline of `drawEffects`. */
module AsciiFaceEffects {
  import opened P5

  /** The alphabet `getRandomChar` draws from (the source's `\\` is one backslash). */
  const RAIN_CHARS: string := "0123456789ABCDEFGHIJKLMNOPQRSTUVWXYZabcdefghijklmnopqrstuvwxyz!@#$%^&*(){}[]<>?/\\|~`"

  const NUM_COLUMNS := 80
  /** `charSize` before the first `initMatrixRain`. */
  const INITIAL_CHAR_SIZE := 12.0

  /** One falling glyph: its character, vertical position and trail brightness. */
  datatype RainChar = RainChar(glyph: char, y: real, brightness: real)

  /** One column: its trail of glyphs, fall speed and opacity. */
  datatype RainColumn = RainColumn(chars: seq<RainChar>, speed: real, opacity: real)

  /** The values `initMatrixRain` draws for one trail entry: `random(chars.length)`
      inside `getRandomChar`, and `random(0, height)` for how far above its
      slot the entry starts. */
  datatype TrailDraw = TrailDraw(pick: real, lift: real)

  /** The values `initMatrixRain` draws for one column: `random(0.5, 3)`,
      `random(0.3, 0.8)`, and one `TrailDraw` per trail entry. */
  datatype ColumnDraw = ColumnDraw(speed: real, opacity: real, trail: seq<TrailDraw>)

  /** The values one frame of `drawMatrixRain` draws for one glyph: the
      `getRandomChar` pick used if it wraps, whether the 2% mutation fires,
      and the pick used by that mutation. */
  datatype CharStep = CharStep(resetPick: real, mutate: bool, mutatePick: real)

  /** `getRandomChar`: `chars.charAt(floor(random(chars.length)))`. */
  function GetRandomChar(pick: real): (c: char)
    requires 0.0 <= pick < |RAIN_CHARS| as real
    ensures c in RAIN_CHARS
  {
    FloorMonotone(0.0, pick);
    assert pick.Floor as real <= pick;
    RAIN_CHARS[pick.Floor]
  }

  /** `numRows = ceil(height / charSize)` with `charSize = width / 80`. */
  function NumRows(width: real, height: real): (n: int)
    requires width > 0.0 && height > 0.0
    ensures n >= 1
    ensures (n - 1) as real * (width / 80.0) < height <= n as real * (width / 80.0)
  {
    var charSize := width / NUM_COLUMNS as real;
    var x := height / charSize;
    var n := Ceil(x);
    assert height == x * charSize;
    RealMulLe(x, n as real, charSize);
    RealMulLt((n - 1) as real, x, charSize);
    n
  }

  lemma RealMulLe(a: real, b: real, c: real)
    requires a <= b && c > 0.0
    ensures a * c <= b * c
  {
    assert b * c - a * c == (b - a) * c;
  }

  lemma RealMulLt(a: real, b: real, c: real)
    requires a < b && c > 0.0
    ensures a * c < b * c
  {
    assert b * c - a * c == (b - a) * c;
  }

  predicate TrailDrawOk(t: TrailDraw, height: real)
  {
    0.0 <= t.pick < |RAIN_CHARS| as real && 0.0 <= t.lift < height
  }

  predicate ColumnDrawOk(d: ColumnDraw, height: real, numRows: int)
  {
    0.5 <= d.speed < 3.0 && 0.3 <= d.opacity < 0.8 && |d.trail| == numRows + 10 &&
    forall j :: 0 <= j < |d.trail| ==> TrailDrawOk(d.trail[j], height)
  }

  /** Trail entry `j` as `initMatrixRain` creates it. */
  function SeededChar(t: TrailDraw, j: int, charSize: real, numRows: int, height: real): RainChar
    requires TrailDrawOk(t, height) && numRows > 0
  {
    RainChar(GetRandomChar(t.pick), j as real * charSize - t.lift, 1.0 - j as real / numRows as real)
  }

  /** Column `c` is the one `initMatrixRain` builds from the draws `d`. */
  predicate SeededColumn(c: RainColumn, d: ColumnDraw, charSize: real, numRows: int, height: real)
    requires ColumnDrawOk(d, height, numRows) && numRows > 0
  {
    c.speed == d.speed && c.opacity == d.opacity && |c.chars| == |d.trail| &&
    forall j :: 0 <= j < |c.chars| ==> c.chars[j] == SeededChar(d.trail[j], j, charSize, numRows, height)
  }

  /** A freshly built column has `numRows + 10` entries whose brightness starts
      at 1 and strictly decreases down the trail, each entry starting at most
      one canvas height above its slot `j * charSize`. */
  lemma SeededColumnFades(c: RainColumn, d: ColumnDraw, charSize: real, numRows: int, height: real)
    requires numRows > 0 && ColumnDrawOk(d, height, numRows) && SeededColumn(c, d, charSize, numRows, height)
    ensures |c.chars| == numRows + 10
    ensures c.chars[0].brightness == 1.0
    ensures forall j1, j2 :: 0 <= j1 < j2 < |c.chars| ==> c.chars[j2].brightness < c.chars[j1].brightness
    ensures forall j :: 0 <= j < |c.chars| ==>
      j as real * charSize - height < c.chars[j].y <= j as real * charSize
  {
    forall j1, j2 | 0 <= j1 < j2 < |c.chars|
      ensures c.chars[j2].brightness < c.chars[j1].brightness
    {
      FadeDecreases(j1, j2, numRows);
    }
    forall j | 0 <= j < |c.chars|
      ensures j as real * charSize - height < c.chars[j].y <= j as real * charSize
    {
      assert TrailDrawOk(d.trail[j], height);
    }
  }

  /** The inner loop of `initMatrixRain`: one column built from its draws. */
  method SeedColumn(d: ColumnDraw, charSize: real, numRows: int, height: real) returns (column: RainColumn)
    requires numRows > 0 && ColumnDrawOk(d, height, numRows)
    ensures SeededColumn(column, d, charSize, numRows, height)
    ensures GlyphsFromRain(column)
  {
    var chars: seq<RainChar> := [];
    var j := 0;
    while j < numRows + 10
      invariant 0 <= j <= numRows + 10 && |chars| == j
      invariant forall k :: 0 <= k < j ==> chars[k] == SeededChar(d.trail[k], k, charSize, numRows, height)
    {
      var t := d.trail[j];
      chars := chars + [RainChar(GetRandomChar(t.pick), j as real * charSize - t.lift, 1.0 - j as real / numRows as real)];
      j := j + 1;
    }
    column := RainColumn(chars, d.speed, d.opacity);
  }

  lemma FadeDecreases(j1: int, j2: int, n: int)
    requires j1 < j2 && n > 0
    ensures 1.0 - j2 as real / n as real < 1.0 - j1 as real / n as real
  {
    assert j2 as real / n as real - j1 as real / n as real == (j2 - j1) as real / n as real;
  }

  predicate CharStepOk(st: CharStep)
  {
    0.0 <= st.resetPick < |RAIN_CHARS| as real && 0.0 <= st.mutatePick < |RAIN_CHARS| as real
  }

  /** One frame of one glyph: fall by the column's speed; once below
      `height + charSize`, jump back to `-charSize` with a new glyph; and, if
      the mutation fires, take another new glyph. Its brightness never changes. */
  function FallChar(c: RainChar, speed: real, height: real, charSize: real, st: CharStep): (r: RainChar)
    requires CharStepOk(st)
    ensures r.brightness == c.brightness
    ensures height >= 0.0 && charSize >= 0.0 ==> r.y <= height + charSize
    ensures c.y + speed > height + charSize ==> r.y == -charSize && r.glyph in RAIN_CHARS
    ensures c.y + speed <= height + charSize ==> r.y == c.y + speed
    ensures st.mutate ==> r.glyph in RAIN_CHARS
    ensures c.y + speed <= height + charSize && !st.mutate ==> r.glyph == c.glyph
  {
    var y := c.y + speed;
    var wrapped := y > height + charSize;
    var glyph := if wrapped then GetRandomChar(st.resetPick) else c.glyph;
    RainChar(if st.mutate then GetRandomChar(st.mutatePick) else glyph,
             if wrapped then -charSize else y,
             c.brightness)
  }

  predicate StepsFit(c: RainColumn, steps: seq<CharStep>)
  {
    |steps| == |c.chars| && forall j :: 0 <= j < |steps| ==> CharStepOk(steps[j])
  }

  /** One frame of a whole column; speed, opacity, trail length and every
      brightness are kept, and every glyph ends at most `charSize` below the
      canvas. */
  function FallColumn(c: RainColumn, steps: seq<CharStep>, height: real, charSize: real): (r: RainColumn)
    requires StepsFit(c, steps)
    ensures r.speed == c.speed && r.opacity == c.opacity && |r.chars| == |c.chars|
    ensures forall j :: 0 <= j < |r.chars| ==> r.chars[j].brightness == c.chars[j].brightness
    ensures height >= 0.0 && charSize >= 0.0 ==>
      forall j :: 0 <= j < |r.chars| ==> r.chars[j].y <= height + charSize
  {
    RainColumn(seq(|c.chars|, j requires 0 <= j < |c.chars| => FallChar(c.chars[j], c.speed, height, charSize, steps[j])),
               c.speed, c.opacity)
  }

  predicate GlyphsFromRain(c: RainColumn)
  {
    forall j :: 0 <= j < |c.chars| ==> c.chars[j].glyph in RAIN_CHARS
  }

  /** The `matrixRain` array and the `charSize` it was laid out with. */
  class MatrixRain {
    var columns: seq<RainColumn>
    var charSize: real

    /** At most 80 columns (only `initMatrixRain` creates them, in slots 0..79),
        a positive glyph size, and every glyph drawn from the rain alphabet. */
    ghost predicate Valid()
      reads this
    {
      |columns| <= NUM_COLUMNS && charSize > 0.0 &&
      forall i :: 0 <= i < |columns| ==> GlyphsFromRain(columns[i])
    }

    /** The state before `setup` runs `initMatrixRain`. */
    constructor ()
      ensures Valid() && columns == [] && charSize == INITIAL_CHAR_SIZE
    {
      columns := [];
      charSize := INITIAL_CHAR_SIZE;
    }

    /** `initMatrixRain`: lays the canvas out in 80 columns of `numRows + 10`
        entries each, writing slots 0..79 so that a second call replaces the
        columns instead of adding to them. */
    method Init(width: real, height: real, draws: seq<ColumnDraw>)
      requires Valid() && width > 0.0 && height > 0.0
      requires |draws| == NUM_COLUMNS
      requires forall i :: 0 <= i < |draws| ==> ColumnDrawOk(draws[i], height, NumRows(width, height))
      modifies this
      ensures Valid()
      ensures charSize == width / NUM_COLUMNS as real
      ensures |columns| == NUM_COLUMNS
      ensures forall i :: 0 <= i < NUM_COLUMNS ==>
        SeededColumn(columns[i], draws[i], charSize, NumRows(width, height), height)
    {
      charSize := width / NUM_COLUMNS as real;
      var numRows := Ceil(height / charSize);
      assert numRows == NumRows(width, height);
      ghost var before := columns;
      var i := 0;
      while i < NUM_COLUMNS
        invariant 0 <= i <= NUM_COLUMNS && charSize == width / NUM_COLUMNS as real
        invariant |columns| == if |before| > i then |before| else i
        invariant forall k :: 0 <= k < i ==> SeededColumn(columns[k], draws[k], charSize, numRows, height)
        invariant forall k :: 0 <= k < i ==> GlyphsFromRain(columns[k])
        invariant forall k :: i <= k < |columns| ==> columns[k] == before[k]
        invariant forall k :: 0 <= k < |before| ==> GlyphsFromRain(before[k])
      {
        var column := SeedColumn(draws[i], charSize, numRows, height);
        columns := if i < |columns| then columns[i := column] else columns + [column];
        i := i + 1;
      }
    }

    /** `windowResized`: the canvas takes its new size and the rain is laid
        out again, still in exactly 80 columns. */
    method WindowResized(width: real, height: real, draws: seq<ColumnDraw>)
      requires Valid() && width > 0.0 && height > 0.0
      requires |draws| == NUM_COLUMNS
      requires forall i :: 0 <= i < |draws| ==> ColumnDrawOk(draws[i], height, NumRows(width, height))
      modifies this
      ensures Valid() && |columns| == NUM_COLUMNS
      ensures charSize == width / NUM_COLUMNS as real
      ensures forall i :: 0 <= i < NUM_COLUMNS ==>
        SeededColumn(columns[i], draws[i], charSize, NumRows(width, height), height)
    {
      Init(width, height, draws);
    }

    /** The update half of `drawMatrixRain`: every glyph of every column takes
        one `FallChar` step. */
    method Fall(height: real, steps: seq<seq<CharStep>>)
      requires Valid() && height >= 0.0
      requires |steps| == |columns|
      requires forall i :: 0 <= i < |steps| ==> StepsFit(columns[i], steps[i])
      modifies this
      ensures Valid() && charSize == old(charSize) && |columns| == |old(columns)|
      ensures forall i :: 0 <= i < |columns| ==> columns[i] == FallColumn(old(columns)[i], steps[i], height, charSize)
    {
      ghost var before := columns;
      var i := 0;
      while i < |columns|
        invariant 0 <= i <= |columns| && |columns| == |before| && charSize == old(charSize)
        invariant forall k :: 0 <= k < i ==> columns[k] == FallColumn(before[k], steps[k], height, charSize)
        invariant forall k :: i <= k < |columns| ==> columns[k] == before[k]
      {
        var column := columns[i];
        var chars := column.chars;
        var j := 0;
        while j < |chars|
          invariant 0 <= j <= |chars| && |chars| == |column.chars|
          invariant forall k :: 0 <= k < j ==> chars[k] == FallChar(column.chars[k], column.speed, height, charSize, steps[i][k])
          invariant forall k :: j <= k < |chars| ==> chars[k] == column.chars[k]
        {
          chars := chars[j := FallChar(chars[j], column.speed, height, charSize, steps[i][j])];
          j := j + 1;
        }
        assert column.(chars := chars) == FallColumn(column, steps[i], height, charSize);
        columns := columns[i := column.(chars := chars)];
        i := i + 1;
      }
      forall k | 0 <= k < |columns|
        ensures GlyphsFromRain(columns[k])
      {
        assert GlyphsFromRain(before[k]);
        forall j | 0 <= j < |columns[k].chars|
          ensures columns[k].chars[j].glyph in RAIN_CHARS
        {
          assert columns[k].chars[j] == FallChar(before[k].chars[j], before[k].speed, height, charSize, steps[k][j]);
        }
      }
    }
  }

  // ------------------------------------------------------------- scanline

  /** `scanlineY = (scanlineY + 2) % height`. */
  function NextScanline(y: int, height: int): (r: int)
    requires height > 0 && y >= 0
    ensures 0 <= r < height
  {
    JsRem(y + 2, height)
  }

  /** The scanline position after `frames` frames at a fixed canvas height. */
  function ScanlineAfter(frames: nat, height: int): (y: int)
    requires height > 0
    ensures 0 <= y < height
  {
    if frames == 0 then 0 else NextScanline(ScanlineAfter(frames - 1, height), height)
  }

  /** The scanline sweeps down two pixels a frame and wraps at the bottom:
      after `frames` frames it stands at `2 * frames mod height`. */
  lemma {:induction false} ScanlineSweep(frames: nat, height: int)
    requires height > 0
    ensures ScanlineAfter(frames, height) == (2 * frames) % height
  {
    if frames > 0 {
      ScanlineSweep(frames - 1, height);
      AddTwoMod(2 * (frames - 1), height);
    }
  }

  /** Adding 2 after reducing reduces like adding 2 first. */
  lemma AddTwoMod(a: int, height: int)
    requires height > 0
    ensures (a % height + 2) % height == (a + 2) % height
  {
    ModShift(a % height + 2, a / height, height);
    assert a % height + 2 + (a / height) * height == a + 2;
  }

  /** The global `scanlineY`. */
  class Scanline {
    var y: int

    ghost predicate Valid()
      reads this
    {
      y >= 0
    }

    constructor ()
      ensures Valid() && y == 0
    {
      y := 0;
    }

    /** The scanline step of `drawEffects`. */
    method Advance(height: int)
      requires Valid() && height > 0
      modifies this
      ensures Valid() && y == NextScanline(old(y), height) && y < height
    {
      y := JsRem(y + 2, height);
    }
  }
}
