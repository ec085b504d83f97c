/** The falling-code background of demo.js: `matrixColumns`, filled by
    `initMatrix`, advanced and redrawn by `drawMatrix`, and rebuilt by
    `windowResized`. */
module DemoMatrix {
  import opened P5

  /** The alphabet `random(codeChars.split(''))` draws from. */
  const CODE_CHARS: string := "ABCDEFGHIJKLMNOPQRSTUVWXYZ0123456789@#$%^&*(){}[]<>/?"
  /** Horizontal distance between columns, and vertical distance between the
      glyphs of a trail. */
  const COLUMN_WIDTH := 20

  /** One trail entry: its character and its alpha. */
  datatype CodeChar = CodeChar(glyph: char, alpha: real)

  /** One column: its horizontal position, the vertical position of its head,
      its fall speed and its trail. */
  datatype CodeColumn = CodeColumn(x: int, y: real, speed: real, chars: seq<CodeChar>)

  /** `random(codeChars.split(''))`: the element at `floor(pick)` for a
      `pick = random() * 53`. */
  function RandomCode(pick: real): (c: char)
    requires 0.0 <= pick < |CODE_CHARS| as real
    ensures c in CODE_CHARS
  {
    FloorMonotone(0.0, pick);
    assert pick.Floor as real <= pick;
    CODE_CHARS[pick.Floor]
  }

  predicate PickOk(pick: real)
  {
    0.0 <= pick < |CODE_CHARS| as real
  }

  /** `numColumns = ceil(width / 20)`. */
  function NumColumns(width: real): (n: int)
    requires width >= 0.0
    ensures n >= 0
    ensures (n - 1) as real * COLUMN_WIDTH as real < width <= n as real * COLUMN_WIDTH as real || (width == 0.0 && n == 0)
  {
    Ceil(width / COLUMN_WIDTH as real)
  }

  /** `floor(random(10, 30))`. */
  function TrailLength(draw: real): (n: int)
    ensures 10.0 <= draw < 30.0 ==> 10 <= n <= 29
  {
    if 10.0 <= draw < 30.0 then
      FloorMonotone(10.0, draw); assert draw.Floor as real <= draw; draw.Floor
    else draw.Floor
  }

  /** The values `initMatrix` draws for one column: `random(-height, 0)`,
      `random(2, 8)`, `random(10, 30)`, and one glyph pick per trail entry. */
  datatype ColumnDraw = ColumnDraw(y: real, speed: real, length: real, picks: seq<real>)

  /** A value `random(-height, 0)` can return: within [-height, 0), and 0
      itself on a canvas of zero height, where the range is empty. */
  predicate StartOk(y: real, height: real)
  {
    -height <= y < 0.0 || (height == 0.0 && y == 0.0)
  }

  predicate ColumnDrawOk(d: ColumnDraw, height: real)
  {
    StartOk(d.y, height) && 2.0 <= d.speed < 8.0 && 10.0 <= d.length < 30.0 &&
    |d.picks| == TrailLength(d.length) &&
    forall j :: 0 <= j < |d.picks| ==> PickOk(d.picks[j])
  }

  /** The alpha of trail entry `j` of `len`: `map(j, 0, len, 255, 0)`. */
  function TrailAlpha(j: int, len: int): real
    requires len > 0
  {
    Map(j as real, 0.0, len as real, 255.0, 0.0)
  }

  /** The trail `initMatrix` gives a column. */
  function Trail(d: ColumnDraw, height: real): (t: seq<CodeChar>)
    requires ColumnDrawOk(d, height)
    ensures |t| == TrailLength(d.length)
  {
    var len := |d.picks|;
    seq(len, j requires 0 <= j < len => CodeChar(RandomCode(d.picks[j]), TrailAlpha(j, len)))
  }

  /** A trail has 10 to 29 entries, every glyph from the code alphabet, and
      alphas `255 * (1 - j / len)` that start at 255 and strictly decrease,
      staying in (0, 255]. */
  lemma TrailFades(d: ColumnDraw, height: real)
    requires ColumnDrawOk(d, height)
    ensures 10 <= |Trail(d, height)| <= 29
    ensures Trail(d, height)[0].alpha == 255.0
    ensures forall j :: 0 <= j < |Trail(d, height)| ==>
      Trail(d, height)[j].glyph in CODE_CHARS &&
      Trail(d, height)[j].alpha == 255.0 * (1.0 - j as real / |Trail(d, height)| as real) &&
      0.0 < Trail(d, height)[j].alpha <= 255.0
    ensures forall j1, j2 :: 0 <= j1 < j2 < |Trail(d, height)| ==>
      Trail(d, height)[j2].alpha < Trail(d, height)[j1].alpha
  {
    var t := Trail(d, height);
    forall j | 0 <= j < |t|
      ensures t[j].alpha == 255.0 * (1.0 - j as real / |t| as real) && 0.0 < t[j].alpha <= 255.0
    {
      AlphaValue(j, |t|);
    }
    forall j1, j2 | 0 <= j1 < j2 < |t|
      ensures t[j2].alpha < t[j1].alpha
    {
      AlphaDecreases(j1, j2, |t|);
    }
  }

  lemma AlphaValue(j: int, len: int)
    requires 0 <= j < len
    ensures TrailAlpha(j, len) == 255.0 * (1.0 - j as real / len as real)
    ensures 0.0 < TrailAlpha(j, len) <= 255.0
  {
    var n := len as real;
    var q := j as real / n;
    assert TrailAlpha(j, len) == q * (0.0 - 255.0) + 255.0;
    assert q < 1.0 by {
      assert (1.0 - q) * n == n - j as real;
    }
  }

  lemma AlphaDecreases(j1: int, j2: int, len: int)
    requires 0 <= j1 < j2 < len
    ensures TrailAlpha(j2, len) < TrailAlpha(j1, len)
  {
    var n := len as real;
    assert j2 as real / n - j1 as real / n == (j2 - j1) as real / n;
    AlphaValue(j1, len);
    AlphaValue(j2, len);
  }

  /** Column `i` as `initMatrix` pushes it, before its trail is added. */
  function NewColumn(i: int, d: ColumnDraw): CodeColumn
  {
    CodeColumn(COLUMN_WIDTH * i, d.y, d.speed, [])
  }

  predicate DrawsOk(draws: seq<ColumnDraw>, height: real)
  {
    forall i :: 0 <= i < |draws| ==> ColumnDrawOk(draws[i], height)
  }

  /** Slot `k` after the first `done` iterations of `initMatrix` started from
      `before`: iteration `i` pushes a new column after the old ones and then
      pushes its trail onto `matrixColumns[i]`, the slot numbered by the loop
      counter. */
  function InitSlot(before: seq<CodeColumn>, draws: seq<ColumnDraw>, height: real, done: int, k: int): CodeColumn
    requires DrawsOk(draws, height) && 0 <= done <= |draws| && 0 <= k < |before| + done
  {
    var base := SlotBase(before, draws, k);
    base.(chars := base.chars + if k < done then Trail(draws[k], height) else [])
  }

  /** Slot `k` as pushed: an old column, or the new column of iteration `k - |before|`. */
  function SlotBase(before: seq<CodeColumn>, draws: seq<ColumnDraw>, k: int): CodeColumn
    requires 0 <= k < |before| + |draws|
  {
    if k < |before| then before[k] else NewColumn(k - |before|, draws[k - |before|])
  }

  /** The columns after `initMatrix` from `before`. */
  function InitLayout(before: seq<CodeColumn>, draws: seq<ColumnDraw>, height: real): (r: seq<CodeColumn>)
    requires DrawsOk(draws, height)
    ensures |r| == |before| + |draws|
  {
    seq(|before| + |draws|, k requires 0 <= k < |before| + |draws| => InitSlot(before, draws, height, |draws|, k))
  }

  /** From no columns (as in `setup`, and after the reset in `windowResized`),
      `initMatrix` lays out one column per draw, column `i` at `x = 20 * i`
      with its own draw's position, speed and trail. */
  lemma FreshLayout(draws: seq<ColumnDraw>, height: real)
    requires DrawsOk(draws, height)
    ensures |InitLayout([], draws, height)| == |draws|
    ensures forall i :: 0 <= i < |draws| ==>
      InitLayout([], draws, height)[i] == CodeColumn(COLUMN_WIDTH * i, draws[i].y, draws[i].speed, Trail(draws[i], height))
  {
    forall i | 0 <= i < |draws|
      ensures InitLayout([], draws, height)[i] == CodeColumn(COLUMN_WIDTH * i, draws[i].y, draws[i].speed, Trail(draws[i], height))
    {
      assert InitLayout([], draws, height)[i] == InitSlot([], draws, height, |draws|, i);
      assert [] + Trail(draws[i], height) == Trail(draws[i], height);
    }
  }

  /** Every column is made of code-alphabet glyphs with alphas in [0, 255]. */
  predicate ColumnOk(c: CodeColumn)
  {
    forall j :: 0 <= j < |c.chars| ==> c.chars[j].glyph in CODE_CHARS && 0.0 <= c.chars[j].alpha <= 255.0
  }

  // ------------------------------------------------------------ drawMatrix

  /** The values one frame of `drawMatrix` draws for one column: per trail
      entry whether the 5% glyph change fires and its pick, and the
      `random(-height, 0)` and `random(2, 8)` used if the column is recycled. */
  datatype Mutation = Mutation(mutate: bool, pick: real)
  datatype ColumnFrame = ColumnFrame(mutations: seq<Mutation>, resetY: real, resetSpeed: real)

  predicate FrameOk(c: CodeColumn, f: ColumnFrame, height: real)
  {
    |f.mutations| == |c.chars| && StartOk(f.resetY, height) && 2.0 <= f.resetSpeed < 8.0 &&
    forall j :: 0 <= j < |f.mutations| ==> PickOk(f.mutations[j].pick)
  }

  /** The glyph change of one trail entry: only its character may change. */
  function MutateChar(c: CodeChar, m: Mutation): (r: CodeChar)
    requires PickOk(m.pick)
    ensures r.alpha == c.alpha
    ensures m.mutate ==> r.glyph in CODE_CHARS
    ensures !m.mutate ==> r == c
  {
    if m.mutate then c.(glyph := RandomCode(m.pick)) else c
  }

  /** The column is recycled once its whole trail is below the canvas. */
  predicate Recycled(c: CodeColumn, height: real)
  {
    c.y + c.speed - |c.chars| as real * COLUMN_WIDTH as real > height
  }

  /** One frame of one column: glyph changes, the fall by `speed`, and the
      recycling to a fresh position and speed. */
  function StepColumn(c: CodeColumn, f: ColumnFrame, height: real): (r: CodeColumn)
    requires FrameOk(c, f, height)
    ensures r.x == c.x && |r.chars| == |c.chars|
    ensures forall j :: 0 <= j < |r.chars| ==>
      r.chars[j].alpha == c.chars[j].alpha && (!f.mutations[j].mutate ==> r.chars[j] == c.chars[j])
    ensures !Recycled(c, height) ==> r.y == c.y + c.speed && r.speed == c.speed
    ensures Recycled(c, height) ==> StartOk(r.y, height) && 2.0 <= r.speed < 8.0
    ensures height >= 0.0 ==> r.y - |r.chars| as real * COLUMN_WIDTH as real <= height
    ensures ColumnOk(c) ==> ColumnOk(r)
  {
    var chars := seq(|c.chars|, j requires 0 <= j < |c.chars| => MutateChar(c.chars[j], f.mutations[j]));
    var y := c.y + c.speed;
    if y - |chars| as real * COLUMN_WIDTH as real > height then
      CodeColumn(c.x, f.resetY, f.resetSpeed, chars)
    else
      CodeColumn(c.x, y, c.speed, chars)
  }

  /** One glyph `drawMatrix` draws: the column it belongs to, its trail index,
      its position, character, fill colour, alpha and text size. */
  datatype DrawnGlyph = DrawnGlyph(column: int, index: int, x: int, y: real, glyph: char,
                                   colour: Rgb, alpha: real, size: int)

  /** Trail entry `i` is drawn only while it is strictly inside the canvas. */
  predicate Visible(c: CodeColumn, i: int, height: real)
  {
    0.0 < c.y + (i * COLUMN_WIDTH) as real < height
  }

  /** How entry `i` of column `c` is drawn: the head in bright amber at size
      18, the rest in an orange fading with the index, at 70% alpha and size 16. */
  function GlyphAt(c: CodeColumn, col: int, i: int): DrawnGlyph
    requires 0 <= i < |c.chars|
  {
    var ch := c.chars[i];
    var yPos := c.y + (i * COLUMN_WIDTH) as real;
    if i == 0 then DrawnGlyph(col, i, c.x, yPos, ch.glyph, Rgb(255.0, 180.0, 0.0), ch.alpha, 18)
    else
      var fade := Map(i as real, 0.0, |c.chars| as real, 255.0, 100.0);
      DrawnGlyph(col, i, c.x, yPos, ch.glyph, Rgb(fade, fade * 0.4, 0.0), ch.alpha * 0.7, 16)
  }

  /** The glyphs drawn for entries `from` onwards of column `c`. */
  function ColumnGlyphs(c: CodeColumn, col: int, from: nat, height: real): (r: seq<DrawnGlyph>)
    decreases |c.chars| - from
  {
    if from >= |c.chars| then []
    else (if Visible(c, from, height) then [GlyphAt(c, col, from)] else []) + ColumnGlyphs(c, col, from + 1, height)
  }

  /** A trail entry is drawn exactly when it is inside the canvas, and it is
      drawn at `y + 20 * index`, with its own character. */
  lemma {:induction false} ColumnGlyphsExact(c: CodeColumn, col: int, from: nat, height: real)
    ensures forall g :: g in ColumnGlyphs(c, col, from, height) ==>
      from <= g.index < |c.chars| && g.column == col && Visible(c, g.index, height) &&
      g.y == c.y + (g.index * COLUMN_WIDTH) as real && g.glyph == c.chars[g.index].glyph
    ensures forall i :: from <= i < |c.chars| && Visible(c, i, height) ==>
      GlyphAt(c, col, i) in ColumnGlyphs(c, col, from, height)
    decreases |c.chars| - from
  {
    if from < |c.chars| {
      ColumnGlyphsExact(c, col, from + 1, height);
    }
  }

  /** The glyphs drawn for columns `from` onwards, column after column. */
  function FrameGlyphs(columns: seq<CodeColumn>, from: nat, height: real): seq<DrawnGlyph>
    decreases |columns| - from
  {
    if from >= |columns| then []
    else ColumnGlyphs(columns[from], from, 0, height) + FrameGlyphs(columns, from + 1, height)
  }

  /** One pass of the column loop of `drawMatrix`: column `k`'s glyphs come
      next. */
  lemma FrameStep(columns: seq<CodeColumn>, k: int, height: real, drawn: seq<DrawnGlyph>)
    requires 0 <= k < |columns|
    requires drawn + FrameGlyphs(columns, k, height) == FrameGlyphs(columns, 0, height)
    ensures (drawn + ColumnGlyphs(columns[k], k, 0, height)) + FrameGlyphs(columns, k + 1, height)
            == FrameGlyphs(columns, 0, height)
  {
    var here, rest := ColumnGlyphs(columns[k], k, 0, height), FrameGlyphs(columns, k + 1, height);
    assert FrameGlyphs(columns, k, height) == here + rest;
    assert (drawn + here) + rest == drawn + (here + rest);
  }

  predicate FramesOk(columns: seq<CodeColumn>, frames: seq<ColumnFrame>, height: real)
  {
    |frames| == |columns| && forall k :: 0 <= k < |columns| ==> FrameOk(columns[k], frames[k], height)
  }

  /** The `matrixColumns` array. */
  class Matrix {
    var columns: seq<CodeColumn>

    ghost predicate Valid()
      reads this
    {
      forall k :: 0 <= k < |columns| ==> ColumnOk(columns[k])
    }

    /** The empty array before `setup` runs `initMatrix`. */
    constructor ()
      ensures Valid() && columns == []
    {
      columns := [];
    }

    /** `initMatrix` for a canvas of the given size. */
    method InitMatrix(width: real, height: real, draws: seq<ColumnDraw>)
      requires Valid() && width >= 0.0
      requires |draws| == NumColumns(width) && DrawsOk(draws, height)
      modifies this
      ensures Valid()
      ensures columns == InitLayout(old(columns), draws, height)
    {
      var numColumns := Ceil(width / COLUMN_WIDTH as real);
      ghost var before := columns;
      var i := 0;
      while i < numColumns
        invariant 0 <= i <= numColumns && |columns| == |before| + i
        invariant forall k :: 0 <= k < |columns| ==> columns[k] == InitSlot(before, draws, height, i, k)
        invariant Valid()
      {
        var d := draws[i];
        columns := columns + [NewColumn(i, d)];
        assert columns[i] == SlotBase(before, draws, i);
        PushTrail(i, d, height);
        i := i + 1;
      }
      assert columns == InitLayout(before, draws, height);
    }

    /** The trail loop of `initMatrix`: pushes the trail drawn by `d` onto
        `matrixColumns[i]`, one entry at a time (the entries are collected and
        stored once, which nothing in between can observe). */
    method PushTrail(i: int, d: ColumnDraw, height: real)
      requires Valid() && 0 <= i < |columns| && ColumnDrawOk(d, height)
      modifies this
      ensures Valid()
      ensures columns == old(columns)[i := old(columns)[i].(chars := old(columns)[i].chars + Trail(d, height))]
    {
      var trailLength := d.length.Floor;
      var chars := columns[i].chars;
      var j := 0;
      while j < trailLength
        invariant 0 <= j <= trailLength
        invariant chars == old(columns)[i].chars + Trail(d, height)[..j]
      {
        var c := CodeChar(RandomCode(d.picks[j]), Map(j as real, 0.0, trailLength as real, 255.0, 0.0));
        assert Trail(d, height)[..j + 1] == Trail(d, height)[..j] + [c];
        chars := chars + [c];
        j := j + 1;
      }
      assert Trail(d, height)[..trailLength] == Trail(d, height);
      TrailFades(d, height);
      assert ColumnOk(columns[i].(chars := chars));
      columns := columns[i := columns[i].(chars := chars)];
    }

    /** `drawMatrix`: returns the glyphs drawn this frame, and steps every
        column. */
    method DrawMatrix(height: real, frames: seq<ColumnFrame>) returns (drawn: seq<DrawnGlyph>)
      requires Valid() && FramesOk(columns, frames, height)
      modifies this
      ensures Valid() && |columns| == |old(columns)|
      ensures forall k :: 0 <= k < |columns| ==> columns[k] == StepColumn(old(columns)[k], frames[k], height)
      ensures drawn == FrameGlyphs(old(columns), 0, height)
    {
      ghost var before := columns;
      drawn := [];
      var k := 0;
      while k < |columns|
        invariant 0 <= k <= |columns| && |columns| == |before|
        invariant forall m :: 0 <= m < k ==> columns[m] == StepColumn(before[m], frames[m], height)
        invariant forall m :: k <= m < |columns| ==> columns[m] == before[m]
        invariant drawn + FrameGlyphs(before, k, height) == FrameGlyphs(before, 0, height)
      {
        var col, glyphs := StepAndDraw(columns[k], k, height, frames[k]);
        FrameStep(before, k, height, drawn);
        drawn := drawn + glyphs;
        columns := columns[k := col];
        k := k + 1;
      }
    }

    /** `windowResized`: empties the array and runs `initMatrix` again, so the
        column count is that of the new width rather than growing. */
    method WindowResized(width: real, height: real, draws: seq<ColumnDraw>)
      requires width >= 0.0 && |draws| == NumColumns(width) && DrawsOk(draws, height)
      modifies this
      ensures Valid() && |columns| == NumColumns(width)
      ensures columns == InitLayout([], draws, height)
    {
      columns := [];
      InitMatrix(width, height, draws);
    }
  }

  /** The body of the column loop of `drawMatrix` for column number `col`:
      each trail entry is drawn if visible and then possibly changed; then the
      column falls and may be recycled. */
  method StepAndDraw(c: CodeColumn, col: int, height: real, f: ColumnFrame)
    returns (r: CodeColumn, glyphs: seq<DrawnGlyph>)
    requires col >= 0 && FrameOk(c, f, height)
    ensures r == StepColumn(c, f, height)
    ensures glyphs == ColumnGlyphs(c, col, 0, height)
  {
    var chars := c.chars;
    glyphs := [];
    var i := 0;
    while i < |chars|
      invariant 0 <= i <= |chars| && |chars| == |c.chars|
      invariant forall m :: 0 <= m < i ==> chars[m] == MutateChar(c.chars[m], f.mutations[m])
      invariant forall m :: i <= m < |chars| ==> chars[m] == c.chars[m]
      invariant glyphs + ColumnGlyphs(c, col, i, height) == ColumnGlyphs(c, col, 0, height)
    {
      var yPos := c.y + (i * COLUMN_WIDTH) as real;
      GlyphStep(c, col, i, height, glyphs);
      ghost var next := glyphs + (if Visible(c, i, height) then [GlyphAt(c, col, i)] else []);
      if yPos > 0.0 && yPos < height {
        var g := GlyphAt(c.(chars := chars), col, i);
        assert g == GlyphAt(c, col, i);
        glyphs := glyphs + [g];
      }
      assert glyphs == next;
      if f.mutations[i].mutate {
        chars := chars[i := chars[i].(glyph := RandomCode(f.mutations[i].pick))];
      }
      i := i + 1;
    }
    var y := c.y + c.speed;
    var speed := c.speed;
    if y - |chars| as real * COLUMN_WIDTH as real > height {
      y := f.resetY;
      speed := f.resetSpeed;
    }
    r := CodeColumn(c.x, y, speed, chars);
  }

  /** One pass of the drawing loop of `drawMatrix`: entry `i`, when visible,
      is the next glyph drawn. */
  lemma GlyphStep(c: CodeColumn, col: int, i: int, height: real, glyphs: seq<DrawnGlyph>)
    requires 0 <= i < |c.chars|
    requires glyphs + ColumnGlyphs(c, col, i, height) == ColumnGlyphs(c, col, 0, height)
    ensures (glyphs + (if Visible(c, i, height) then [GlyphAt(c, col, i)] else []))
            + ColumnGlyphs(c, col, i + 1, height) == ColumnGlyphs(c, col, 0, height)
  {
    var here := if Visible(c, i, height) then [GlyphAt(c, col, i)] else [];
    var rest := ColumnGlyphs(c, col, i + 1, height);
    assert ColumnGlyphs(c, col, i, height) == here + rest;
    assert (glyphs + here) + rest == glyphs + (here + rest);
  }
}
