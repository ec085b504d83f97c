# ASCII camera sketches, modelled in Dafny

This project models the exact logic inside three p5.js sketches and proves
properties of that model. It covers:

- **ascii-face-standalone.js.** The face overlay: keypoint bounds, then
  padding and clamping, a grid of 8-pixel glyph cells with clamped video
  sampling, per-cell glyph, colour and glow, and the twelve highlighted
  landmarks. Also the 80-column Matrix rain (`initMatrixRain`, the per-glyph
  update of `drawMatrixRain`, `getRandomChar`, `windowResized`) and the
  sweeping scanline.
- **demo.js.** The simulated face written into an RGBA buffer
  (`generateSimulatedFace`), the centred 70% region rendered on an 8-pixel
  grid (`renderASCIIVideo`), and the falling-code columns (`initMatrix`,
  `drawMatrix`, `windowResized`).
- **sketch.js.** The mirrored darkness sample (`getPixelDarknessAtPosition`),
  the stride-7 halftone grid of `draw`, the fifteen stripes of `setup`, and
  the layer rule of `drawAnimatedStripes`.

Modules, one file each:

- `P5` (`p5.dfy`): `map`, `lerp`, `constrain`, `floor`, `ceil`, and JavaScript `%`.
- `Raster` (`raster.dfy`): RGBA offsets, and stores into a `Uint8ClampedArray`.
- `Grid` (`grid.dfy`): strided loops and in-bounds guards.
- `Glyph` (`glyph.dfy`): the shared brightness-to-ramp quantisation.
- `AsciiFace` and `AsciiFaceEffects` (`ascii_face.dfy`, `ascii_face_effects.dfy`).
- `Demo` and `DemoMatrix` (`demo.dfy`, `demo_matrix.dfy`).
- `Sketch` (`sketch.dfy`).

State that the sketches update in place becomes classes:

- `matrixRain` becomes `AsciiFaceEffects.MatrixRain`.
- `scanlineY` becomes `AsciiFaceEffects.Scanline`.
- `simulatedImage` becomes `Demo.Image`, which owns a byte `array`.
- `matrixColumns` becomes `DemoMatrix.Matrix`.
- `stripes` and `time` become `Sketch.Sketch`.

Each method is proved against a pure function that defines its result: `KeyMarks`,
`RegionCells`, `FallColumn`, `InitLayout`, `StepColumn`, `FrameGlyphs`,
`LayerBars` and `FaceTexel`. Separate lemmas then prove what the sketches
promise about those functions.

Inputs the sketches get from the host are parameters:

- canvas size;
- video size and pixels;
- keypoints;
- every `random(...)`: a value within its stated range;
- every `random(1) < p`: a boolean.

Values computed with `sin`, `cos` or `sqrt` are parameters too:

- the simulated face's brightness before the clamp;
- the animation sine of `renderASCIIVideo`.

Behaviour of the code worth knowing:

- **Rain recycling in ascii-face-standalone.js** happens per glyph. One glyph
  jumps to `-charSize` once it passes `height + charSize`. The column's speed
  is kept: it is not re-randomised.
- **Cells per axis** depend on the sketch:
  - `floor(extent / 8)` in the face grid;
  - `floor((n - 1) / 7)` in sketch.js, whose grid starts at 7;
  - `ceil((end - start) / 8)` in demo.js.
- **demo.js uses the unclamped index** `floor(map(b, 0, 255, 11, 0))`. For a
  byte brightness it is proved to stay inside the ramp.
- **`initMatrix` pushes each trail onto `matrixColumns[i]`.** That is the slot
  numbered by the loop counter. It is not necessarily the column just pushed.
  `InitLayout` models this for any starting array. `FreshLayout` proves that
  from an empty array, the case `setup` and `windowResized` reach, every
  column gets its own trail.

## Model

| member | source | states |
|---|---|---|
| P5.Map | ascii-face-standalone.js:185-186 | p5 `map`: the start of the source range goes to the start of the target range, and the end to the end |
| P5.MapMonotone | ascii-face-standalone.js:233 | on an increasing source range, `map` keeps the input order for an increasing target range and reverses it for a decreasing one |
| P5.MapBetween | demo.js:152 | an input inside the source range maps inside the target range, whichever way the target is oriented |
| P5.Lerp | ascii-face-standalone.js:250-252 | `lerp` gives `start` at 0 and `stop` at 1, and lies between them for an amount in [0, 1] |
| P5.Constrain | ascii-face-standalone.js:222-223 | `constrain` on integer arguments, defined through `ConstrainReal`: the result is in [low, high], it leaves values in range unchanged, and it gives low below the range and high above it |
| P5.ConstrainReal | demo.js:83 | p5 `constrain`: the result is in [low, high], it leaves values in range unchanged, it gives low below the range and high above it, and it is always one of its three arguments |
| P5.Ceil | ascii-face-standalone.js:67 | `ceil(x)` is the integer c with x <= c < x + 1 |
| P5.JsRem | ascii-face-standalone.js:316 | JavaScript `%` for a positive divisor: for a non-negative dividend it is in [0, b) and equals the Euclidean remainder; for a negative dividend it is in (-b, 0] |
| Raster.RowMajor | ascii-face-standalone.js:226 | row-major numbering `y * w + x` is undone by division and remainder by `w` |
| Raster.PixelInBounds | ascii-face-standalone.js:226-229 | all four bytes of pixel (x, y) lie inside the `w * h * 4` array, and the offset is pixel number times 4 |
| Raster.OffsetDecode | demo.js:36 | byte `c` of pixel (x, y) decodes back to column x, row y and channel c |
| Raster.ClampedByte | demo.js:85-87 | a `Uint8ClampedArray` store: 0 at or below 0, 255 at or above 255, otherwise within 0.5 of the value, and an integral value is stored unchanged |
| Grid.AxisShape | demo.js:133-134 | a loop `v = start; v < end; v += stride` visits `ceil((end - start) / stride)` coordinates, the k-th being `start + stride * k` |
| Grid.AxisBound | sketch.js:55-56 | `start + stride * k < end` holds exactly when k is below the visit count |
| Grid.Within | demo.js:135 | the in-bounds guard keeps exactly the visited coordinates in [0, bound), and never more than visited |
| Grid.WithinAll | demo.js:135 | a guard that every visited coordinate passes removes nothing |
| Glyph.RampIndex | ascii-face-standalone.js:233 | `floor(map(b, 0, 255, len - 1, 0))` lies in [0, len) for b in [0, 255]; 255 gives index 0 and 0 gives len - 1 |
| Glyph.RampIndexMonotone | demo.js:141 | a brighter input never gives a larger ramp index |
| Glyph.RampIndexOfSum | ascii-face-standalone.js:230-233 | for a brightness `sum / parts`, the index is the integer quotient `((len - 1) * (255 * parts - sum)) div (255 * parts)` |
| AsciiFace.CharIndex | ascii-face-standalone.js:230-235 | the constrained index is always in [0, 56]. For a byte sum it is `(56 * (765 - sum)) div 765`. White selects `'@'` and black the final space |
| AsciiFace.CharIndexMonotone | ascii-face-standalone.js:230-233 | a larger channel sum never selects a later glyph |
| AsciiFace.FaceColour | ascii-face-standalone.js:249-252 | exactly `DEEP_ORANGE` at brightness 0 and `AMBER` at 255; red 255, green in [68, 191] and blue 0 in between |
| AsciiFace.GlowBlur | ascii-face-standalone.js:254-260 | the shadow blur is 15 exactly when brightness exceeds 150, and 5 otherwise |
| AsciiFace.CanvasPoints | ascii-face-standalone.js:184-186 | the keypoints mapped to canvas coordinates, one per keypoint, in order |
| AsciiFace.KeypointBounds | ascii-face-standalone.js:182-191 | every mapped keypoint lies in [minX, maxX] x [minY, maxY]. Each side is either its start value (width, height, 0, 0) or a coordinate of some keypoint |
| AsciiFace.Grow | ascii-face-standalone.js:187-190 | one min/max update yields a box enclosing the new point |
| AsciiFace.BoundsStep | ascii-face-standalone.js:184-191 | one step of the min/max loop turns the bounds of the first points into the bounds of one more point |
| AsciiFace.PadBox | ascii-face-standalone.js:193-198 | after padding by 80 and clamping, the box lies within [0, width] x [0, height] |
| AsciiFace.PadBoxEncloses | ascii-face-standalone.js:193-198 | the padded box still encloses every on-canvas point of the raw box, and on each of its four sides extends 80 beyond it wherever the canvas edge allows |
| AsciiFace.FaceBoxEnclosesKeypoints | ascii-face-standalone.js:182-198 | every mapped keypoint that falls on the canvas lies inside the padded face box |
| AsciiFace.CellCount | ascii-face-standalone.js:203-206 | `floor(extent / 8)` is the number of whole cells: none below 8 and never negative for a non-negative extent |
| AsciiFace.VideoCoord | ascii-face-standalone.js:219-223 | the sampled video coordinate is clamped into [0, size - 1] |
| AsciiFace.VideoCoordUnclamped | ascii-face-standalone.js:219-223 | for a cell of the grid and a span inside the canvas, the coordinate already lies in the video before the clamp |
| AsciiFace.ChannelSum | ascii-face-standalone.js:227-230 | the red, green and blue bytes sum to a value in [0, 765] |
| AsciiFace.FaceCell | ascii-face-standalone.js:219-239 | a cell keeps its column and row, and the three bytes it reads, from `pixelIndex` to `pixelIndex + 2`, lie inside the pixel array at a multiple of 4 |
| AsciiFace.GlyphGrid | ascii-face-standalone.js:216-271 | the nested loops produce exactly `cols * rows` cells, in row-major order, and none when either count is at most 0 |
| AsciiFace.GlyphRow | ascii-face-standalone.js:217-270 | the inner loop produces the cells of row y, left to right |
| AsciiFace.AppendGlyphRow | ascii-face-standalone.js:216-217 | appending row y after y full rows keeps every cell at its row-major position |
| AsciiFace.KeyMarksSound | ascii-face-standalone.js:287-291 | only listed landmarks below `keypoints.length` are marked, each at its mapped position, and never more than listed |
| AsciiFace.KeyMarksComplete | ascii-face-standalone.js:287-291 | every listed landmark that the face has is marked |
| AsciiFace.KeyMarksAll | ascii-face-standalone.js:285-291 | when every listed index exists, each landmark is marked once, in list order |
| AsciiFace.FullFaceHasAllKeys | ascii-face-standalone.js:285-288 | a 468-point facemesh face gets all twelve landmarks |
| AsciiFace.DrawKeypoints | ascii-face-standalone.js:285-306 | the guarded loop over the landmark list marks exactly `KeyMarks` |
| AsciiFace.KeyMarksStep | ascii-face-standalone.js:287-291 | one pass of that loop adds landmark t exactly when the face has it |
| AsciiFace.DrawASCIIFace | ascii-face-standalone.js:176-278 | nothing without a face; otherwise the keypoint bounds, the padded box on the canvas, the floor cell counts, the row-major grid of cells and the landmarks of the first face |
| AsciiFaceEffects.GetRandomChar | ascii-face-standalone.js:86-89 | a pick in [0, len) selects a character of the rain alphabet |
| AsciiFaceEffects.NumRows | ascii-face-standalone.js:65-67 | `ceil(height / (width / 80))` is the least row count whose rows cover the height, and it is at least 1 |
| AsciiFaceEffects.SeededColumnFades | ascii-face-standalone.js:69-83 | a new column has `numRows + 10` entries. Brightness `1 - j / numRows` starts at 1 and strictly decreases. Entry j starts less than one height above `j * charSize` |
| AsciiFaceEffects.SeedColumn | ascii-face-standalone.js:76-82 | the inner loop builds the column from its draws, with every glyph from the rain alphabet |
| AsciiFaceEffects.FallChar | ascii-face-standalone.js:159-169 | after the update y <= height + charSize. A reset puts y at `-charSize` with a glyph from the alphabet; otherwise y grows by speed. A mutation changes only the glyph, and brightness stays |
| AsciiFaceEffects.FallColumn | ascii-face-standalone.js:137-170 | speed, opacity, trail length and every brightness are kept, and every glyph ends at most `charSize` below the canvas |
| AsciiFaceEffects.MatrixRain.constructor | ascii-face-standalone.js:14-16 | no columns and `charSize` 12 before `setup` |
| AsciiFaceEffects.MatrixRain.Init | ascii-face-standalone.js:65-84 | `charSize` becomes `width / 80`, and slots 0..79 are overwritten with the columns built from the draws, so there are exactly 80 columns |
| AsciiFaceEffects.MatrixRain.WindowResized | ascii-face-standalone.js:354-357 | a resize lays the rain out again for the new size, still in exactly 80 columns |
| AsciiFaceEffects.MatrixRain.Fall | ascii-face-standalone.js:134-171 | every glyph of every column takes one `FallChar` step, and `charSize` and the column count are kept |
| AsciiFaceEffects.NextScanline | ascii-face-standalone.js:316 | `(scanlineY + 2) % height` stays in [0, height) |
| AsciiFaceEffects.ScanlineAfter | ascii-face-standalone.js:316 | after any number of frames the scanline is on the canvas |
| AsciiFaceEffects.ScanlineSweep | ascii-face-standalone.js:316 | after n frames the scanline stands at `2n mod height` |
| AsciiFaceEffects.Scanline.constructor | ascii-face-standalone.js:20 | the scanline starts at 0 |
| AsciiFaceEffects.Scanline.Advance | ascii-face-standalone.js:316 | one frame moves the scanline by one `NextScanline` step |
| Demo.Image.constructor | demo.js:14 | `createImage(w, h)` gives a `w * h * 4` buffer of zero bytes |
| Demo.Grey | demo.js:83-85 | the stored grey level is 0 at or below 0 and 255 at or above 255, and otherwise within 0.5 of the brightness |
| Demo.TexelOfPixel | demo.js:85-88 | `FaceTexel` at the bytes of pixel (x, y) is the grey level for red, green and blue, and 255 for alpha |
| Demo.GenerateSimulatedFace | demo.js:34-90 | after the loops every byte of the buffer is its `FaceTexel`, so every pixel is written grey and opaque |
| Demo.StorePixel | demo.js:36-88 | the loop body writes pixel (x, y) at `(y * w + x) * 4` and leaves every byte of every other pixel unchanged |
| Demo.AllPixelsWritten | demo.js:34-90 | once every pixel is written, every byte of the buffer is its `FaceTexel` |
| Demo.RegionInBounds | demo.js:121-130 | the centred 70% region `[floor(s/2 - 0.35s), floor(s/2 + 0.35s))` lies within [0, size] |
| Demo.DefaultRegion | demo.js:121-130 | for 640 x 480 the region is [96, 544) x [72, 408) |
| Demo.VideoGlyph | demo.js:140-142 | the unclamped index selects a character of the ramp; 255 selects `'@'` and 0 selects `' '` |
| Demo.VideoGlyphMonotone | demo.js:141 | a brighter byte never selects a later glyph |
| Demo.OrangeIntensity | demo.js:152 | `orangeIntensity` lies in [50, 255]: 50 at 0 and 255 at 255 |
| Demo.GlowIntensity | demo.js:149 | the glow factor lies in [0.5, 1] for a sine in [-1, 1] |
| Demo.Amber | demo.js:153-155 | green is half of red and blue is 0; for a glow factor in [0.5, 1], red lies in [25, 255] |
| Demo.CellAt | demo.js:138-166 | a cell's glyph is the ramp glyph of its byte. Green is half of red, blue is 0 and red is in [25, 255]. The larger glow pass is drawn exactly when the byte exceeds 150 |
| Demo.SampleCell | demo.js:135-155 | the cell of a guarded pixel keeps its coordinates |
| Demo.RenderASCIIVideo | demo.js:111-181 | the cells drawn are the guarded samples at `startY + 8m` and `startX + 8k`, row after row |
| Demo.RegionStep | demo.js:133 | one pass of the outer loop appends the cells of grid row j |
| Demo.RenderRow | demo.js:134-179 | the inner loop draws exactly the guarded samples of row j, left to right |
| Demo.RowStep | demo.js:134-135 | one pass of the inner loop adds the cell of (i, j) exactly when the guard holds |
| Demo.RowCellsCount | demo.js:134-135 | a row inside the image yields one cell per guarded column, and a row outside it yields none |
| Demo.RegionCellsCount | demo.js:133-135 | the region yields (guarded rows) x (guarded columns) cells |
| Demo.RegionCellsInside | demo.js:135-138 | every drawn cell reads a pixel inside the image and a byte inside the `w * h * 4` buffer |
| Demo.RowCellsInside | demo.js:135-138 | the same for the cells of one row |
| Demo.AxisInside | demo.js:133-134 | every visited coordinate lies in [start, end) |
| Demo.GuardKeepsRegion | demo.js:127-135 | the guard never skips a coordinate of the centred region |
| Demo.DefaultCellCount | demo.js:119-135 | for the 640 x 480 image exactly 56 x 42 = 2352 glyphs are drawn |
| DemoMatrix.RandomCode | demo.js:199 | a pick in [0, 53) selects a character of the code alphabet |
| DemoMatrix.NumColumns | demo.js:184-185 | `ceil(width / 20)` is the least count of 20-pixel columns that covers the width |
| DemoMatrix.TrailLength | demo.js:196 | `floor(random(10, 30))` lies in [10, 29] |
| DemoMatrix.Trail | demo.js:196-202 | a new trail has `floor(random(10, 30))` entries |
| DemoMatrix.TrailFades | demo.js:196-202 | a trail has 10 to 29 entries from the code alphabet. Alpha is `255 * (1 - j / len)`: 255 at the head, strictly decreasing, and within (0, 255] |
| DemoMatrix.AlphaValue | demo.js:200 | `map(j, 0, len, 255, 0)` equals `255 * (1 - j / len)` and lies in (0, 255] |
| DemoMatrix.AlphaDecreases | demo.js:200 | a later trail entry has a strictly smaller alpha |
| DemoMatrix.InitLayout | demo.js:183-204 | `initMatrix` appends exactly one column per draw |
| DemoMatrix.FreshLayout | demo.js:187-202 | from an empty array, column i sits at `x = 20 i` with its own position, speed and trail |
| DemoMatrix.MutateChar | demo.js:230-233 | a glyph change alters only the character, to one from the alphabet, and never the alpha |
| DemoMatrix.StepColumn | demo.js:230-243 | x and trail length are kept. Without a reset y grows by speed; with one, y is a value of `random(-height, 0)` (in [-height, 0), or 0 on a zero-height canvas) and speed in [2, 8). The trail stays within height below the canvas, and a well-formed column stays well-formed |
| DemoMatrix.ColumnGlyphsExact | demo.js:211-228 | an entry is drawn exactly when `0 < y + 20i < height`, at that position and with its own character |
| DemoMatrix.FrameStep | demo.js:209-212 | one pass of the column loop appends that column's drawn glyphs |
| DemoMatrix.Matrix.constructor | demo.js:3 | `matrixColumns` starts empty |
| DemoMatrix.Matrix.InitMatrix | demo.js:183-204 | the new array is `InitLayout` of the old one: `ceil(width / 20)` columns appended, trails pushed by loop index |
| DemoMatrix.Matrix.PushTrail | demo.js:196-202 | slot i gets the drawn trail appended, and no other slot changes |
| DemoMatrix.Matrix.DrawMatrix | demo.js:206-245 | every column takes one `StepColumn` step, and the glyphs drawn are those visible before the step, column after column |
| DemoMatrix.Matrix.WindowResized | demo.js:247-252 | after a resize there are exactly `ceil(width / 20)` columns, laid out fresh |
| DemoMatrix.StepAndDraw | demo.js:211-243 | the body of the column loop draws the visible entries and steps the column as `StepColumn` defines |
| DemoMatrix.GlyphStep | demo.js:211-228 | one pass of the trail loop adds entry i exactly when it is visible |
| Sketch.MirrorColumn | sketch.js:115 | the mirrored column `w - x - 1` lies in [0, w) for x in [0, w), and x plus it is `w - 1` |
| Sketch.MirrorInvolution | sketch.js:115 | mirroring twice gives back the column |
| Sketch.MirroredIndexInBounds | sketch.js:115-116 | the mirrored index lies in [0, w * h), in row y and column `w - 1 - x`, and all four of its bytes lie inside the buffer |
| Sketch.Darkness | sketch.js:116 | `(255 - R) / 255` lies in [0, 1]; it is 1 exactly at R = 0 and 0 exactly at R = 255 |
| Sketch.DarknessMonotone | sketch.js:116 | more red never gives more darkness |
| Sketch.PixelDarkness | sketch.js:113-117 | the darkness of a point of the frame lies in [0, 1] |
| Sketch.PixelDarknessOfRed | sketch.js:115-116 | the byte read is the red byte of pixel (w - 1 - x, y), inside the buffer, and the darkness depends on it alone |
| Sketch.DotAt | sketch.js:57-61 | the radius `20 * darkness` lies in [0, 20], and the screen position `x * width / img.width` lies on the canvas |
| Sketch.ScaleInside | sketch.js:59-60 | a coordinate of the frame rescaled to a positive canvas extent lies in [0, extent) |
| Sketch.DrawDots | sketch.js:50-64 | nothing when `capture.width` is 0; otherwise one row of dots for each `y = 7 + 7j` below the height, each holding the dots at `x = 7 + 7i` below the width |
| Sketch.DrawDotRow | sketch.js:56-63 | the inner loop draws the dots of row y at `x = 7 + 7i`, in order |
| Sketch.AxisCountFromSeven | sketch.js:55-56 | a side of n >= 1 pixels is sampled at `floor((n - 1) / 7)` points |
| Sketch.LayerRule | sketch.js:92-106 | on the top layer both bars are drawn exactly when `i % 3 == 0`; on the bottom layer the horizontal bar always, and the vertical one exactly when `i % 2 == 0` |
| Sketch.StripeBarsExact | sketch.js:92-106 | stripe i draws a bar exactly when the rule says so |
| Sketch.LayerBarsExact | sketch.js:74-109 | a layer draws bar b exactly when b belongs to one of its stripes and the rule selects it |
| Sketch.LayerBarsCount | sketch.js:74-109 | for n stripes the top layer draws `2 ceil(n / 3)` rectangles and the bottom layer `n + ceil(n / 2)` |
| Sketch.FifteenStripes | sketch.js:92-106 | with the fifteen stripes of `setup`: 10 rectangles on top and 23 below |
| Sketch.Sketch.Setup | sketch.js:13-31 | `setup` creates exactly the fifteen drawn stripes, each within its ranges, with time 0 |
| Sketch.Sketch.DrawAnimatedStripes | sketch.js:73-110 | a layer's loop draws exactly the rectangles of `LayerBars` |
| Sketch.Sketch.Draw | sketch.js:35-71 | time grows by 1 and the stripes are kept. The bottom layer, the dot grid and the top layer are drawn. A capture of width 0 gives no rows; otherwise there are `AxisCount(7, h, 7)` rows, and each row has `AxisCount(7, w, 7)` dots |

## Left out

- Drawing calls have no checkable result and are not modelled: `text`, `fill`, `stroke`, `shadowBlur`/`shadowColor`, `circle`, `rect`, `point`, blend modes, `push`/`pop`/`translate`/`rotate`, the vignette gradient, the border and the loading and status texts. Each model returns what would be drawn (glyphs, positions, colours, bars) instead.
- Camera capture, `loadeddata`, the ml5 facemesh model and callback, `saveCanvas`/`keyPressed` and `resizeCanvas` are host I/O. Canvas size, video size, pixels and detected faces are parameters.
- Values computed with `sin`, `cos` and `sqrt` are floating-point animation. The model takes them as parameters or leaves them out:
  - the face's wave offset `posY += wave`;
  - the landmark glow size;
  - the eye, nose and mouth geometry and the animation of the simulated face, given as an arbitrary brightness function;
  - the glow sine of `renderASCIIVideo`, a parameter per pixel;
  - stripe pulsing, offset and rotation.
- Randomness is not modelled as probabilities. Each `random(a, b)` is a caller-supplied value in [a, b), and each `random(1) < p` is a boolean.
- Face glitches are left out: the random `posX` jitter, the 5% extra character over a face cell, the 2% glitch glyph of `renderASCIIVideo`, and the glitch bar of `drawEffects`. They only draw extra shapes and change no modelled state.
- The colours and alphas of the rain and code columns are drawing only. `DemoMatrix.GlyphAt` keeps the fill and size that `drawMatrix` chooses, and no property is proved about them.
- The `time += 0.01` counter of ascii-face-standalone.js only feeds the sine terms above.
- The `frameCount % 2` regeneration in demo.js `draw` decides only when `generateSimulatedFace` runs.
- Floating-point rounding is not modelled. `map`, `lerp`, `/` and `*` are exact on reals, and `640 * 0.7` and `480 * 0.7`, which are exactly 448 and 336 in doubles, are taken as exact.
- AsciiFaceEffects.NumRows: requires a positive canvas size. For a zero height, `initMatrixRain` would divide by `numRows = 0`, and that case is not modelled.
- AsciiFaceEffects.NextScanline: the scanline uses an integer canvas height. The sketch's `%` works on doubles, but `scanlineY` only takes integer steps.
- AsciiFace.DrawASCIIFace: requires a canvas and a video of positive size. A zero-sized canvas or video is not modelled. The clamp range [0, size - 1] of the video coordinate would then be empty.
- AsciiFace.FaceCell: `posY` is given without the wave offset, and `posX` without the glitch jitter.
- Demo.RenderASCIIVideo: the sketch guards and indexes with the constants `simulatedWidth`/`simulatedHeight`. The model uses the image's own width and height, which are those constants because the image is created at that size.
- Sketch.Sketch.Draw: states the row count and the dots per row. The contents of each row are stated by `Sketch.DrawDots`. The product `floor((w - 1) / 7) * floor((h - 1) / 7)` follows from the two counts with `Sketch.AxisCountFromSeven`, and is not stated as one number.
- Sketch.PixelDarkness: only the range is stated on the function. Which byte it reads is stated by `Sketch.PixelDarknessOfRed`.
- The method bodies split some nested loops into helper methods: `Demo.StorePixel`, `Demo.RenderRow`, `AsciiFace.GlyphRow`, `AsciiFaceEffects.SeedColumn`, `DemoMatrix.Matrix.PushTrail`, `DemoMatrix.StepAndDraw` and `Sketch.DrawDotRow`. `PushTrail` collects a trail in a local sequence and stores it once, which nothing in between can observe.
- The sketch.js halftone dots are returned as a sequence of rows, in drawing order.
