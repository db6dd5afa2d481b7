# pixelmatch, modelled in Dafny

pixelmatch compares two RGBA images of the same size pixel by pixel and returns the number of pixels that differ. It can also paint a diff image into an output buffer:
- pixels that differ are red;
- pixels taken for anti-aliasing are yellow;
- every other pixel is a faded grey copy of the first image.

This project models the comparison engine in two generations and proves properties of both.

- **The `Pixelmatch` class** (`lib/index.ts`, compiled to `dist/index.js`; one model). The published builds differ only in the default threshold (0.005 and 0.1) and in the entry point's name (`pixelmatch`, `match`). `Build = Lib | Dist` selects the default. The class works as follows:
  - It validates the buffers in a fixed order.
  - It merges the caller's options over the defaults.
  - It compares the images a 32-bit word at a time and takes a fast path when they are identical.
  - Otherwise it sweeps the frame row by row. For each pixel it measures the YIQ colour distance. A pixel beyond `35215 * threshold^2` is counted unless `includeAA` is off and the pixel looks anti-aliased in either image against the other.
- **The older `imagematch`** (`index.js`). It measures the squared distance of the four RGBA bytes. A pixel is excused only when both images see a neighbour, within the given radius, that keeps the contrast. Every pixel of the output is painted.

Modules, in dependency order:
- `Wrappers`: Option and Result.
- `Raster`: bytes, points, offsets, and how a typed array stores a number.
- `ColorMetric`: `_blend`, `_rgb2y/i/q`, `_colorDelta`.
- `Neighbourhood`: the clamped 3x3 window and the border head start.
- `Siblings`: `_hasManySiblings`.
- `AntiAliasing`: `_antialiased`.
- `Painter`: `_drawPixel`, `_drawGrayPixel`.
- `Sweep`: counting and painting along the row-major sweep.
- `Pixelmatch`: options, validation, identity check, driver.
- `Imagematch`: `index.js`.

How the model is built:
- Each loop of the source is a Dafny method with the source's loops, `continue`s, `break`s and early returns.
- Each method is proved equal to a fold over the pixels in the order the loops visit them: `ColumnTrack`/`WindowTrack`, `ColumnSame`/`WindowSame`, `RowHits`/`Hits`, `RowRender`/`Render`, `Fill`.
- The output buffer is an `array<Byte>`, and its new contents are stated exactly.
- Images are `seq<Byte>`.
- Numbers are exact reals.
- A number stored into the output goes through ECMAScript ToUint8 (`Uint8Array`, `Buffer`) or ToUint8Clamp (`Uint8ClampedArray`), chosen by the buffer's element kind.

Behaviour worth knowing, where the code does something its comments or the older entry point would not lead one to expect:
- In `lib/index.ts:322-323` a pixel is excused when it looks anti-aliased in EITHER direction (`||`). Only `index.js:18-20` requires both.
- `delta` in `_antialiased` is the centre's luma less the neighbour's. So the neighbour the source keeps as `min` ("remember the darkest pixel", says the comment at `lib/index.ts:209`) is the brightest one, and `max` is the darkest. `AntiAliasing.ExtremesMeaning` states this.
- The validation multiplies width by height without checking signs. A negative width with a negative height passes validation when the product matches. Differing images then give 0 and leave the output untouched, because the sweep's loops never run (`Pixelmatch.NegativeDimensions`). Identical images still take the fast path, which runs over width * height pixels and paints all of them (`Pixelmatch.NegativeIdenticalFill`). This is the one case where the fast path and the sweep disagree.
- In `index.js`, raising the threshold can report MORE differences. The anti-aliasing excuse needs a neighbour whose own contrast exceeds the threshold, so a higher threshold can withdraw it (`Imagematch.ThresholdNotMonotone`, on two concrete 2 x 1 images). In the class the count only falls as the threshold rises (`Pixelmatch.OutcomeThreshold`).

## Model

| member | source | states |
|---|---|---|
| Raster.Truncate | lib/index.ts:243-245 | conversion toward zero: for a non-negative number the largest integer not above it, for a non-positive one the smallest integer not below it |
| Raster.ToUint8 | lib/index.ts:243-245 | a Uint8Array or Buffer slot keeps the integer part of a number in 0..255.99…, and otherwise the truncation reduced modulo 256 |
| Raster.ToUint8Clamp | lib/index.ts:243-245 | a Uint8ClampedArray slot holds 0 below 0, 255 above 255, otherwise the nearest byte, and the even one of two equally near bytes |
| Raster.Store | lib/index.ts:243-246 | a value that already is a byte (alpha 255, the colour constants) is stored unchanged in either kind; a Uint8Array or Buffer keeps the integer part below 256 and wraps modulo 256 otherwise; a Uint8ClampedArray saturates at 0 and 255 and rounds to the nearest byte, ties to even |
| Raster.AreaValue | lib/index.ts:275 | the frame has width * height pixels |
| Raster.OffsetValue | lib/index.ts:314 | the byte offset of pixel (x, y) is (y * width + x) * 4 |
| Raster.InFrameReadable | lib/index.ts:314-317 | in a buffer of width * height * 4 bytes, all four bytes of every pixel of the frame are in range |
| Raster.CoordOfIndex | lib/index.ts:295-296 | pixel (x, y) is pixel number y * width + x of the fast path's loop |
| Raster.CoordInFrame | lib/index.ts:295-296 | the fast path's i-th pixel lies in the frame and starts at byte 4 * i |
| ColorMetric.Blend | lib/index.ts:39-41 | blending over white lands between the colour and white; opacity 1 keeps the colour, opacity 0 gives white |
| ColorMetric.BlendBetween | lib/index.ts:39-41 | for an opacity in 0..1 and a channel in 0..255 the blend stays between the channel and 255 |
| ColorMetric.OverWhite | lib/index.ts:143-155 | a fully transparent pixel renders white, an opaque one keeps its own channels, and every rendered channel lies in 0..255 |
| ColorMetric.Luma | lib/index.ts:50-52 | the luma of a pixel lies between 0 and 255 * 1.00000001 |
| ColorMetric.ColorDelta | lib/index.ts:128-168 | byte-identical pixels give exactly 0 in both modes; with yOnly the result is the difference of the two lumas; otherwise it is at least 0 |
| ColorMetric.YiqDistance | lib/index.ts:167 | the weighted sum of squares is never negative |
| ColorMetric.Square | lib/index.ts:167 | a squared YIQ difference is never negative |
| ColorMetric.SquareValue | lib/index.ts:167 | the square, written as a second power, is the difference times itself |
| ColorMetric.SquareEven | lib/index.ts:167 | a YIQ difference and its negation have the same square |
| ColorMetric.ColorDeltaSwap | lib/index.ts:157-167 | swapping the pixels keeps the full distance and negates the luma difference |
| ColorMetric.TransparentPixelsMatch | lib/index.ts:143-157 | two fully transparent pixels compare as equal whatever their colour bytes |
| Neighbourhood.BorderStart | lib/index.ts:92 | the head start is 1 exactly when the pixel lies on a border of the image, else 0 |
| Neighbourhood.NeighbourMeaning | lib/index.ts:87-99 | the loops visit exactly the frame's pixels at most one step away in each direction, other than the centre, so every read is in bounds |
| Neighbourhood.WindowSizeArea | lib/index.ts:95-99 | the loops visit the window's columns times rows pixels, less the centre |
| Neighbourhood.NeighbourCount | lib/index.ts:87-99 | in a frame at least 2 by 2, every pixel has between 3 and 8 neighbours |
| Siblings.SameAsPixel | lib/index.ts:102-105 | the byte-by-byte comparison is equality of the two pixels |
| Siblings.ColumnSame | lib/index.ts:96-107 | the copies counted in a column never exceed its length |
| Siblings.WindowSameAll | lib/index.ts:95-107 | when every neighbour is a copy of the centre, all of them count |
| Siblings.WindowSameWitness | lib/index.ts:95-107 | a positive count names a neighbour that is a copy of the centre |
| Siblings.EarlySiblings | lib/index.ts:109-111 | once the partial count exceeds 2, the full count does too, so the early return is right |
| Siblings.FewSiblings | lib/index.ts:115 | a sweep that ends at 2 or less means the pixel does not have many siblings |
| Siblings.ColumnSiblings | lib/index.ts:96-112 | the inner loop, with its early exit, tells whether the count exceeds 2; if not, it leaves the count exact |
| Siblings.HasManySiblings | lib/index.ts:86-116 | true exactly when the border head start plus the neighbours identical to the centre exceed 2 |
| Siblings.UniformWindowHasManySiblings | lib/index.ts:86-116 | in a frame at least 2 by 2, a pixel whose neighbours are all copies of it has many siblings |
| Siblings.ManySiblingsWitness | lib/index.ts:92-111 | a pixel with many siblings has a neighbour identical to it byte for byte |
| AntiAliasing.Delta | lib/index.ts:201 | the delta of a neighbour is the centre's luma less the neighbour's |
| AntiAliasing.DeltasAt | lib/index.ts:201 | the delta of any pixel of the frame, as the difference of the two pixels' luma |
| AntiAliasing.ColumnTrackZeroes | lib/index.ts:204-205 | a column's visit adds exactly its flat neighbours to zeroes |
| AntiAliasing.WindowTrackZeroes | lib/index.ts:204-205 | the window's visit adds exactly its flat neighbours to zeroes |
| AntiAliasing.ColumnTrackExtremes | lib/index.ts:210-219 | a column's visit only lowers min and raises max; they bracket every visited delta; each keeps its old value and place or holds a visited neighbour's delta and coordinates |
| AntiAliasing.WindowTrackExtremes | lib/index.ts:210-219 | the same for the whole window |
| AntiAliasing.ColumnTrackPlaces | lib/index.ts:212-219 | each remembered coordinate pair is the old one or a point of the column |
| AntiAliasing.WindowTrackPlaces | lib/index.ts:212-219 | each remembered coordinate pair is the old one or a point of the window |
| AntiAliasing.ScanInFrame | lib/index.ts:190-219 | the remembered coordinates always name pixels of the frame |
| AntiAliasing.ScanZeroes | lib/index.ts:187-205 | zeroes is the border head start plus the neighbours of equal luma |
| AntiAliasing.ScanWithExtremes | lib/index.ts:188-219 | min <= 0 <= max bracket every neighbour's delta; a nonzero min or max is the delta of the neighbour whose coordinates it holds |
| AntiAliasing.ExtremesMeaning | lib/index.ts:209-219 | a nonzero min belongs to a brightest neighbour, brighter than the centre; a nonzero max to a darkest one, darker than the centre |
| AntiAliasing.ManySiblingsNotAntialiased | lib/index.ts:204-207 | a pixel with many identical siblings is never taken for anti-aliasing |
| AntiAliasing.UniformWindowNotAntialiased | lib/index.ts:204-207 | in a frame at least 2 by 2, a pixel surrounded by copies of itself is never taken for anti-aliasing |
| AntiAliasing.AntialiasedMeaning | lib/index.ts:224-230 | a pixel taken for anti-aliasing has at most two flat neighbours counting the border, a brighter and a darker neighbour, and a brightest or darkest neighbour with many siblings in both images |
| AntiAliasing.EarlyFlatColumn | lib/index.ts:207 | once zeroes exceeds 2 in a column, it still does at the column's end |
| AntiAliasing.EarlyFlatWindow | lib/index.ts:207 | once zeroes exceeds 2 after some columns, it still does after all of them |
| AntiAliasing.Visit | lib/index.ts:201-220 | one pass of the loop body is one step of the fold: count a flat neighbour, or record a new min or max |
| AntiAliasing.ScanColumn | lib/index.ts:197-221 | the inner loop, with its early exit, agrees with the fold on whether zeroes exceeds 2, and equals it otherwise |
| AntiAliasing.ScanWindow | lib/index.ts:196-222 | the outer loop, with its early exit, agrees with the fold over the whole window |
| AntiAliasing.ConfirmSiblings | lib/index.ts:229-230 | the short-circuited sibling checks on both images at min, then at max |
| AntiAliasing.Antialiased | lib/index.ts:181-231 | _antialiased with its early returns gives the specification's verdict |
| Painter.Painted | lib/index.ts:242-247 | painting a pixel sets its three channels as stored and its alpha to 255; every other byte is unchanged |
| Painter.PaintedTwice | lib/index.ts:242-247 | painting a pixel twice leaves only the second colour |
| Painter.PaintedCommute | lib/index.ts:242-247 | painting two disjoint pixels gives the same bytes in either order |
| Painter.DrawPixel | lib/index.ts:242-247 | _drawPixel writes exactly the painted pixel |
| Painter.LumaRange | lib/index.ts:50-52 | the luma of three bytes lies in 0 .. 255 * 1.00000001 |
| Painter.BlendRange | lib/index.ts:39-41 | an opacity in 0..1 blends any value between itself and white |
| Painter.GrayInRange | lib/index.ts:257-263 | for alpha in 0..1 the grey lies in 0..256, so a Uint8Array stores its integer part |
| Painter.GrayTransparent | lib/index.ts:261 | a transparent pixel, or alpha 0, turns white |
| Painter.GrayOpaque | lib/index.ts:261 | with alpha 1 an opaque pixel is painted in its own luma |
| Painter.DrawGrayPixel | lib/index.ts:257-263 | _drawGrayPixel paints the pixel in its faded luma, all else unchanged |
| Sweep.HitsBound | lib/index.ts:311-335 | the count is at most the number of pixels, and 0 for an empty frame |
| Sweep.HitsMonotone | lib/index.ts:311-335 | counting a condition that holds at fewer pixels gives a count no larger |
| Sweep.HitsNone | lib/index.ts:311-335 | the count is 0 exactly when no pixel of the frame is counted |
| Sweep.HitsAll | lib/index.ts:311-335 | a condition true at every pixel counts them all |
| Sweep.OffsetsDisjoint | lib/index.ts:314 | two different pixels of the frame occupy disjoint bytes |
| Sweep.RowRenderPixel | lib/index.ts:312-344 | along a row, each pixel passed holds its colour and the others are untouched |
| Sweep.RenderPixel | lib/index.ts:311-345 | after the sweep, each pixel holds its own colour, or its old bytes where none is painted |
| Sweep.RenderNothing | lib/index.ts:326-342 | a sweep that paints nothing leaves the bytes as they were |
| Sweep.FillPixel | lib/index.ts:295-297 | after the fast path's loop, each pixel passed holds its grey and the others are untouched |
| Sweep.FillIsRender | lib/index.ts:293-298 | the fast path's buffer-order loop paints the same bytes as the row-major sweep when both give each pixel the same colour |
| Pixelmatch.Defaults | lib/index.ts:14-21 | the default threshold lies in (0, 1] and the default alpha in [0, 1]; includeAA and diffMask are off by default |
| Pixelmatch.Merge | lib/index.ts:279 | each option the caller gives overrides the default; each one missing keeps it |
| Pixelmatch.MergeExtremes | lib/index.ts:279 | no options leave the defaults; a full set ignores them |
| Pixelmatch.DistIsLib | dist/index.js:299-306 | the dist build acts as the lib build with a default threshold of 0.1 |
| Pixelmatch.Check | lib/index.ts:267-277 | each of the three errors is reported exactly when its check fails and the earlier ones passed; a passing set of buffers fits the frame |
| Pixelmatch.CheckSymmetric | lib/index.ts:267-277 | swapping the images does not change validation |
| Pixelmatch.WordsEqual | lib/index.ts:283-288 | two 32-bit words of the Uint32Array views are equal exactly when the pixels are |
| Pixelmatch.PixelsIdentical | lib/index.ts:282-292 | the word loop with its break finds the images identical exactly when their bytes are equal |
| Pixelmatch.MaxDelta | lib/index.ts:304 | the largest accepted distance is never negative |
| Pixelmatch.MaxDeltaMonotone | lib/index.ts:304 | a larger threshold, in absolute value, accepts larger distances |
| Pixelmatch.Classify | lib/index.ts:317-336 | a pixel is similar exactly when its distance is at most maxDelta; it is excused only with includeAA off |
| Pixelmatch.ComparePixel | lib/index.ts:317-323 | the loop body's short-circuited tests give the pixel's verdict |
| Pixelmatch.PaintVerdict | lib/index.ts:320-343 | the loop body paints the verdict's colour into the output, or leaves it |
| Pixelmatch.SweepRow | lib/index.ts:312-344 | the inner loop adds the row's differences and paints the row |
| Pixelmatch.SweepFrame | lib/index.ts:311-345 | the outer loop counts the frame's differences and paints every row |
| Pixelmatch.PaintGray | lib/index.ts:295-297 | the fast path paints every pixel grey in buffer order |
| Pixelmatch.PaintGrayStep | lib/index.ts:296 | one pass paints pixel i grey, extending the fill by one pixel |
| Pixelmatch.Match | lib/index.ts:265-349 | the entry point returns the specified result and leaves exactly the specified bytes in the output |
| Pixelmatch.IdenticalSimilar | lib/index.ts:317-320 | identical images have no difference at any pixel, for any threshold |
| Pixelmatch.ClassifySymmetric | lib/index.ts:322-323 | swapping the images keeps every verdict |
| Pixelmatch.DiffCountSymmetric | lib/index.ts:311-345 | swapping the images keeps the count |
| Pixelmatch.OutcomeSymmetric | lib/index.ts:265-349 | the result does not depend on which image comes first |
| Pixelmatch.ErrorLeavesOutput | lib/index.ts:267-277 | an error is reported exactly when validation fails, and then no output byte has been written |
| Pixelmatch.OutcomeIgnoresOutput | lib/index.ts:326-335 | a valid output buffer does not change the count; only the writes depend on it |
| Pixelmatch.IdenticalZero | lib/index.ts:293-300 | identical images that pass validation give 0 |
| Pixelmatch.OutcomeBound | lib/index.ts:306-348 | the count is at most width * height |
| Pixelmatch.DiffCountThreshold | lib/index.ts:320 | accepting larger distances never adds a difference |
| Pixelmatch.OutcomeThreshold | lib/index.ts:304-336 | for 0 <= t <= t', the count at t' is at most the count at t, and the errors are the same |
| Pixelmatch.DiffCountIncludeAA | lib/index.ts:322 | excusing anti-aliasing never adds a difference |
| Pixelmatch.OutcomeIncludeAA | lib/index.ts:322-336 | with includeAA on, the count is at least the count with it off |
| Pixelmatch.ZeroMeansNoDifference | lib/index.ts:320-348 | after validation, the result is 0 exactly when no pixel of the frame is Different |
| Pixelmatch.FastPathAgrees | lib/index.ts:293-298 | for identical images in a frame of positive size the fast path paints exactly what the sweep would |
| Pixelmatch.DrawnPixel | lib/index.ts:320-343 | each pixel of the diff image shows its verdict. A difference is diffColor, even under diffMask. Under diffMask nothing else changes. Otherwise an excused pixel is aaColor and a similar one the faded grey of img1. Painted pixels are opaque |
| Pixelmatch.NegativeDimensions | lib/index.ts:275-277 | a negative width with a negative height passes validation; differing images then give 0 and an untouched output |
| Pixelmatch.NegativeIdenticalFill | lib/index.ts:282-298 | with both dimensions negative and no diffMask, identical images still get every output pixel painted opaque by the fast path, while the sweep would leave the output as it was |
| Imagematch.ColorDelta | index.js:60-67 | the distance lies in 0 .. 4 * 255 * 255 and is 0 exactly when all four bytes agree |
| Imagematch.ColorDeltaSwap | index.js:60-67 | the distance is symmetric in its two pixels |
| Imagematch.MaxDelta | index.js:7 | the default threshold gives 255 * 255 * 4 * 0.005 |
| Imagematch.ReachColumn | index.js:46-54 | one column of the search, with its skip and early return, finds an excusing neighbour exactly when there is one |
| Imagematch.AntialiasedScan | index.js:38-58 | antialiased is true exactly when some neighbour within the radius, other than the centre, excuses it |
| Imagematch.Classify | index.js:15-31 | a pixel is background exactly when its distance is at most maxDelta; it is excused only with a nonzero radius |
| Imagematch.BgValueRange | index.js:70-71 | the background grey lies in 229.5 .. 255, so a Uint8Array stores its integer part |
| Imagematch.DrawBgPixel | index.js:69-73 | the pixel is painted in its faded brightness, alpha 255, all else unchanged |
| Imagematch.DrawDiffPixel | index.js:75-78 | the pixel is painted (255, 0, 0, 255), all else unchanged |
| Imagematch.DrawIgnorePixel | index.js:80-83 | the pixel is painted (255, 255, 0, 255), all else unchanged |
| Imagematch.ComparePixel | index.js:15-28 | the loop body's tests, the second search only after the first succeeds, give the pixel's verdict |
| Imagematch.PaintVerdict | index.js:17-31 | the loop body paints the verdict's colour |
| Imagematch.MatchRow | index.js:12-32 | the inner loop adds the row's differences and paints the row |
| Imagematch.MatchFrame | index.js:11-33 | the outer loop counts the frame's differences and paints every row |
| Imagematch.Imagematch | index.js:5-36 | imagematch returns the number of Different pixels and paints every pixel by its verdict |
| Imagematch.ThresholdOneAcceptsAll | index.js:7 | with a threshold of 1 or more, every pixel is background and the count is 0 |
| Imagematch.IdenticalNoDifference | index.js:15-17 | identical images give 0 for any non-negative threshold |
| Imagematch.NegativeThresholdAllDifferent | index.js:7-27 | a negative threshold counts every pixel, even of identical images |
| Imagematch.ClassifySymmetric | index.js:17-20 | swapping the images keeps every verdict, since both directions must excuse |
| Imagematch.CountSymmetric | index.js:11-35 | swapping the images keeps the count |
| Imagematch.CountBound | index.js:9-35 | the count is at most width * height |
| Imagematch.PicturePixel | index.js:22-30 | every pixel is painted once, opaque: red if counted, yellow if excused, grey otherwise |
| Imagematch.ExcusedBothWays | index.js:18-22 | a neighbour in reach that excuses the pixel in both images makes it Ignored |
| Imagematch.LoneNeighbour | index.js:18-27 | when the only neighbour in reach does not excuse the pixel, it is Different |
| Imagematch.EdgeExcused | index.js:38-58 | at maxDelta 2601 the grey neighbour excuses the black-or-white pixel in both images |
| Imagematch.EdgeCounted | index.js:38-58 | at maxDelta 65025 the neighbour's contrast no longer exceeds the threshold, so the pixel counts |
| Imagematch.ThresholdNotMonotone | index.js:17-20 | on two 2 x 1 images, threshold 0.01 reports 0 differences and threshold 0.25 reports 1 |

## Left out

- I/O: the command-line tools (`lib/bin.ts`, `dist/bin.js`), PNG reading and writing, timing and the benchmark are not part of this model.
- `_isPixelData` reflects on the runtime type (`ArrayBuffer.isView`, `BYTES_PER_ELEMENT`). It is an element kind attached to each buffer, with `NotPixelData` failing the check.
- `Int8Array`: its elements are one byte wide, so `_isPixelData` (`lib/index.ts:30`, `dist/index.js:13`) accepts it. An Int8Array input would read samples as -128..127, and an Int8Array output would store values by ToInt8. The model has no such element kind; it covers Uint8Array, Buffer and Uint8ClampedArray only.
- The identity check's `Uint32Array` views are read as four bytes per word, least significant first. The views' `byteOffset` alignment and sharing of the underlying `ArrayBuffer` are not modelled.
- Aliasing is not modelled: the output is a separate array from the two image sequences, so the model cannot express an output that is also one of the inputs. The images are values and are never written.
- Floating point is modelled as exact reals. IEEE rounding in the YIQ weights and in `_blend` is not captured, and neither is the claim that 35215 is the metric's maximum.
- Options are complete values or absent. An option passed explicitly as `undefined`, `NaN` or a non-number is not modelled. Neither are colour arrays with fewer than three entries, nor `index.js`'s `antialiasing` given as a boolean.
- Widths, heights and coordinates are mathematical integers. Non-integer dimensions, and products beyond 2^53, are not modelled.
- Imagematch.Imagematch: requires a non-null output. `index.js:22-30` never checks `output`, so a missing one throws a TypeError at the first pixel of a non-empty frame. It also requires both images, and the output, to hold exactly width * height * 4 bytes. The source checks nothing and reads `undefined` past the end of a short buffer. The output is a byte array, not, for example, a plain JavaScript Array, whose slots would keep unconverted numbers.
- Imagematch.AntialiasedScan: the radius is an integer. A fractional radius would make the source's loops visit non-integer coordinates.
