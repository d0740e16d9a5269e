# ImGuiUtils core in Dafny

A Dafny model of the pure core of ImGuiUtils, a set of Dear ImGui helpers. It covers five parts:

- **`Vectors`** (`vectors.dfy`) is the `ImVec2` operator overloads. Points and sizes are real-valued 2D vectors.
- **`Position`** (`position.dfy`) is the layout engine:
  - line-based document alignment;
  - placing an object outside or inside a target with a gap;
  - centring;
  - grid cell origins;
  - an aspect-preserving frame fit.

  Every function returns an upper-left anchor. Its contract says where the placed object's edges or centre end up.
- **`Colors`** (`colors.dfy`) is colour arithmetic:
  - RGBA colours as four reals;
  - clamped linear interpolation over a gradient;
  - alpha replacement in a packed 32-bit colour (`bv32`).
- **`Windows`** (`window.dfy`) is the scale-aware window. It is an immutable value, and each operation returns the next state. Per axis, `updateScale` rescales only when the viewport size on that axis changed. One `render` is a frame, a record of the next window plus the trace of Dear ImGui calls it makes: style push/pop, window placement, `Begin`, the content hook, `End`.
- **`Draw`** (`draw.dfy`) is the drawing helpers. Each draw-list call becomes a `DrawCmd` record carrying the geometry and colour it is given. A helper therefore returns the sequence of commands it would issue. `Grid` and the three `Populate*` routines are methods with the source's loops.

Conventions:

- Floats are reals, so the algebraic laws hold exactly.
- A transparency is passed as its integer alpha code `(ImU32)(transparency * 255)`. Only its low byte survives the shift into the top byte, and that truncation is modelled exactly.
- C++ integer `/` and `%` truncate toward zero and are modelled as such (`Position.CQuot`, `Position.CRem`).
- The viewport size, the clock, the `DEBUG` build switch and text measurement are parameters.

## Model

| member | source | states |
|---|---|---|
| Vectors.Add | ImVec2Operators.h:23-25 | moving the sum back by `b` gives `a` on both axes; adding the zero vector changes nothing |
| Vectors.Sub | ImVec2Operators.h:31-33 | the difference added to `b` gives `a` on both axes; it is zero if and only if the two vectors coincide |
| Vectors.Scale | ImVec2Operators.h:39-41 | the result is parallel to the input; factor 1 leaves it unchanged and factor 0 gives the zero vector |
| Vectors.Div | ImVec2Operators.h:47-49 | dividing a vector by a non-zero factor gives a vector that, scaled back by that factor, is the original |
| Vectors.AddCommutative | ImVec2Operators.h:23-25 | component-wise addition commutes |
| Vectors.AddAssociative | ImVec2Operators.h:23-25 | component-wise addition is associative |
| Vectors.SubCancelsAdd | ImVec2Operators.h:31-33 | `(a + b) - b == a` and `(a - b) + b == a` |
| Vectors.ScaleUniform | ImVec2Operators.h:39-41 | scalar multiplication scales both axes by the same factor and distributes over addition |
| Vectors.DivCancelsScale | ImVec2Operators.h:47-49 | for `k != 0`, `(v * k) / k == v` |
| Position.RightAlign | Position/PositionTools.cpp:36-39 | the object's right edge is on the document's right edge and its bottom edge is `line * lineHeight` below the origin |
| Position.LeftAlign | Position/PositionTools.cpp:59-62 | the left edge stays at the origin's x; the bottom edge is `line * lineHeight` ABOVE the origin |
| Position.CenterAlign | Position/PositionTools.cpp:81-86 | equal left and right margins in the document; the top edge is `line * lineHeight` below the origin |
| Position.LeftAlignMirrorsRightAlign | Position/PositionTools.cpp:36-62 | LeftAlign's bottom edge mirrors RightAlign's about the origin: the two move in opposite vertical directions |
| Position.Center2D | Position/PositionTools.cpp:104-108 | the object's centre equals the target's centre on both axes |
| Position.Center2DUnique | Position/PositionTools.cpp:104-108 | an anchor puts the centres together if and only if it is Center2D's |
| Position.CenterOnLeftSide | Position/PositionTools.cpp:126-131 | the right edge is `distanceApart` left of the target's left edge; vertical centres agree |
| Position.CenterAbove | Position/PositionTools.cpp:152-156 | x equals Center2D's x; the object's vertical centre is `distanceApart` above the target's top edge, that is, `y == O.y - S.y/2 - g` |
| Position.CenterAboveOverlapsTarget | Position/PositionTools.cpp:152-156 | for an object taller than twice the gap, the placed object's bottom edge is below the target's top edge |
| Position.CenterAboveExample | Position/PositionTools.cpp:152-156 | a 10-high object 2 above a target at y = 100 ends at y = 103 |
| Position.CenterAboveCorrected | Position/PositionTools.cpp:152-156 | intended placement: centred horizontally, bottom edge exactly `distanceApart` above the target |
| Position.CenterOnRightSide | Position/PositionTools.cpp:174-179 | the left edge is `distanceApart` right of the target's right edge; vertical centres agree |
| Position.BottomAlignOnRightSide | Position/PositionTools.cpp:197-202 | same left edge; the bottom edges agree |
| Position.TopAlignOnRightSide | Position/PositionTools.cpp:218-223 | same left edge; the top edges agree |
| Position.RightSideAlignmentsShareLeftEdge | Position/PositionTools.cpp:174-223 | the three right-side alignments give the same x |
| Position.InnerAlignCenterLeft | Position/PositionTools.cpp:241-249 | vertically centred in the container; the left margin equals the top and bottom margins |
| Position.InnerAlignCenterRight | Position/PositionTools.cpp:267-274 | vertically centred; the right margin equals the top and bottom margins |
| Position.CenterLeftMirrorsCenterRight | Position/PositionTools.cpp:241-274 | the two are mirror images inside the container |
| Position.InnerAlignBottomRight | Position/PositionTools.cpp:293-299 | the right and bottom edges are `gap` inside the container's |
| Position.InnerAlignTopLeft | Position/PositionTools.cpp:316-322 | the anchor is the container origin plus `(gap, gap)` |
| Position.InnerAlignBottomLeft | Position/PositionTools.cpp:334-340 | the left and bottom edges are `gap` inside the container's |
| Position.InnerAlignBottomCenter | Position/PositionTools.cpp:358-365 | equal left and right margins; the bottom edge is `gap` inside |
| Position.BottomInnerAlignmentsLevel | Position/PositionTools.cpp:293-365 | the three bottom inner alignments put objects of the same height on the same line |
| Position.CQuot | Position/PositionTools.cpp:394 | C++ `/` on int: for a positive divisor the quotient brackets the dividend, `q*b <= a < (q+1)*b` when `a >= 0` and `(q-1)*b < a <= q*b` when `a <= 0`, so it rounds toward zero; it equals Euclidean division on non-negative operands |
| Position.CQuotSignSymmetric | Position/PositionTools.cpp:394 | negating either operand negates the quotient, as truncation toward zero does |
| Position.CRem | Position/PositionTools.cpp:395 | C++ `%` on int: `a == (a / b) * b + a % b`, remainder bounded by the divisor, sign of `a` |
| Position.GridTranslocatedOrigin | Position/PositionTools.cpp:387-401 | as written: column `cellNumber % columns`, row `cellNumber / rows`, anchor `O + (gl, gl)` plus whole cell pitches; cell 0 is `O + (gl, gl)` |
| Position.GridColumnInRange | Position/PositionTools.cpp:395 | for a non-negative cell number the column is in `[0, columns)` |
| Position.GridCellOrigin | Draw/DrawTools.cpp:583-599 | the row-major cell origin PopulateGrid uses: column `k % columns`, row `k / columns` |
| Position.GridCellOriginRowMajor | Draw/DrawTools.cpp:592-599 | cell number `row * columns + col` is drawn at row `row`, column `col` |
| Position.RowMajorDivMod | Draw/DrawTools.cpp:592-600 | `row * columns + col` splits back into `row` and `col` |
| Position.GridOriginsAgreeWhenSquare | Position/PositionTools.cpp:387-401 | when `rows == columns` the as-written rule equals the row-major rule on every cell |
| Position.GridOriginsAgreeIffSquare | Position/PositionTools.cpp:387-401 | the two rules agree on every cell of the grid if and only if the grid is square |
| Position.GridOriginsDisagree | Position/PositionTools.cpp:394 | for a non-square grid there is a cell in the grid that the two rules put on different rows |
| Position.GridTranslocatedOriginExample | Position/PositionTools.cpp:394 | in a 2-column, 1-row grid the as-written rule puts cell 1 at (14, 14) instead of (14, 2) |
| Position.FrameWithin | Position/PositionTools.cpp:406-427 | aspect ratio preserved; width-fit branch gives `x == outer.x - 2p`, otherwise `y == outer.y - 2p`; None exactly on the inputs that divide by zero |
| Position.FrameWithinFitsOuter | Position/PositionTools.cpp:406-427 | with positive sizes and non-negative padding the fitted size is within the outer frame |
| Position.FrameWithinPaddingOverflow | Position/PositionTools.cpp:408-420 | a 4:1 picture in a 200x100 frame with padding 40 comes out 120x30, taller than the padded frame's 20 |
| Position.FrameWithinPadded | Position/PositionTools.cpp:406-427 | intended fit: aspect kept, fills the padded frame on one axis and fits inside it on both |
| Colors.RGBtoImVec4 | Color/ColorTools.cpp:151-154 | channels divided by 255; alpha passed through |
| Colors.Lerp | Color/ColorTools.cpp:31-33 | one channel: the weighted average `(1 - t) * start + t * end`; the start at t = 0, the end at t = 1, between the two for t in [0, 1] |
| Colors.LerpBetween | Color/ColorTools.cpp:31-33 | for t in [0, 1] the interpolated value lies between the endpoints |
| Colors.LerpRGB | Color/ColorTools.cpp:28-36 | every rgb channel is the weighted average `(1 - t) * start + t * end`; start rgb at t = 0, end rgb at t = 1, between the two in [0, 1]; alpha always 1 |
| Colors.LerpAffine | Color/ColorTools.cpp:20-33 | linear interpolation is affine in t: two parameters' values differ by their difference times `end - start` |
| Colors.LerpRGBAffine | Color/ColorTools.cpp:20-36 | the same for every rgb channel of LerpRGB |
| Colors.Clamp | Color/ColorTools.cpp:47 | std::clamp: the result is in `[lo, hi]`, equals `v` inside, the nearer bound outside |
| Colors.GetInterpolatedColorBetween | Color/ColorTools.cpp:76-84 | with p the percentage clamped to [0, 1], every channel times 255 is `(1 - p) * first + p * second`; so it lies between the two endpoint colours for every percentage, and gives the first colour at or below 0 and the second at or above 1; alpha 1 |
| Colors.GradientLinear | Color/ColorTools.cpp:76-84 | for percentages p, q in [0, 1], the colours differ channel by channel by `(p - q)` times the endpoint span |
| Colors.GetInterpolatedColor | Color/ColorTools.cpp:45-53 | the same over the default gradient from (102, 110, 255) to (45, 199, 163): each channel times 255 is the clamped weighted average of the two |
| Colors.DefaultGradientLinear | Color/ColorTools.cpp:40-53 | for p, q in [0, 1], the default gradient's colours differ by `(p - q)` times the blue-green minus indigo span |
| Colors.DefaultGradientEndpoints | Color/ColorTools.cpp:45-53 | the default gradient is the general one from (102, 110, 255)/255 to (45, 199, 163)/255 |
| Colors.WithAlpha | Color/ColorTools.cpp:136-141 | the low 24 bits are kept and the top byte becomes the alpha code's low byte |
| Colors.RealphaUnique | Color/ColorTools.cpp:136-141 | a packed colour is determined by its rgb bytes and its alpha byte |
| Colors.WithAlphaOverrides | Color/ColorTools.cpp:138-139 | `WithAlpha(WithAlpha(c, a), b) == WithAlpha(c, b)`; re-applying the same alpha changes nothing |
| Colors.WithOwnAlpha | Color/ColorTools.cpp:138-139 | re-applying a colour's own alpha byte gives the colour back |
| Windows.NewWindow | Window/Window.cpp:14-29 | designed and instantaneous geometry coincide; width/height are the designed size; scales 1; cached viewport 3840x2160; visible default background; flags 0 |
| Windows.DefaultBackgroundValue | Window/Window.h:20 | the default background is (40, 40, 40)/255 at alpha 1 |
| Windows.FirstReferenceObservation | Window/Window.h:59-63 | on a new window, observing the 3840x2160 reference viewport changes nothing |
| Windows.GetWidth | Window/Window.cpp:32 | getWidth reports a design field, and on every consistent window (every window the operations produce) that is the designed width, whatever the viewport |
| Windows.GetHeight | Window/Window.cpp:33 | the same for getHeight and the designed height |
| Windows.GetWidthIgnoresRescaleExample | Window/Window.cpp:32 | a 100-wide window drawn 50 wide on a 1920x1080 viewport still reports width 100 |
| Windows.CurrentWidth | Window/Window.h:94 | the width as it appears on the viewport: on a consistent window, the designed width times the last viewport width over 3840 |
| Windows.CurrentHeight | Window/Window.h:94 | the same for the height, over 2160 |
| Windows.DebugFrameRescales | Window/Window.cpp:32-33 | the window a debug-build frame leaves reports the viewport-scaled size through the corrected accessors and the designed size through getWidth/getHeight |
| Windows.CurrentSizeTracksViewport | Window/Window.h:94 | after a debug-build frame the corrected accessors report the designed size scaled by that frame's viewport, while getWidth and getHeight stay at the designed size |
| Windows.GetScaleX | Window/Window.cpp:34 | on a consistent window, the last viewport width over 3840, and the factor from designed to drawn x geometry |
| Windows.GetScaleY | Window/Window.cpp:35 | on a consistent window, the last viewport height over 2160, and the factor from designed to drawn y geometry |
| Windows.GetScaleAvg | Window/Window.cpp:36 | on a consistent window, the mean of the two axis scales |
| Windows.GetBackgroundColor | Window/Window.cpp:37 | writing the reported colour back into the window leaves it unchanged: the result is the colour the window holds |
| Windows.BackgroundColorKept | Window/Window.cpp:37 | a new window reports DEFAULT_BG; setBackgroundVisibility, updateScale and any run of frames leave the reported colour unchanged |
| Windows.SetBackgroundColor | Window/Window.cpp:40 | sets the background colour and changes no other field |
| Windows.SetBackgroundVisibility | Window/Window.cpp:41 | sets the visibility and changes no other field |
| Windows.UpdateScale | Window/Window.cpp:44-79 | per axis, the scale becomes `viewport / reference` if and only if that axis changed; the cached viewport is updated; on any change, scaleAvg, dimensions and position are rederived from the designed values; no change leaves the window equal; only scale-related fields move |
| Windows.UpdateScaleIsMemoised | Window/Window.cpp:54-77 | on a consistent window, the cached update equals an unconditional rescale |
| Windows.UpdateScaleIdempotent | Window/Window.cpp:44-79 | a second update with the same viewport changes no field |
| Windows.WidthChangeKeepsHeightScale | Window/Window.cpp:54-76 | a width-only change keeps scaleY and the cached height but still rewrites `dimensions.y` with the old scaleY |
| Windows.HalfScaleExample | Window/Window.cpp:54-76 | a 100x100 window on a 1920x1080 viewport is drawn at scale 0.5, 50x50 |
| Windows.BeginFlags | Window/Window.cpp:90-91 | NoBackground is set if and only if the window has no background or already had it; no other flag bit changes |
| Windows.BuildStart | Window/Window.cpp:83-102 | the window is rescaled exactly in the debug build. The calls hold one Begin (title, flags) at some index i, immediately preceded by SetNextWindowPos(position) and then SetNextWindowSize(dimensions). With a background, the first call pushes the background colour and the call after Begin pops it; otherwise there is no push or pop. Two placement calls, no draw or End, style stack balanced |
| Windows.OpenStyleHolds | Window/Window.cpp:89-101 | buildStart's calls keep the style stack balanced |
| Windows.OpenShapeHolds | Window/Window.cpp:83-102 | buildStart's calls have the order and counts above for every window |
| Windows.BuildEnd | Window/Window.cpp:105-108 | a single End and no call of any other kind |
| Windows.NextWindow | Window/Window.cpp:111-116 | the window a frame leaves: the time recorded, design, background and flags kept, unchanged apart from the time in release builds, consistency kept |
| Windows.Render | Window/Window.cpp:111-119 | the trace has the frame shape: everything before the last two calls has buildStart's shape (placement before Begin, push first and pop right after Begin exactly when there is a background), then draw, then End. Begin, draw and End occur once each, the placement calls twice in all, and the style stack is balanced. The time is recorded; design and background are untouched; the window is rescaled only in the debug build; consistency is kept |
| Windows.RenderOpensWithBuildStart | Window/Window.cpp:111-119 | a frame's calls are buildStart's calls on the time-stamped window, followed by draw and End |
| Windows.OpenCallsCount | Window/Window.cpp:89-101 | buildStart makes one Begin, two placement calls, and one push and one pop exactly when the window has a background |
| Windows.TraceCountsHold | Window/Window.cpp:83-119 | a frame has one Begin, one draw, one End, two placement calls, and equal numbers of pushes and pops (1 with background, 0 without) |
| Windows.TraceStyleHolds | Window/Window.cpp:93-101 | the style stack never pops when empty and ends empty |
| Windows.TraceOrderAndPlacementHold | Window/Window.cpp:96-118 | draw and End close the trace, Begin precedes them, and the window is placed at its current position and size |
| Windows.RenderTraceShape | Window/Window.cpp:83-119 | every trace of buildStart's calls followed by draw and buildEnd has the frame shape |
| Windows.RenderBeginFlags | Window/Window.cpp:90-100 | Begin gets the window's title, and NoBackground if and only if the window has no background (or had the flag); other bits unchanged |
| Windows.RunFramesInvariants | Window/Window.cpp:44-119 | over any run of frames the designed fields never change and consistency holds; in release builds nothing but the time moves; in debug builds the scale is the last viewport's |
| Windows.AccessorsReportDesignedSize | Window/Window.cpp:32-33 | getWidth and getHeight return the designed size after any run of frames |
| Draw.InlineAlpha | Draw/DrawTools.cpp:102-103 | the alpha expression the draw routines inline equals Color::WithAlpha |
| Draw.Text | Draw/DrawTools.cpp:29-44 | one text command at the position, with the colour's rgb kept and the alpha replaced |
| Draw.FilledRectangle | Draw/DrawTools.cpp:96-111 | one square-cornered fill covering exactly `[position, position + size]`, alpha replaced |
| Draw.FilledRoundedRectangle | Draw/DrawTools.cpp:122-138 | the same box with all corners rounded by `rounding` |
| Draw.FilledRectangleWithStroke | Draw/DrawTools.cpp:150-154 | first the stroke fill, grown by `strokeWidth` on all four sides, then the exact rectangle on top |
| Draw.Highlight | Draw/DrawTools.cpp:167-179 | a fill enclosing the measured text box with margin `width` on every side |
| Draw.HighlightRounded | Draw/DrawTools.cpp:193-206 | the same with rounded corners |
| Draw.TextWithHighlight | Draw/DrawTools.cpp:221-225 | the highlight first, enclosing the text box, then the text at the position |
| Draw.TextWithRoundedHighlight | Draw/DrawTools.cpp:241-245 | the same with a rounded highlight |
| Draw.BoxAround | Draw/DrawTools.cpp:281-293 | an outline of thickness `width` whose corners are `width` outside the box |
| Draw.RoundedRectangleBehind | Draw/DrawTools.cpp:306-325 | a rounded fill whose corners are `width` outside the box |
| Draw.HighlightIsRectangleBehind | Draw/DrawTools.cpp:201-205 | a rounded highlight of a text box is the rounded rectangle behind that box |
| Draw.StrokeMatchesBoxAround | Draw/DrawTools.cpp:152 | the stroke rectangle has the corners BoxAround gives with the stroke width as margin |
| Draw.Sprite | Draw/DrawTools.cpp:367-380 | the whole texture 1:1 at the position, tinted white with the given alpha |
| Draw.TintedSprite | Draw/DrawTools.cpp:390-404 | the same, tinted with the colour under WithAlpha |
| Draw.SpriteIsTintedWhite | Draw/DrawTools.cpp:370 | a plain sprite is a sprite tinted white |
| Draw.SpriteSubsection | Draw/DrawTools.cpp:418-435 | the texture coordinates are the fractions, and the screen corners are where those fractions fall on the whole sprite |
| Draw.WholeSubsectionIsSprite | Draw/DrawTools.cpp:418-435 | the (0, 0)-(1, 1) subsection is the opaque sprite, and at any alpha the sprite's corners are where texture coordinates (0, 0) and (1, 1) fall |
| Draw.Zoom | Draw/DrawTools.cpp:454 | ImClamp to [1.001, 100]; identity inside the range |
| Draw.ZoomMargin | Draw/DrawTools.cpp:456 | the margin is in (0, 0.5) and leaves exactly `1 / zoom` of the texture visible |
| Draw.Image | Draw/DrawTools.cpp:447-468 | fills `[position, position + frameSize]` with a non-empty square texture window, centred, of side `1 / zoom` |
| Draw.RoundedImage | Draw/DrawTools.cpp:503-526 | the same with rounded corners |
| Draw.RoundedImageMatchesImage | Draw/DrawTools.cpp:503-526 | RoundedImage draws exactly what Image draws, with rounding |
| Draw.GridImagesAreSlightlyZoomed | Draw/DrawTools.cpp:449-456 | the grid routines' zoom request 1 is clamped to 1.001 |
| Draw.Crop | Draw/DrawTools.cpp:474-492 | the texture coordinates, times the texture size, are the crop's corners; the frame is `[position, position + frameSize]` |
| Draw.FullCrop | Draw/DrawTools.cpp:481-483 | a full-size crop from (0, 0) gives texture coordinates (0, 0)-(1, 1) |
| Draw.CropMatchesSubsection | Draw/DrawTools.cpp:474-492 | cropping the pixels a subsection covers into that subsection's frame draws the subsection |
| Draw.Grid | Draw/DrawTools.cpp:540-565 | exactly `columns + 1` vertical and `rows + 1` horizontal opaque lines; vertical line i at `origin.x + i * (cw + gl)`, spanning the document height; horizontal likewise |
| Draw.GridLastLinesAtDocumentEdge | Draw/DrawTools.cpp:542-556 | the last vertical line ends at `origin.x + documentWidth`, the last horizontal one at `origin.y + documentHeight` |
| Draw.GridlinesFrameCells | Draw/DrawTools.cpp:549-563 | each cell's anchor is the right edge of its gridline and the cell ends at the next gridline; its row and column are in the grid |
| Draw.CellsDrawn | Draw/DrawTools.cpp:589-597 | the number of cells filled is at most the number of images and at most `rows * columns` |
| Draw.CellIndexInGrid | Draw/DrawTools.cpp:592-597 | a visited cell's index is below `rows * columns` |
| Draw.CellAnchors | Draw/DrawTools.cpp:583-604 | the row-major walk visits exactly `min(imageCount, rows * columns)` cells; the k-th is cell k at its row-major origin |
| Draw.PopulateGrid | Draw/DrawTools.cpp:581-605 | image k, unzoomed, framed in cell k, for exactly `min(imageCount, rows * columns)` cells; only existing images are read |
| Draw.PopulateSparseRoundedGrid | Draw/DrawTools.cpp:621-644 | the same with rounded images |
| Draw.DatedCell | Draw/DrawTools.cpp:678-708 | a dated cell: the rounded image, then the date on a white rounded highlight, 32 from the cell's left and bottom edges. An undated cell: the icon 1:1 centred in the cell, white when exitSelected, tinted otherwise |
| Draw.PopulateSparseRoundedGridWithDates | Draw/DrawTools.cpp:660-713 | cell k drawn by DatedCell at its row-major origin, for exactly `min(imageCount, rows * columns)` cells, given a date for each of them |

## Left out

- TextStroke, TextWithStroke, StrokedTextWithHighlight and BoxAroundWithStroke are not modelled. Their stroke offsets come from `cosf`/`sinf` around a circle, which has no exact real-valued counterpart.
- PulseColor is not modelled: it reads the clock and uses `sinf`.
- RGBtoImU32 and both GetInterpolatedColorU32 overloads are not modelled. They delegate to Dear ImGui's `ColorConvertFloat4ToU32`, which is outside this model. For the same reason, DEFAULT_FONT_COLOR and DEFAULT_UNSELECTED_ACTIVE_COLOR are the `fontColor` and `unselectedTint` parameters of `Draw.DatedCell`.
- `std::pow(2, scale * 4)` in Image and RoundedImage is not modelled. The requested zoom is their `trueScale` parameter. The grid routines pass scale 0, which is zoom 1 (`Draw.NoZoom`).
- Float-to-`ImU32` conversion of `transparency * 255` is not modelled: callers pass the alpha code. IEEE-754 rounding is not modelled: all floats are reals. `int`-to-float conversions of texture sizes and loop counters are exact.
- `CalcTextSize` is not modelled: text sizes are inputs. Highlight measures in the current font rather than the one it is given. Both cases take the caller's `textSize`.
- Dear ImGui itself is not modelled. Its calls are recorded as `GuiCall` and `DrawCmd` records. The fixed arguments `ImGuiCond_FirstUseEver`, `ImGuiCol_WindowBg` and the null open flag are not recorded, and a font pointer is a number.
- `GetMainViewport` and `GetTime` become the `viewportWidth`/`viewportHeight` and `time` parameters of `Windows.Render`.
- `#ifdef DEBUG` is the `debug` parameter.
- The pure-virtual `draw`, `init` and `reset` hooks have no behaviour. `draw` is the `DrawContent` record.
- Texture loading (file I/O, image decoding, GPU upload) is not modelled. A texture is its id and pixel size.
- Declaration-only headers, including the declared-but-undefined `LerpRGBA`, are not modelled.
- The mutable `Window` class is not modelled as such: an object update is a function from one window value to the next.
- Vectors.Div: requires a non-zero divisor, where float division would give an infinite or NaN vector.
- Draw.Crop: requires a non-zero texture width and height, for the same reason.
- Position.FrameWithin: returns None on zero heights, and on a zero content width in the width-fit branch, where the float code divides by zero. There the float code returns a degenerate size (zero, negative, infinite or NaN, depending on the signs and the padding), which is not reproduced.
- Position.GridTranslocatedOrigin: requires non-zero `rows` and `columns` (division by zero is undefined in C++). Integer overflow of `int` is not modelled.
- Draw.Grid: overflow of `columns + 1` and `rows + 1` is not modelled. Neither is the non-terminating `currentColumn <= columns` loop at `columns == INT_MAX` (likewise for rows): the loop counters are unbounded integers.
- Draw.CellAnchors: overflow of `rows * columns` and of the 32-bit loop counters is not modelled.

## Findings

| source | as written | input that shows it | evidently intended | confidence | as-written member | corrected member |
|---|---|---|---|---|---|---|
| Position/PositionTools.cpp:394 | the row of cell `cellNumber` is `cellNumber / rows` | a grid of 2 columns and 1 row, cell 1: placed at (14, 14), one row below the grid, instead of (14, 2) | `cellNumber / columns`, the row-major rule the Populate routines use | medium, not executed | Position.GridTranslocatedOrigin, Position.GridTranslocatedOriginExample, Position.GridOriginsDisagree | Position.GridCellOrigin |
| Position/PositionTools.cpp:152-156 | CenterAbove subtracts `distanceApart + targetHeight / 2` from the centred anchor, which leaves the object's centre, not its bottom edge, `distanceApart` above the target | object 20x10, target at (0, 100), gap 2: the object's bottom edge is at y = 103, inside the target | bottom edge `distanceApart` above the target's top edge | medium, not executed | Position.CenterAbove, Position.CenterAboveExample, Position.CenterAboveOverlapsTarget | Position.CenterAboveCorrected |
| Position/PositionTools.cpp:406-427 | FrameWithin chooses the branch by comparing with the unpadded frame's aspect ratio, then fits the padded frame | frame 200x100, content 4:1, padding 40: the result is 120x30, taller than the 20 pixels between the paddings | compare with the padded frame's aspect ratio, so the fitted content stays inside the padded frame | medium, not executed | Position.FrameWithin, Position.FrameWithinPaddingOverflow | Position.FrameWithinPadded |
| Window/Window.cpp:32 | getWidth and getHeight return the designed `width` and `height`, which no rescale changes | a 100x100 window on a 1920x1080 viewport is drawn 50 wide, yet getWidth returns 100 | return the size as it appears on the viewport, as the declaration at Window/Window.h:94 documents | low, not executed | Windows.GetWidth, Windows.GetWidthIgnoresRescaleExample | Windows.CurrentWidth, Windows.CurrentHeight, Windows.CurrentSizeTracksViewport |
