/**
 The drawing helpers of Draw/DrawTools.cpp. Each helper hands its computed
 geometry and colour to Dear ImGui's draw list; here every draw-list call
 becomes one DrawCmd record, so a helper is a function (or, for the grid
 loops, a method) returning the commands it would issue, in order.

 Text measurement (ImGui::CalcTextSize) is a parameter: a `textSize` vector,
 or a `measure` function from a string to its size in the font in use. A
 transparency is given as its integer alpha code `(ImU32)(transparency * 255)`.
 */
module Draw {
  import opened Vectors
  import opened Colors
  import opened Position
  import opened Windows

  /** TextureData: GPU texture name and pixel size. */
  datatype Texture = Texture(id: nat, width: int, height: int)

  /** `ImVec2(sprite.width, sprite.height)` */
  function TextureSize(t: Texture): Vec2 {
    Vec2(t.width as real, t.height as real)
  }

  /** The draw-list calls the helpers make: AddText, AddRectFilled, AddRect,
      AddImage and AddImageRounded. A font is identified by a number. */
  datatype DrawCmd =
    | TextCmd(font: nat, fontSize: real, pos: Vec2, color: bv32, text: string)
    | RectFilled(pMin: Vec2, pMax: Vec2, color: bv32, rounding: real, roundAllCorners: bool)
    | RectOutline(pMin: Vec2, pMax: Vec2, color: bv32, rounding: real, flags: int, thickness: real)
    | ImageCmd(texture: nat, pMin: Vec2, pMax: Vec2, uvMin: Vec2, uvMax: Vec2, tint: bv32)
    | ImageRounded(texture: nat, pMin: Vec2, pMax: Vec2, uvMin: Vec2, uvMax: Vec2, tint: bv32, rounding: real)

  /** IM_COL32_WHITE */
  const White: bv32 := 0xFFFF_FFFF

  /** The alpha code of transparency 1.0. */
  const Opaque: bv32 := 255

  /** The zoom the grid routines ask for: scale 0, so `pow(2, 0 * 4)` is 1. */
  const NoZoom: real := 1.0

  /** The zoom range Image and RoundedImage clamp to. */
  const MinZoom: real := 1.001
  const MaxZoom: real := 100.0

  /** The box with upper-left corner `pMin` and lower-right corner `pMax`
      surrounds the box at `position` of size `size` with a margin of
      `margin` on all four sides. */
  predicate Encloses(pMin: Vec2, pMax: Vec2, position: Vec2, size: Vec2, margin: real) {
    && position.x - pMin.x == margin && position.y - pMin.y == margin
    && pMax.x - Right(position, size) == margin && pMax.y - Bottom(position, size) == margin
  }

  /** The colour expression Text, FilledRectangle, FilledRoundedRectangle,
      BoxAround and RoundedRectangleBehind each write out for themselves: it
      computes exactly Color::WithAlpha. */
  function InlineAlpha(color: bv32, alpha: bv32): (r: bv32)
    ensures r == WithAlpha(color, alpha)
    ensures Realpha(r, color, alpha)
  {
    (color & 0x00FF_FFFF) | (alpha << 24)
  }

  // ---------------------------------------------------------------------------
  // Text and rectangles

  /** Text: one AddText at `position` in the given colour with its alpha
      replaced. */
  function Text(text: string, color: bv32, alpha: bv32, position: Vec2, font: nat, fontSize: real): (r: seq<DrawCmd>)
    ensures |r| == 1 && r[0].TextCmd?
    ensures r[0].pos == position && r[0].text == text && r[0].font == font && r[0].fontSize == fontSize
    ensures Realpha(r[0].color, color, alpha)
  {
    [TextCmd(font, fontSize, position, InlineAlpha(color, alpha), text)]
  }

  /** FilledRectangle: one square-cornered filled rectangle covering exactly
      `[position, position + size]`. */
  function FilledRectangle(color: bv32, alpha: bv32, position: Vec2, size: Vec2): (r: seq<DrawCmd>)
    ensures |r| == 1 && r[0].RectFilled?
    ensures r[0].pMin == position && Sub(r[0].pMax, r[0].pMin) == size
    ensures r[0].rounding == 0.0 && !r[0].roundAllCorners
    ensures Realpha(r[0].color, color, alpha)
  {
    [RectFilled(position, Add(position, size), InlineAlpha(color, alpha), 0.0, false)]
  }

  /** FilledRoundedRectangle: the same box with all four corners rounded. */
  function FilledRoundedRectangle(color: bv32, alpha: bv32, position: Vec2, size: Vec2, rounding: real): (r: seq<DrawCmd>)
    ensures |r| == 1 && r[0].RectFilled?
    ensures r[0].pMin == position && Sub(r[0].pMax, r[0].pMin) == size
    ensures r[0].rounding == rounding && r[0].roundAllCorners
    ensures Realpha(r[0].color, color, alpha)
  {
    [RectFilled(position, Add(position, size), InlineAlpha(color, alpha), rounding, true)]
  }

  /** FilledRectangleWithStroke: first the stroke-coloured rectangle, grown
      by `strokeWidth` on every side, then the rectangle itself on top at the
      exact position and size. */
  function FilledRectangleWithStroke(color: bv32, strokeColor: bv32, alpha: bv32, position: Vec2, size: Vec2,
                                     strokeWidth: real): (r: seq<DrawCmd>)
    ensures |r| == 2 && r[0].RectFilled? && r[1].RectFilled?
    ensures r[1] == FilledRectangle(color, alpha, position, size)[0]
    ensures Encloses(r[0].pMin, r[0].pMax, position, size, strokeWidth)
    ensures Realpha(r[0].color, strokeColor, alpha)
  {
    FilledRectangle(strokeColor, alpha, Vec2(position.x - strokeWidth, position.y - strokeWidth),
                    Add(size, Vec2(strokeWidth * 2.0, strokeWidth * 2.0)))
    + FilledRectangle(color, alpha, position, size)
  }

  /** Highlight: a filled rectangle around the text box at `position`, whose
      size `textSize` is measured by the caller, with a margin of `width`. */
  function Highlight(textSize: Vec2, width: real, color: bv32, alpha: bv32, position: Vec2): (r: seq<DrawCmd>)
    ensures |r| == 1 && r[0].RectFilled? && !r[0].roundAllCorners
    ensures Encloses(r[0].pMin, r[0].pMax, position, textSize, width)
    ensures Realpha(r[0].color, color, alpha)
  {
    var highlightOffset := Sub(position, Vec2(width, width));
    var rectangleSize := Add(textSize, Vec2(2.0 * width, 2.0 * width));
    FilledRectangle(color, alpha, highlightOffset, rectangleSize)
  }

  /** HighlightRounded: the same box with rounded corners. */
  function HighlightRounded(textSize: Vec2, width: real, color: bv32, alpha: bv32, position: Vec2, rounding: real): (r: seq<DrawCmd>)
    ensures |r| == 1 && r[0].RectFilled? && r[0].roundAllCorners && r[0].rounding == rounding
    ensures Encloses(r[0].pMin, r[0].pMax, position, textSize, width)
    ensures Realpha(r[0].color, color, alpha)
  {
    var highlightOffset := Sub(position, Vec2(width, width));
    var rectangleSize := Add(textSize, Vec2(2.0 * width, 2.0 * width));
    FilledRoundedRectangle(color, alpha, highlightOffset, rectangleSize, rounding)
  }

  /** TextWithHighlight: the highlight first, so the text is drawn over it. */
  function TextWithHighlight(text: string, font: nat, textSize: Vec2, highlightWidth: real, textColor: bv32,
                             highlightColor: bv32, textAlpha: bv32, highlightAlpha: bv32, position: Vec2,
                             fontSize: real): (r: seq<DrawCmd>)
    ensures |r| == 2 && r[0].RectFilled? && r[1].TextCmd?
    ensures Encloses(r[0].pMin, r[0].pMax, r[1].pos, textSize, highlightWidth)
    ensures r[1].pos == position && r[1].text == text
    ensures Realpha(r[0].color, highlightColor, highlightAlpha) && Realpha(r[1].color, textColor, textAlpha)
  {
    Highlight(textSize, highlightWidth, highlightColor, highlightAlpha, position)
    + Text(text, textColor, textAlpha, position, font, fontSize)
  }

  /** TextWithRoundedHighlight: the same with a rounded highlight. */
  function TextWithRoundedHighlight(text: string, font: nat, textSize: Vec2, highlightWidth: real, textColor: bv32,
                                    highlightColor: bv32, textAlpha: bv32, highlightAlpha: bv32, position: Vec2,
                                    fontSize: real, rounding: real): (r: seq<DrawCmd>)
    ensures |r| == 2 && r[0].RectFilled? && r[1].TextCmd?
    ensures r[0].roundAllCorners && r[0].rounding == rounding
    ensures Encloses(r[0].pMin, r[0].pMax, r[1].pos, textSize, highlightWidth)
    ensures r[1].pos == position && r[1].text == text && r[1].font == font
    ensures Realpha(r[0].color, highlightColor, highlightAlpha) && Realpha(r[1].color, textColor, textAlpha)
  {
    HighlightRounded(textSize, highlightWidth, highlightColor, highlightAlpha, position, rounding)
    + Text(text, textColor, textAlpha, position, font, fontSize)
  }

  /** BoxAround: an outline of thickness `width` around the box at
      `position`, its corners `width` outside the box's. */
  function BoxAround(size: Vec2, position: Vec2, width: real, color: bv32, alpha: bv32, rounding: real,
                     rectangleFlags: int): (r: seq<DrawCmd>)
    ensures |r| == 1 && r[0].RectOutline?
    ensures Encloses(r[0].pMin, r[0].pMax, position, size, width)
    ensures r[0].thickness == width && r[0].rounding == rounding && r[0].flags == rectangleFlags
    ensures Realpha(r[0].color, color, alpha)
  {
    var pMin := Sub(position, Vec2(width, width));
    var pMax := Add(Add(position, size), Vec2(width, width));
    [RectOutline(pMin, pMax, InlineAlpha(color, alpha), rounding, rectangleFlags, width)]
  }

  /** RoundedRectangleBehind: a filled rounded rectangle around the box at
      `position`, `width` larger on every side. */
  function RoundedRectangleBehind(size: Vec2, position: Vec2, width: real, color: bv32, alpha: bv32,
                                  rounding: real): (r: seq<DrawCmd>)
    ensures |r| == 1 && r[0].RectFilled? && r[0].roundAllCorners && r[0].rounding == rounding
    ensures Encloses(r[0].pMin, r[0].pMax, position, size, width)
    ensures Realpha(r[0].color, color, alpha)
  {
    var pMin := Sub(position, Vec2(width, width));
    var pMax := Add(Add(position, size), Vec2(width, width));
    [RectFilled(pMin, pMax, InlineAlpha(color, alpha), rounding, true)]
  }

  /** Two commands whose corners satisfy Encloses for the same box and
      margin have the same corners. */
  lemma EnclosesUnique(pMin: Vec2, pMax: Vec2, qMin: Vec2, qMax: Vec2, position: Vec2, size: Vec2, margin: real)
    requires Encloses(pMin, pMax, position, size, margin) && Encloses(qMin, qMax, position, size, margin)
    ensures pMin == qMin && pMax == qMax
  {
  }

  /** Highlight grows the text box by computing a new corner and size;
      RoundedRectangleBehind adds the margin to both corners. The two ways
      give the same rectangle. */
  lemma HighlightIsRectangleBehind(textSize: Vec2, width: real, color: bv32, alpha: bv32, position: Vec2, rounding: real)
    ensures HighlightRounded(textSize, width, color, alpha, position, rounding)
         == RoundedRectangleBehind(textSize, position, width, color, alpha, rounding)
  {
    var h := HighlightRounded(textSize, width, color, alpha, position, rounding)[0];
    var b := RoundedRectangleBehind(textSize, position, width, color, alpha, rounding)[0];
    EnclosesUnique(h.pMin, h.pMax, b.pMin, b.pMax, position, textSize, width);
  }

  /** The stroke rectangle of FilledRectangleWithStroke is the rectangle
      BoxAround would outline with the stroke width as its margin. */
  lemma StrokeMatchesBoxAround(color: bv32, strokeColor: bv32, alpha: bv32, position: Vec2, size: Vec2, strokeWidth: real)
    ensures FilledRectangleWithStroke(color, strokeColor, alpha, position, size, strokeWidth)[0].pMin
         == BoxAround(size, position, strokeWidth, strokeColor, alpha, 0.0, 0)[0].pMin
    ensures FilledRectangleWithStroke(color, strokeColor, alpha, position, size, strokeWidth)[0].pMax
         == BoxAround(size, position, strokeWidth, strokeColor, alpha, 0.0, 0)[0].pMax
  {
    var s := FilledRectangleWithStroke(color, strokeColor, alpha, position, size, strokeWidth)[0];
    var b := BoxAround(size, position, strokeWidth, strokeColor, alpha, 0.0, 0)[0];
    EnclosesUnique(s.pMin, s.pMax, b.pMin, b.pMax, position, size, strokeWidth);
  }

  // ---------------------------------------------------------------------------
  // Sprites and images

  /** Sprite: the whole texture 1:1 at `position`, tinted white with the
      given alpha (IM_COL32(255, 255, 255, alpha)). */
  function Sprite(sprite: Texture, position: Vec2, alpha: bv32): (r: seq<DrawCmd>)
    ensures |r| == 1 && r[0].ImageCmd? && r[0].texture == sprite.id
    ensures r[0].pMin == position && Sub(r[0].pMax, r[0].pMin) == TextureSize(sprite)
    ensures r[0].uvMin == Vec2(0.0, 0.0) && r[0].uvMax == Vec2(1.0, 1.0)
    ensures Realpha(r[0].tint, White, alpha)
  {
    var tint: bv32 := (alpha << 24) | (255 << 16) | (255 << 8) | 255;
    [ImageCmd(sprite.id, position, Add(position, TextureSize(sprite)), Vec2(0.0, 0.0), Vec2(1.0, 1.0), tint)]
  }

  /** TintedSprite: the same, tinted with `tintColor` under Color::WithAlpha. */
  function TintedSprite(sprite: Texture, position: Vec2, tintColor: bv32, alpha: bv32): (r: seq<DrawCmd>)
    ensures |r| == 1 && r[0].ImageCmd? && r[0].texture == sprite.id
    ensures r[0].pMin == position && Sub(r[0].pMax, r[0].pMin) == TextureSize(sprite)
    ensures r[0].uvMin == Vec2(0.0, 0.0) && r[0].uvMax == Vec2(1.0, 1.0)
    ensures Realpha(r[0].tint, tintColor, alpha)
  {
    [ImageCmd(sprite.id, position, Add(position, TextureSize(sprite)), Vec2(0.0, 0.0), Vec2(1.0, 1.0),
              WithAlpha(tintColor, alpha))]
  }

  /** A plain sprite is a sprite tinted white. */
  lemma SpriteIsTintedWhite(sprite: Texture, position: Vec2, alpha: bv32)
    ensures Sprite(sprite, position, alpha) == TintedSprite(sprite, position, White, alpha)
  {
    var s := Sprite(sprite, position, alpha)[0];
    var t := TintedSprite(sprite, position, White, alpha)[0];
    RealphaUnique(s.tint, t.tint, White, alpha);
  }

  /** The point of the full sprite at `position` that texture coordinate
      `uv` is drawn at. */
  function UvToScreen(position: Vec2, size: Vec2, uv: Vec2): Vec2 {
    Add(position, Vec2(uv.x * size.x, uv.y * size.y))
  }

  /** SpriteSubsection: the part of the texture between the texture
      coordinates `startFraction` and `endFraction`, placed exactly where that
      part falls in the whole sprite drawn at `position`. */
  function SpriteSubsection(sprite: Texture, position: Vec2, startFraction: Vec2, endFraction: Vec2): (r: seq<DrawCmd>)
    ensures |r| == 1 && r[0].ImageCmd? && r[0].texture == sprite.id
    ensures r[0].uvMin == startFraction && r[0].uvMax == endFraction
    ensures r[0].pMin == UvToScreen(position, TextureSize(sprite), startFraction)
    ensures r[0].pMax == UvToScreen(position, TextureSize(sprite), endFraction)
    ensures r[0].tint == White
  {
    var spriteSize := TextureSize(sprite);
    var topLeft := Add(position, Vec2(startFraction.x * spriteSize.x, startFraction.y * spriteSize.y));
    var bottomRight := Add(position, Vec2(endFraction.x * spriteSize.x, endFraction.y * spriteSize.y));
    [ImageCmd(sprite.id, topLeft, bottomRight, startFraction, endFraction, White)]
  }

  /** The whole subsection of a sprite is the opaque sprite itself, and the
      full sprite draws each texture coordinate at UvToScreen. */
  lemma WholeSubsectionIsSprite(sprite: Texture, position: Vec2)
    ensures SpriteSubsection(sprite, position, Vec2(0.0, 0.0), Vec2(1.0, 1.0)) == Sprite(sprite, position, Opaque)
    ensures forall alpha: bv32 :: Sprite(sprite, position, alpha)[0].pMin == UvToScreen(position, TextureSize(sprite), Vec2(0.0, 0.0))
    ensures forall alpha: bv32 :: Sprite(sprite, position, alpha)[0].pMax == UvToScreen(position, TextureSize(sprite), Vec2(1.0, 1.0))
  {
    var s := Sprite(sprite, position, Opaque)[0];
    assert s.tint == White by {
      RealphaUnique(s.tint, White, White, Opaque);
    }
  }

  /** The zoom actually applied: ImClamp of the requested zoom to
      [1.001, 100]. */
  function Zoom(trueScale: real): (z: real)
    ensures MinZoom <= z <= MaxZoom
    ensures MinZoom <= trueScale <= MaxZoom ==> z == trueScale
  {
    Clamp(trueScale, MinZoom, MaxZoom)
  }

  /** The normalised margin cut from each side of the texture, so that the
      middle `1 / zoom` of it shows. */
  function ZoomMargin(trueScale: real): (m: real)
    ensures 0.0 < m < 0.5
    ensures (1.0 - 2.0 * m) * Zoom(trueScale) == 1.0
  {
    var z := Zoom(trueScale);
    var inv := 1.0 / z;
    assert 0.0 < inv < 1.0 by {
      assert inv * z == 1.0;
    }
    (1.0 - inv) / 2.0
  }

  /** Image: the texture zoomed about its centre into the frame
      `[position, position + frameSize]`. `trueScale` is the zoom requested,
      `pow(2, scale * 4)`. The visible window of the texture is a non-empty
      square centred on the texture's middle whose side is `1 / zoom`. */
  function Image(sprite: Texture, position: Vec2, frameSize: Vec2, trueScale: real): (r: seq<DrawCmd>)
    ensures |r| == 1 && r[0].ImageCmd? && r[0].texture == sprite.id && r[0].tint == White
    ensures r[0].pMin == position && Sub(r[0].pMax, r[0].pMin) == frameSize
    ensures 0.0 < r[0].uvMin.x == r[0].uvMin.y < 0.5
    ensures Add(r[0].uvMin, r[0].uvMax) == Vec2(1.0, 1.0)
    ensures (r[0].uvMax.x - r[0].uvMin.x) * Zoom(trueScale) == 1.0
  {
    var margin := ZoomMargin(trueScale);
    [ImageCmd(sprite.id, position, Add(position, frameSize), Vec2(margin, margin),
              Vec2(1.0 - margin, 1.0 - margin), White)]
  }

  /** RoundedImage: Image with rounded corners. */
  function RoundedImage(sprite: Texture, position: Vec2, frameSize: Vec2, trueScale: real, rounding: real): (r: seq<DrawCmd>)
    ensures |r| == 1 && r[0].ImageRounded? && r[0].texture == sprite.id && r[0].tint == White
    ensures r[0].rounding == rounding
    ensures r[0].pMin == position && Sub(r[0].pMax, r[0].pMin) == frameSize
    ensures 0.0 < r[0].uvMin.x == r[0].uvMin.y < 0.5
    ensures Add(r[0].uvMin, r[0].uvMax) == Vec2(1.0, 1.0)
    ensures (r[0].uvMax.x - r[0].uvMin.x) * Zoom(trueScale) == 1.0
  {
    var margin := ZoomMargin(trueScale);
    [ImageRounded(sprite.id, position, Add(position, frameSize), Vec2(margin, margin),
                  Vec2(1.0 - margin, 1.0 - margin), White, rounding)]
  }

  /** RoundedImage draws what Image draws, only with rounded corners. */
  lemma RoundedImageMatchesImage(sprite: Texture, position: Vec2, frameSize: Vec2, trueScale: real, rounding: real)
    ensures var i := Image(sprite, position, frameSize, trueScale)[0];
            RoundedImage(sprite, position, frameSize, trueScale, rounding)
            == [ImageRounded(i.texture, i.pMin, i.pMax, i.uvMin, i.uvMax, i.tint, rounding)]
  {
  }

  /** The grid routines' zoom request, 1, is below the clamp range, so they
      show the middle 1/1.001 of each texture. */
  lemma GridImagesAreSlightlyZoomed(sprite: Texture, position: Vec2, frameSize: Vec2)
    ensures Zoom(NoZoom) == MinZoom
    ensures Image(sprite, position, frameSize, NoZoom)[0].uvMin.x == (1.0 - 1.0 / MinZoom) / 2.0
  {
  }

  /** Crop: the texture's pixel rectangle at `cropPosition` of size
      `cropSize`, stretched into the frame `[position, position + frameSize]`.
      The texture coordinates are the crop's corners divided by the texture's
      size. */
  function Crop(sprite: Texture, position: Vec2, cropPosition: Vec2, cropSize: Vec2, frameSize: Vec2): (r: seq<DrawCmd>)
    requires sprite.width != 0 && sprite.height != 0
    ensures |r| == 1 && r[0].ImageCmd? && r[0].texture == sprite.id && r[0].tint == White
    ensures r[0].pMin == position && Sub(r[0].pMax, r[0].pMin) == frameSize
    ensures UvToScreen(Vec2(0.0, 0.0), TextureSize(sprite), r[0].uvMin) == cropPosition
    ensures UvToScreen(Vec2(0.0, 0.0), TextureSize(sprite), r[0].uvMax) == Add(cropPosition, cropSize)
  {
    var w := sprite.width as real;
    var h := sprite.height as real;
    var startFraction := Vec2(cropPosition.x / w, cropPosition.y / h);
    var endFraction := Vec2((cropPosition.x + cropSize.x) / w, (cropPosition.y + cropSize.y) / h);
    [ImageCmd(sprite.id, position, Add(position, frameSize), startFraction, endFraction, White)]
  }

  /** Cropping the whole texture shows all of it: texture coordinates
      (0, 0) to (1, 1). */
  lemma FullCrop(sprite: Texture, position: Vec2, frameSize: Vec2)
    requires sprite.width != 0 && sprite.height != 0
    ensures Crop(sprite, position, Vec2(0.0, 0.0), TextureSize(sprite), frameSize)[0].uvMin == Vec2(0.0, 0.0)
    ensures Crop(sprite, position, Vec2(0.0, 0.0), TextureSize(sprite), frameSize)[0].uvMax == Vec2(1.0, 1.0)
  {
    var c := Crop(sprite, position, Vec2(0.0, 0.0), TextureSize(sprite), frameSize)[0];
    var size := TextureSize(sprite);
    CancelFactor(c.uvMax.x, 1.0, size.x);
    CancelFactor(c.uvMax.y, 1.0, size.y);
  }

  /** A crop in pixels and a subsection in texture coordinates agree: cropping
      the pixels a subsection covers into the frame that subsection occupies
      draws the same image. */
  lemma CropMatchesSubsection(sprite: Texture, position: Vec2, startFraction: Vec2, endFraction: Vec2)
    requires sprite.width != 0 && sprite.height != 0
    ensures var size := TextureSize(sprite);
            var s := SpriteSubsection(sprite, position, startFraction, endFraction)[0];
            Crop(sprite, s.pMin, UvToScreen(Vec2(0.0, 0.0), size, startFraction),
                 Sub(UvToScreen(Vec2(0.0, 0.0), size, endFraction), UvToScreen(Vec2(0.0, 0.0), size, startFraction)),
                 Sub(s.pMax, s.pMin))
            == [s]
  {
    var size := TextureSize(sprite);
    var s := SpriteSubsection(sprite, position, startFraction, endFraction)[0];
    var c := Crop(sprite, s.pMin, UvToScreen(Vec2(0.0, 0.0), size, startFraction),
                  Sub(UvToScreen(Vec2(0.0, 0.0), size, endFraction), UvToScreen(Vec2(0.0, 0.0), size, startFraction)),
                  Sub(s.pMax, s.pMin))[0];
    assert c.uvMin.x * size.x == startFraction.x * size.x;
    assert c.uvMin.y * size.y == startFraction.y * size.y;
    assert c.uvMax.x * size.x == endFraction.x * size.x;
    assert c.uvMax.y * size.y == endFraction.y * size.y;
    CancelFactor(c.uvMin.x, startFraction.x, size.x);
    CancelFactor(c.uvMin.y, startFraction.y, size.y);
    CancelFactor(c.uvMax.x, endFraction.x, size.x);
    CancelFactor(c.uvMax.y, endFraction.y, size.y);
  }

  lemma CancelFactor(a: real, b: real, k: real)
    requires k != 0.0 && a * k == b * k
    ensures a == b
  {
    assert (a - b) * k == 0.0;
  }

  // ---------------------------------------------------------------------------
  // Grids

  /** How many times `for (i = 0; i <= n; i++)` runs. */
  function NumLines(n: int): nat {
    if n >= 0 then n + 1 else 0
  }

  /** documentWidth / documentHeight of Grid: `n` cells and `n + 1` gridlines
      along one axis. */
  function DocumentExtent(n: int, cellSize: real, gridlineWidth: real): real {
    (n + 1) as real * gridlineWidth + cellSize * n as real
  }

  /** `c` is an opaque, square-cornered filled bar of colour `color` with
      upper-left corner `pMin` and size `size`. */
  predicate OpaqueBar(c: DrawCmd, pMin: Vec2, size: Vec2, color: bv32) {
    && c.RectFilled? && c.pMin == pMin && Sub(c.pMax, c.pMin) == size
    && c.rounding == 0.0 && !c.roundAllCorners
    && Realpha(c.color, color, Opaque)
  }

  /** Grid: `columns + 1` vertical gridlines, then `rows + 1` horizontal
      ones, each one gridline wide and spanning the whole document. Line `i`
      starts `i` cell pitches from the origin. */
  method Grid(origin: Vec2, columns: int, rows: int, cellWidth: real, cellHeight: real, gridlineWidth: real,
              gridlineColor: bv32) returns (cmds: seq<DrawCmd>)
    ensures |cmds| == NumLines(columns) + NumLines(rows)
    ensures forall i :: 0 <= i < NumLines(columns) ==>
              OpaqueBar(cmds[i], Vec2(origin.x + GridlineOffset(i, cellWidth, gridlineWidth), origin.y),
                        Vec2(gridlineWidth, DocumentExtent(rows, cellHeight, gridlineWidth)), gridlineColor)
    ensures forall j :: NumLines(columns) <= j < |cmds| ==>
              OpaqueBar(cmds[j], Vec2(origin.x, origin.y + GridlineOffset(j - NumLines(columns), cellHeight, gridlineWidth)),
                        Vec2(DocumentExtent(columns, cellWidth, gridlineWidth), gridlineWidth), gridlineColor)
  {
    var documentWidth := DocumentExtent(columns, cellWidth, gridlineWidth);
    var documentHeight := DocumentExtent(rows, cellHeight, gridlineWidth);
    var horizontalGridlineSize := Vec2(documentWidth, gridlineWidth);
    var verticalGridlineSize := Vec2(gridlineWidth, documentHeight);
    var horizontalCellDisplacement := cellWidth + gridlineWidth;
    var verticalCellDisplacement := cellHeight + gridlineWidth;

    cmds := [];
    var currentColumn := 0;
    while currentColumn <= columns
      invariant 0 <= currentColumn <= NumLines(columns)
      invariant |cmds| == currentColumn
      invariant forall i :: 0 <= i < currentColumn ==>
                  OpaqueBar(cmds[i], Vec2(origin.x + GridlineOffset(i, cellWidth, gridlineWidth), origin.y),
                            verticalGridlineSize, gridlineColor)
    {
      var anchor := Add(origin, Vec2(horizontalCellDisplacement * currentColumn as real, 0.0));
      cmds := cmds + FilledRectangle(gridlineColor, Opaque, anchor, verticalGridlineSize);
      currentColumn := currentColumn + 1;
    }

    var verticalCount := |cmds|;
    var currentRow := 0;
    while currentRow <= rows
      invariant 0 <= currentRow <= NumLines(rows)
      invariant |cmds| == verticalCount + currentRow
      invariant forall i :: 0 <= i < verticalCount ==>
                  OpaqueBar(cmds[i], Vec2(origin.x + GridlineOffset(i, cellWidth, gridlineWidth), origin.y),
                            verticalGridlineSize, gridlineColor)
      invariant forall j :: verticalCount <= j < |cmds| ==>
                  OpaqueBar(cmds[j], Vec2(origin.x, origin.y + GridlineOffset(j - verticalCount, cellHeight, gridlineWidth)),
                            horizontalGridlineSize, gridlineColor)
    {
      var anchor := Add(origin, Vec2(0.0, verticalCellDisplacement * currentRow as real));
      cmds := cmds + FilledRectangle(gridlineColor, Opaque, anchor, horizontalGridlineSize);
      currentRow := currentRow + 1;
    }
  }

  /** The last vertical gridline ends exactly at the document's right edge,
      and the last horizontal one at its bottom edge. */
  lemma GridLastLinesAtDocumentEdge(origin: Vec2, columns: int, rows: int, cellWidth: real, cellHeight: real,
                                    gridlineWidth: real)
    requires columns >= 0 && rows >= 0
    ensures origin.x + GridlineOffset(NumLines(columns) - 1, cellWidth, gridlineWidth) + gridlineWidth
         == origin.x + DocumentExtent(columns, cellWidth, gridlineWidth)
    ensures origin.y + GridlineOffset(NumLines(rows) - 1, cellHeight, gridlineWidth) + gridlineWidth
         == origin.y + DocumentExtent(rows, cellHeight, gridlineWidth)
  {
  }

  /** Every cell of a `columns` x `rows` grid sits exactly between its
      gridlines: its left edge is the right edge of vertical line `col`, its
      right edge the left edge of line `col + 1`, and likewise for rows; and
      its row and column are lines that Grid draws. */
  lemma GridlinesFrameCells(origin: Vec2, columns: int, rows: int, cellWidth: real, cellHeight: real,
                            gridlineWidth: real, cellNumber: int)
    requires columns > 0 && 0 <= cellNumber < rows * columns
    ensures var p := GridCellOrigin(origin, cellWidth, cellHeight, gridlineWidth, columns, cellNumber);
            var col, row := cellNumber % columns, cellNumber / columns;
            && 0 <= col < columns && 0 <= row < rows
            && p.x == origin.x + GridlineOffset(col, cellWidth, gridlineWidth) + gridlineWidth
            && p.x + cellWidth == origin.x + GridlineOffset(col + 1, cellWidth, gridlineWidth)
            && p.y == origin.y + GridlineOffset(row, cellHeight, gridlineWidth) + gridlineWidth
            && p.y + cellHeight == origin.y + GridlineOffset(row + 1, cellHeight, gridlineWidth)
  {
    var row := cellNumber / columns;
    if row >= rows {
      MulMonotone(rows, row, columns);
      assert false;
    }
  }

  /** How many cells the Populate routines fill: every cell of the grid, or
      as many as there are images, whichever is fewer. */
  function CellsDrawn(imageCount: nat, columns: int, rows: int): (n: nat)
    ensures n <= imageCount
    ensures columns > 0 && rows > 0 ==> n <= rows * columns
    ensures columns > 0 && rows > 0 ==> n == imageCount || n == rows * columns
    ensures columns <= 0 || rows <= 0 ==> n == 0
  {
    if columns <= 0 || rows <= 0 then 0
    else if imageCount < rows * columns then imageCount
    else rows * columns
  }

  /** The cell index at the start of row `row` of a row-major walk. */
  function RowStart(row: int, columns: int): int {
    if columns > 0 then row * columns else 0
  }

  lemma RowStartStep(row: int, columns: int)
    ensures RowStart(row + 1, columns) == RowStart(row, columns) + (if columns > 0 then columns else 0)
  {
  }

  /** A cell inside the grid has an index below the grid's size. */
  lemma CellIndexInGrid(row: int, col: int, columns: int, rows: int)
    requires 0 <= row < rows && 0 <= col < columns
    ensures RowStart(row, columns) + col < rows * columns
  {
    MulMonotone(row + 1, rows, columns);
  }

  /** The row-major walk shared by the three Populate routines: the anchor of
      every cell they visit, in visiting order. The running cell index always
      equals `currentRow * columns + currentColumn` and stays below
      `imageCount`, so the k-th cell visited is cell number k and reads image
      k. */
  method CellAnchors(imageCount: nat, origin: Vec2, columns: int, rows: int, cellWidth: real, cellHeight: real,
                     spacing: real) returns (anchors: seq<Vec2>)
    ensures |anchors| == CellsDrawn(imageCount, columns, rows)
    ensures forall k :: 0 <= k < |anchors| ==>
              columns > 0 && anchors[k] == GridCellOrigin(origin, cellWidth, cellHeight, spacing, columns, k)
  {
    var inset := Add(origin, Vec2(spacing, spacing));
    var horizontalCellDisplacement := cellWidth + spacing;
    var verticalCellDisplacement := cellHeight + spacing;
    var cellIndex := 0;
    anchors := [];

    var currentRow := 0;
    while currentRow < rows
      invariant 0 <= currentRow <= (if rows > 0 then rows else 0)
      invariant cellIndex == RowStart(currentRow, columns)
      invariant cellIndex <= imageCount && |anchors| == cellIndex
      invariant forall k :: 0 <= k < cellIndex ==>
                  columns > 0 && anchors[k] == GridCellOrigin(origin, cellWidth, cellHeight, spacing, columns, k)
    {
      var currentColumn := 0;
      while currentColumn < columns
        invariant 0 <= currentColumn <= (if columns > 0 then columns else 0)
        invariant cellIndex == RowStart(currentRow, columns) + currentColumn
        invariant cellIndex <= imageCount && |anchors| == cellIndex
        invariant forall k :: 0 <= k < cellIndex ==>
                    columns > 0 && anchors[k] == GridCellOrigin(origin, cellWidth, cellHeight, spacing, columns, k)
      {
        if cellIndex >= imageCount {
          CellIndexInGrid(currentRow, currentColumn, columns, rows);
          return;
        }
        var anchor := Add(inset, Vec2(currentColumn as real * horizontalCellDisplacement,
                                      currentRow as real * verticalCellDisplacement));
        GridCellOriginRowMajor(origin, cellWidth, cellHeight, spacing, columns, currentRow, currentColumn);
        anchors := anchors + [anchor];
        cellIndex := cellIndex + 1;
        currentColumn := currentColumn + 1;
      }
      RowStartStep(currentRow, columns);
      currentRow := currentRow + 1;
    }
  }

  /** PopulateGrid: image k, unzoomed, framed in cell number k of the grid,
      for every cell the grid has and there is an image for. */
  method PopulateGrid(images: seq<Texture>, origin: Vec2, columns: int, rows: int, cellWidth: real, cellHeight: real,
                      gridlineWidth: real) returns (cmds: seq<DrawCmd>)
    ensures |cmds| == CellsDrawn(|images|, columns, rows) && |cmds| <= |images|
    ensures forall k :: 0 <= k < |cmds| ==>
              columns > 0
              && cmds[k] == Image(images[k], GridCellOrigin(origin, cellWidth, cellHeight, gridlineWidth, columns, k),
                                  Vec2(cellWidth, cellHeight), NoZoom)[0]
  {
    var cellFrameSize := Vec2(cellWidth, cellHeight);
    var anchors := CellAnchors(|images|, origin, columns, rows, cellWidth, cellHeight, gridlineWidth);
    cmds := seq(|anchors|, k requires 0 <= k < |anchors| => Image(images[k], anchors[k], cellFrameSize, NoZoom)[0]);
  }

  /** PopulateSparseRoundedGrid: the same walk with rounded images. */
  method PopulateSparseRoundedGrid(images: seq<Texture>, origin: Vec2, columns: int, rows: int, cellWidth: real,
                                   cellHeight: real, spacing: real, rounding: real) returns (cmds: seq<DrawCmd>)
    ensures |cmds| == CellsDrawn(|images|, columns, rows) && |cmds| <= |images|
    ensures forall k :: 0 <= k < |cmds| ==>
              columns > 0
              && cmds[k] == RoundedImage(images[k], GridCellOrigin(origin, cellWidth, cellHeight, spacing, columns, k),
                                         Vec2(cellWidth, cellHeight), NoZoom, rounding)[0]
  {
    var cellFrameSize := Vec2(cellWidth, cellHeight);
    var anchors := CellAnchors(|images|, origin, columns, rows, cellWidth, cellHeight, spacing);
    cmds := seq(|anchors|, k requires 0 <= k < |anchors| =>
                RoundedImage(images[k], anchors[k], cellFrameSize, NoZoom, rounding)[0]);
  }

  /** One cell of PopulateSparseRoundedGridWithDates. A cell with a date is a
      screenshot: the rounded image fills the cell, and the date, on a white
      rounded highlight, sits DEFAULT_GRAPHICS_GAP from the cell's left and
      bottom edges. A cell without a date is an icon drawn 1:1 at the cell's
      centre, white when the exit is selected and tinted otherwise. */
  function DatedCell(image: Texture, date: string, anchor: Vec2, cellFrameSize: Vec2, rounding: real, font: nat,
                     measure: string -> Vec2, fontColor: bv32, unselectedTint: bv32, exitSelected: bool): (r: seq<DrawCmd>)
    ensures date != "" ==>
              && |r| == 3
              && r[0] == RoundedImage(image, anchor, cellFrameSize, NoZoom, rounding)[0]
              && r[1].RectFilled? && r[2].TextCmd? && r[2].text == date && r[2].font == font
              && r[2].pos.x - anchor.x == DefaultGraphicsGap
              && Bottom(anchor, cellFrameSize) - Bottom(r[2].pos, measure(date)) == DefaultGraphicsGap
              && Encloses(r[1].pMin, r[1].pMax, r[2].pos, measure(date), DefaultHighlightWidth)
              && r[1].roundAllCorners && r[1].rounding == DefaultWindowRounding
              && Realpha(r[1].color, White, Opaque) && Realpha(r[2].color, fontColor, Opaque)
    ensures date == "" ==>
              && |r| == 1 && r[0].ImageCmd? && r[0].texture == image.id
              && Sub(r[0].pMax, r[0].pMin) == TextureSize(image)
              && CentreX(r[0].pMin, TextureSize(image)) == CentreX(anchor, cellFrameSize)
              && CentreY(r[0].pMin, TextureSize(image)) == CentreY(anchor, cellFrameSize)
              && r[0].uvMin == Vec2(0.0, 0.0) && r[0].uvMax == Vec2(1.0, 1.0)
              && (exitSelected ==> Realpha(r[0].tint, White, Opaque))
              && (!exitSelected ==> Realpha(r[0].tint, unselectedTint, Opaque))
  {
    if date != "" then
      var textSize := measure(date);
      var fontPosition := InnerAlignBottomLeft(anchor, cellFrameSize, textSize, DefaultGraphicsGap);
      RoundedImage(image, anchor, cellFrameSize, NoZoom, rounding)
      + TextWithRoundedHighlight(date, font, textSize, DefaultHighlightWidth, fontColor, White, Opaque, Opaque,
                                 fontPosition, 0.0, DefaultWindowRounding)
    else
      var iconPosition := Center2D(anchor, cellFrameSize, TextureSize(image));
      if exitSelected then Sprite(image, iconPosition, Opaque)
      else TintedSprite(image, iconPosition, unselectedTint, Opaque)
  }

  /** PopulateSparseRoundedGridWithDates: the same walk, drawing each visited
      cell with DatedCell. The date of every visited cell is read without a
      bounds check, so there must be a date for each of them. */
  method PopulateSparseRoundedGridWithDates(images: seq<Texture>, origin: Vec2, columns: int, rows: int,
                                            cellWidth: real, cellHeight: real, spacing: real, rounding: real,
                                            dates: seq<string>, font: nat, measure: string -> Vec2,
                                            fontColor: bv32, unselectedTint: bv32, exitSelected: bool)
    returns (cells: seq<seq<DrawCmd>>)
    requires |dates| >= CellsDrawn(|images|, columns, rows)
    ensures |cells| == CellsDrawn(|images|, columns, rows) && |cells| <= |images| && |cells| <= |dates|
    ensures forall k :: 0 <= k < |cells| ==>
              columns > 0
              && cells[k] == DatedCell(images[k], dates[k],
                                       GridCellOrigin(origin, cellWidth, cellHeight, spacing, columns, k),
                                       Vec2(cellWidth, cellHeight), rounding, font, measure, fontColor,
                                       unselectedTint, exitSelected)
  {
    var cellFrameSize := Vec2(cellWidth, cellHeight);
    var anchors := CellAnchors(|images|, origin, columns, rows, cellWidth, cellHeight, spacing);
    cells := seq(|anchors|, k requires 0 <= k < |anchors| =>
                 DatedCell(images[k], dates[k], anchors[k], cellFrameSize, rounding, font, measure, fontColor,
                           unselectedTint, exitSelected));
  }
}
