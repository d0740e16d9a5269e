/**
 The layout engine of Position/PositionTools.cpp. Every function returns the
 upper-left anchor at which an object of size `size` is placed relative to a
 document, a target object, a container or a grid. Screen space: y grows
 downwards. Each contract states where the placed object's edges or centre
 end up, which pins the anchor down uniquely.
 */
module Position {
  import opened Vectors

  // ---------------------------------------------------------------------------
  // Document (line-based) alignment

  /** RightAlign: the object's right edge sits on the document's right edge
      and its bottom edge on the offset of line `line`. */
  function RightAlign(origin: Vec2, documentWidth: real, lineHeight: real, line: int, size: Vec2): (r: Vec2)
    ensures Right(r, size) == origin.x + documentWidth
    ensures Bottom(r, size) == origin.y + line as real * lineHeight
  {
    Sub(Add(origin, Vec2(documentWidth, line as real * lineHeight)), size)
  }

  /** LeftAlign: the left edge stays on the origin's x, while the bottom edge
      sits `line` lines ABOVE the origin (the opposite sign to RightAlign and
      CenterAlign, which move down the page). */
  function LeftAlign(origin: Vec2, lineHeight: real, line: int, size: Vec2): (r: Vec2)
    ensures r.x == origin.x
    ensures Bottom(r, size) == origin.y - line as real * lineHeight
  {
    Sub(Sub(origin, Vec2(0.0, lineHeight * line as real)), Vec2(0.0, size.y))
  }

  /** CenterAlign: equal left and right margins inside the document, and the
      TOP edge on the offset of line `line`. */
  function CenterAlign(origin: Vec2, documentWidth: real, lineHeight: real, line: int, size: Vec2): (r: Vec2)
    ensures r.x - origin.x == (origin.x + documentWidth) - Right(r, size)
    ensures r.y - origin.y == line as real * lineHeight
  {
    var x := origin.x + (documentWidth - size.x) / 2.0;
    var y := origin.y + line as real * lineHeight;
    Vec2(x, y)
  }

  /** The three document alignments disagree on the vertical direction: the
      bottom edge LeftAlign gives is the mirror image, about the origin, of the
      one RightAlign gives for the same line. */
  lemma LeftAlignMirrorsRightAlign(origin: Vec2, documentWidth: real, lineHeight: real, line: int, size: Vec2)
    ensures Bottom(LeftAlign(origin, lineHeight, line, size), size) - origin.y
         == origin.y - Bottom(RightAlign(origin, documentWidth, lineHeight, line, size), size)
  {
  }

  // ---------------------------------------------------------------------------
  // Centring and outer alignment (object placed outside a target's edge)

  /** Center2D: the object's centre coincides with the target's centre. */
  function Center2D(origin: Vec2, targetSize: Vec2, size: Vec2): (r: Vec2)
    ensures CentreX(r, size) == CentreX(origin, targetSize)
    ensures CentreY(r, size) == CentreY(origin, targetSize)
  {
    Add(origin, Vec2((targetSize.x - size.x) / 2.0, (targetSize.y - size.y) / 2.0))
  }

  /** Center2D is the only anchor that makes the centres coincide. */
  lemma Center2DUnique(origin: Vec2, targetSize: Vec2, size: Vec2, p: Vec2)
    ensures (CentreX(p, size) == CentreX(origin, targetSize) && CentreY(p, size) == CentreY(origin, targetSize))
        <==> p == Center2D(origin, targetSize, size)
  {
  }

  /** CenterOnLeftSide: the object's right edge is `distanceApart` left of the
      target's left edge; the two are centred vertically. */
  function CenterOnLeftSide(targetOrigin: Vec2, targetSize: Vec2, size: Vec2, distanceApart: real): (r: Vec2)
    ensures Right(r, size) + distanceApart == targetOrigin.x
    ensures CentreY(r, size) == CentreY(targetOrigin, targetSize)
  {
    var x := targetOrigin.x - distanceApart - size.x;
    var y := targetOrigin.y + (targetSize.y - size.y) / 2.0;
    Vec2(x, y)
  }

  /** CenterAbove, as written: centred horizontally over the target, but it is
      the object's CENTRE, not its bottom edge, that ends up `distanceApart`
      above the target's top edge. */
  function CenterAbove(targetOrigin: Vec2, targetSize: Vec2, size: Vec2, distanceApart: real): (r: Vec2)
    ensures r.x == Center2D(targetOrigin, targetSize, size).x
    ensures CentreX(r, size) == CentreX(targetOrigin, targetSize)
    ensures CentreY(r, size) + distanceApart == targetOrigin.y
    ensures r.y == targetOrigin.y - size.y / 2.0 - distanceApart
  {
    var absoluteCenter := Center2D(targetOrigin, targetSize, size);
    Sub(absoluteCenter, Vec2(0.0, distanceApart + targetSize.y / 2.0))
  }

  /** For any object taller than twice the gap, the object CenterAbove places
      reaches below the target's top edge: its bottom edge is half its height
      lower than the gap-respecting position. */
  lemma CenterAboveOverlapsTarget(targetOrigin: Vec2, targetSize: Vec2, size: Vec2, distanceApart: real)
    requires size.y > 2.0 * distanceApart
    ensures Bottom(CenterAbove(targetOrigin, targetSize, size, distanceApart), size)
         == targetOrigin.y - distanceApart + size.y / 2.0
    ensures Bottom(CenterAbove(targetOrigin, targetSize, size, distanceApart), size) > targetOrigin.y
  {
  }

  /** A concrete instance: a 10-pixel-tall label asked to sit 2 pixels above a
      target at y = 100 ends with its bottom edge at y = 103, inside the target. */
  lemma CenterAboveExample()
    ensures Bottom(CenterAbove(Vec2(0.0, 100.0), Vec2(40.0, 40.0), Vec2(20.0, 10.0), 2.0), Vec2(20.0, 10.0)) == 103.0
  {
  }

  /** The evidently intended CenterAbove: centred horizontally, with the
      object's bottom edge exactly `distanceApart` above the target's top. */
  function CenterAboveCorrected(targetOrigin: Vec2, targetSize: Vec2, size: Vec2, distanceApart: real): (r: Vec2)
    ensures CentreX(r, size) == CentreX(targetOrigin, targetSize)
    ensures Bottom(r, size) + distanceApart == targetOrigin.y
    ensures distanceApart >= 0.0 ==> Bottom(r, size) <= targetOrigin.y
  {
    Vec2(Center2D(targetOrigin, targetSize, size).x, targetOrigin.y - distanceApart - size.y)
  }

  /** CenterOnRightSide: the object's left edge is `distanceApart` right of
      the target's right edge; the two are centred vertically. */
  function CenterOnRightSide(targetOrigin: Vec2, targetSize: Vec2, size: Vec2, distanceApart: real): (r: Vec2)
    ensures r.x == Right(targetOrigin, targetSize) + distanceApart
    ensures CentreY(r, size) == CentreY(targetOrigin, targetSize)
  {
    var x := targetOrigin.x + targetSize.x + distanceApart;
    var y := targetOrigin.y + (targetSize.y - size.y) / 2.0;
    Vec2(x, y)
  }

  /** BottomAlignOnRightSide: left edge `distanceApart` right of the target,
      bottom edges level. */
  function BottomAlignOnRightSide(targetOrigin: Vec2, targetSize: Vec2, size: Vec2, distanceApart: real): (r: Vec2)
    ensures r.x == Right(targetOrigin, targetSize) + distanceApart
    ensures Bottom(r, size) == Bottom(targetOrigin, targetSize)
  {
    var x := targetOrigin.x + targetSize.x + distanceApart;
    var y := targetOrigin.y + (targetSize.y - size.y);
    Vec2(x, y)
  }

  /** TopAlignOnRightSide: left edge `distanceApart` right of the target, top
      edges level (the object's own size plays no part). */
  function TopAlignOnRightSide(targetOrigin: Vec2, targetSize: Vec2, distanceApart: real): (r: Vec2)
    ensures r.x == Right(targetOrigin, targetSize) + distanceApart
    ensures r.y == targetOrigin.y
  {
    Vec2(targetOrigin.x + targetSize.x + distanceApart, targetOrigin.y)
  }

  /** The three right-side alignments put the object's left edge at the same
      place and differ only in which horizontal line they level. */
  lemma RightSideAlignmentsShareLeftEdge(targetOrigin: Vec2, targetSize: Vec2, size: Vec2, distanceApart: real)
    ensures CenterOnRightSide(targetOrigin, targetSize, size, distanceApart).x
         == BottomAlignOnRightSide(targetOrigin, targetSize, size, distanceApart).x
         == TopAlignOnRightSide(targetOrigin, targetSize, distanceApart).x
  {
  }

  // ---------------------------------------------------------------------------
  // Inner alignment (object placed inside a container)

  /** InnerAlignCenterLeft: vertically centred, and the left margin equals the
      top and bottom margins, so the object is equidistant from the container's
      three nearest edges. */
  function InnerAlignCenterLeft(targetOrigin: Vec2, targetSize: Vec2, size: Vec2): (r: Vec2)
    ensures CentreY(r, size) == CentreY(targetOrigin, targetSize)
    ensures r.x - targetOrigin.x == r.y - targetOrigin.y
    ensures Bottom(targetOrigin, targetSize) - Bottom(r, size) == r.y - targetOrigin.y
    ensures r.y - targetOrigin.y == (targetSize.y - size.y) / 2.0
  {
    var centeringDisplacement := (targetSize.y - size.y) / 2.0;
    var y := targetOrigin.y + centeringDisplacement;
    var x := targetOrigin.x + centeringDisplacement;
    Vec2(x, y)
  }

  /** InnerAlignCenterRight: vertically centred, and the right margin equals
      the top and bottom margins. */
  function InnerAlignCenterRight(targetOrigin: Vec2, targetSize: Vec2, size: Vec2): (r: Vec2)
    ensures CentreY(r, size) == CentreY(targetOrigin, targetSize)
    ensures Right(targetOrigin, targetSize) - Right(r, size) == r.y - targetOrigin.y
    ensures Bottom(targetOrigin, targetSize) - Bottom(r, size) == r.y - targetOrigin.y
    ensures r.y - targetOrigin.y == (targetSize.y - size.y) / 2.0
  {
    var centeringDisplacement := (targetSize.y - size.y) / 2.0;
    var y := targetOrigin.y + centeringDisplacement;
    var x := targetOrigin.x + targetSize.x - size.x - centeringDisplacement;
    Vec2(x, y)
  }

  /** The two centre alignments are mirror images: the left margin of one is
      the right margin of the other. */
  lemma CenterLeftMirrorsCenterRight(targetOrigin: Vec2, targetSize: Vec2, size: Vec2)
    ensures InnerAlignCenterLeft(targetOrigin, targetSize, size).x - targetOrigin.x
         == Right(targetOrigin, targetSize) - Right(InnerAlignCenterRight(targetOrigin, targetSize, size), size)
    ensures InnerAlignCenterLeft(targetOrigin, targetSize, size).y == InnerAlignCenterRight(targetOrigin, targetSize, size).y
  {
  }

  /** InnerAlignBottomRight: `gap` from the container's right and bottom edges. */
  function InnerAlignBottomRight(targetOrigin: Vec2, targetSize: Vec2, size: Vec2, gap: real): (r: Vec2)
    ensures Right(targetOrigin, targetSize) - Right(r, size) == gap
    ensures Bottom(targetOrigin, targetSize) - Bottom(r, size) == gap
  {
    var x := targetOrigin.x + targetSize.x - size.x - gap;
    var y := targetOrigin.y + targetSize.y - gap - size.y;
    Vec2(x, y)
  }

  /** InnerAlignTopLeft: `gap` from the container's left and top edges. */
  function InnerAlignTopLeft(targetOrigin: Vec2, gap: real): (r: Vec2)
    ensures r.x - targetOrigin.x == gap
    ensures r.y - targetOrigin.y == gap
  {
    Vec2(targetOrigin.x + gap, targetOrigin.y + gap)
  }

  /** InnerAlignBottomLeft: `gap` from the container's left and bottom edges. */
  function InnerAlignBottomLeft(targetOrigin: Vec2, targetSize: Vec2, size: Vec2, gap: real): (r: Vec2)
    ensures r.x - targetOrigin.x == gap
    ensures Bottom(targetOrigin, targetSize) - Bottom(r, size) == gap
  {
    var x := targetOrigin.x + gap;
    var y := targetOrigin.y + targetSize.y - gap - size.y;
    Vec2(x, y)
  }

  /** InnerAlignBottomCenter: equal left and right margins, `gap` from the
      container's bottom edge. */
  function InnerAlignBottomCenter(targetOrigin: Vec2, targetSize: Vec2, size: Vec2, gap: real): (r: Vec2)
    ensures r.x - targetOrigin.x == Right(targetOrigin, targetSize) - Right(r, size)
    ensures Bottom(targetOrigin, targetSize) - Bottom(r, size) == gap
  {
    var x := targetOrigin.x + (targetSize.x - size.x) / 2.0;
    var y := targetOrigin.y + targetSize.y - size.y - gap;
    Vec2(x, y)
  }

  /** The bottom-row inner alignments all leave the same bottom margin, and
      the bottom-centre one is horizontally centred like Center2D. */
  lemma BottomInnerAlignmentsLevel(targetOrigin: Vec2, targetSize: Vec2, size: Vec2, gap: real)
    ensures InnerAlignBottomLeft(targetOrigin, targetSize, size, gap).y
         == InnerAlignBottomRight(targetOrigin, targetSize, size, gap).y
         == InnerAlignBottomCenter(targetOrigin, targetSize, size, gap).y
    ensures InnerAlignBottomCenter(targetOrigin, targetSize, size, gap).x == Center2D(targetOrigin, targetSize, size).x
  {
  }

  // ---------------------------------------------------------------------------
  // Grid cells

  /** C++ `a / b` on `int`: the quotient truncated toward zero. */
  function CQuot(a: int, b: int): (q: int)
    requires b != 0
    ensures a >= 0 && b > 0 ==> q == a / b
    ensures a >= 0 && b > 0 ==> q * b <= a < (q + 1) * b
    ensures a <= 0 && b > 0 ==> (q - 1) * b < a <= q * b
  {
    var n := if a < 0 then -a else a;
    var d := if b < 0 then -b else b;
    var m := n / d;
    DivBracket(n, d);
    if (a < 0) == (b < 0) then m else -m
  }

  /** Euclidean division of non-negative operands brackets the dividend
      between consecutive multiples of the divisor. */
  lemma DivBracket(n: int, d: int)
    requires n >= 0 && d > 0
    ensures (n / d) * d <= n < (n / d + 1) * d
  {
    assert n == (n / d) * d + n % d;
  }

  /** C++ `a % b` on `int`: the remainder that goes with the truncated
      quotient, carrying the sign of `a`. */
  function CRem(a: int, b: int): (m: int)
    requires b != 0
    ensures a == CQuot(a, b) * b + m
    ensures a >= 0 ==> 0 <= m < (if b < 0 then -b else b)
    ensures a < 0 ==> 0 < -m + (if b < 0 then -b else b) && m <= 0
    ensures a >= 0 && b > 0 ==> m == a % b
  {
    a - CQuot(a, b) * b
  }

  /** Truncation is symmetric in sign: negating either operand negates the
      quotient, which rounding toward minus infinity would not do. */
  lemma CQuotSignSymmetric(a: int, b: int)
    requires b != 0
    ensures CQuot(-a, b) == -CQuot(a, b)
    ensures CQuot(a, -b) == -CQuot(a, b)
  {
  }

  /** The distance from one gridline to the next: a cell plus one gridline. */
  function Pitch(cellSize: real, gridlineWidth: real): real {
    cellSize + gridlineWidth
  }

  /** Where gridline number `i` starts, counted from the grid's origin edge. */
  function GridlineOffset(i: int, cellSize: real, gridlineWidth: real): real {
    i as real * Pitch(cellSize, gridlineWidth)
  }

  /** GridTranslocatedOrigin, as written: the column is `cellNumber % columns`
      but the row is `cellNumber / rows` (C++ truncating division). The anchor
      lies one gridline width inside the gridlines that bound that cell. */
  function GridTranslocatedOrigin(origin: Vec2, cellWidth: real, cellHeight: real, gridlineWidth: real,
                                  columns: int, rows: int, cellNumber: int): (r: Vec2)
    requires columns != 0 && rows != 0
    ensures r.x == origin.x + GridlineOffset(CRem(cellNumber, columns), cellWidth, gridlineWidth) + gridlineWidth
    ensures r.y == origin.y + GridlineOffset(CQuot(cellNumber, rows), cellHeight, gridlineWidth) + gridlineWidth
    ensures cellNumber == 0 ==> r == Add(origin, Diag(gridlineWidth))
  {
    var o := Add(origin, Vec2(gridlineWidth, gridlineWidth));
    var horizontalDisplacement := cellWidth + gridlineWidth;
    var verticalDisplacement := cellHeight + gridlineWidth;
    var row := CQuot(cellNumber, rows);
    var col := CRem(cellNumber, columns);
    Vec2(o.x + col as real * horizontalDisplacement, o.y + row as real * verticalDisplacement)
  }

  /** For a non-negative cell number the column GridTranslocatedOrigin uses is
      a real column of the grid. */
  lemma GridColumnInRange(columns: int, cellNumber: int)
    requires columns > 0 && cellNumber >= 0
    ensures 0 <= CRem(cellNumber, columns) < columns
  {
  }

  /** Row-major cell origin, the evidently intended rule: row
      `cellNumber / columns`, column `cellNumber % columns`. This is the anchor
      the grid-population routines use for the cell with that index. */
  function GridCellOrigin(origin: Vec2, cellWidth: real, cellHeight: real, gridlineWidth: real,
                          columns: int, cellNumber: int): (r: Vec2)
    requires columns > 0 && cellNumber >= 0
    ensures r.x == origin.x + GridlineOffset(cellNumber % columns, cellWidth, gridlineWidth) + gridlineWidth
    ensures r.y == origin.y + GridlineOffset(cellNumber / columns, cellHeight, gridlineWidth) + gridlineWidth
    ensures cellNumber < columns ==> r.y == origin.y + gridlineWidth
  {
    var o := Add(origin, Diag(gridlineWidth));
    assert cellNumber < columns ==> cellNumber / columns == 0 by {
      if cellNumber < columns {
        DivSmall(cellNumber, columns);
      }
    }
    Vec2(o.x + (cellNumber % columns) as real * Pitch(cellWidth, gridlineWidth),
         o.y + (cellNumber / columns) as real * Pitch(cellHeight, gridlineWidth))
  }

  /** Consecutive cell numbers walk a row left to right, and the cell after
      the last column starts the next row. */
  lemma GridCellOriginRowMajor(origin: Vec2, cellWidth: real, cellHeight: real, gridlineWidth: real,
                               columns: int, row: int, col: int)
    requires columns > 0 && row >= 0 && 0 <= col < columns
    ensures GridCellOrigin(origin, cellWidth, cellHeight, gridlineWidth, columns, row * columns + col)
         == Add(Add(origin, Diag(gridlineWidth)),
                Vec2(GridlineOffset(col, cellWidth, gridlineWidth), GridlineOffset(row, cellHeight, gridlineWidth)))
  {
    RowMajorDivMod(row, col, columns);
  }

  /** `row * columns + col` splits back into `row` and `col`. */
  lemma RowMajorDivMod(row: int, col: int, columns: int)
    requires columns > 0 && row >= 0 && 0 <= col < columns
    ensures (row * columns + col) / columns == row
    ensures (row * columns + col) % columns == col
  {
    var k := row * columns + col;
    var q, m := k / columns, k % columns;
    assert k == q * columns + m;
    if q > row {
      assert q * columns >= (row + 1) * columns by {
        MulMonotone(row + 1, q, columns);
      }
      assert false;
    } else if q < row {
      assert q * columns <= (row - 1) * columns by {
        MulMonotone(q, row - 1, columns);
      }
      assert false;
    }
  }

  lemma MulMonotone(a: int, b: int, c: int)
    requires a <= b && c > 0
    ensures a * c <= b * c
  {
  }

  /** For square grids the as-written rule and the row-major rule agree on
      every cell. */
  lemma GridOriginsAgreeWhenSquare(origin: Vec2, cellWidth: real, cellHeight: real, gridlineWidth: real,
                                   n: int, cellNumber: int)
    requires n > 0 && cellNumber >= 0
    ensures GridTranslocatedOrigin(origin, cellWidth, cellHeight, gridlineWidth, n, n, cellNumber)
         == GridCellOrigin(origin, cellWidth, cellHeight, gridlineWidth, n, cellNumber)
  {
  }

  /** For a non-square grid the as-written rule misplaces the cell whose number
      is the smaller of the two dimensions (as long as rows are actually spaced
      apart), so the two rules agree on every cell of the grid exactly when the
      grid is square. */
  lemma GridOriginsAgreeIffSquare(origin: Vec2, cellWidth: real, cellHeight: real, gridlineWidth: real,
                                  columns: int, rows: int)
    requires columns > 0 && rows > 0 && Pitch(cellHeight, gridlineWidth) != 0.0
    ensures (forall k :: 0 <= k < rows * columns ==>
               GridTranslocatedOrigin(origin, cellWidth, cellHeight, gridlineWidth, columns, rows, k)
               == GridCellOrigin(origin, cellWidth, cellHeight, gridlineWidth, columns, k))
        <==> rows == columns
  {
    if rows == columns {
      forall k | 0 <= k < rows * columns
        ensures GridTranslocatedOrigin(origin, cellWidth, cellHeight, gridlineWidth, columns, rows, k)
             == GridCellOrigin(origin, cellWidth, cellHeight, gridlineWidth, columns, k)
      {
        GridOriginsAgreeWhenSquare(origin, cellWidth, cellHeight, gridlineWidth, columns, k);
      }
    } else {
      var k := GridOriginsDisagree(origin, cellWidth, cellHeight, gridlineWidth, columns, rows);
    }
  }

  /** The witness for a non-square grid: the cell numbered by the smaller
      dimension lies in the grid, and the two rules put it on different rows. */
  lemma GridOriginsDisagree(origin: Vec2, cellWidth: real, cellHeight: real, gridlineWidth: real,
                            columns: int, rows: int) returns (k: int)
    requires columns > 0 && rows > 0 && rows != columns && Pitch(cellHeight, gridlineWidth) != 0.0
    ensures 0 <= k < rows * columns
    ensures GridTranslocatedOrigin(origin, cellWidth, cellHeight, gridlineWidth, columns, rows, k)
         != GridCellOrigin(origin, cellWidth, cellHeight, gridlineWidth, columns, k)
  {
    var asWrittenRow, rowMajorRow;
    if rows < columns {
      k := rows;
      MulMonotone(2, columns, rows);
      asWrittenRow, rowMajorRow := 1, 0;
      DivSelf(rows);
      DivSmall(k, columns);
    } else {
      k := columns;
      MulMonotone(2, rows, columns);
      asWrittenRow, rowMajorRow := 0, 1;
      DivSmall(k, rows);
      DivSelf(columns);
    }
    assert CQuot(k, rows) == asWrittenRow;
    assert k / columns == rowMajorRow;
    var asWritten := GridTranslocatedOrigin(origin, cellWidth, cellHeight, gridlineWidth, columns, rows, k);
    var rowMajor := GridCellOrigin(origin, cellWidth, cellHeight, gridlineWidth, columns, k);
    assert asWritten.y == origin.y + GridlineOffset(asWrittenRow, cellHeight, gridlineWidth) + gridlineWidth;
    assert rowMajor.y == origin.y + GridlineOffset(rowMajorRow, cellHeight, gridlineWidth) + gridlineWidth;
    DistinctRowsDistinctOffsets(asWrittenRow, rowMajorRow, cellHeight, gridlineWidth);
  }

  lemma DivSelf(n: int)
    requires n > 0
    ensures n / n == 1
  {
  }

  lemma DivSmall(a: int, n: int)
    requires 0 <= a < n
    ensures a / n == 0
  {
  }

  lemma DistinctRowsDistinctOffsets(i: int, j: int, cellSize: real, gridlineWidth: real)
    requires i != j && Pitch(cellSize, gridlineWidth) != 0.0
    ensures GridlineOffset(i, cellSize, gridlineWidth) != GridlineOffset(j, cellSize, gridlineWidth)
  {
    var p := Pitch(cellSize, gridlineWidth);
    assert GridlineOffset(i, cellSize, gridlineWidth) - GridlineOffset(j, cellSize, gridlineWidth) == (i - j) as real * p;
  }

  /** The smallest counterexample: in a one-row, two-column grid the second
      cell lands one row down under the as-written rule. */
  lemma GridTranslocatedOriginExample()
    ensures GridTranslocatedOrigin(Vec2(0.0, 0.0), 10.0, 10.0, 2.0, 2, 1, 1) == Vec2(14.0, 14.0)
    ensures GridCellOrigin(Vec2(0.0, 0.0), 10.0, 10.0, 2.0, 2, 1) == Vec2(14.0, 2.0)
  {
  }

  // ---------------------------------------------------------------------------
  // Aspect-preserving frame fit

  datatype Option<T> = None | Some(value: T)

  /** True when FrameWithin takes its width-fit branch: the content is wider,
      relative to its height, than the frame. */
  predicate WidthFit(outerFrame: Vec2, innerFrame: Vec2)
    requires outerFrame.y != 0.0 && innerFrame.y != 0.0
  {
    innerFrame.x / innerFrame.y > outerFrame.x / outerFrame.y
  }

  /** FrameWithin: scales the content size to fill the frame less twice the
      padding along one axis, keeping the content's aspect ratio. The result is
      None exactly where the float computation divides by zero (a zero height,
      or a zero content width in the width-fit branch). On those inputs the
      float code returns a degenerate size, zero, negative, infinite or NaN
      depending on the signs and the padding, which this model does not
      reproduce. */
  function FrameWithin(outerFrame: Vec2, innerFrame: Vec2, padding: real): (r: Option<Vec2>)
    ensures r.None? <==> (outerFrame.y == 0.0 || innerFrame.y == 0.0
                          || (innerFrame.x == 0.0 && outerFrame.x / outerFrame.y < 0.0))
    ensures r.Some? ==> r.value.x * innerFrame.y == r.value.y * innerFrame.x
    ensures r.Some? && WidthFit(outerFrame, innerFrame) ==> r.value.x == outerFrame.x - 2.0 * padding
    ensures r.Some? && !WidthFit(outerFrame, innerFrame) ==> r.value.y == outerFrame.y - 2.0 * padding
  {
    if outerFrame.y == 0.0 || innerFrame.y == 0.0 then None
    else
      var innerAspectRatio := innerFrame.x / innerFrame.y;
      var outerAspectRatio := outerFrame.x / outerFrame.y;
      if innerAspectRatio > outerAspectRatio then
        if innerAspectRatio == 0.0 then None
        else
          var x := outerFrame.x - 2.0 * padding;
          Some(Vec2(x, x / innerAspectRatio))
      else
        var y := outerFrame.y - 2.0 * padding;
        Some(Vec2(y * innerAspectRatio, y))
  }

  /** With positive sizes and a non-negative padding, the fitted content never
      exceeds the outer frame on either axis. */
  lemma FrameWithinFitsOuter(outerFrame: Vec2, innerFrame: Vec2, padding: real)
    requires outerFrame.x > 0.0 && outerFrame.y > 0.0 && innerFrame.x > 0.0 && innerFrame.y > 0.0
    requires padding >= 0.0
    ensures FrameWithin(outerFrame, innerFrame, padding).Some?
    ensures FrameWithin(outerFrame, innerFrame, padding).value.x <= outerFrame.x
    ensures FrameWithin(outerFrame, innerFrame, padding).value.y <= outerFrame.y
  {
    var r := FrameWithin(outerFrame, innerFrame, padding).value;
    var a := innerFrame.x / innerFrame.y;
    var b := outerFrame.x / outerFrame.y;
    assert a > 0.0;
    if a > b {
      var x := outerFrame.x - 2.0 * padding;
      assert r.y == x / a;
      assert outerFrame.x == b * outerFrame.y;
      QuotientBelow(x, a, outerFrame.x, b, outerFrame.y);
    } else {
      var y := outerFrame.y - 2.0 * padding;
      assert r.x == y * a;
      assert outerFrame.x == b * outerFrame.y;
      ProductBelow(y, a, outerFrame.y, b);
    }
  }

  /** Width-fit step: x / a <= h whenever x <= w, w == b * h and a > b. */
  lemma QuotientBelow(x: real, a: real, w: real, b: real, h: real)
    requires x <= w && w == b * h && a > b && a > 0.0 && h > 0.0
    ensures x / a <= h
  {
  }

  /** Height-fit step: y * a <= b * h whenever y <= h, 0 < a <= b. */
  lemma ProductBelow(y: real, a: real, h: real, b: real)
    requires y <= h && 0.0 < a <= b && h > 0.0
    ensures y * a <= b * h
  {
    if y >= 0.0 {
      assert y * a <= h * a;
      assert h * a <= h * b;
    } else {
      assert y * a < 0.0;
    }
  }

  /** With padding the as-written fit can overflow the PADDED frame: the
      branch is chosen by the unpadded aspect ratio. A 4:1 picture in a
      200x100 frame with 40 pixels of padding comes out 120x30, taller than
      the 20 pixels left between the paddings. */
  lemma FrameWithinPaddingOverflow()
    ensures FrameWithin(Vec2(200.0, 100.0), Vec2(4.0, 1.0), 40.0) == Some(Vec2(120.0, 30.0))
    ensures FrameWithin(Vec2(200.0, 100.0), Vec2(4.0, 1.0), 40.0).value.y > 100.0 - 2.0 * 40.0
  {
  }

  /** The evidently intended fit: compare aspect ratios against the padded
      frame, so the content fills the padded frame along one axis and stays
      inside it along the other. Needs the frame to be larger than twice the
      padding on both axes, and a content size with positive sides. */
  function FrameWithinPadded(outerFrame: Vec2, innerFrame: Vec2, padding: real): (r: Vec2)
    requires outerFrame.x > 2.0 * padding && outerFrame.y > 2.0 * padding
    requires innerFrame.x > 0.0 && innerFrame.y > 0.0
    ensures r.x * innerFrame.y == r.y * innerFrame.x
    ensures 0.0 < r.x <= outerFrame.x - 2.0 * padding
    ensures 0.0 < r.y <= outerFrame.y - 2.0 * padding
    ensures r.x == outerFrame.x - 2.0 * padding || r.y == outerFrame.y - 2.0 * padding
  {
    var w := outerFrame.x - 2.0 * padding;
    var h := outerFrame.y - 2.0 * padding;
    var a := innerFrame.x / innerFrame.y;
    assert a > 0.0;
    if a > w / h then
      QuotientBelow(w, a, w, w / h, h);
      Vec2(w, w / a)
    else
      ProductBelow(h, a, h, w / h);
      Vec2(h * a, h)
  }
}
