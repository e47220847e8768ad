/**
 * Letterbox geometry of src/library/run_event_loop.c: the scaled image size
 * and the offsets computed on WM_SIZE, the border rectangles filled on
 * WM_PAINT, and the aspect-locked edge drags of WM_SIZING.
 *
 * Double-precision quotients are modelled as exact reals; C's conversion of
 * a double to `int` truncates toward zero (`Truncate`) and C's integer
 * division truncates toward zero (`CDiv`).
 */
module Geometry {

  function Abs(x: int): int {
    if x < 0 then -x else x
  }

  /** C's integer division, which truncates toward zero (Dafny's `/` is Euclidean). */
  function CDiv(a: int, b: int): (q: int)
    requires b != 0
    ensures a >= 0 ==> 0 <= a - q * b < Abs(b)
    ensures a < 0 ==> -Abs(b) < a - q * b <= 0
  {
    if a >= 0 then a / b else -((-a) / b)
  }

  /** C's conversion of a double to `int`, which truncates toward zero. */
  function Truncate(x: real): (n: int)
    ensures x >= 0.0 ==> n as real <= x < n as real + 1.0
    ensures x < 0.0 ==> n as real - 1.0 < x <= n as real
  {
    if x >= 0.0 then x.Floor else -((-x).Floor)
  }

  /**
   * The coordinates of a GDI rectangle, read as the half-open area
   * [left, right) x [top, bottom).  This is the area the coordinates name;
   * with the null pen that WM_PAINT selects, `Rectangle` fills one pixel
   * less at the right and bottom.
   */
  datatype Rect = Rect(left: int, top: int, right: int, bottom: int)

  predicate Contains(r: Rect, x: int, y: int) {
    r.left <= x < r.right && r.top <= y < r.bottom
  }

  function Width(r: Rect): int {
    r.right - r.left
  }

  function Height(r: Rect): int {
    r.bottom - r.top
  }

  /** The six geometry fields of the context. */
  datatype Letterbox = Letterbox(
    scaledWidth: int, scaledHeight: int,
    xOffset: int, yOffset: int,
    inverseXOffset: int, inverseYOffset: int)

  predicate NonNegative(g: Letterbox) {
    g.scaledWidth >= 0 && g.scaledHeight >= 0 &&
    g.xOffset >= 0 && g.yOffset >= 0 &&
    g.inverseXOffset >= 0 && g.inverseYOffset >= 0
  }

  /** `min(width / columns, height / rows)`, the largest scale at which the viewport fits. */
  function Scale(width: int, height: int, rows: int, columns: int): real
    requires rows >= 1 && columns >= 1
  {
    var xScale := width as real / columns as real;
    var yScale := height as real / rows as real;
    if xScale < yScale then xScale else yScale
  }

  /** Multiplying both sides of a strict inequality by a positive real keeps it. */
  lemma MulStrict(a: real, b: real, k: real)
    requires a < b && k > 0.0
    ensures a * k < b * k
  {
  }

  /** Multiplying both sides of an inequality by a positive real keeps it. */
  lemma MulWeak(a: real, b: real, k: real)
    requires a <= b && k > 0.0
    ensures a * k <= b * k
  {
  }

  /** Bounds on a quotient follow from bounds on its numerator. */
  lemma QuotientBounds(n: real, d: real, lo: real, hi: real)
    requires d > 0.0 && lo * d <= n < hi * d
    ensures lo <= n / d < hi
  {
    var f := n / d;
    assert f * d == n;
    if f < lo { MulStrict(f, lo, d); }
    if f >= hi { MulWeak(hi, f, d); }
  }

  /** `a * (b / c)` truncated, for non-negative `a`, `b` and positive `c`, is the floor of `a * b / c`. */
  lemma ScaledTruncation(a: int, b: int, c: int)
    requires a >= 0 && b >= 0 && c >= 1
    ensures Truncate(a as real * (b as real / c as real)) == (a * b) / c
  {
    var x := a as real * (b as real / c as real);
    assert x == (a * b) as real / c as real;
    var q := (a * b) / c;
    assert q * c <= a * b < (q + 1) * c;
    assert (q * c) as real == q as real * c as real;
    assert ((q + 1) * c) as real == (q as real + 1.0) * c as real;
    QuotientBounds((a * b) as real, c as real, q as real, q as real + 1.0);
  }

  /** The image size WM_SIZE derives from `Scale`. */
  function ScaledWidth(width: int, height: int, rows: int, columns: int): int
    requires rows >= 1 && columns >= 1
  {
    Truncate(columns as real * Scale(width, height, rows, columns))
  }

  function ScaledHeight(width: int, height: int, rows: int, columns: int): int
    requires rows >= 1 && columns >= 1
  {
    Truncate(rows as real * Scale(width, height, rows, columns))
  }

  /** When the width is the tighter constraint, the image fills the width. */
  lemma WidthBound(width: int, height: int, rows: int, columns: int)
    requires width >= 0 && height >= 0 && rows >= 1 && columns >= 1
    requires width as real / columns as real < height as real / rows as real
    ensures ScaledWidth(width, height, rows, columns) == width
    ensures ScaledHeight(width, height, rows, columns) == (rows * width) / columns
    ensures rows * width < height * columns
  {
    var xScale := width as real / columns as real;
    var yScale := height as real / rows as real;
    assert Scale(width, height, rows, columns) == xScale;
    ScaledTruncation(columns, width, columns);
    assert (columns * width) / columns == width;
    ScaledTruncation(rows, width, columns);
    var cr := columns as real * rows as real;
    MulStrict(xScale, yScale, cr);
    assert xScale * cr == width as real * rows as real;
    assert yScale * cr == height as real * columns as real;
  }

  /** When the height is the tighter constraint (or both are equal), the image fills the height. */
  lemma HeightBound(width: int, height: int, rows: int, columns: int)
    requires width >= 0 && height >= 0 && rows >= 1 && columns >= 1
    requires !(width as real / columns as real < height as real / rows as real)
    ensures ScaledHeight(width, height, rows, columns) == height
    ensures ScaledWidth(width, height, rows, columns) == (columns * height) / rows
    ensures columns * height <= width * rows
  {
    var xScale := width as real / columns as real;
    var yScale := height as real / rows as real;
    assert Scale(width, height, rows, columns) == yScale;
    ScaledTruncation(rows, height, rows);
    assert (rows * height) / rows == height;
    ScaledTruncation(columns, height, rows);
    var cr := columns as real * rows as real;
    MulWeak(yScale, xScale, cr);
    assert xScale * cr == width as real * rows as real;
    assert yScale * cr == height as real * columns as real;
  }

  /** Euclidean division of a non-negative numerator by a positive divisor brackets it. */
  lemma DivBrackets(n: int, d: int)
    requires n >= 0 && d >= 1
    ensures (n / d) * d <= n < (n / d + 1) * d
  {
  }

  /** A strict inequality between multiples of a positive integer is one between the factors. */
  lemma CancelStrict(a: int, b: int, c: int)
    requires c >= 1 && a * c < b * c
    ensures a < b
  {
  }

  /** The two cases of `Scale`: the image fills the width, or it fills the height, and never exceeds either. */
  lemma ScaleFits(width: int, height: int, rows: int, columns: int)
    requires width >= 0 && height >= 0 && rows >= 1 && columns >= 1
    ensures var w, h := ScaledWidth(width, height, rows, columns), ScaledHeight(width, height, rows, columns);
      0 <= w <= width && 0 <= h <= height && (w == width || h == height) &&
      (w == width ==> h * columns <= rows * width < (h + 1) * columns) &&
      (h == height ==> w * rows <= columns * height < (w + 1) * rows)
  {
    var w, h := ScaledWidth(width, height, rows, columns), ScaledHeight(width, height, rows, columns);
    if width as real / columns as real < height as real / rows as real {
      WidthBound(width, height, rows, columns);
      var n := rows * width;
      DivBrackets(n, columns);
      assert h * columns <= n < (h + 1) * columns;
      assert n < height * columns;
      CancelStrict(h, height, columns);
    } else {
      HeightBound(width, height, rows, columns);
      var n := columns * height;
      DivBrackets(n, rows);
      assert w * rows <= n < (w + 1) * rows;
      assert n <= width * rows;
      CancelStrict(w, width + 1, rows);
      if w == width {
        assert rows * width == n;
      }
    }
  }

  /** Centring `used` within `total`: the leading offset is half the slack rounded down, the trailing one takes the rest. */
  lemma CentredSplit(total: int, used: int)
    requires 0 <= used <= total
    ensures var offset := CDiv(total - used, 2);
      0 <= offset <= total - used - offset <= offset + 1
  {
  }

  /**
   * The values WM_SIZE stores for a client area of `width` x `height`.
   * The image keeps the rows:columns aspect ratio, fills one of the two
   * dimensions and is centred, the odd pixel going to the trailing side.
   */
  function ComputeLetterbox(width: int, height: int, rows: int, columns: int): (g: Letterbox)
    requires width >= 0 && height >= 0 && rows >= 1 && columns >= 1
    ensures NonNegative(g)
    ensures g.scaledWidth <= width && g.scaledHeight <= height
    ensures g.scaledWidth == width || g.scaledHeight == height
    ensures g.scaledWidth == width ==> g.scaledHeight * columns <= rows * width < (g.scaledHeight + 1) * columns
    ensures g.scaledHeight == height ==> g.scaledWidth * rows <= columns * height < (g.scaledWidth + 1) * rows
    ensures g.xOffset + g.scaledWidth + g.inverseXOffset == width
    ensures g.yOffset + g.scaledHeight + g.inverseYOffset == height
    ensures g.xOffset <= g.inverseXOffset <= g.xOffset + 1
    ensures g.yOffset <= g.inverseYOffset <= g.yOffset + 1
  {
    var scaledWidth := ScaledWidth(width, height, rows, columns);
    var scaledHeight := ScaledHeight(width, height, rows, columns);
    ScaleFits(width, height, rows, columns);
    var xOffset := CDiv(width - scaledWidth, 2);
    var yOffset := CDiv(height - scaledHeight, 2);
    CentredSplit(width, scaledWidth);
    CentredSplit(height, scaledHeight);
    Letterbox(scaledWidth, scaledHeight, xOffset, yOffset,
              width - scaledWidth - xOffset, height - scaledHeight - yOffset)
  }

  /** The client area of 400 x 100 with a 192-row, 256-column viewport. */
  lemma LetterboxExample()
    ensures ComputeLetterbox(400, 100, 192, 256) == Letterbox(133, 100, 133, 0, 134, 0)
  {
    ScaleFits(400, 100, 192, 256);
  }

  function DestinationWidth(g: Letterbox): int {
    g.xOffset + g.scaledWidth + g.inverseXOffset
  }

  function DestinationHeight(g: Letterbox): int {
    g.yOffset + g.scaledHeight + g.inverseYOffset
  }

  function Destination(g: Letterbox): Rect {
    Rect(0, 0, DestinationWidth(g), DestinationHeight(g))
  }

  function LeftBorder(g: Letterbox): Rect {
    Rect(0, 0, g.xOffset, DestinationHeight(g))
  }

  function RightBorder(g: Letterbox): Rect {
    Rect(DestinationWidth(g) - g.inverseXOffset, 0, DestinationWidth(g), DestinationHeight(g))
  }

  function TopBorder(g: Letterbox): Rect {
    Rect(g.xOffset, 0, DestinationWidth(g) - g.inverseXOffset, g.yOffset)
  }

  function BottomBorder(g: Letterbox): Rect {
    Rect(g.xOffset, DestinationHeight(g) - g.inverseYOffset, DestinationWidth(g) - g.inverseXOffset, DestinationHeight(g))
  }

  /** Where StretchDIBits places the image: at the offsets, sized scaled_width x scaled_height. */
  function ImageRect(g: Letterbox): Rect {
    Rect(g.xOffset, g.yOffset, g.xOffset + g.scaledWidth, g.yOffset + g.scaledHeight)
  }

  /** The borders WM_PAINT fills, in order, each only when its offset is greater than 0. */
  function Borders(g: Letterbox): seq<Rect> {
    (if g.xOffset > 0 then [LeftBorder(g)] else []) +
    (if g.inverseXOffset > 0 then [RightBorder(g)] else []) +
    (if g.yOffset > 0 then [TopBorder(g)] else []) +
    (if g.inverseYOffset > 0 then [BottomBorder(g)] else [])
  }

  /** Everything WM_PAINT draws: the borders it fills, then the image. */
  function PaintedRects(g: Letterbox): seq<Rect> {
    Borders(g) + [ImageRect(g)]
  }

  /** A border whose offset is not positive covers no point; that is why it may be skipped. */
  lemma SkippedBordersAreEmpty(g: Letterbox, x: int, y: int)
    requires NonNegative(g)
    ensures g.xOffset == 0 ==> !Contains(LeftBorder(g), x, y)
    ensures g.inverseXOffset == 0 ==> !Contains(RightBorder(g), x, y)
    ensures g.yOffset == 0 ==> !Contains(TopBorder(g), x, y)
    ensures g.inverseYOffset == 0 ==> !Contains(BottomBorder(g), x, y)
  {
  }

  /** Every point of the destination lies in exactly one of the five regions; nothing lies outside it. */
  lemma RegionsPartitionDestination(g: Letterbox, x: int, y: int)
    requires NonNegative(g)
    ensures Contains(Destination(g), x, y) <==>
      Contains(LeftBorder(g), x, y) || Contains(RightBorder(g), x, y) ||
      Contains(TopBorder(g), x, y) || Contains(BottomBorder(g), x, y) ||
      Contains(ImageRect(g), x, y)
    ensures var regions := [LeftBorder(g), RightBorder(g), TopBorder(g), BottomBorder(g), ImageRect(g)];
      forall i, j :: 0 <= i < j < |regions| && Contains(regions[i], x, y) ==> !Contains(regions[j], x, y)
  {
  }

  /**
   * The rectangles WM_PAINT hands to GDI, read as half-open areas, are
   * pairwise disjoint and together cover exactly
   * [0, destination_width) x [0, destination_height).
   */
  lemma PaintedRectsTileDestination(g: Letterbox)
    requires NonNegative(g)
    ensures forall x, y :: Contains(Destination(g), x, y) <==>
      exists r :: r in PaintedRects(g) && Contains(r, x, y)
    ensures forall i, j, x, y :: 0 <= i < j < |PaintedRects(g)| && Contains(PaintedRects(g)[i], x, y) ==>
      !Contains(PaintedRects(g)[j], x, y)
  {
    var rects := PaintedRects(g);
    var regions := [LeftBorder(g), RightBorder(g), TopBorder(g), BottomBorder(g), ImageRect(g)];
    forall x, y ensures Contains(Destination(g), x, y) <==> exists r :: r in rects && Contains(r, x, y) {
      RegionsPartitionDestination(g, x, y);
      SkippedBordersAreEmpty(g, x, y);
    }
    forall i, j, x, y | 0 <= i < j < |rects| && Contains(rects[i], x, y)
      ensures !Contains(rects[j], x, y)
    {
      RegionsPartitionDestination(g, x, y);
    }
  }

  /** The edge or corner of the window being dragged (the WMSZ_* codes of WM_SIZING). */
  datatype SizingEdge = Left | Right | Top | Bottom | TopLeft | TopRight | BottomLeft | BottomRight {
    predicate IsCorner() {
      TopLeft? || TopRight? || BottomLeft? || BottomRight?
    }
  }

  /** The client rectangle inside a window rectangle, given the insets AdjustWindowRect reports for the frame. */
  function Inner(outer: Rect, insets: Rect): Rect {
    Rect(outer.left - insets.left, outer.top - insets.top, outer.right - insets.right, outer.bottom - insets.bottom)
  }

  /** The larger of the two scale factors of a corner drag (`max` of the source, which prefers the second on ties). */
  function CornerScale(inner: Rect, rows: int, columns: int): real
    requires rows >= 1 && columns >= 1
  {
    var xScaleFactor := Width(inner) as real / columns as real;
    var yScaleFactor := Height(inner) as real / rows as real;
    if xScaleFactor > yScaleFactor then xScaleFactor else yScaleFactor
  }

  /** Halving with truncation toward zero loses at most the odd unit, and loses it exactly when the change is odd. */
  lemma HalfSplit(change: int)
    ensures Abs(change - 2 * CDiv(change, 2)) <= 1
    ensures change - 2 * CDiv(change, 2) == 0 <==> change % 2 == 0
  {
  }

  /** Top or bottom edge: the width follows the height, the change split evenly between left and right. */
  function SizedVertically(outer: Rect, insets: Rect, rows: int, columns: int): (r: Rect)
    requires rows >= 1 && columns >= 1
    ensures var target := CDiv(Height(Inner(outer, insets)) * columns, rows);
      var width := Width(Inner(r, insets));
      r.top == outer.top && r.bottom == outer.bottom &&
      outer.left - r.left == r.right - outer.right &&
      Abs(width - target) <= 1 &&
      (width == target <==> (target - Width(Inner(outer, insets))) % 2 == 0)
  {
    var inner := Inner(outer, insets);
    var scaledInnerWidth := CDiv(Height(inner) * columns, rows);
    var widthChange := scaledInnerWidth - Width(inner);
    var half := CDiv(widthChange, 2);
    HalfSplit(widthChange);
    outer.(left := outer.left - half, right := outer.right + half)
  }

  /** Left or right edge: the height follows the width, by moving the bottom edge. */
  function SizedHorizontally(outer: Rect, insets: Rect, rows: int, columns: int): (r: Rect)
    requires rows >= 1 && columns >= 1
    ensures r.left == outer.left && r.top == outer.top && r.right == outer.right
    ensures Height(Inner(r, insets)) == CDiv(Width(Inner(outer, insets)) * rows, columns)
  {
    var inner := Inner(outer, insets);
    var scaledInnerHeight := CDiv(Width(inner) * rows, columns);
    var heightChange := scaledInnerHeight - Height(inner);
    outer.(bottom := outer.bottom + heightChange)
  }

  /** The client width and height a corner drag aims for: both dimensions scaled by `CornerScale`, truncated. */
  function CornerTarget(inner: Rect, rows: int, columns: int): (target: (int, int))
    requires rows >= 1 && columns >= 1
    ensures Width(inner) >= 0 && Height(inner) >= 0 ==>
      target.0 >= Width(inner) && target.1 >= Height(inner) &&
      (target.0 == Width(inner) || target.1 == Height(inner))
  {
    var width, height := Width(inner), Height(inner);
    var c, r := columns as real, rows as real;
    var scaleFactor := CornerScale(inner, rows, columns);
    var target := (Truncate(scaleFactor * c), Truncate(scaleFactor * r));
    if width >= 0 && height >= 0 then
      var xScaleFactor, yScaleFactor := width as real / c, height as real / r;
      QuotientTimesDivisor(width, columns);
      QuotientTimesDivisor(height, rows);
      ScaleKeepsOneSide(xScaleFactor, yScaleFactor, scaleFactor, width, height, c, r);
      target
    else
      target
  }

  /** A corner: both dimensions follow the larger scale factor; only the two edges meeting at the corner move. */
  function SizedAtCorner(edge: SizingEdge, outer: Rect, insets: Rect, rows: int, columns: int): (r: Rect)
    requires rows >= 1 && columns >= 1 && edge.IsCorner()
    ensures (Width(Inner(r, insets)), Height(Inner(r, insets))) == CornerTarget(Inner(outer, insets), rows, columns)
    ensures edge.TopLeft? ==> r.right == outer.right && r.bottom == outer.bottom
    ensures edge.TopRight? ==> r.left == outer.left && r.bottom == outer.bottom
    ensures edge.BottomLeft? ==> r.right == outer.right && r.top == outer.top
    ensures edge.BottomRight? ==> r.left == outer.left && r.top == outer.top
  {
    var inner := Inner(outer, insets);
    var (scaledInnerWidth, scaledInnerHeight) := CornerTarget(inner, rows, columns);
    var widthChange := scaledInnerWidth - Width(inner);
    var heightChange := scaledInnerHeight - Height(inner);
    match edge
    case BottomLeft => outer.(bottom := outer.bottom + heightChange, left := outer.left - widthChange)
    case BottomRight => outer.(bottom := outer.bottom + heightChange, right := outer.right + widthChange)
    case TopLeft => outer.(top := outer.top - heightChange, left := outer.left - widthChange)
    case TopRight => outer.(top := outer.top - heightChange, right := outer.right + widthChange)
  }

  /**
   * The window rectangle WM_SIZING hands back for a drag of `edge` that
   * produced `outer`, so that the client area keeps the rows:columns aspect
   * ratio.
   */
  function Sized(edge: SizingEdge, outer: Rect, insets: Rect, rows: int, columns: int): Rect
    requires rows >= 1 && columns >= 1
  {
    match edge
    case Top | Bottom => SizedVertically(outer, insets, rows, columns)
    case Left | Right => SizedHorizontally(outer, insets, rows, columns)
    case _ => SizedAtCorner(edge, outer, insets, rows, columns)
  }

  /** `LargerFactorKeepsOneSide` for the larger factor `scaleFactor` itself. */
  lemma ScaleKeepsOneSide(x: real, y: real, scaleFactor: real, w: int, h: int, c: real, r: real)
    requires c > 0.0 && r > 0.0 && w >= 0 && h >= 0
    requires x * c == w as real && y * r == h as real
    requires scaleFactor == if x > y then x else y
    ensures Truncate(scaleFactor * c) >= w && Truncate(scaleFactor * r) >= h
    ensures Truncate(scaleFactor * c) == w || Truncate(scaleFactor * r) == h
  {
    LargerFactorKeepsOneSide(x, y, w, h, c, r);
    if x > y {
      assert scaleFactor == x;
    } else {
      assert scaleFactor == y;
    }
  }

  /**
   * With `x * c == w` and `y * r == h`, scaling both `c` and `r` by the
   * larger of `x` and `y` gives back one of `w` and `h` exactly and at
   * least the other.
   */
  lemma LargerFactorKeepsOneSide(x: real, y: real, w: int, h: int, c: real, r: real)
    requires c > 0.0 && r > 0.0 && w >= 0 && h >= 0
    requires x * c == w as real && y * r == h as real
    ensures x > y ==> Truncate(x * c) == w && Truncate(x * r) >= h
    ensures x <= y ==> Truncate(y * r) == h && Truncate(y * c) >= w
  {
    if x > y {
      TruncateWhole(w);
      MulStrict(y, x, r);
      TruncateAtLeast(x * r, h);
    } else {
      TruncateWhole(h);
      MulWeak(x, y, c);
      TruncateAtLeast(y * c, w);
    }
  }

  lemma QuotientTimesDivisor(n: int, d: int)
    requires d >= 1
    ensures (n as real / d as real) * d as real == n as real
  {
  }

  lemma TruncateWhole(n: int)
    ensures Truncate(n as real) == n
  {
  }

  lemma TruncateAtLeast(t: real, n: int)
    requires n >= 0 && t >= n as real
    ensures Truncate(t) >= n
  {
  }

  /**
   * A corner drag never shrinks the client area it was given: it keeps one
   * of the two dimensions and grows the other to the aspect ratio.
   */
  lemma CornerDragGrows(edge: SizingEdge, outer: Rect, insets: Rect, rows: int, columns: int)
    requires rows >= 1 && columns >= 1 && edge.IsCorner()
    requires Width(Inner(outer, insets)) >= 0 && Height(Inner(outer, insets)) >= 0
    ensures var before, after := Inner(outer, insets), Inner(Sized(edge, outer, insets, rows, columns), insets);
      Width(after) >= Width(before) && Height(after) >= Height(before) &&
      (Width(after) == Width(before) || Height(after) == Height(before))
  {
  }
}
