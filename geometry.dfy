/** Screen geometry of the game: integer top-left corners, pygame-style
    rectangles, and the padding bars that frame the play field. */
module Geometry {

  /** The integer top-left corner of a sprite. */
  datatype Point = Point(x: int, y: int)

  /** An axis-aligned rectangle given by its top-left corner and its size. */
  datatype Rect = Rect(left: int, top: int, width: int, height: int) {
    function RightEdge(): int { left + width }
    function BottomEdge(): int { top + height }
  }

  const ScreenWidth := 400
  const ScreenHeight := 300
  const PaddingTop := 5
  const PaddingBottom := 5
  const PaddingLeft := 5
  const PaddingRight := 5

  const Screen := Rect(0, 0, ScreenWidth, ScreenHeight)

  /** Overlap as pygame's `colliderect` decides it for rectangles of positive
      size: the open interiors intersect, so sharing an edge is no collision. */
  predicate Collide(a: Rect, b: Rect) {
    a.left < b.RightEdge() && b.left < a.RightEdge() &&
    a.top < b.BottomEdge() && b.top < a.BottomEdge()
  }

  /** pygame's `collidepoint`: left and top edges inside, right and bottom edges outside. */
  predicate ContainsPoint(r: Rect, p: Point) {
    r.left <= p.x < r.RightEdge() && r.top <= p.y < r.BottomEdge()
  }

  datatype Side = LeftSide | RightSide | TopSide | BottomSide

  /** The bar that `Padding(side)` places along one edge of the screen. */
  function PaddingRect(side: Side): (r: Rect)
    ensures r.width > 0 && r.height > 0
    ensures 0 <= r.left && r.RightEdge() <= ScreenWidth && 0 <= r.top && r.BottomEdge() <= ScreenHeight
  {
    match side
    case LeftSide => Rect(0, PaddingTop, PaddingLeft, ScreenHeight - PaddingTop - PaddingBottom)
    case RightSide => Rect(ScreenWidth - PaddingRight, PaddingTop, PaddingRight, ScreenHeight - PaddingTop - PaddingBottom)
    case TopSide => Rect(0, 0, ScreenWidth, PaddingTop)
    case BottomSide => Rect(0, ScreenHeight - PaddingBottom, ScreenWidth, PaddingBottom)
  }

  /** Where each bar sits: the side bars are 5 wide and run between the top
      and bottom bars; the top and bottom bars are 5 high across the screen. */
  lemma PaddingPlacement(side: Side)
    ensures var r := PaddingRect(side);
            match side
            case LeftSide =>
              r.left == 0 && r.width == PaddingLeft && r.top == PaddingTop && r.BottomEdge() == ScreenHeight - PaddingBottom
            case RightSide =>
              r.RightEdge() == ScreenWidth && r.width == PaddingRight && r.top == PaddingTop && r.BottomEdge() == ScreenHeight - PaddingBottom
            case TopSide =>
              r.left == 0 && r.width == ScreenWidth && r.top == 0 && r.height == PaddingTop
            case BottomSide =>
              r.left == 0 && r.width == ScreenWidth && r.BottomEdge() == ScreenHeight && r.height == PaddingBottom
  {
  }

  /** `spritecollideany(sprite, padding_sprites)`: the rectangle overlaps one of the four bars. */
  predicate HitsPadding(r: Rect) {
    Collide(r, PaddingRect(TopSide)) || Collide(r, PaddingRect(BottomSide)) ||
    Collide(r, PaddingRect(LeftSide)) || Collide(r, PaddingRect(RightSide))
  }

  /** The rectangle lies within the area the four bars enclose. */
  predicate InPlayfield(r: Rect) {
    PaddingLeft <= r.left && r.RightEdge() <= ScreenWidth - PaddingRight &&
    PaddingTop <= r.top && r.BottomEdge() <= ScreenHeight - PaddingBottom
  }

  /** The bars frame the play field without gaps: a rectangle that shows on
      the screen overlaps a bar exactly when it is not inside the play field. */
  lemma PaddingFramesPlayfield(r: Rect)
    requires r.width > 0 && r.height > 0 && Collide(r, Screen)
    ensures HitsPadding(r) <==> !InPlayfield(r)
  {
  }
}
