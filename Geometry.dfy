/**
 * The arithmetic of the paging menu's focus indicator: linear interpolation
 * between two item frames, and the content offsets the strip is asked to
 * scroll to. `CGFloat` is modelled as `real`, so every comparison is exact.
 */
module Geometry {

  datatype Point = Point(x: real, y: real)
  datatype Size = Size(width: real, height: real)
  datatype Rect = Rect(origin: Point, size: Size)

  function Min(a: real, b: real): (m: real) { if a <= b then a else b }
  function Max(a: real, b: real): (m: real) { if a >= b then a else b }
  function Abs(a: real): (r: real) { if a >= 0.0 then a else -a }

  /** `CGRect.width` and `.height` report the standardized (non-negative) extent. */
  function Width(r: Rect): (w: real)
    ensures w >= 0.0
    ensures r.size.width >= 0.0 ==> w == r.size.width
  {
    Abs(r.size.width)
  }

  function Height(r: Rect): (h: real)
    ensures h >= 0.0
    ensures r.size.height >= 0.0 ==> h == r.size.height
  {
    Abs(r.size.height)
  }

  /** `CGRect.midX` and `.midY`: the centre of the standardized rectangle, whose minimum is the smaller edge. */
  function MidX(r: Rect): (m: real)
    ensures m == Min(r.origin.x, r.origin.x + r.size.width) + Width(r) / 2.0
  {
    r.origin.x + r.size.width / 2.0
  }

  function MidY(r: Rect): (m: real)
    ensures m == Min(r.origin.y, r.origin.y + r.size.height) + Height(r) / 2.0
  {
    r.origin.y + r.size.height / 2.0
  }

  function Center(r: Rect): (c: Point) { Point(MidX(r), MidY(r)) }

  /** The standardized size of `r`, the one its `width` and `height` report. */
  function StandardSize(r: Rect): (s: Size) { Size(Width(r), Height(r)) }

  /** Linear interpolation from `a` (at `t == 0`) to `b` (at `t == 1`). */
  function Lerp(a: real, b: real, t: real): (r: real)
    ensures t == 0.0 ==> r == a
    ensures t == 1.0 ==> r == b
    ensures r - a == t * (b - a)
  {
    (b - a) * t + a
  }

  /** For `t` in [0, 1] the interpolated value lies between the two ends. */
  lemma LerpBetween(a: real, b: real, t: real)
    requires 0.0 <= t <= 1.0
    ensures Min(a, b) <= Lerp(a, b, t) <= Max(a, b)
  {
    if a <= b {
      MulBounds(b - a, t);
    } else {
      MulBounds(a - b, t);
      assert (b - a) * t == -((a - b) * t);
    }
  }

  lemma MulBounds(d: real, t: real)
    requires d >= 0.0 && 0.0 <= t <= 1.0
    ensures 0.0 <= d * t <= d
  {
  }

  /** The size of the focus indicator at `percent` of the way from `left` to `right`. */
  function InterpolatedSize(left: Rect, right: Rect, percent: real): (s: Size)
    ensures percent == 0.0 ==> s == StandardSize(left)
    ensures percent == 1.0 ==> s == StandardSize(right)
  {
    Size(Lerp(Width(left), Width(right), percent), Lerp(Height(left), Height(right), percent))
  }

  /** The centre of the focus indicator at `percent` of the way between the two midpoints. */
  function InterpolatedCenter(left: Rect, right: Rect, percent: real): (c: Point)
    ensures percent == 0.0 ==> c == Center(left)
    ensures percent == 1.0 ==> c == Center(right)
  {
    Point(Lerp(MidX(left), MidX(right), percent), Lerp(MidY(left), MidY(right), percent))
  }

  /**
   * The interpolated centre is the point at fraction `percent` along the
   * segment between the two midpoints: both coordinates have moved the same
   * fraction of the way, so it lies on the line through them.
   */
  lemma CenterOnSegment(left: Rect, right: Rect, percent: real)
    ensures var c := InterpolatedCenter(left, right, percent);
      && c.x - MidX(left) == percent * (MidX(right) - MidX(left))
      && c.y - MidY(left) == percent * (MidY(right) - MidY(left))
      && (c.x - MidX(left)) * (MidY(right) - MidY(left))
         == (c.y - MidY(left)) * (MidX(right) - MidX(left))
  {
  }

  /** Between the endpoints the centre stays within the two midpoints on each axis, and the size within the two sizes. */
  lemma InterpolationWithinEnds(left: Rect, right: Rect, percent: real)
    requires 0.0 <= percent <= 1.0
    ensures var c := InterpolatedCenter(left, right, percent);
      && Min(MidX(left), MidX(right)) <= c.x <= Max(MidX(left), MidX(right))
      && Min(MidY(left), MidY(right)) <= c.y <= Max(MidY(left), MidY(right))
    ensures var s := InterpolatedSize(left, right, percent);
      && Min(Width(left), Width(right)) <= s.width <= Max(Width(left), Width(right))
      && Min(Height(left), Height(right)) <= s.height <= Max(Height(left), Height(right))
      && s.width >= 0.0 && s.height >= 0.0
  {
    LerpBetween(MidX(left), MidX(right), percent);
    LerpBetween(MidY(left), MidY(right), percent);
    LerpBetween(Width(left), Width(right), percent);
    LerpBetween(Height(left), Height(right), percent);
  }

  /**
   * The guarded offset of `scroll` on one axis: centre the viewport on
   * `center`, then clamp to [0, max(0, content - viewport)].
   */
  function ClampedOffset(center: real, viewport: real, content: real): (o: real)
    ensures 0.0 <= o <= Max(0.0, content - viewport)
    ensures content <= viewport ==> o == 0.0
    ensures 0.0 <= center - viewport / 2.0 <= content - viewport ==> o == center - viewport / 2.0
  {
    Min(Max(0.0, center - viewport / 2.0), Max(0.0, content - viewport))
  }

  /**
   * The clamped offset is the admissible offset nearest to the one that would
   * centre the viewport on `center`.
   */
  lemma ClampedOffsetIsNearest(center: real, viewport: real, content: real, v: real)
    requires 0.0 <= v <= Max(0.0, content - viewport)
    ensures Abs(ClampedOffset(center, viewport, content) - (center - viewport / 2.0))
         <= Abs(v - (center - viewport / 2.0))
  {
  }

  /** The offset `scroll` requests: the clamped offset on each axis. */
  function ScrollOffset(center: Point, bounds: Size, content: Size): (p: Point)
    ensures 0.0 <= p.x <= Max(0.0, content.width - bounds.width)
    ensures 0.0 <= p.y <= Max(0.0, content.height - bounds.height)
    ensures content.width <= bounds.width ==> p.x == 0.0
    ensures content.height <= bounds.height ==> p.y == 0.0
  {
    Point(ClampedOffset(center.x, bounds.width, content.width),
          ClampedOffset(center.y, bounds.height, content.height))
  }

  /**
   * The offset the tap path requests: horizontal only, and its upper bound
   * `content - viewport` has no `max(0, ...)` guard.
   */
  function TapOffset(item: Rect, bounds: Size, content: Size): (p: Point)
    ensures p.y == 0.0
    ensures content.width >= bounds.width ==> 0.0 <= p.x <= content.width - bounds.width
    ensures content.width < bounds.width ==> p.x == content.width - bounds.width < 0.0
  {
    Point(Min(Max(0.0, MidX(item) - bounds.width / 2.0), content.width - bounds.width), 0.0)
  }

  /**
   * Horizontally the two paths agree whenever the content is at least as wide
   * as the viewport; when it is narrower, `scroll` pins the strip at 0 while a
   * tap pushes it to the negative `content - viewport`.
   */
  lemma TapOffsetVersusScrollOffset(item: Rect, bounds: Size, content: Size)
    ensures content.width >= bounds.width ==>
      TapOffset(item, bounds, content).x == ScrollOffset(Center(item), bounds, content).x
    ensures content.width < bounds.width ==>
      TapOffset(item, bounds, content).x < ScrollOffset(Center(item), bounds, content).x == 0.0
  {
  }

  /**
   * A worked case: items 100 and 120 wide at x = 280 and x = 380; half way,
   * the focus indicator is 110 wide and centred at x = 385.
   */
  lemma HalfWayFocus(left: Rect, right: Rect)
    requires left == Rect(Point(280.0, 0.0), Size(100.0, 40.0))
    requires right == Rect(Point(380.0, 0.0), Size(120.0, 40.0))
    ensures InterpolatedSize(left, right, 0.5) == Size(110.0, 40.0)
    ensures InterpolatedCenter(left, right, 0.5) == Point(385.0, 20.0)
  {
  }

  /** The same case in a 300-point viewport over 1000 points of content: the strip scrolls to x = 235. */
  lemma HalfWayOffset()
    ensures ScrollOffset(Point(385.0, 20.0), Size(300.0, 40.0), Size(1000.0, 40.0)) == Point(235.0, 0.0)
  {
  }
}
