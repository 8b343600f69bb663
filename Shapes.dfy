/** The shape classes and their `draw` methods: each turns validated
    dimensions and the panel's size into the integer arguments of one
    `Graphics` call, centred in the panel. Both applications compute the
    same coordinates; the filled one adds a colour (see DrawerGuiApp). */
module Shapes {
  import opened JavaInt
  import opened Validation

  /** A panel extent as `getWidth()`/`getHeight()` return it. */
  type Extent = n: int | 0 <= n <= INT_MAX

  /** The `Shape` subclasses; every dimension was validated first. */
  datatype Shape =
    | Rectangle(width: Dim, height: Dim)
    | Triangle(base: Dim, height: Dim)
    | Circle(radius: Dim)
    | Polygon(sides: nat, radius: Dim)

  /** The one `Graphics` call a shape makes, with its arguments:
      `fillRect`/`drawRect`, `fillPolygon`/`drawPolygon`, `fillOval`/`drawOval`. */
  datatype Primitive =
    | Rect(x: int, y: int, w: int, h: int)
    | Poly(xPoints: seq<int>, yPoints: seq<int>, nPoints: int)
    | Oval(x: int, y: int, w: int, h: int)

  /** How truncating halving centres an extent in the panel: twice the
      midpoint of [lo, lo + extent) is the panel's extent, or one off it
      on the side of the smaller of the two (rounding toward zero). */
  predicate CentredIn(lo: int, extent: int, panel: int) {
    var twiceMid := 2 * lo + extent;
    if panel >= extent then twiceMid == panel || twiceMid == panel - 1
    else twiceMid == panel || twiceMid == panel + 1
  }

  /** [lo, lo + extent) lies inside [0, panel]. */
  predicate FitsIn(lo: int, extent: int, panel: int) {
    0 <= lo && lo + extent <= panel
  }

  /** `Rectangle.draw`: a 10·width by 10·height box, centred. The box
      starts at or right of the panel's edge exactly when the panel is at
      most one pixel narrower than the box (`-1 / 2` is `0` in Java). */
  function RectangleLayout(width: Dim, height: Dim, panelWidth: Extent, panelHeight: Extent): (p: Primitive)
    ensures p.Rect? && p.w == 10 * width && p.h == 10 * height
    ensures CentredIn(p.x, p.w, panelWidth) && CentredIn(p.y, p.h, panelHeight)
    ensures panelWidth >= p.w ==> FitsIn(p.x, p.w, panelWidth)
    ensures panelHeight >= p.h ==> FitsIn(p.y, p.h, panelHeight)
    ensures p.x >= 0 <==> panelWidth + 1 >= p.w
  {
    Rect(Half(panelWidth - width * 10), Half(panelHeight - height * 10), width * 10, height * 10)
  }

  /** `Triangle.draw`: an isosceles triangle, apex up, symmetric about
      the panel's centre line x = panelWidth / 2; the base is 10·base
      wide and the apex 10·height above it. */
  function TriangleLayout(base: Dim, height: Dim, panelWidth: Extent, panelHeight: Extent): (p: Primitive)
    ensures p.Poly? && p.nPoints == 3 && |p.xPoints| == 3 && |p.yPoints| == 3
    ensures p.xPoints[0] == Half(panelWidth)
    ensures p.xPoints[1] - p.xPoints[0] == p.xPoints[0] - p.xPoints[2] == 5 * base
    ensures p.yPoints[0] == Half(panelHeight) - 5 * height
    ensures p.yPoints[1] == p.yPoints[2] == Half(panelHeight) + 5 * height
  {
    var cx, cy := Half(panelWidth), Half(panelHeight);
    var rise := Half(height * 10);
    Poly([cx, cx + base * 5, cx - base * 5], [cy - rise, cy + rise, cy + rise], 3)
  }

  /** `Circle.draw`: the bounding box of the oval is a square of side
      20·radius, centred like the rectangle. */
  function CircleLayout(radius: Dim, panelWidth: Extent, panelHeight: Extent): (p: Primitive)
    ensures p.Oval? && p.w == p.h == 20 * radius
    ensures CentredIn(p.x, p.w, panelWidth) && CentredIn(p.y, p.h, panelHeight)
    ensures panelWidth >= p.w ==> FitsIn(p.x, p.w, panelWidth)
    ensures panelHeight >= p.h ==> FitsIn(p.y, p.h, panelHeight)
  {
    Oval(Half(panelWidth - radius * 20), Half(panelHeight - radius * 20), radius * 20, radius * 20)
  }

  /** The truncated trigonometric terms of a polygon vertex,
      `(int) (radius * 10 * Math.cos(2 * Math.PI * i / sides))` and the
      same with `Math.sin`, as a function of (radius, sides, i).
      Floating point is not modelled; the terms are a parameter. */
  type CastTrig = (int, nat, nat) -> (int, int)

  /** What holds of the real terms: cosine and sine lie in [-1, 1] and
      the cast truncates, so neither term exceeds 10·radius in
      magnitude; at i = 0 the cosine is exactly 1 and the sine exactly 0. */
  predicate TrigBounded(trig: CastTrig, radius: int, sides: nat) {
    (sides > 0 ==> trig(radius, sides, 0) == (10 * radius, 0)) &&
    forall i: nat :: i < sides ==>
      Abs(trig(radius, sides, i).0) <= 10 * radius && Abs(trig(radius, sides, i).1) <= 10 * radius
  }

  /** The vertex x coordinates `PolygonShape.draw` computes. */
  function PolygonXs(sides: nat, radius: Dim, panelWidth: Extent, trig: CastTrig): (xs: seq<int>)
    ensures |xs| == sides
  {
    seq(sides, i requires 0 <= i < sides => Half(panelWidth) + trig(radius, sides, i).0)
  }

  /** The vertex y coordinates `PolygonShape.draw` computes. */
  function PolygonYs(sides: nat, radius: Dim, panelHeight: Extent, trig: CastTrig): (ys: seq<int>)
    ensures |ys| == sides
  {
    seq(sides, i requires 0 <= i < sides => Half(panelHeight) + trig(radius, sides, i).1)
  }

  /** `PolygonShape.draw`: exactly `sides` vertices, each the panel's
      centre offset by its trigonometric terms. The guarded clauses only
      carry the bounds assumed of those terms over to the vertices: within
      10·radius of the centre on each axis, the first due east. */
  function PolygonLayout(sides: nat, radius: Dim, panelWidth: Extent, panelHeight: Extent, trig: CastTrig): (p: Primitive)
    ensures p.Poly? && p.nPoints == sides && |p.xPoints| == sides && |p.yPoints| == sides
    ensures TrigBounded(trig, radius, sides) ==>
      forall i :: 0 <= i < sides ==>
        Abs(p.xPoints[i] - Half(panelWidth)) <= 10 * radius &&
        Abs(p.yPoints[i] - Half(panelHeight)) <= 10 * radius
    ensures TrigBounded(trig, radius, sides) && sides > 0 ==>
      p.xPoints[0] == Half(panelWidth) + 10 * radius && p.yPoints[0] == Half(panelHeight)
  {
    Poly(PolygonXs(sides, radius, panelWidth, trig), PolygonYs(sides, radius, panelHeight, trig), sides)
  }

  /** The loop of `PolygonShape.draw`, filling the two arrays in place. */
  method PolygonPoints(sides: nat, radius: Dim, panelWidth: Extent, panelHeight: Extent, trig: CastTrig)
    returns (xPoints: array<int>, yPoints: array<int>)
    ensures fresh(xPoints) && fresh(yPoints)
    ensures xPoints[..] == PolygonXs(sides, radius, panelWidth, trig)
    ensures yPoints[..] == PolygonYs(sides, radius, panelHeight, trig)
  {
    xPoints := new int[sides];
    yPoints := new int[sides];
    for i := 0 to sides
      invariant forall k :: 0 <= k < i ==> xPoints[k] == Half(panelWidth) + trig(radius, sides, k).0
      invariant forall k :: 0 <= k < i ==> yPoints[k] == Half(panelHeight) + trig(radius, sides, k).1
    {
      var (dx, dy) := trig(radius, sides, i);
      xPoints[i] := Half(panelWidth) + dx;
      yPoints[i] := Half(panelHeight) + dy;
    }
  }

  /** Every coordinate of a primitive is a Java `int`. */
  predicate InIntRange(p: Primitive) {
    match p
    case Rect(x, y, w, h) => IsInt(x) && IsInt(y) && IsInt(w) && IsInt(h)
    case Oval(x, y, w, h) => IsInt(x) && IsInt(y) && IsInt(w) && IsInt(h)
    case Poly(xs, ys, n) =>
      IsInt(n) && (forall i :: 0 <= i < |xs| ==> IsInt(xs[i])) && (forall i :: 0 <= i < |ys| ==> IsInt(ys[i]))
  }

  /** The virtual `draw` dispatch: a function of the shape and the panel
      size alone (it reads no state). The primitive matches the shape's
      kind, a polygon gets one vertex per side, and no coordinate leaves
      the `int` range, so Java's wrapping arithmetic never comes into play. */
  function Layout(s: Shape, panelWidth: Extent, panelHeight: Extent, trig: CastTrig): (p: Primitive)
    ensures s.Rectangle? <==> p.Rect?
    ensures s.Circle? <==> p.Oval?
    ensures s.Triangle? ==> p.Poly? && p.nPoints == 3
    ensures s.Polygon? ==> p.Poly? && p.nPoints == |p.xPoints| == |p.yPoints| == s.sides
    ensures (s.Polygon? ==> IsInt(s.sides) && TrigBounded(trig, s.radius, s.sides)) ==> InIntRange(p)
  {
    match s
    case Rectangle(w, h) => RectangleLayout(w, h, panelWidth, panelHeight)
    case Triangle(b, h) => TriangleLayout(b, h, panelWidth, panelHeight)
    case Circle(r) => CircleLayout(r, panelWidth, panelHeight)
    case Polygon(n, r) => PolygonLayout(n, r, panelWidth, panelHeight, trig)
  }

  /** `shape.draw(g, getWidth(), getHeight())` run as the program runs
      it, the polygon's arrays filled by the loop. */
  method Render(s: Shape, panelWidth: Extent, panelHeight: Extent, trig: CastTrig) returns (p: Primitive)
    ensures p == Layout(s, panelWidth, panelHeight, trig)
  {
    match s {
      case Rectangle(w, h) => p := RectangleLayout(w, h, panelWidth, panelHeight);
      case Triangle(b, h) => p := TriangleLayout(b, h, panelWidth, panelHeight);
      case Circle(r) => p := CircleLayout(r, panelWidth, panelHeight);
      case Polygon(n, r) =>
        var xPoints, yPoints := PolygonPoints(n, r, panelWidth, panelHeight, trig);
        p := Poly(xPoints[..], yPoints[..], n);
    }
  }
}
