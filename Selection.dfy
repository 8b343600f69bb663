/** The switch of the Draw button's handler: the combo box's selected name
    picks the shape kind, its selected index the polygon's side count. */
module Selection {
  import opened Wrappers
  import opened Validation
  import opened Shapes

  /** The combo box's entries, in order. */
  const SHAPE_NAMES: seq<string> :=
    ["Rectangle", "Triangle", "Circle", "Pentagon", "Hexagon", "Heptagon", "Octagon", "Nonagon", "Decagon"]

  predicate IsPolygonName(name: string) {
    name == "Pentagon" || name == "Hexagon" || name == "Heptagon" ||
    name == "Octagon" || name == "Nonagon" || name == "Decagon"
  }

  /** The number of sides a polygon's name stands for. */
  function NamedSides(name: string): (n: nat)
    requires IsPolygonName(name)
    ensures 5 <= n <= 10
  {
    match name
    case "Pentagon" => 5
    case "Hexagon" => 6
    case "Heptagon" => 7
    case "Octagon" => 8
    case "Nonagon" => 9
    case "Decagon" => 10
  }

  /** The handler's switch as written: both dimensions have been
      validated already; the polygon gets `getSelectedIndex() + 3` sides;
      a name outside the list leaves no shape. */
  function Select(name: string, index: nat, dim1: Dim, dim2: Dim): (s: Option<Shape>)
    ensures s.None? <==> name !in SHAPE_NAMES
    ensures s.Some? ==> (s.value.Rectangle? <==> name == "Rectangle")
    ensures s.Some? ==> (s.value.Triangle? <==> name == "Triangle")
    ensures s.Some? ==> (s.value.Circle? <==> name == "Circle")
    ensures s.Some? ==> (s.value.Polygon? <==> IsPolygonName(name))
    ensures s.Some? && s.value.Polygon? ==> s.value.sides == index + 3 && s.value.radius == dim1
    ensures s.Some? && s.value.Circle? ==> s.value.radius == dim1
    ensures s.Some? && s.value.Rectangle? ==> s.value.width == dim1 && s.value.height == dim2
    ensures s.Some? && s.value.Triangle? ==> s.value.base == dim1 && s.value.height == dim2
  {
    match name
    case "Rectangle" => Some(Rectangle(dim1, dim2))
    case "Triangle" => Some(Triangle(dim1, dim2))
    case "Circle" => Some(Circle(dim1))
    case _ =>
      if IsPolygonName(name) then Some(Polygon(index + 3, dim1))
      else None
  }

  /** Only the rectangle and the triangle use the second dimension; for
      every other name it makes no difference (it is still validated). */
  lemma SelectIgnoresDim2(name: string, index: nat, dim1: Dim, dim2: Dim, other: Dim)
    requires name != "Rectangle" && name != "Triangle"
    ensures Select(name, index, dim1, dim2) == Select(name, index, dim1, other)
  {
  }

  /** What the combo box can actually select: entry `i` at index `i`
      always yields a shape, and a polygon entry yields `i + 3` sides,
      so the side counts offered are 6 to 11 and never 5. */
  lemma ComboSelection(i: nat, dim1: Dim, dim2: Dim)
    requires i < |SHAPE_NAMES|
    ensures Select(SHAPE_NAMES[i], i, dim1, dim2).Some?
    ensures i >= 3 ==> Select(SHAPE_NAMES[i], i, dim1, dim2) == Some(Polygon(i + 3, dim1))
    ensures i >= 3 ==> 6 <= i + 3 <= 11
    ensures i >= 3 ==> i + 3 == NamedSides(SHAPE_NAMES[i]) + 1
  {
  }

  /** The code as written draws a "Pentagon" with six sides, though the
      comment beside it says index 3 means five: the panel then paints a
      polygon of six vertices. */
  lemma PentagonDrawnWithSixSides(dim1: Dim, dim2: Dim, panelWidth: Extent, panelHeight: Extent, trig: CastTrig)
    ensures SHAPE_NAMES[3] == "Pentagon" && NamedSides("Pentagon") == 5
    ensures Select("Pentagon", 3, dim1, dim2) == Some(Polygon(6, dim1))
    ensures var p := Layout(Select("Pentagon", 3, dim1, dim2).value, panelWidth, panelHeight, trig);
      p.nPoints == |p.xPoints| == |p.yPoints| == 6
  {
  }

  /** The switch as intended: a polygon gets the number of sides its
      name says (index 3, the pentagon, five). */
  function SelectIntended(name: string, dim1: Dim, dim2: Dim): (s: Option<Shape>)
    ensures s.None? <==> name !in SHAPE_NAMES
    ensures s.Some? ==> (s.value.Polygon? <==> IsPolygonName(name))
    ensures s.Some? && s.value.Polygon? ==> s.value.sides == NamedSides(name) && 5 <= s.value.sides <= 10
  {
    match name
    case "Rectangle" => Some(Rectangle(dim1, dim2))
    case "Triangle" => Some(Triangle(dim1, dim2))
    case "Circle" => Some(Circle(dim1))
    case _ =>
      if IsPolygonName(name) then Some(Polygon(NamedSides(name), dim1))
      else None
  }

  /** On every entry of the combo box the intended switch gives index + 2
      sides, the one as written one more, and otherwise the two agree. */
  lemma SelectIntendedMatchesName(i: nat, dim1: Dim, dim2: Dim)
    requires i < |SHAPE_NAMES|
    ensures i >= 3 ==> SelectIntended(SHAPE_NAMES[i], dim1, dim2) == Some(Polygon(i + 2, dim1))
    ensures i >= 3 ==> Select(SHAPE_NAMES[i], i, dim1, dim2).value.sides == SelectIntended(SHAPE_NAMES[i], dim1, dim2).value.sides + 1
    ensures i < 3 ==> SelectIntended(SHAPE_NAMES[i], dim1, dim2) == Select(SHAPE_NAMES[i], i, dim1, dim2)
  {
  }
}
