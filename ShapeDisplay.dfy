/** The outline application: the same `shape` field and Draw handler as
    the filled one, without colour fields; its panel draws outlines in
    the panel's default colour. */
module ShapeDisplay {
  import opened Wrappers
  import opened Validation
  import opened Shapes
  import opened Selection

  class ShapeDisplayApp {
    /** The current shape; `None` is Java's `null`. */
    var shape: Option<Shape>

    /** A new window has no shape yet. */
    constructor ()
      ensures shape == None
    {
      shape := None;
    }

    /** The Draw button: validates both dimension fields, then replaces
        the shape wholesale by the selection's. */
    method Draw(name: string, index: nat, dimension1Text: string, dimension2Text: string)
      returns (report1: Report, report2: Report)
      modifies this
      ensures shape == Select(name, index, GetDimension(dimension1Text).value, GetDimension(dimension2Text).value)
      ensures report1 == GetDimension(dimension1Text).report
      ensures report2 == GetDimension(dimension2Text).report
    {
      var dim1 := GetDimension(dimension1Text);
      var dim2 := GetDimension(dimension2Text);
      shape := Select(name, index, dim1.value, dim2.value);
      report1, report2 := dim1.report, dim2.report;
    }

    /** `paintComponent`: the outline of the current shape laid out for
        the panel's size, or nothing when there is no shape. */
    method Paint(panelWidth: Extent, panelHeight: Extent, trig: CastTrig) returns (outline: Option<Primitive>)
      ensures outline.None? <==> shape.None?
      ensures shape.Some? ==> outline.value == Layout(shape.value, panelWidth, panelHeight, trig)
    {
      if shape.None? {
        outline := None;
      } else {
        var figure := Render(shape.value, panelWidth, panelHeight, trig);
        outline := Some(figure);
      }
    }
  }
}
