/** The filled-shape application: its `shape` field, the Draw button's
    handler that overwrites it, and the drawing panel's paint, which reads
    the colour fields each time it paints. */
module DrawerGuiApp {
  import opened Wrappers
  import opened Validation
  import opened Shapes
  import opened Selection

  /** What one paint puts on the panel: the primitive, filled in a colour. */
  datatype Painted = Painted(figure: Primitive, color: Color)

  class DrawerGui {
    /** The current shape; `None` is Java's `null`. */
    var shape: Option<Shape>

    /** A new window has no shape yet. */
    constructor ()
      ensures shape == None
    {
      shape := None;
    }

    /** The Draw button: validates both dimension fields (each may show
        its dialog, in order, even when the second is unused), then
        replaces the shape wholesale by the selection's. */
    method Draw(name: string, index: nat, dimension1Text: string, dimension2Text: string)
      returns (report1: Report, report2: Report)
      modifies this
      ensures shape == Select(name, index, GetDimension(dimension1Text).value, GetDimension(dimension2Text).value)
      ensures report1 == GetDimension(dimension1Text).report
      ensures report2 == GetDimension(dimension2Text).report
    {
      var dim1 := GetDimension(dimension1Text);
      var dim2 := GetDimension(dimension2Text);
      shape := Select(name, index, dim1.value, dim2.value);
      report1, report2 := dim1.report, dim2.report;
    }

    /** `paintComponent`: with no shape nothing is drawn and the colour
        fields are not even read; otherwise the shape is laid out for the
        panel's current size and filled in the validated colour. */
    method Paint(panelWidth: Extent, panelHeight: Extent, redText: string, greenText: string, blueText: string,
                 trig: CastTrig)
      returns (painted: Option<Painted>, report: Report)
      ensures painted.None? <==> shape.None?
      ensures shape.None? ==> report == Quiet
      ensures shape.Some? ==>
        painted.value.figure == Layout(shape.value, panelWidth, panelHeight, trig) &&
        painted.value.color == GetColor(redText, greenText, blueText).value &&
        report == GetColor(redText, greenText, blueText).report
    {
      if shape.None? {
        painted, report := None, Quiet;
      } else {
        var color := GetColor(redText, greenText, blueText);
        var figure := Render(shape.value, panelWidth, panelHeight, trig);
        painted, report := Some(Painted(figure, color.value)), color.report;
      }
    }
  }
}
