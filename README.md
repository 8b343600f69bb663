# Shape drawer: a Dafny model

Two small Swing programs let a user pick a shape (rectangle, triangle,
circle, or a polygon from "Pentagon" to "Decagon"), type one or two
dimensions and, in `DrawerGUI`, a fill colour, and see the shape centred
in a drawing panel. `DrawerGUI` fills the shape in the chosen colour;
`ShapeDisplayApp` draws its outline. The two files share the same
coordinate code in their shape classes (`DrawerGUI`'s `draw` methods take
a colour and call `fill*`, `ShapeDisplayApp`'s call `draw*`), the same
`getDimension` and the same Draw-button switch, so this model states that
shared logic once and gives each application its own class.

Modules, one per file:

- `JavaInt`: Java's `int` range and its truncating `/ 2` (`Half`), which
  differs from Dafny's Euclidean `/` on odd negative numbers. The layout
  code halves `panelWidth - width * 10`, which is negative on a small panel.
- `JavaParse`: `Integer.parseInt` (sign, ASCII digits, `int` range) and
  its inverse `Integer.toString`, with the round trip proved.
- `Validation`: `getDimension` (an integer in [1, 20], else 1) and
  `getColor` (three channels in [0, 255], else black as a whole). The
  message dialog a failure shows is returned as a `Report`.
- `Shapes`: the shape variants and their `draw` methods. Each one gives
  the arguments of the single `Graphics` call it makes (a `Primitive`).
  The polygon's vertex loop fills two arrays in place.
- `Selection`: the Draw handler's `switch` on the combo box's name and
  index, including the side count `index + 3`.
- `DrawerGuiApp`, `ShapeDisplay`: each application's mutable `shape`
  field, its Draw handler and its paint.

## Model

| member | source | states |
|---|---|---|
| `JavaInt.Half` | DrawerGUI.java:21 | Java's `a / 2`: the remainder `a - 2h` is 0 or 1 for `a >= 0` and 0 or -1 for `a < 0` (rounding toward zero) |
| `JavaInt.HalfVersusEuclidean` | DrawerGUI.java:21-22 | the truncating half equals Dafny's `a / 2` except on odd negative `a`, where it is one larger |
| `JavaParse.ParseInt` | DrawerGUI.java:262 | success only on an optional sign followed by one or more digits; the result is an `int` whose magnitude is the digits' value, negative only after `-`; digits after an optional sign always parse when their value fits, which is up to 2^31 after `-` (so zero-padded `Integer.MIN_VALUE` parses) and up to 2^31 - 1 otherwise |
| `JavaParse.NatDigits` | DrawerGUI.java:262 | the reference formatter (`Integer.toString`, which the source does not call) that the parse round trips are stated against: the digits of `n` are non-empty, without a leading zero, and their value is `n` |
| `JavaParse.DigitsUnique` | DrawerGUI.java:262 | a digit string without a leading zero is exactly the reference formatter's text for its value |
| `JavaParse.ParseCanonical` | DrawerGUI.java:262 | any text that parses to v is the formatter's text for v once a `+`, leading zeros and the sign of zero are dropped; with `ParseShow` this fixes every parse result |
| `JavaParse.ParseIntExamples` | DrawerGUI.java:262 | "1x", "+", "-" and "" are not numbers; "-5" gives -5, "+5" gives 5, "007" gives 7 |
| `JavaParse.ParseIntMinPadded` | DrawerGUI.java:262 | "-02147483648" parses to `Integer.MIN_VALUE`; "02147483648" overflows and is not a number |
| `JavaParse.ParseShow` | DrawerGUI.java:262 | parsing the text of any `int` gives back that `int` |
| `Validation.GetDimension` | DrawerGUI.java:260-272 | no dialog iff the text parses to a value in [1, 20], which is then returned; otherwise 1 is returned; the number dialog iff the text does not parse (the same code is at ShapeDisplayApp.java:222-234) |
| `Validation.GetDimensionOfNumber` | DrawerGUI.java:263-267 | the text of any `int` v validates to v with no dialog when 1 <= v <= 20, else to 1 with the range dialog |
| `Validation.GetDimensionIdempotent` | DrawerGUI.java:260-272 | the value validation produces, typed back in, is accepted silently and unchanged |
| `Validation.GetDimensionExamples` | DrawerGUI.java:260-272 | "21" and "-02147483648" give 1 with the range dialog, "abc" gives 1 with the number dialog, "20" gives 20 silently |
| `Validation.GetColor` | DrawerGUI.java:274-289 | the number dialog iff some field does not parse; no dialog iff all three parse into [0, 255], and then the colour is exactly those channels; on any failure the colour is black |
| `Validation.GetColorWhole` | DrawerGUI.java:280-283 | when any one channel is out of range the whole colour is black, the valid channels dropped too |
| `Validation.GetColorOfChannels` | DrawerGUI.java:284 | three in-range channels, as text, give exactly that colour with no dialog |
| `Validation.DefaultColorIsRed` | DrawerGUI.java:152-172 | the colour fields' initial texts "255", "0", "0" give full red, silently |
| `Validation.GetColorExamples` | DrawerGUI.java:276-287 | (300, 0, 0) gives black with the range dialog; ("300", "x", "0") gives black with the number dialog, because all fields are parsed before any range check |
| `Shapes.RectangleLayout` | DrawerGUI.java:20-25 | the box is 10·width by 10·height; its doubled midpoint is the panel extent or one off it toward zero; it fits in a panel at least as large; it starts at x >= 0 iff the panel is at most one pixel narrower than the box (same code at ShapeDisplayApp.java:20-23) |
| `Shapes.TriangleLayout` | DrawerGUI.java:38-51 | three vertices; apex at x = W/2, base corners at apex x ± 5·base (symmetric); apex y = H/2 − 5·height, both base corners at y = H/2 + 5·height (same code at ShapeDisplayApp.java:37-49) |
| `Shapes.CircleLayout` | DrawerGUI.java:62-67 | the oval's bounding box is a square of side 20·radius, centred like the rectangle and inside a panel large enough (same code at ShapeDisplayApp.java:60-64) |
| `Shapes.PolygonLayout` | DrawerGUI.java:80-89 | exactly `sides` vertices, each the panel centre plus its trigonometric terms; the bounds assumed of those terms carry over to the vertices (within 10·radius of the centre on each axis, the first due east) (same code at ShapeDisplayApp.java:77-85) |
| `Shapes.PolygonPoints` | DrawerGUI.java:81-86 | the loop allocates fresh arrays of length `sides` and fills entry i with the centre plus the i-th trigonometric term, i.e. the arrays equal the vertex sequences of `PolygonLayout` |
| `Shapes.Layout` | DrawerGUI.java:6-8 | the primitive's kind matches the shape's, a polygon gets one vertex per side, and every coordinate is a Java `int`, so no arithmetic wraps; the function reads no state, so equal (shape, width, height) give equal coordinates |
| `Shapes.Render` | DrawerGUI.java:191 | running a shape's `draw`, loop included, yields exactly `Layout` of the shape and panel size |
| `Selection.Select` | DrawerGUI.java:231-253 | no shape iff the name is not in the list; the shape kind follows the name; dimension 1 is width, base or radius; dimension 2 is the rectangle's or triangle's height; a polygon has `index + 3` sides (same code at ShapeDisplayApp.java:193-215) |
| `Selection.SelectIgnoresDim2` | DrawerGUI.java:228-240 | for every name other than Rectangle and Triangle, the second (still validated) dimension does not affect the shape |
| `Selection.ComboSelection` | DrawerGUI.java:120 | each combo entry at its own index yields a shape; polygon entries yield `index + 3` sides, between 6 and 11, one more than the name says |
| `Selection.PentagonDrawnWithSixSides` | DrawerGUI.java:247 | "Pentagon", index 3, gives a six-sided polygon and a six-vertex primitive, though the name means five |
| `Selection.SelectIntended` | DrawerGUI.java:247 | the corrected switch: a polygon gets the number of sides its name says, 5 to 10 |
| `Selection.SelectIntendedMatchesName` | DrawerGUI.java:241-248 | on each combo entry the corrected switch gives `index + 2` sides, the one as written exactly one more, and the two agree on all other entries |
| `DrawerGuiApp.DrawerGui.constructor` | DrawerGUI.java:101 | a new window has no shape |
| `DrawerGuiApp.DrawerGui.Draw` | DrawerGUI.java:224-257 | both dimension fields are validated, each returning its own dialog; the shape is replaced wholesale by the selection of the validated values |
| `DrawerGuiApp.DrawerGui.Paint` | DrawerGUI.java:186-193 | with no shape nothing is drawn and no colour dialog appears; otherwise the figure is the shape's layout for the panel size, filled in the validated colour, with the colour's dialog |
| `ShapeDisplay.ShapeDisplayApp.constructor` | ShapeDisplayApp.java:94 | a new window has no shape |
| `ShapeDisplay.ShapeDisplayApp.Draw` | ShapeDisplayApp.java:186-219 | both dimension fields are validated; the shape is replaced wholesale by the selection of the validated values |
| `ShapeDisplay.ShapeDisplayApp.Paint` | ShapeDisplayApp.java:148-156 | the outline drawn is the shape's layout for the panel size, and nothing is drawn when there is no shape |

## Findings

| source | as written | input that shows it | evidently intended | confidence | as-written member | corrected member |
|---|---|---|---|---|---|---|
| DrawerGUI.java:247 | `sides = getSelectedIndex() + 3` | "Pentagon" at index 3 gives 6 sides; "Decagon" at index 8 gives 11 | `index + 2`, the side count the name says, as the comment on the same line claims | high; not executed | `Selection.PentagonDrawnWithSixSides` | `Selection.SelectIntended` |
| ShapeDisplayApp.java:209 | `sides = getSelectedIndex() + 3` | "Pentagon" at index 3 gives 6 sides | `index + 2`, as the comment on the same line claims | high; not executed | `Selection.PentagonDrawnWithSixSides` | `Selection.SelectIntended` |

The two application classes call `Select`, the code as written, because
they model what the programs do. `SelectIntended` is the corrected
switch, and `SelectIntendedMatchesName` relates the two.

## Left out

- Swing and AWT plumbing: frame and panel construction, the GridBag
  layout, labels and text fields, the Next and Exit buttons,
  `System.exit`, `invokeLater`, and when `repaint` runs. Text fields enter
  the model as the strings `Draw` and `Paint` receive. The panel size
  enters as the `Extent` arguments.
- The `Graphics` calls (`fillRect`, `drawPolygon`, `fillOval`,
  `setColor`, ...). The model returns the call's arguments as a
  `Primitive` instead.
- `JOptionPane` dialogs. They are the returned `Report`, which says which
  of the two messages is shown.
- `Shapes.PolygonLayout`: the per-vertex terms
  `(int) (radius * 10 * Math.cos(...))` and the `sin` term are
  double-precision trigonometry. They are the `CastTrig` parameter. The
  model assumes only their bound (at most 10·radius) and their exact
  value at i = 0, so it does not prove that the vertices are equidistant
  from the centre.
- `JavaParse.ParseInt`: `Integer.parseInt` also accepts non-ASCII
  Unicode digits. The model accepts only '0' to '9'.
- Java `int` wrap-around is not modelled. It cannot happen here: panel
  extents are non-negative `int`s and dimensions are at most 20.
  `Shapes.Layout` proves every coordinate stays in range.
- The selected index is a `nat`. `getSelectedIndex()` is -1 only when
  nothing is selected. Then `getSelectedItem()` is `null`, and the
  `switch` on it throws `NullPointerException`. That path is not modelled.
- `DrawerGuiApp.DrawerGui.Paint` validates the colour on every paint, as
  the code does. Whether repeated dialogs trigger further repaints is
  Swing behaviour outside the model.
- The polygon names mean 5 to 10 sides; the code gives 6 to 11 (see
  Findings). The model follows the code.
