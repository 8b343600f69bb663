/** Validation of the form fields: a dimension must be an integer in
    [MIN_DIMENSION, MAX_DIMENSION], a colour three integers in [0, 255].
    A failed validation shows a dialog and substitutes a default; the
    dialog is modelled as the `Report` it shows. */
module Validation {
  import opened Wrappers
  import opened JavaInt
  import opened JavaParse

  const MIN_DIMENSION: int := 1
  const MAX_DIMENSION: int := 20

  /** A validated dimension, the only kind a shape is ever built from. */
  type Dim = d: int | InDimensionRange(d) witness MIN_DIMENSION

  type Channel = c: int | InChannelRange(c)

  /** `java.awt.Color` built from three in-range channels. */
  datatype Color = Color(red: Channel, green: Channel, blue: Channel)

  /** `Color.BLACK`, the substitute for an invalid colour. */
  const BLACK: Color := Color(0, 0, 0)

  /** Which message dialog a validation shows: none, the range message
      or the not-a-number message. */
  datatype Report = Quiet | OutOfRange | NotANumber

  /** A validated value and the dialog shown while obtaining it. */
  datatype Checked<T> = Checked(value: T, report: Report)

  predicate InDimensionRange(v: int) {
    MIN_DIMENSION <= v <= MAX_DIMENSION
  }

  predicate InChannelRange(v: int) {
    0 <= v <= 255
  }

  /** `getDimension`: the parsed value when it is in range and nothing
      is reported; otherwise the lower bound, with the range dialog for a
      number out of range and the number dialog for text that is not a
      number. */
  function GetDimension(text: string): (r: Checked<Dim>)
    ensures r.report == Quiet <==> ParseInt(text).Some? && InDimensionRange(ParseInt(text).value)
    ensures r.report == Quiet ==> r.value == ParseInt(text).value
    ensures r.report != Quiet ==> r.value == MIN_DIMENSION
    ensures r.report == NotANumber <==> ParseInt(text).None?
  {
    match ParseInt(text)
    case None => Checked(MIN_DIMENSION, NotANumber)
    case Some(v) =>
      if v < MIN_DIMENSION || v > MAX_DIMENSION then Checked(MIN_DIMENSION, OutOfRange)
      else Checked(v, Quiet)
  }

  /** The text of any `int` validates to that number when it is in range
      and to the lower bound, with the range dialog, when it is not. */
  lemma GetDimensionOfNumber(v: int)
    requires IsInt(v)
    ensures GetDimension(Show(v)) == if InDimensionRange(v) then Checked(v, Quiet) else Checked(MIN_DIMENSION, OutOfRange)
  {
  }

  /** Validation is idempotent: the value it produces, typed back into
      the field, is accepted silently and unchanged. */
  lemma GetDimensionIdempotent(text: string)
    ensures var d := GetDimension(text).value; GetDimension(Show(d)) == Checked(d, Quiet)
  {
  }

  /** `getColor`: all three fields are parsed first, so a field that is
      not a number yields the number dialog even when another field is
      out of range; only when all three parse are the ranges checked.
      Any failure replaces the whole colour by black. */
  function GetColor(redText: string, greenText: string, blueText: string): (r: Checked<Color>)
    ensures r.report == NotANumber <==>
      ParseInt(redText).None? || ParseInt(greenText).None? || ParseInt(blueText).None?
    ensures r.report == Quiet <==>
      ParseInt(redText).Some? && ParseInt(greenText).Some? && ParseInt(blueText).Some? &&
      InChannelRange(ParseInt(redText).value) && InChannelRange(ParseInt(greenText).value) &&
      InChannelRange(ParseInt(blueText).value)
    ensures r.report == Quiet ==>
      r.value.red == ParseInt(redText).value && r.value.green == ParseInt(greenText).value &&
      r.value.blue == ParseInt(blueText).value
    ensures r.report != Quiet ==> r.value == BLACK
  {
    match (ParseInt(redText), ParseInt(greenText), ParseInt(blueText))
    case (Some(red), Some(green), Some(blue)) =>
      if red < 0 || red > 255 || green < 0 || green > 255 || blue < 0 || blue > 255 then
        Checked(BLACK, OutOfRange)
      else
        Checked(Color(red, green, blue), Quiet)
    case _ => Checked(BLACK, NotANumber)
  }

  /** The colour is substituted as a whole, never channel by channel:
      when any one channel is invalid, the valid ones are dropped too. */
  lemma GetColorWhole(red: int, green: int, blue: int)
    requires IsInt(red) && IsInt(green) && IsInt(blue)
    requires !(InChannelRange(red) && InChannelRange(green) && InChannelRange(blue))
    ensures GetColor(Show(red), Show(green), Show(blue)) == Checked(BLACK, OutOfRange)
  {
  }

  /** Three in-range channels give exactly that colour, with no dialog. */
  lemma GetColorOfChannels(red: Channel, green: Channel, blue: Channel)
    ensures GetColor(Show(red), Show(green), Show(blue)) == Checked(Color(red, green, blue), Quiet)
  {
    assert InChannelRange(red) && InChannelRange(green) && InChannelRange(blue);
    ParseShow(red);
    ParseShow(green);
    ParseShow(blue);
  }

  /** The colour fields start out as "255", "0" and "0": full red. */
  lemma DefaultColorIsRed()
    ensures GetColor("255", "0", "0") == Checked(Color(255, 0, 0), Quiet)
  {
    assert "255" == Show(255) && "0" == Show(0);
    GetColorOfChannels(255, 0, 0);
  }

  /** Examples: "21" and zero-padded `Integer.MIN_VALUE` are out of range,
      "abc" is not a number, "20" is accepted. */
  lemma GetDimensionExamples()
    ensures GetDimension("21") == Checked(1, OutOfRange)
    ensures GetDimension("-02147483648") == Checked(1, OutOfRange)
    ensures GetDimension("abc") == Checked(1, NotANumber)
    ensures GetDimension("20") == Checked(20, Quiet)
  {
    assert "21" == Show(21) && "20" == Show(20);
    GetDimensionOfNumber(21);
    GetDimensionOfNumber(20);
    ParseIntMinPadded();
    assert !IsDigit('a');
  }

  /** Examples: (300, 0, 0) turns black as a whole; with a green field
      that is not a number the number dialog wins over the range one. */
  lemma GetColorExamples()
    ensures GetColor("300", "0", "0") == Checked(BLACK, OutOfRange)
    ensures GetColor("300", "x", "0") == Checked(BLACK, NotANumber)
  {
    assert "300" == Show(300) && "0" == Show(0);
    GetColorWhole(300, 0, 0);
    assert !IsDigit('x');
  }
}
