/** `Integer.parseInt` on the text of a form field, restricted to ASCII
    digits, and its inverse `Integer.toString`. */
module JavaParse {
  import opened Wrappers
  import opened JavaInt

  predicate IsDigit(c: char) {
    '0' <= c <= '9'
  }

  predicate AllDigits(s: string) {
    forall i :: 0 <= i < |s| ==> IsDigit(s[i])
  }

  /** The value of a string of decimal digits, most significant first. */
  function DigitsValue(s: string): nat
    requires AllDigits(s)
  {
    if s == [] then 0
    else DigitsValue(s[..|s| - 1]) * 10 + (s[|s| - 1] as int - '0' as int)
  }

  /** The text after an optional leading sign. */
  function Magnitude(s: string): (m: string)
    requires |s| > 0
    ensures |m| == |s| || |m| == |s| - 1
  {
    if s[0] == '-' || s[0] == '+' then s[1..] else s
  }

  /** `Integer.parseInt(s)`: an optional `-` or `+`, then one or more
      digits, and a value that fits in an `int` (a magnitude up to
      2^31 after `-`, up to 2^31 - 1 otherwise); anything else is the
      `NumberFormatException`, here `None`. */
  function ParseInt(s: string): (r: Option<int>)
    ensures r.Some? ==> IsInt(r.value)
    ensures r.Some? ==> |s| > 0 && |Magnitude(s)| > 0 && AllDigits(Magnitude(s))
    ensures r.Some? ==> (r.value < 0 ==> s[0] == '-') && Abs(r.value) == DigitsValue(Magnitude(s))
    ensures (|s| > 0 && |Magnitude(s)| > 0 && AllDigits(Magnitude(s)) &&
             DigitsValue(Magnitude(s)) <= (if s[0] == '-' then -INT_MIN else INT_MAX)) ==> r.Some?
    ensures |s| > 0 && IsDigit(s[0]) && AllDigits(s) && DigitsValue(s) <= INT_MAX ==> r == Some(DigitsValue(s))
  {
    if |s| == 0 then None
    else
      var signed := s[0] == '-' || s[0] == '+';
      var digits := if signed then s[1..] else s;
      if |digits| == 0 || !AllDigits(digits) then None
      else
        var v: int := if s[0] == '-' then 0 - DigitsValue(digits) as int else DigitsValue(digits);
        if IsInt(v) then Some(v) else None
  }

  function DigitChar(d: nat): (c: char)
    requires d < 10
    ensures IsDigit(c) && c as int - '0' as int == d
  {
    (d + '0' as int) as char
  }

  /** The decimal digits of `n` with no leading zero; their value is `n`. */
  function NatDigits(n: nat): (s: string)
    ensures |s| > 0 && AllDigits(s)
    ensures DigitsValue(s) == n
    ensures |s| > 1 ==> s[0] != '0'
  {
    if n < 10 then [DigitChar(n)]
    else
      var s := NatDigits(n / 10) + [DigitChar(n % 10)];
      assert s[..|s| - 1] == NatDigits(n / 10);
      s
  }

  /** `Integer.toString(v)`. */
  function Show(v: int): string {
    if v < 0 then "-" + NatDigits(-v) else NatDigits(v)
  }

  /** Leading zeros dropped, keeping at least one digit. */
  function StripZeros(d: string): (m: string)
    ensures |m| <= |d| && (|d| > 0 ==> |m| > 0)
    ensures m == d[|d| - |m|..]
    ensures |m| > 1 ==> m[0] != '0'
  {
    if |d| > 1 && d[0] == '0' then StripZeros(d[1..]) else d
  }

  /** The text `Integer.toString` would give for the same number: no
      `+`, no leading zeros, and no `-` in front of zero. */
  function Canonical(s: string): string
    requires |s| > 0
  {
    var m := StripZeros(Magnitude(s));
    if s[0] == '-' && m != "0" then "-" + m else m
  }

  /** A leading zero does not change the value of a digit string. */
  lemma {:induction false} LeadingZeroValue(d: string)
    requires |d| > 0 && AllDigits(d) && d[0] == '0'
    ensures DigitsValue(d) == DigitsValue(d[1..])
  {
    if |d| > 1 {
      var init := d[..|d| - 1];
      LeadingZeroValue(init);
      assert init[1..] == d[1..][..|d| - 2];
    }
  }

  lemma {:induction false} StripZerosValue(d: string)
    requires AllDigits(d)
    ensures AllDigits(StripZeros(d)) && DigitsValue(StripZeros(d)) == DigitsValue(d)
  {
    if |d| > 1 && d[0] == '0' {
      LeadingZeroValue(d);
      StripZerosValue(d[1..]);
    }
  }

  /** A digit string without a leading zero has a positive value unless it is "0". */
  lemma {:induction false} NoLeadingZeroPositive(d: string)
    requires |d| > 0 && AllDigits(d) && d[0] != '0'
    ensures DigitsValue(d) >= 1
  {
    if |d| > 1 {
      NoLeadingZeroPositive(d[..|d| - 1]);
    }
  }

  /** The decimal text of a number is unique: a digit string without a
      leading zero is the formatter's text for its own value. */
  lemma {:induction false} DigitsUnique(d: string)
    requires |d| > 0 && AllDigits(d) && (|d| > 1 ==> d[0] != '0')
    ensures d == NatDigits(DigitsValue(d))
  {
    if |d| > 1 {
      var init := d[..|d| - 1];
      NoLeadingZeroPositive(init);
      DigitsUnique(init);
      assert d == init + [d[|d| - 1]];
    }
  }

  /** Whatever text parses, it is the formatter's text for the parsed
      value up to a `+`, leading zeros and the sign of zero; with
      `ParseShow` this fixes every result of the parser. */
  lemma ParseCanonical(s: string, v: int)
    requires ParseInt(s) == Some(v)
    ensures Canonical(s) == Show(v)
  {
    var m := StripZeros(Magnitude(s));
    StripZerosValue(Magnitude(s));
    DigitsUnique(m);
    if v >= 0 && s[0] == '-' {
      assert DigitsValue(m) == 0;
    }
  }

  /** Parsing undoes formatting on every `int`. */
  lemma ParseShow(v: int)
    requires IsInt(v)
    ensures ParseInt(Show(v)) == Some(v)
  {
  }

  /** Examples: text with a non-digit, a lone sign or nothing is not a
      number; a sign and leading zeros are accepted. */
  lemma ParseIntExamples()
    ensures ParseInt("1x") == None && ParseInt("+") == None && ParseInt("-") == None && ParseInt("") == None
    ensures ParseInt("-5") == Some(-5) && ParseInt("+5") == Some(5) && ParseInt("007") == Some(7)
  {
    assert !IsDigit('x');
    assert Magnitude("-5") == "5" && Magnitude("+5") == "5";
    assert "007"[..2] == "00" && "00"[..1] == "0";
  }

  /** The magnitude of `Integer.MIN_VALUE`, digit by digit. */
  lemma MinMagnitudeValue()
    ensures AllDigits("2147483648") && DigitsValue("2147483648") == -INT_MIN
  {
    assert "21"[..1] == "2";
    assert "214"[..2] == "21";
    assert "2147"[..3] == "214";
    assert "21474"[..4] == "2147";
    assert "214748"[..5] == "21474";
    assert "2147483"[..6] == "214748";
    assert "21474836"[..7] == "2147483";
    assert "214748364"[..8] == "21474836";
    assert "2147483648"[..9] == "214748364";
  }

  /** Zero-padded `Integer.MIN_VALUE` parses: after `-` the magnitude may
      be one more than `Integer.MAX_VALUE`, and leading zeros are allowed;
      without the `-` the same digits overflow. */
  lemma ParseIntMinPadded()
    ensures ParseInt("-02147483648") == Some(INT_MIN)
    ensures ParseInt("02147483648") == None
  {
    var d := "02147483648";
    MinMagnitudeValue();
    assert d[1..] == "2147483648";
    LeadingZeroValue(d);
    assert Magnitude("-" + d) == d && Magnitude(d) == d;
  }
}
