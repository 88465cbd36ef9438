/** The English (C locale) `strftime` directives the notifier uses: `%A` (full weekday name)
    and `%B %d, %Y` (full month name, zero-padded day, year), together with a parser that
    reads a formatted date back. */
module DateFormat {
  import opened Wrappers
  import opened CivilDate

  /** `%B` */
  function MonthName(m: int): string
    requires 1 <= m <= 12
  {
    if m == 1 then "January" else if m == 2 then "February" else if m == 3 then "March"
    else if m == 4 then "April" else if m == 5 then "May" else if m == 6 then "June"
    else if m == 7 then "July" else if m == 8 then "August" else if m == 9 then "September"
    else if m == 10 then "October" else if m == 11 then "November" else "December"
  }

  /** `%A`, indexed by `Weekday` (Monday is 0). */
  function DayName(w: int): string
    requires 0 <= w < 7
  {
    if w == 0 then "Monday" else if w == 1 then "Tuesday" else if w == 2 then "Wednesday"
    else if w == 3 then "Thursday" else if w == 4 then "Friday" else if w == 5 then "Saturday"
    else "Sunday"
  }

  predicate IsDigit(c: char) {
    '0' <= c <= '9'
  }

  function DigitChar(n: int): (c: char)
    requires 0 <= n < 10
    ensures IsDigit(c) && DigitValue(c) == n
  {
    (('0' as int) + n) as char
  }

  function DigitValue(c: char): (n: int)
    requires IsDigit(c)
    ensures 0 <= n < 10
  {
    (c as int) - ('0' as int)
  }

  /** `%d`: the day as two decimal digits, zero-padded. */
  function Pad2(n: int): (s: string)
    requires 0 <= n < 100
    ensures |s| == 2 && IsDigit(s[0]) && IsDigit(s[1])
    ensures 10 * DigitValue(s[0]) + DigitValue(s[1]) == n
  {
    [DigitChar(n / 10), DigitChar(n % 10)]
  }

  /** `%Y`: the year as four decimal digits, zero-padded. */
  function Pad4(n: int): (s: string)
    requires 0 <= n < 10000
    ensures |s| == 4 && forall i :: 0 <= i < 4 ==> IsDigit(s[i])
    ensures 1000 * DigitValue(s[0]) + 100 * DigitValue(s[1]) + 10 * DigitValue(s[2]) + DigitValue(s[3]) == n
  {
    Pad2(n / 100) + Pad2(n % 100)
  }

  /** `date.strftime('%B %d, %Y')`, e.g. "January 05, 2025". */
  function FormatDate(d: Date): string
    requires Valid(d)
  {
    MonthName(d.month) + " " + Pad2(d.day) + ", " + Pad4(d.year)
  }

  // ---------------------------------------------------------------------------
  // Reading a formatted date back

  function MonthNumber(name: string): Option<int> {
    if name == "January" then Some(1) else if name == "February" then Some(2)
    else if name == "March" then Some(3) else if name == "April" then Some(4)
    else if name == "May" then Some(5) else if name == "June" then Some(6)
    else if name == "July" then Some(7) else if name == "August" then Some(8)
    else if name == "September" then Some(9) else if name == "October" then Some(10)
    else if name == "November" then Some(11) else if name == "December" then Some(12)
    else None
  }

  /** The weekday number a `%A` name stands for. */
  function DayNumber(name: string): Option<int> {
    if name == "Monday" then Some(0) else if name == "Tuesday" then Some(1)
    else if name == "Wednesday" then Some(2) else if name == "Thursday" then Some(3)
    else if name == "Friday" then Some(4) else if name == "Saturday" then Some(5)
    else if name == "Sunday" then Some(6)
    else None
  }

  /** The value of a string of decimal digits, most significant first. */
  function DigitsValue(s: string): (n: int)
    requires forall i :: 0 <= i < |s| ==> IsDigit(s[i])
    ensures n >= 0
  {
    if |s| == 0 then 0 else 10 * DigitsValue(s[..|s| - 1]) + DigitValue(s[|s| - 1])
  }

  function ParseNumber(s: string): Option<int> {
    if |s| > 0 && forall i :: 0 <= i < |s| ==> IsDigit(s[i]) then Some(DigitsValue(s)) else None
  }

  /** Reads "<Month> <DD>, <YYYY>"; None unless the text is exactly that shape and names a
      valid date. */
  function ParseDate(s: string): (r: Option<Date>)
    ensures r.Some? ==> Valid(r.value)
  {
    if |s| < 9 then None
    else
      var n := |s|;
      if s[n - 9] != ' ' || s[n - 6..n - 4] != ", " then None
      else match (MonthNumber(s[..n - 9]), ParseNumber(s[n - 8..n - 6]), ParseNumber(s[n - 4..]))
        case (Some(m), Some(day), Some(y)) =>
          if Valid(Date(y, m, day)) then Some(Date(y, m, day)) else None
        case _ => None
  }

  // ---------------------------------------------------------------------------
  // Properties

  lemma MonthNameRoundTrip(m: int)
    requires 1 <= m <= 12
    ensures MonthNumber(MonthName(m)) == Some(m)
  {
  }

  /** `%A` loses nothing: each weekday name reads back as its weekday number. */
  lemma DayNameRoundTrip(w: int)
    requires 0 <= w < 7
    ensures DayNumber(DayName(w)) == Some(w)
  {
  }

  /** Distinct weekdays have distinct `%A` names. */
  lemma DayNameInjective(a: int, b: int)
    requires 0 <= a < 7 && 0 <= b < 7
    requires DayName(a) == DayName(b)
    ensures a == b
  {
    DayNameRoundTrip(a);
    DayNameRoundTrip(b);
  }

  lemma Pad2Value(n: int)
    requires 0 <= n < 100
    ensures ParseNumber(Pad2(n)) == Some(n)
  {
    var s := Pad2(n);
    assert DigitsValue(s[..1]) == DigitValue(s[0]) by {
      assert s[..1][..0] == [];
    }
    assert DigitsValue(s) == 10 * DigitsValue(s[..1]) + DigitValue(s[1]);
  }

  lemma Pad4Value(n: int)
    requires 0 <= n < 10000
    ensures ParseNumber(Pad4(n)) == Some(n)
  {
    var s := Pad4(n);
    assert DigitsValue(s[..1]) == DigitValue(s[0]) by {
      assert s[..1][..0] == [];
    }
    assert DigitsValue(s[..2]) == 10 * DigitValue(s[0]) + DigitValue(s[1]) by {
      assert s[..2][..1] == s[..1];
    }
    assert DigitsValue(s[..3]) == 100 * DigitValue(s[0]) + 10 * DigitValue(s[1]) + DigitValue(s[2]) by {
      assert s[..3][..2] == s[..2];
    }
    assert DigitsValue(s) == 10 * DigitsValue(s[..3]) + DigitValue(s[3]);
  }

  /** `%B %d, %Y` loses nothing: the formatted text determines the date. */
  lemma ParseFormatRoundTrip(d: Date)
    requires Valid(d)
    ensures ParseDate(FormatDate(d)) == Some(d)
  {
    var s := FormatDate(d);
    var name := MonthName(d.month);
    var n := |s|;
    assert n == |name| + 9;
    assert s[..n - 9] == name;
    assert s[n - 8..n - 6] == Pad2(d.day);
    assert s[n - 6..n - 4] == ", ";
    assert s[n - 4..] == Pad4(d.year);
    MonthNameRoundTrip(d.month);
    Pad2Value(d.day);
    Pad4Value(d.year);
  }

  lemma FormatDateInjective(a: Date, b: Date)
    requires Valid(a) && Valid(b)
    requires FormatDate(a) == FormatDate(b)
    ensures a == b
  {
    ParseFormatRoundTrip(a);
    ParseFormatRoundTrip(b);
  }

  /** A formatted date never contains a hyphen, so " - " separates the two halves of a
      week-range key unambiguously. */
  lemma FormatDateHasNoHyphen(d: Date)
    requires Valid(d)
    ensures '-' !in FormatDate(d)
  {
    MonthNameHasNoHyphen(d.month);
    DigitsHaveNoHyphen(Pad2(d.day));
    DigitsHaveNoHyphen(Pad4(d.year));
  }

  lemma MonthNameHasNoHyphen(m: int)
    requires 1 <= m <= 12
    ensures '-' !in MonthName(m)
  {
  }

  lemma DigitsHaveNoHyphen(s: string)
    requires forall i :: 0 <= i < |s| ==> IsDigit(s[i])
    ensures '-' !in s
  {
  }
}
