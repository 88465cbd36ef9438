/** The week-range key under which a week's meal plan is stored: the Monday-to-Sunday span
    containing a date, written "<Month DD, YYYY> - <Month DD, YYYY>". */
module WeekKey {
  import opened Wrappers
  import opened CivilDate
  import opened DateFormat
  import opened Text

  /** The text of the OverflowError Python raises when date arithmetic leaves 0001..9999. */
  const OutOfRange: string := "date value out of range"

  /** `date - timedelta(days=date.weekday())`: the Monday on or before `d`. It always exists,
      because 0001-01-01 is itself a Monday. */
  function WeekStart(d: Date): (s: Date)
    requires Valid(d)
    ensures Valid(s)
    ensures Weekday(s) == 0
    ensures Ordinal(d) - Ordinal(s) == Weekday(d)
  {
    OrdinalBounds(d);
    MondayArithmetic(Ordinal(d));
    var s := SubtractDays(d, Weekday(d)).value;
    MondayOnOrBefore(d, s);
    s
  }

  /** `get_week_range(date)`: the Monday and the Sunday six days later, each formatted with
      `%B %d, %Y` and joined by " - ". Adding the six days overflows in the last week of
      9999, which Python reports as an OverflowError. */
  function WeekRange(d: Date): (r: Result<string, string>)
    requires Valid(d)
    ensures r.Success? <==> Ordinal(WeekStart(d)) + 6 <= MaxOrdinal
    ensures r.Failure? ==> r.error == OutOfRange
  {
    var start := WeekStart(d);
    match AddDays(start, 6)
    case None => Failure(OutOfRange)
    case Some(end) => Success(FormatDate(start) + " - " + FormatDate(end))
  }

  /** Two dates lie in the same Monday-to-Sunday week: weeks are numbered from the week of
      0001-01-01, which begins on a Monday. */
  predicate SameWeek(a: Date, b: Date)
    requires Valid(a) && Valid(b)
  {
    (Ordinal(a) - 1) / 7 == (Ordinal(b) - 1) / 7
  }

  /** Reads a week-range key back into its Monday and Sunday. */
  function ParseWeekKey(key: string): (r: Option<(Date, Date)>)
    ensures r.Some? ==> Valid(r.value.0) && Valid(r.value.1)
  {
    var halves := Split(key, '-');
    if |halves| == 2 && |halves[0]| >= 1 && halves[0][|halves[0]| - 1] == ' '
      && |halves[1]| >= 1 && halves[1][0] == ' '
    then
      match (ParseDate(halves[0][..|halves[0]| - 1]), ParseDate(halves[1][1..]))
      case (Some(start), Some(end)) => Some((start, end))
      case _ => None
    else None
  }

  // ---------------------------------------------------------------------------
  // Properties

  /** Day-number arithmetic behind the week start: stepping back by the weekday lands on
      day 1 of a block of seven, which is a Monday. */
  lemma MondayArithmetic(o: int)
    requires o >= 1
    ensures o - (o + 6) % 7 >= 1
    ensures o - (o + 6) % 7 == 7 * ((o - 1) / 7) + 1
    ensures (o - (o + 6) % 7 + 6) % 7 == 0
  {
  }

  lemma MondayOnOrBefore(d: Date, s: Date)
    requires Valid(d) && Valid(s)
    requires Ordinal(s) == Ordinal(d) - Weekday(d)
    ensures Weekday(s) == 0
  {
    OrdinalBounds(d);
    MondayArithmetic(Ordinal(d));
  }

  /** From a Monday, `j` days later is weekday `j`. */
  lemma WeekdayArithmetic(o: int, j: int)
    requires (o + 6) % 7 == 0 && 0 <= j < 7
    ensures (o + j + 6) % 7 == j
  {
  }

  lemma DaysAfterMonday(monday: Date, e: Date, j: int)
    requires Valid(monday) && Valid(e) && Weekday(monday) == 0
    requires 0 <= j < 7 && Ordinal(e) == Ordinal(monday) + j
    ensures Weekday(e) == j
  {
    WeekdayArithmetic(Ordinal(monday), j);
  }

  lemma WeekStartOrdinal(d: Date)
    requires Valid(d)
    ensures Ordinal(WeekStart(d)) == 7 * ((Ordinal(d) - 1) / 7) + 1
  {
    MondayOrdinal(d, WeekStart(d));
  }

  lemma MondayOrdinal(d: Date, s: Date)
    requires Valid(d) && Valid(s)
    requires Ordinal(d) - Ordinal(s) == Weekday(d)
    ensures Ordinal(s) == 7 * ((Ordinal(d) - 1) / 7) + 1
  {
    OrdinalBounds(d);
    MondayArithmetic(Ordinal(d));
  }

  /** The key is the Monday's date and the date six days later, whatever month or year
      boundary lies between them. */
  lemma WeekRangeKey(d: Date, end: Date)
    requires Valid(d) && Valid(end)
    requires Ordinal(end) == Ordinal(WeekStart(d)) + 6
    ensures Weekday(end) == 6
    ensures WeekRange(d) == Success(FormatDate(WeekStart(d)) + " - " + FormatDate(end))
  {
    OrdinalBounds(end);
    AddDaysIsOrdinalShift(WeekStart(d), 6, end);
    DaysAfterMonday(WeekStart(d), end, 6);
  }

  /** The range fails exactly for the five days whose Sunday would fall in year 10000. */
  lemma WeekRangeFailsInLastWeek(d: Date)
    requires Valid(d)
    ensures WeekRange(d).Failure? <==> d.year == MaxYear && d.month == 12 && d.day >= 27
  {
    WeekStartOrdinal(d);
    SundayOverflows(d, WeekStart(d));
  }

  lemma SundayOverflows(d: Date, s: Date)
    requires Valid(d) && Valid(s)
    requires Ordinal(s) == 7 * ((Ordinal(d) - 1) / 7) + 1
    ensures Ordinal(s) + 6 > MaxOrdinal <==> d.year == MaxYear && d.month == 12 && d.day >= 27
  {
    OrdinalBounds(d);
    LastWeekArithmetic(Ordinal(d), Ordinal(s));
    LastFiveDays(d);
  }

  lemma LastWeekArithmetic(o: int, monday: int)
    requires 1 <= o <= MaxOrdinal
    requires monday == 7 * ((o - 1) / 7) + 1
    ensures monday + 6 > MaxOrdinal <==> o >= MaxOrdinal - 4
  {
  }

  /** Dec 27 to Dec 31 of 9999 are the dates with the five largest ordinals. */
  lemma LastFiveDays(d: Date)
    requires Valid(d)
    ensures Ordinal(d) >= MaxOrdinal - 4 <==> d.year == MaxYear && d.month == 12 && d.day >= 27
  {
    var monday := Date(MaxYear, 12, 27);
    assert Ordinal(monday) == MaxOrdinal - 4;
    if d.year == MaxYear && d.month == 12 && d.day >= 27 {
      assert Ordinal(d) == Ordinal(monday) + d.day - 27;
    } else {
      OrdinalMonotone(d, monday);
    }
  }

  /** Every day of one Monday-to-Sunday week has that Monday as its week start, and so
      produces the same key. */
  lemma WeekDaysShareKey(monday: Date, j: nat)
    requires Valid(monday) && Weekday(monday) == 0
    requires j < 7 && AddDays(monday, j).Some?
    ensures WeekStart(AddDays(monday, j).value) == monday
    ensures WeekRange(AddDays(monday, j).value) == WeekRange(monday)
  {
    var d := AddDays(monday, j).value;
    DaysAfterMonday(monday, d, j);
    OrdinalInjective(WeekStart(d), monday);
  }

  /** Two dates share a week start exactly when they lie in the same week. */
  lemma SameWeekIffSameStart(a: Date, b: Date)
    requires Valid(a) && Valid(b)
    ensures SameWeek(a, b) <==> WeekStart(a) == WeekStart(b)
  {
    WeekStartOrdinal(a);
    WeekStartOrdinal(b);
    SameWeekBlock(a, b, Ordinal(WeekStart(a)), Ordinal(WeekStart(b)));
    OrdinalEqualIff(WeekStart(a), WeekStart(b));
  }

  lemma SameWeekBlock(a: Date, b: Date, sa: int, sb: int)
    requires Valid(a) && Valid(b)
    requires sa == 7 * ((Ordinal(a) - 1) / 7) + 1
    requires sb == 7 * ((Ordinal(b) - 1) / 7) + 1
    ensures SameWeek(a, b) <==> sa == sb
  {
    SameBlock(Ordinal(a), Ordinal(b), sa, sb);
  }

  lemma SameBlock(oa: int, ob: int, sa: int, sb: int)
    requires sa == 7 * ((oa - 1) / 7) + 1 && sb == 7 * ((ob - 1) / 7) + 1
    ensures (oa - 1) / 7 == (ob - 1) / 7 <==> sa == sb
  {
  }

  lemma OrdinalEqualIff(a: Date, b: Date)
    requires Valid(a) && Valid(b)
    ensures Ordinal(a) == Ordinal(b) <==> a == b
  {
    if Ordinal(a) == Ordinal(b) {
      OrdinalInjective(a, b);
    }
  }

  /** The key can be read back: it names the week's Monday and Sunday. */
  lemma ParseWeekKeyRoundTrip(d: Date, end: Date)
    requires Valid(d) && Valid(end)
    requires Ordinal(end) == Ordinal(WeekStart(d)) + 6
    ensures WeekRange(d).Success?
    ensures ParseWeekKey(WeekRange(d).value) == Some((WeekStart(d), end))
  {
    WeekRangeKey(d, end);
    ParseKeyOf(WeekStart(d), end);
  }

  /** Two formatted dates joined by " - " parse back to the two dates. */
  lemma ParseKeyOf(start: Date, end: Date)
    requires Valid(start) && Valid(end)
    ensures ParseWeekKey(FormatDate(start) + " - " + FormatDate(end)) == Some((start, end))
  {
    var first := FormatDate(start) + " ";
    var second := " " + FormatDate(end);
    FormatDateHasNoHyphen(start);
    FormatDateHasNoHyphen(end);
    assert '-' !in first;
    assert '-' !in second;
    KeyIsJoin(FormatDate(start), FormatDate(end));
    SplitJoin([first, second], '-');
    assert first[..|first| - 1] == FormatDate(start);
    assert second[1..] == FormatDate(end);
    ParseFormatRoundTrip(start);
    ParseFormatRoundTrip(end);
  }

  lemma KeyIsJoin(a: string, b: string)
    ensures Join([a + " ", " " + b], '-') == a + " - " + b
  {
    assert [a + " ", " " + b][1..] == [" " + b];
  }

  /** Equal keys mean the same week: the key identifies the week. */
  lemma SameKeyIffSameWeek(a: Date, b: Date)
    requires Valid(a) && Valid(b)
    requires WeekRange(a).Success? && WeekRange(b).Success?
    ensures WeekRange(a) == WeekRange(b) <==> SameWeek(a, b)
  {
    SameWeekIffSameStart(a, b);
    var ea := AddDays(WeekStart(a), 6).value;
    var eb := AddDays(WeekStart(b), 6).value;
    ParseWeekKeyRoundTrip(a, ea);
    ParseWeekKeyRoundTrip(b, eb);
  }

  /** Wednesday 1 January 2025 lies in the week that began on Monday 30 December 2024. */
  lemma NewYearExample()
    ensures Valid(Date(2025, 1, 1))
    ensures WeekRange(Date(2025, 1, 1)) == Success("December 30, 2024 - January 05, 2025")
  {
    NewYearOrdinals();
    NewYearMonday();
    WeekRangeKey(Date(2025, 1, 1), Date(2025, 1, 5));
    NewYearKeyText();
  }

  lemma NewYearKeyText()
    ensures Valid(Date(2024, 12, 30)) && Valid(Date(2025, 1, 5))
    ensures FormatDate(Date(2024, 12, 30)) + " - " + FormatDate(Date(2025, 1, 5))
         == "December 30, 2024 - January 05, 2025"
  {
    NewYearFormat();
    assert "December 30, 2024" + " - " + "January 05, 2025" == "December 30, 2024 - January 05, 2025";
  }

  lemma NewYearOrdinals()
    ensures Valid(Date(2024, 12, 30)) && Ordinal(Date(2024, 12, 30)) == 739250
    ensures Valid(Date(2025, 1, 1)) && Ordinal(Date(2025, 1, 1)) == 739252
    ensures Valid(Date(2025, 1, 5)) && Ordinal(Date(2025, 1, 5)) == 739256
  {
  }

  lemma NewYearWeekday()
    ensures Valid(Date(2025, 1, 1)) && Weekday(Date(2025, 1, 1)) == 2
  {
    NewYearOrdinals();
    var o := Ordinal(Date(2025, 1, 1));
    assert Weekday(Date(2025, 1, 1)) == (o + 6) % 7;
  }

  lemma NewYearFormat()
    ensures Valid(Date(2024, 12, 30)) && FormatDate(Date(2024, 12, 30)) == "December 30, 2024"
    ensures Valid(Date(2025, 1, 1)) && FormatDate(Date(2025, 1, 1)) == "January 01, 2025"
    ensures Valid(Date(2025, 1, 5)) && FormatDate(Date(2025, 1, 5)) == "January 05, 2025"
  {
  }

  lemma NewYearMonday()
    ensures Valid(Date(2025, 1, 1)) && WeekStart(Date(2025, 1, 1)) == Date(2024, 12, 30)
  {
    var d := Date(2025, 1, 1);
    NewYearOrdinals();
    NewYearWeekday();
    OrdinalInjective(WeekStart(d), Date(2024, 12, 30));
  }
}
