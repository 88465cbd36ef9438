/** Civil dates of the proleptic Gregorian calendar, as Python's `datetime.date` represents
    them: years 1 through 9999, a day number ("ordinal") with 0001-01-01 as day 1, a
    zero-based weekday with Monday as 0, and day arithmetic that fails outside that range. */
module CivilDate {
  import opened Wrappers

  const MinYear: int := 1
  const MaxYear: int := 9999
  /** The ordinal of 9999-12-31, the last representable date. */
  const MaxOrdinal: int := 3652059

  datatype Date = Date(year: int, month: int, day: int)

  const FirstDate: Date := Date(MinYear, 1, 1)
  const LastDate: Date := Date(MaxYear, 12, 31)

  predicate IsLeap(y: int) {
    y % 4 == 0 && (y % 100 != 0 || y % 400 == 0)
  }

  function DaysInYear(y: int): int {
    if IsLeap(y) then 366 else 365
  }

  function DaysInMonth(y: int, m: int): (n: int)
    requires 1 <= m <= 12
    ensures 28 <= n <= 31
  {
    if m == 2 then (if IsLeap(y) then 29 else 28)
    else if m == 4 || m == 6 || m == 9 || m == 11 then 30
    else 31
  }

  /** A date that `datetime.date` accepts. */
  predicate Valid(d: Date) {
    && MinYear <= d.year <= MaxYear
    && 1 <= d.month <= 12
    && 1 <= d.day <= DaysInMonth(d.year, d.month)
  }

  /** Days in the years before `y`. */
  function DaysBeforeYear(y: int): int
    requires y >= 1
  {
    var p := y - 1;
    p * 365 + p / 4 - p / 100 + p / 400
  }

  /** Days in the months of year `y` before month `m`. */
  function DaysBeforeMonth(y: int, m: int): int
    requires 1 <= m <= 12
  {
    var common :=
      if m == 1 then 0 else if m == 2 then 31 else if m == 3 then 59
      else if m == 4 then 90 else if m == 5 then 120 else if m == 6 then 151
      else if m == 7 then 181 else if m == 8 then 212 else if m == 9 then 243
      else if m == 10 then 273 else if m == 11 then 304 else 334;
    common + (if m > 2 && IsLeap(y) then 1 else 0)
  }

  /** Python's `date.toordinal()`. */
  function Ordinal(d: Date): int
    requires Valid(d)
  {
    DaysBeforeYear(d.year) + DaysBeforeMonth(d.year, d.month) + d.day
  }

  /** Python's `date.weekday()`: Monday is 0 and Sunday is 6. */
  function Weekday(d: Date): (w: int)
    requires Valid(d)
    ensures 0 <= w < 7
  {
    (Ordinal(d) + 6) % 7
  }

  /** Lexicographic order on (year, month, day). */
  predicate Before(a: Date, b: Date) {
    || a.year < b.year
    || (a.year == b.year && a.month < b.month)
    || (a.year == b.year && a.month == b.month && a.day < b.day)
  }

  // ---------------------------------------------------------------------------
  // Facts about the day-count tables

  lemma DaysBeforeYearStep(y: int)
    requires y >= 1
    ensures DaysBeforeYear(y + 1) == DaysBeforeYear(y) + DaysInYear(y)
  {
    LeapCountStep(y - 1);
  }

  /** The leap days counted before year `p + 2` exceed those before year `p + 1` by one
      exactly when year `p + 1` is a leap year. */
  lemma LeapCountStep(p: int)
    requires p >= 0
    ensures (p + 1) / 4 - (p + 1) / 100 + (p + 1) / 400
         == p / 4 - p / 100 + p / 400 + (if IsLeap(p + 1) then 1 else 0)
  {
    MultipleStep(p, 4);
    MultipleStep(p, 100);
    MultipleStep(p, 400);
  }

  /** Counting multiples of `k` up to `p + 1` adds one exactly when `p + 1` is one. */
  lemma MultipleStep(p: int, k: int)
    requires p >= 0 && (k == 4 || k == 100 || k == 400)
    ensures (p + 1) / k == p / k + (if (p + 1) % k == 0 then 1 else 0)
  {
    if k == 4 {
    } else if k == 100 {
    } else {
    }
  }

  lemma {:induction false} DaysBeforeYearMonotone(a: int, b: int)
    requires 1 <= a <= b
    ensures DaysBeforeYear(a) + 365 * (b - a) <= DaysBeforeYear(b)
    decreases b - a
  {
    if a < b {
      DaysBeforeYearStep(a);
      DaysBeforeYearMonotone(a + 1, b);
    }
  }

  lemma DaysBeforeMonthStep(y: int, m: int)
    requires 1 <= m < 12
    ensures DaysBeforeMonth(y, m + 1) == DaysBeforeMonth(y, m) + DaysInMonth(y, m)
  {
  }

  lemma DaysBeforeMonthMonotone(y: int, m1: int, m2: int)
    requires 1 <= m1 < m2 <= 12
    ensures DaysBeforeMonth(y, m1) + DaysInMonth(y, m1) <= DaysBeforeMonth(y, m2)
  {
  }

  lemma DaysInYearIsMonthSum(y: int)
    ensures DaysBeforeMonth(y, 12) + DaysInMonth(y, 12) == DaysInYear(y)
  {
  }

  /** A valid date's ordinal lies in the representable range, and within its year. */
  lemma OrdinalBounds(d: Date)
    requires Valid(d)
    ensures DaysBeforeYear(d.year) < Ordinal(d) <= DaysBeforeYear(d.year + 1)
    ensures 1 <= Ordinal(d) <= MaxOrdinal
  {
    DaysBeforeYearStep(d.year);
    if d.month < 12 {
      DaysBeforeMonthMonotone(d.year, d.month, 12);
    }
    DaysInYearIsMonthSum(d.year);
    DaysBeforeYearMonotone(d.year + 1, MaxYear + 1);
  }

  /** The ordinal is strictly increasing in calendar order. */
  lemma OrdinalMonotone(a: Date, b: Date)
    requires Valid(a) && Valid(b)
    requires Before(a, b)
    ensures Ordinal(a) < Ordinal(b)
  {
    if a.year < b.year {
      OrdinalBounds(a);
      OrdinalBounds(b);
      DaysBeforeYearMonotone(a.year + 1, b.year);
    } else if a.month < b.month {
      DaysBeforeMonthMonotone(a.year, a.month, b.month);
    }
  }

  /** Distinct valid dates have distinct ordinals. */
  lemma OrdinalInjective(a: Date, b: Date)
    requires Valid(a) && Valid(b)
    requires Ordinal(a) == Ordinal(b)
    ensures a == b
  {
    if Before(a, b) {
      OrdinalMonotone(a, b);
    } else if Before(b, a) {
      OrdinalMonotone(b, a);
    }
  }

  // ---------------------------------------------------------------------------
  // Day arithmetic

  /** The following day; None past 9999-12-31. */
  function Next(d: Date): (r: Option<Date>)
    requires Valid(d)
    ensures r.None? <==> d == LastDate
    ensures r.Some? ==> Valid(r.value) && Ordinal(r.value) == Ordinal(d) + 1
  {
    if d.day < DaysInMonth(d.year, d.month) then
      Some(Date(d.year, d.month, d.day + 1))
    else if d.month < 12 then
      DaysBeforeMonthStep(d.year, d.month);
      Some(Date(d.year, d.month + 1, 1))
    else if d.year < MaxYear then
      DaysBeforeYearStep(d.year);
      DaysInYearIsMonthSum(d.year);
      Some(Date(d.year + 1, 1, 1))
    else
      None
  }

  /** The preceding day; None before 0001-01-01. */
  function Prev(d: Date): (r: Option<Date>)
    requires Valid(d)
    ensures r.None? <==> d == FirstDate
    ensures r.Some? ==> Valid(r.value) && Ordinal(r.value) == Ordinal(d) - 1
  {
    if d.day > 1 then
      Some(Date(d.year, d.month, d.day - 1))
    else if d.month > 1 then
      DaysBeforeMonthStep(d.year, d.month - 1);
      Some(Date(d.year, d.month - 1, DaysInMonth(d.year, d.month - 1)))
    else if d.year > MinYear then
      DaysBeforeYearStep(d.year - 1);
      DaysInYearIsMonthSum(d.year - 1);
      Some(Date(d.year - 1, 12, 31))
    else
      None
  }

  /** `d + timedelta(days=n)`: Python checks only that the resulting ordinal is in range. */
  function AddDays(d: Date, n: nat): (r: Option<Date>)
    requires Valid(d)
    ensures r.Some? <==> Ordinal(d) + n <= MaxOrdinal
    ensures r.Some? ==> Valid(r.value) && Ordinal(r.value) == Ordinal(d) + n
    decreases n
  {
    OrdinalBounds(d);
    if n == 0 then Some(d)
    else match Next(d)
      case None => None
      case Some(e) => AddDays(e, n - 1)
  }

  /** `d - timedelta(days=n)`: fails only when the result would precede 0001-01-01. */
  function SubtractDays(d: Date, n: nat): (r: Option<Date>)
    requires Valid(d)
    ensures r.Some? <==> Ordinal(d) - n >= 1
    ensures r.Some? ==> Valid(r.value) && Ordinal(r.value) == Ordinal(d) - n
    decreases n
  {
    OrdinalBounds(d);
    if n == 0 then Some(d)
    else match Prev(d)
      case None => None
      case Some(e) => SubtractDays(e, n - 1)
  }

  /** Stepping one day at a time agrees with Python's ordinal arithmetic: the result is the
      one valid date whose ordinal is `Ordinal(d) + n`. */
  lemma AddDaysIsOrdinalShift(d: Date, n: nat, e: Date)
    requires Valid(d) && Valid(e)
    requires Ordinal(e) == Ordinal(d) + n
    ensures AddDays(d, n) == Some(e)
  {
    OrdinalBounds(e);
    OrdinalInjective(AddDays(d, n).value, e);
  }

  lemma SubtractDaysIsOrdinalShift(d: Date, n: nat, e: Date)
    requires Valid(d) && Valid(e)
    requires Ordinal(e) == Ordinal(d) - n
    ensures SubtractDays(d, n) == Some(e)
  {
    OrdinalBounds(e);
    OrdinalInjective(SubtractDays(d, n).value, e);
  }

  /** Going forward and back by the same number of days returns to the start. */
  lemma AddThenSubtract(d: Date, n: nat)
    requires Valid(d)
    requires AddDays(d, n).Some?
    ensures SubtractDays(AddDays(d, n).value, n) == Some(d)
  {
    SubtractDaysIsOrdinalShift(AddDays(d, n).value, n, d);
  }

  /** Each day of the week follows the previous one. */
  lemma WeekdayOfNext(d: Date)
    requires Valid(d) && d != LastDate
    ensures Weekday(Next(d).value) == (Weekday(d) + 1) % 7
  {
    var o := Ordinal(d);
    assert Ordinal(Next(d).value) + 6 == (o + 6) + 1;
    ModSuccessor(o + 6);
  }

  lemma ModSuccessor(x: int)
    ensures (x + 1) % 7 == (x % 7 + 1) % 7
  {
  }
}
