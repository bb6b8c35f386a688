/** The proleptic Gregorian calendar, and the date stepping of `recurring.py`.

    Years are not bounded here; `MAX_YEAR` is where Python's `date` raises, and the callers that
    can step past it model that error. */
module Calendar {
  const MAX_YEAR: int := 9999

  datatype Date = Date(year: int, month: int, day: int)

  /** What stepping past `MAX_YEAR` raises. */
  datatype DateError = PastMaxYear

  predicate IsLeap(year: int) {
    year % 4 == 0 && (year % 100 != 0 || year % 400 == 0)
  }

  function MonthLength(year: int, month: int): int {
    if month == 2 then (if IsLeap(year) then 29 else 28)
    else if month == 4 || month == 6 || month == 9 || month == 11 then 30
    else 31
  }

  /** The twelve lengths; February has its 29th in every fourth year but those of the hundreds, except every
      fourth of these. */
  lemma MonthLengths(year: int)
    ensures seq(12, i requires 0 <= i < 12 => MonthLength(year, i + 1))
         == [31, if year % 400 == 0 || (year % 100 != 0 && year % 4 == 0) then 29 else 28, 31, 30, 31, 30,
             31, 31, 30, 31, 30, 31]
  {
    LeapNests(year);
  }

  lemma LeapNests(year: int)
    ensures year % 400 == 0 ==> year % 4 == 0
  {
    if year % 400 == 0 {
      var k := year / 400;
      assert year == 400 * k == 4 * (100 * k);
    }
  }

  predicate Valid(d: Date) {
    d.year >= 1 && 1 <= d.month <= 12 && 1 <= d.day <= MonthLength(d.year, d.month)
  }

  /** The fields packed into one number, so that comparing dates is comparing numbers. */
  function Packed(d: Date): int {
    (d.year * 16 + d.month) * 32 + d.day
  }

  predicate Before(d: Date, e: Date) {
    Packed(d) < Packed(e)
  }

  /** On valid dates this is Python's order, field by field. */
  lemma BeforeComparesFields(d: Date, e: Date)
    requires Valid(d) && Valid(e)
    ensures Before(d, e) <==>
              d.year < e.year || (d.year == e.year && (d.month < e.month || (d.month == e.month && d.day < e.day)))
    ensures Packed(d) == Packed(e) <==> d == e
  {
  }

  predicate NotAfter(d: Date, e: Date) {
    !Before(e, d)
  }

  // ----- day numbers -----

  function DaysBeforeYear(year: int): int {
    365 * (year - 1) + (year - 1) / 4 - (year - 1) / 100 + (year - 1) / 400
  }

  function DaysBeforeMonth(year: int, month: int): int
    decreases month
  {
    if month <= 1 then 0 else DaysBeforeMonth(year, month - 1) + MonthLength(year, month - 1)
  }

  /** `date.toordinal`: 1 January of year 1 is day 1. */
  function Ordinal(d: Date): int {
    DaysBeforeYear(d.year) + DaysBeforeMonth(d.year, d.month) + d.day
  }

  function NextDay(d: Date): Date {
    if d.day < MonthLength(d.year, d.month) then d.(day := d.day + 1)
    else if d.month < 12 then Date(d.year, d.month + 1, 1)
    else Date(d.year + 1, 1, 1)
  }

  function AddDays(d: Date, n: nat): Date {
    if n == 0 then d else NextDay(AddDays(d, n - 1))
  }

  function YearLength(year: int): int {
    if IsLeap(year) then 366 else 365
  }

  lemma YearsAddUp(year: int)
    ensures DaysBeforeYear(year + 1) == DaysBeforeYear(year) + YearLength(year)
  {
    QuotientStep(year, 4);
    QuotientStep(year, 100);
    QuotientStep(year, 400);
    CenturiesNest(year);
    LeapCorrections(year);
  }

  lemma CenturiesNest(y: int)
    ensures y % 400 == 0 ==> y % 100 == 0
    ensures y % 100 == 0 ==> y % 4 == 0
  {
    if y % 400 == 0 {
      var k := y / 400;
      assert y == 400 * k == 100 * (4 * k);
    }
    if y % 100 == 0 {
      var k := y / 100;
      assert y == 100 * k == 4 * (25 * k);
    }
  }

  lemma LeapCorrections(y: int)
    requires y % 400 == 0 ==> y % 100 == 0
    requires y % 100 == 0 ==> y % 4 == 0
    ensures YearLength(y) - 365 ==
            (if y % 4 == 0 then 1 else 0) - (if y % 100 == 0 then 1 else 0) + (if y % 400 == 0 then 1 else 0)
  {
  }

  lemma QuotientStep(y: int, q: int)
    requires q == 4 || q == 100 || q == 400
    ensures y / q == (y - 1) / q + (if y % q == 0 then 1 else 0)
  {
  }

  lemma MonthsAddUp(year: int)
    ensures DaysBeforeMonth(year, 12) + MonthLength(year, 12) == YearLength(year)
  {
    assert DaysBeforeMonth(year, 4) == MonthLength(year, 1) + MonthLength(year, 2) + MonthLength(year, 3);
    assert DaysBeforeMonth(year, 8) == DaysBeforeMonth(year, 4) + 122;
    assert DaysBeforeMonth(year, 12) == DaysBeforeMonth(year, 8) + 122;
  }

  /** The day number counts days: it goes up by one from a day to the next. */
  lemma NextDayIsOneLater(d: Date)
    requires Valid(d)
    ensures Valid(NextDay(d)) && Before(d, NextDay(d))
    ensures Ordinal(NextDay(d)) == Ordinal(d) + 1
  {
    if d.day == MonthLength(d.year, d.month) && d.month == 12 {
      YearsAddUp(d.year);
      MonthsAddUp(d.year);
      assert DaysBeforeMonth(d.year + 1, 1) == 0;
    } else if d.day == MonthLength(d.year, d.month) {
      assert DaysBeforeMonth(d.year, d.month + 1) == DaysBeforeMonth(d.year, d.month) + d.day;
    }
  }

  /** `date + timedelta(days=n)`. */
  lemma {:induction false} AddDaysCounts(d: Date, n: nat)
    requires Valid(d)
    ensures Valid(AddDays(d, n))
    ensures Ordinal(AddDays(d, n)) == Ordinal(d) + n
  {
    if n > 0 {
      AddDaysCounts(d, n - 1);
      NextDayIsOneLater(AddDays(d, n - 1));
    }
  }

  lemma {:induction false} DaysBeforeMonthGrows(year: int, m: int, n: int)
    requires 1 <= m < n <= 12
    ensures DaysBeforeMonth(year, m) + MonthLength(year, m) <= DaysBeforeMonth(year, n)
    decreases n
  {
    if m < n - 1 {
      DaysBeforeMonthGrows(year, m, n - 1);
    }
  }

  lemma {:induction false} DaysBeforeYearGrows(y: int, z: int)
    requires y < z
    ensures DaysBeforeYear(y) + YearLength(y) <= DaysBeforeYear(z)
    decreases z - y
  {
    YearsAddUp(z - 1);
    if y < z - 1 {
      DaysBeforeYearGrows(y, z - 1);
    }
  }

  /** Comparing dates is comparing day numbers. */
  lemma BeforeIsOrdinalOrder(d: Date, e: Date)
    requires Valid(d) && Valid(e)
    ensures Before(d, e) <==> Ordinal(d) < Ordinal(e)
    ensures Ordinal(d) == Ordinal(e) ==> d == e
  {
    BeforeComparesFields(d, e);
    if Before(d, e) {
      EarlierHasSmallerOrdinal(d, e);
    } else if Before(e, d) {
      EarlierHasSmallerOrdinal(e, d);
    }
  }

  lemma EarlierHasSmallerOrdinal(d: Date, e: Date)
    requires Valid(d) && Valid(e) && Before(d, e)
    ensures Ordinal(d) < Ordinal(e)
  {
    BeforeComparesFields(d, e);
    DayOfYear(d);
    DayOfYear(e);
    if d.year < e.year {
      DaysBeforeYearGrows(d.year, e.year);
    } else if d.month < e.month {
      DaysBeforeMonthGrows(d.year, d.month, e.month);
    }
  }

  lemma DayOfYear(d: Date)
    requires Valid(d)
    ensures 1 <= DaysBeforeMonth(d.year, d.month) + d.day <= YearLength(d.year)
  {
    MonthsAddUp(d.year);
    if d.month < 12 {
      DaysBeforeMonthGrows(d.year, d.month, 12);
    }
    if d.month > 1 {
      DaysBeforeMonthGrows(d.year, 1, d.month);
    }
  }

  // ----- cadences -----

  datatype Cadence = Weekly | Fortnightly | Monthly | Yearly

  /** Money in or money out; their stored tokens sort `in` before `out`. */
  datatype Direction = In | Out

  function Min(a: int, b: int): int {
    if a <= b then a else b
  }

  /** `d` plus whole calendar months, aiming at day `day` (0 for `d`'s own) and clamping it to
      the length of the target month. */
  function AddMonths(d: Date, months: int, day: int): Date {
    var total := d.month - 1 + months;
    var year, month := d.year + total / 12, total % 12 + 1;
    Date(year, month, Min(if day == 0 then d.day else day, MonthLength(year, month)))
  }

  /** The `n`-th date after `anchor`, always computed from the anchor. */
  function AddCadenceN(anchor: Date, cadence: Cadence, n: nat, day: int): Date {
    match cadence
    case Weekly => AddDays(anchor, 7 * n)
    case Fortnightly => AddDays(anchor, 14 * n)
    case Monthly => AddMonths(anchor, n, day)
    case Yearly => AddMonths(anchor, 12 * n, day)
  }

  lemma AddMonthsIsValid(d: Date, months: nat, day: nat)
    requires Valid(d)
    ensures Valid(AddMonths(d, months, day))
  {
  }

  /** Months are counted without gaps, so stepping by more of them lands strictly later,
      however the day is clamped. */
  lemma AddMonthsIncreases(d: Date, m: nat, n: nat, day: nat)
    requires Valid(d) && m < n
    ensures Before(AddMonths(d, m, day), AddMonths(d, n, day))
    ensures n > 0 ==> Before(d, AddMonths(d, n, day))
  {
    MonthsCount(d, m, day);
    MonthsCount(d, n, day);
    LaterMonthIsLater(AddMonths(d, m, day), AddMonths(d, n, day));
    if n > 0 {
      LaterMonthIsLater(d, AddMonths(d, n, day));
    }
  }

  lemma LaterMonthIsLater(d: Date, e: Date)
    requires 1 <= d.month <= 12 && 1 <= e.month <= 12 && 1 <= d.day <= 31 && 1 <= e.day <= 31
    requires d.year * 12 + d.month < e.year * 12 + e.month
    ensures Before(d, e)
  {
    assert d.year <= e.year;
    if d.year < e.year {
      assert d.year + 1 <= e.year;
    }
  }

  lemma MonthsCount(d: Date, months: nat, day: nat)
    requires Valid(d)
    ensures AddMonths(d, months, day).year * 12 + AddMonths(d, months, day).month == d.year * 12 + d.month + months
    ensures 1 <= AddMonths(d, months, day).month <= 12
    ensures 1 <= AddMonths(d, months, day).day <= 31
  {
  }

  lemma AddCadenceIncreases(anchor: Date, cadence: Cadence, m: nat, n: nat, day: nat)
    requires Valid(anchor) && m < n
    ensures Valid(AddCadenceN(anchor, cadence, n, day))
    ensures Before(AddCadenceN(anchor, cadence, m, day), AddCadenceN(anchor, cadence, n, day))
    ensures Before(anchor, AddCadenceN(anchor, cadence, n, day))
  {
    match cadence
    case Weekly => AddDaysIncreases(anchor, 7 * m, 7 * n);
    case Fortnightly => AddDaysIncreases(anchor, 14 * m, 14 * n);
    case Monthly =>
      AddMonthsIncreases(anchor, m, n, day);
      AddMonthsIsValid(anchor, n, day);
    case Yearly =>
      AddMonthsIncreases(anchor, 12 * m, 12 * n, day);
      AddMonthsIsValid(anchor, 12 * n, day);
  }

  lemma AddDaysIncreases(d: Date, m: nat, n: nat)
    requires Valid(d) && m < n
    ensures Valid(AddDays(d, n))
    ensures Before(AddDays(d, m), AddDays(d, n)) && Before(d, AddDays(d, n))
  {
    AddDaysCounts(d, m);
    AddDaysCounts(d, n);
    BeforeIsOrdinalOrder(AddDays(d, m), AddDays(d, n));
    BeforeIsOrdinalOrder(d, AddDays(d, n));
  }

  /** `d` is `n` steps of the cadence after `from`: 7 or 14 days each, or one or twelve months each with the
      day aimed at (0 for `from`'s own), or the month's last where it has no such day. */
  ghost predicate IsStep(from: Date, cadence: Cadence, n: nat, day: nat, d: Date) {
    && Valid(d)
    && match cadence
       case Weekly => Ordinal(d) == Ordinal(from) + 7 * n
       case Fortnightly => Ordinal(d) == Ordinal(from) + 14 * n
       case Monthly => IsMonthStep(from, n, day, d)
       case Yearly => IsMonthStep(from, 12 * n, day, d)
  }

  ghost predicate IsMonthStep(from: Date, months: nat, day: nat, d: Date) {
    && d.year * 12 + d.month == from.year * 12 + from.month + months
    && var aim := if day == 0 then from.day else day;
       (aim <= MonthLength(d.year, d.month) ==> d.day == aim)
       && (aim > MonthLength(d.year, d.month) ==> d.day == MonthLength(d.year, d.month))
  }

  /** Which date the stepping gives, cadence by cadence, and that no other date is that step. */
  lemma CadenceSteps(from: Date, cadence: Cadence, n: nat, day: nat, d: Date)
    requires Valid(from)
    ensures d == AddCadenceN(from, cadence, n, day) <==> IsStep(from, cadence, n, day, d)
  {
    var step := AddCadenceN(from, cadence, n, day);
    match cadence {
      case Weekly => AddDaysCounts(from, 7 * n);
      case Fortnightly => AddDaysCounts(from, 14 * n);
      case Monthly => MonthSteps(from, n, day, d);
      case Yearly => MonthSteps(from, 12 * n, day, d);
    }
    if IsStep(from, cadence, n, day, d) && (cadence.Weekly? || cadence.Fortnightly?) {
      BeforeIsOrdinalOrder(d, step);
    }
  }

  lemma MonthSteps(from: Date, months: nat, day: nat, d: Date)
    requires Valid(from)
    ensures d == AddMonths(from, months, day) <==> Valid(d) && IsMonthStep(from, months, day, d)
  {
    MonthsCount(from, months, day);
    AddMonthsIsValid(from, months, day);
    if Valid(d) && IsMonthStep(from, months, day, d) {
      SameMonth(d, AddMonths(from, months, day));
    }
  }

  lemma SameMonth(d: Date, e: Date)
    requires 1 <= d.month <= 12 && 1 <= e.month <= 12 && d.year * 12 + d.month == e.year * 12 + e.month
    ensures d.year == e.year && d.month == e.month
  {
  }

  /** A month-stepped date aims at the same day every time: it is the intended day in every
      month long enough, and the month's last day in every shorter one. */
  lemma ClampReturnsToIntendedDay(anchor: Date, months: nat, day: nat)
    requires Valid(anchor) && 0 < day
    ensures var d := AddMonths(anchor, months, day);
            && d.year * 12 + d.month == anchor.year * 12 + anchor.month + months
            && (day <= MonthLength(d.year, d.month) ==> d.day == day)
            && (day > MonthLength(d.year, d.month) ==> d.day == MonthLength(d.year, d.month))
  {
  }

  /** The day of the month a month-cadence item aims at. */
  function IntendedDay(dates: seq<Date>): int
    requires dates != []
  {
    var last := dates[|dates| - 1];
    if last.day == MonthLength(last.year, last.month) then MaxDay(dates) else last.day
  }

  function MaxDay(dates: seq<Date>): int
    requires dates != []
  {
    var d := dates[|dates| - 1].day;
    if |dates| == 1 then d
    else var m := MaxDay(dates[..|dates| - 1]); if m >= d then m else d
  }

  lemma {:induction false} MaxDayIsMaximum(dates: seq<Date>)
    requires dates != []
    ensures forall d :: d in dates ==> d.day <= MaxDay(dates)
    ensures exists d :: d in dates && d.day == MaxDay(dates)
  {
    var n := |dates| - 1;
    assert dates == dates[..n] + [dates[n]];
    if n > 0 {
      MaxDayIsMaximum(dates[..n]);
      var d :| d in dates[..n] && d.day == MaxDay(dates[..n]);
      assert d in dates && dates[n] in dates;
    } else {
      assert dates[0] in dates;
    }
  }

  /** When every observed date is the aimed-at day clamped to its month, the intended day is
      recovered exactly when some month was long enough to show it. */
  lemma IntendedDayRecovered(dates: seq<Date>, day: int)
    requires dates != []
    requires forall d :: d in dates ==> d.day == Min(day, MonthLength(d.year, d.month))
    ensures IntendedDay(dates) == day <==> exists d :: d in dates && d.day == day
  {
    MaxDayIsMaximum(dates);
    var last := dates[|dates| - 1];
    assert last in dates;
  }
}
