/** Calendar geometry of `src/utils/dateUtils.js` and of the copies inside the
    components. JavaScript's `Date` is replaced by the day arithmetic of
    section 21.4.1 of ECMA-262 (DaysInYear, DayFromYear, MonthFromTime,
    MakeDay, WeekDay) over the proleptic Gregorian calendar. */
module Calendar {
  import opened JsObject
  import JsText

  /** `MESES`: the month names, January first. */
  const Months: seq<string> := [
    "Enero", "Febrero", "Marzo", "Abril", "Mayo", "Junio",
    "Julio", "Agosto", "Septiembre", "Octubre", "Noviembre", "Diciembre"
  ]

  /** `MESES.indexOf(monthName)`. */
  function MonthIndex(name: string): (i: int)
    ensures -1 <= i < 12
    ensures i >= 0 ==> Months[i] == name
    ensures i == -1 ==> forall j | 0 <= j < 12 :: Months[j] != name
  {
    IndexOf(Months, name)
  }

  /** `isLeapYear`. JavaScript's `%` truncates where Dafny's is Euclidean, but
      the two agree on whether the remainder is zero. */
  predicate IsLeapYear(year: int)
  {
    (year % 4 == 0 && year % 100 != 0) || year % 400 == 0
  }

  /** The familiar month lengths: the reference the `Date` arithmetic is
      checked against. */
  function MonthLength(year: int, m: int): (n: int)
    requires 0 <= m < 12
    ensures 28 <= n <= 31
  {
    if m == 1 then (if IsLeapYear(year) then 29 else 28)
    else [31, 28, 31, 30, 31, 30, 31, 31, 30, 31, 30, 31][m]
  }

  // ECMA-262 day arithmetic. Day 0 is 1 January 1970; `/` and `%` by a
  // positive constant are ECMA-262's floor and modulo.

  /** DaysInYear, as ECMA-262 states it: case by case on divisibility. */
  function DaysInYear(y: int): int
  {
    if y % 4 != 0 then 365
    else if y % 100 != 0 then 366
    else if y % 400 != 0 then 365
    else 366
  }

  /** DayFromYear: the day number of 1 January of `y`. */
  function DayFromYear(y: int): int
  {
    365 * (y - 1970) + (y - 1969) / 4 - (y - 1901) / 100 + (y - 1601) / 400
  }

  /** Days of year `y` before the first of month `m`: the month boundaries
      MonthFromTime uses. */
  function MonthStart(y: int, m: int): int
    requires 0 <= m < 12
  {
    var leap := if DaysInYear(y) == 366 then 1 else 0;
    [0, 31, 59, 90, 120, 151, 181, 212, 243, 273, 304, 334][m] + (if m >= 2 then leap else 0)
  }

  /** MakeDay(year, month, date): a month outside 0..11 carries into the year,
      a date outside the month runs into its neighbours. */
  function MakeDay(year: int, month: int, date: int): int
  {
    var ym := year + month / 12;
    var mn := month % 12;
    DayFromYear(ym) + MonthStart(ym, mn) + date - 1
  }

  /** WeekDay: 0 is Sunday; day 0 was a Thursday. */
  function WeekDay(t: int): int
  {
    (t + 4) % 7
  }

  /** The `Date(year, month, day)` constructor reads a year 0..99 as 1900..1999. */
  function FullYear(year: int): int
  {
    if 0 <= year <= 99 then 1900 + year else year
  }

  /** `new Date(y, m + 1, 0).getDate()` for a full year `y`: day 0 of month
      `m + 1` is the day before its first, and getDate counts it from the
      first of month `m`, the month that holds it. */
  function LastDate(y: int, m: int): int
    requires -1 <= m < 12
  {
    MakeDay(y, m + 1, 0) - MakeDay(y, m, 1) + 1
  }

  /** One year's length is the gap between consecutive DayFromYear values. */
  lemma DayFromYearStep(y: int)
    ensures DayFromYear(y + 1) == DayFromYear(y) + DaysInYear(y)
  {
    FloorStep(y - 1969, 4, 1968);
    FloorStep(y - 1901, 100, 1900);
    FloorStep(y - 1601, 400, 1600);
  }

  /** Stepping `a` by one moves `a / k` by one exactly when `a + 1` is a
      multiple of `k`; with `a + 1 == y - c` and `c` a multiple of `k`,
      that is when `y` is. */
  lemma FloorStep(a: int, k: int, c: int)
    requires k > 0 && c % k == 0
    ensures (a + 1) / k == a / k + (if (a + 1 + c) % k == 0 then 1 else 0)
  {
    var q, r := a / k, a % k;
    assert a == k * q + r && 0 <= r < k;
    var q', r' := (a + 1) / k, (a + 1) % k;
    assert a + 1 == k * q' + r' && 0 <= r' < k;
    if r + 1 < k {
      DivUnique(a + 1, k, q, r + 1);
    } else {
      DivUnique(a + 1, k, q + 1, 0);
    }
    var m := c / k;
    assert c == k * m;
    DivUnique(a + 1 + c, k, q' + m, r');
  }

  /** Euclidean division is determined by quotient and remainder bounds. */
  lemma DivUnique(n: int, k: int, q: int, r: int)
    requires k > 0 && n == k * q + r && 0 <= r < k
    ensures n / k == q && n % k == r
  {
    var q', r' := n / k, n % k;
    assert k * (q - q') == r' - r;
    MulBounds(k, q - q');
  }

  /** A non-zero multiple of `k` is at least `k` away from zero. */
  lemma MulBounds(k: int, d: int)
    requires k > 0
    ensures d >= 1 ==> k * d >= k
    ensures d <= -1 ==> k * d <= -k
    decreases if d < 0 then -d else d
  {
    if d > 1 {
      MulBounds(k, d - 1);
      assert k * d == k * (d - 1) + k;
    } else if d < -1 {
      MulBounds(k, d + 1);
      assert k * d == k * (d + 1) - k;
    }
  }

  /** DaysInYear's case table agrees with `isLeapYear`. */
  lemma DaysInYearIsLeap(y: int)
    ensures DaysInYear(y) == if IsLeapYear(y) then 366 else 365
  {
  }

  /** The first of the month after `m` lies `MonthLength(y, m)` days after the first of `m`. */
  lemma NextMonthStart(y: int, m: int)
    requires 0 <= m < 12
    ensures MakeDay(y, m + 1, 1) == MakeDay(y, m, 1) + MonthLength(y, m)
  {
    DivUnique(m, 12, 0, m);
    if m == 11 {
      DivUnique(12, 12, 1, 0);
      DayFromYearStep(y);
      DaysInYearIsLeap(y);
    } else {
      DivUnique(m + 1, 12, 0, m + 1);
      MonthStartStep(y, m);
    }
  }

  /** Within a year, month `m + 1` starts `MonthLength(y, m)` days after `m`. */
  lemma MonthStartStep(y: int, m: int)
    requires 0 <= m < 11
    ensures MonthStart(y, m + 1) == MonthStart(y, m) + MonthLength(y, m)
  {
    DaysInYearIsLeap(y);
  }

  /** `Date(y, m + 1, 0).getDate()` is the length of month `m`; with `m = -1`
      (an unknown month name passed straight to `Date`) it is 31, the length
      of the previous December. */
  lemma LastDateIsMonthLength(y: int, m: int)
    requires -1 <= m < 12
    ensures m >= 0 ==> LastDate(y, m) == MonthLength(y, m)
    ensures m == -1 ==> LastDate(y, m) == 31
  {
    MakeDayDate(y, m + 1, 0);
    if m >= 0 {
      NextMonthStart(y, m);
    } else {
      DivUnique(-1, 12, -1, 11);
      DivUnique(0, 12, 0, 0);
      DayFromYearStep(y - 1);
      DaysInYearIsLeap(y - 1);
    }
  }

  /** The date argument of MakeDay only shifts the day number. */
  lemma MakeDayDate(y: int, m: int, d: int)
    ensures MakeDay(y, m, d) == MakeDay(y, m, 1) + d - 1
  {
  }

  /** `getDaysInMonth`: 31 for a name outside `MESES`, otherwise the length
      of that month in the year `Date` reads. */
  function DaysInMonth(name: string, year: int): (n: int)
    ensures 28 <= n <= 31
    ensures MonthIndex(name) == -1 ==> n == 31
  {
    var i := MonthIndex(name);
    if i == -1 then 31 else MonthLength(FullYear(year), i)
  }

  /** `getDaysInMonth` asks `Date` for day 0 of the next month,
      `new Date(year, i + 1, 0).getDate()`; in day arithmetic that is the
      month's length, and with `i = -1` (a name `indexOf` does not find) it
      is the 31 days of the previous December. */
  lemma DaysInMonthIsLastDate(name: string, year: int)
    ensures DaysInMonth(name, year) == LastDate(FullYear(year), MonthIndex(name))
  {
    LastDateIsMonthLength(FullYear(year), MonthIndex(name));
  }

  /** The Date constructor's year and `isLeapYear` agree on leap years except
      at year 0, which `Date` reads as 1900. */
  lemma FullYearLeap(year: int)
    requires year != 0
    ensures IsLeapYear(FullYear(year)) <==> IsLeapYear(year)
  {
  }

  /** February has 29 days exactly in leap years (year 0 aside). */
  lemma FebruaryLength(year: int)
    requires year != 0
    ensures DaysInMonth("Febrero", year) == if IsLeapYear(year) then 29 else 28
  {
    MonthIndexOf(1);
    FullYearLeap(year);
  }

  /** At year 0 `Date` counts February of 1900 while `isLeapYear(0)` holds. */
  lemma YearZeroFebruary()
    ensures IsLeapYear(0) && DaysInMonth("Febrero", 0) == 28
  {
  }

  /** Known lengths of February: leap and common years. */
  lemma FebruaryExamples()
    ensures DaysInMonth("Febrero", 2024) == 29 && DaysInMonth("Febrero", 2023) == 28
  {
    FebruaryLength(2024);
    FebruaryLength(2023);
  }

  /** Known lengths of February in century years: only every fourth is leap. */
  lemma CenturyFebruaries()
    ensures DaysInMonth("Febrero", 2000) == 29 && DaysInMonth("Febrero", 1900) == 28
    ensures DaysInMonth("Febrero", 2100) == 28
  {
    assert IsLeapYear(2000) && !IsLeapYear(1900) && !IsLeapYear(2100) by {
      DivUnique(2000, 400, 5, 0);
      DivUnique(1900, 100, 19, 0);
      DivUnique(2100, 100, 21, 0);
      DivUnique(1900, 400, 4, 300);
      DivUnique(2100, 400, 5, 100);
    }
    FebruaryLength(2000);
    FebruaryLength(1900);
    FebruaryLength(2100);
  }

  /** `getFirstDayOfWeek`: 0 for a name outside `MESES`, otherwise
      `new Date(year, m, 1).getDay()`. */
  function FirstDayOfWeek(name: string, year: int): (w: int)
    ensures 0 <= w <= 6
    ensures MonthIndex(name) == -1 ==> w == 0
  {
    var i := MonthIndex(name);
    if i == -1 then 0 else WeekDay(MakeDay(FullYear(year), i, 1))
  }

  /** Each month starts on the weekday after the previous month's last day. */
  lemma NextMonthWeekday(name: string, next: string, year: int)
    requires MonthIndex(name) >= 0 && MonthIndex(next) == MonthIndex(name) + 1
    ensures FirstDayOfWeek(next, year) == (FirstDayOfWeek(name, year) + DaysInMonth(name, year)) % 7
  {
    MonthStep(FullYear(year), MonthIndex(name));
  }

  /** The weekday of the first of month `m + 1` in day arithmetic. */
  lemma MonthStep(y: int, m: int)
    requires 0 <= m < 11
    ensures WeekDay(MakeDay(y, m + 1, 1)) == (WeekDay(MakeDay(y, m, 1)) + MonthLength(y, m)) % 7
  {
    NextMonthStart(y, m);
    WeekDayShift(MakeDay(y, m, 1), MonthLength(y, m));
  }

  /** Every month name is found at its own position. */
  lemma MonthIndexOf(i: int)
    requires 0 <= i < 12
    ensures MonthIndex(Months[i]) == i
  {
    MonthsDistinct();
  }

  /** `MESES` names twelve different months. */
  lemma MonthsDistinct()
    ensures forall a, b | 0 <= a < b < 12 :: Months[a] != Months[b]
  {
    assert Months[5][2] == 'n' && Months[6][2] == 'l';
  }

  /** Moving `n` days ahead moves the weekday `n` places round the week. */
  lemma WeekDayShift(t: int, n: int)
    ensures WeekDay(t + n) == (WeekDay(t) + n) % 7
  {
    var a := t + 4;
    var q, r := a / 7, a % 7;
    var q2, r2 := (r + n) / 7, (r + n) % 7;
    assert a + n == 7 * (q + q2) + r2;
    DivUnique(a + n, 7, q + q2, r2);
  }

  /** January's first weekday follows December's last day, as long as both
      years are read the same way by `Date` (not across 99/100 or -1/0). */
  lemma NewYearWeekday(december: string, january: string, year: int)
    requires MonthIndex(december) == 11 && MonthIndex(january) == 0
    requires year != 99 && year != -1
    ensures FirstDayOfWeek(january, year + 1)
         == (FirstDayOfWeek(december, year) + DaysInMonth(december, year)) % 7
  {
    var y := FullYear(year);
    FullYearNext(year);
    YearStep(y);
    assert FirstDayOfWeek(january, year + 1) == WeekDay(MakeDay(y + 1, 0, 1));
    assert FirstDayOfWeek(december, year) == WeekDay(MakeDay(y, 11, 1));
    assert DaysInMonth(december, year) == MonthLength(y, 11);
  }

  /** `Date` reads consecutive years as consecutive full years, except
      across 99/100 and -1/0. */
  lemma FullYearNext(year: int)
    requires year != 99 && year != -1
    ensures FullYear(year + 1) == FullYear(year) + 1
  {
  }

  /** The weekday of 1 January of `y + 1` in day arithmetic. */
  lemma YearStep(y: int)
    ensures WeekDay(MakeDay(y + 1, 0, 1)) == (WeekDay(MakeDay(y, 11, 1)) + MonthLength(y, 11)) % 7
  {
    NextMonthStart(y, 11);
    DivUnique(12, 12, 1, 0);
    DivUnique(0, 12, 0, 0);
    WeekDayShift(MakeDay(y, 11, 1), MonthLength(y, 11));
  }

  /** 1 January 2024 was a Monday. */
  lemma January2024()
    ensures FirstDayOfWeek("Enero", 2024) == 1 && DaysInMonth("Enero", 2024) == 31
  {
    MonthIndexOf(0);
    DivUnique(0, 12, 0, 0);
    assert DayFromYear(2024) == 19723 by {
      DivUnique(55, 4, 13, 3);
      DivUnique(123, 100, 1, 23);
      DivUnique(423, 400, 1, 23);
    }
    assert MakeDay(2024, 0, 1) == 19723;
    DivUnique(19727, 7, 2818, 1);
  }

  /** `isValidDay(day, monthName, year)`: `day` is a number (None otherwise)
      and one of the month's day numbers. */
  function IsValidDay(day: Option<real>, name: string, year: int): (ok: bool)
    ensures ok <==> day.Some? && exists d: int | 1 <= d <= DaysInMonth(name, year) :: day.value == Real(d)
  {
    if day.None? || day.value.Floor as real != day.value || day.value < 1.0 then false
    else
      assert day.value == Real(day.value.Floor);
      day.value <= DaysInMonth(name, year) as real
  }

  /** A day number as a JavaScript number. A function rather than a bare
      `d as real`, so that quantifiers over day numbers have a term to
      trigger on. */
  function Real(d: int): real
  {
    d as real
  }

  /** A calendar grid cell: padding before the first, or a day of the month. */
  datatype Slot = Blank | Day(day: int)

  /** The grid loop of `createCalendarDays`: `lead` blanks, then the days
      `1..n` in order. */
  method Grid(lead: int, n: int) returns (days: seq<Slot>)
    requires 0 <= lead && 0 <= n
    ensures |days| == lead + n
    ensures forall i | 0 <= i < lead :: days[i] == Blank
    ensures forall d | 1 <= d <= n :: days[lead + d - 1] == Day(d)
    ensures forall d: int :: Day(d) in days <==> 1 <= d <= n
  {
    days := [];
    var i := 0;
    while i < lead
      invariant 0 <= i <= lead && |days| == i
      invariant forall j | 0 <= j < i :: days[j] == Blank
    {
      days := days + [Blank];
      i := i + 1;
    }
    var d := 1;
    while d <= n
      invariant 1 <= d <= n + 1 && |days| == lead + d - 1
      invariant forall j | 0 <= j < lead :: days[j] == Blank
      invariant forall e | 1 <= e < d :: days[lead + e - 1] == Day(e)
    {
      days := days + [Day(d)];
      d := d + 1;
    }
    forall e: int | Day(e) in days
      ensures 1 <= e <= n
    {
      var j :| 0 <= j < |days| && days[j] == Day(e);
      assert j >= lead && days[lead + (j - lead + 1) - 1] == Day(j - lead + 1);
    }
    forall e: int | 1 <= e <= n
      ensures Day(e) in days
    {
      assert days[lead + e - 1] == Day(e);
    }
  }

  /** A whole day number is valid exactly when it lies in the month. */
  lemma ValidDayNumber(name: string, year: int, d: int)
    ensures IsValidDay(Some(Real(d)), name, year) <==> 1 <= d <= DaysInMonth(name, year)
  {
    assert Real(d).Floor == d;
  }

  /** `createCalendarDays` (and the same loop in the monthly overview):
      blanks up to the first weekday, then the days in order. */
  method CreateCalendarDays(name: string, year: int) returns (days: seq<Slot>)
    ensures |days| == FirstDayOfWeek(name, year) + DaysInMonth(name, year)
    ensures forall i | 0 <= i < FirstDayOfWeek(name, year) :: days[i] == Blank
    ensures forall d | 1 <= d <= DaysInMonth(name, year) ::
      days[FirstDayOfWeek(name, year) + d - 1] == Day(d)
    ensures forall d: int :: Day(d) in days <==> IsValidDay(Some(Real(d)), name, year)
  {
    days := Grid(FirstDayOfWeek(name, year), DaysInMonth(name, year));
    forall d: int ensures Day(d) in days <==> IsValidDay(Some(Real(d)), name, year) {
      ValidDayNumber(name, year, d);
    }
  }

  lemma FebruaryFlag(name: string, year: int)
    ensures name == "Febrero" && year != 0 ==> (DaysInMonth(name, year) == 29 <==> IsLeapYear(year))
  {
    if name == "Febrero" && year != 0 {
      FebruaryLength(year);
    }
  }

  /** `getMonthInfo`'s record. */
  datatype MonthInfo = MonthInfo(
    name: string, year: int, daysInMonth: int, firstDayOfWeek: int,
    displayName: string, isLeapYear: bool)

  /** `getMonthInfo`: the fields agree with each other, February's length
      with the leap flag, except at year 0. */
  function GetMonthInfo(name: string, year: int): (info: MonthInfo)
    ensures info.name == name && info.year == year
    ensures 28 <= info.daysInMonth <= 31 && 0 <= info.firstDayOfWeek <= 6
    ensures name == "Febrero" && year != 0 ==> (info.daysInMonth == 29 <==> info.isLeapYear)
    ensures MonthIndex(name) == -1 ==> info.daysInMonth == 31 && info.firstDayOfWeek == 0
    ensures info.displayName == name + " " + JsText.IntToDecimal(year)
  {
    FebruaryFlag(name, year);
    MonthInfo(name, year, DaysInMonth(name, year), FirstDayOfWeek(name, year),
              name + " " + JsText.IntToDecimal(year), IsLeapYear(year))
  }
}
