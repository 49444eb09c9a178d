/** The proleptic Gregorian calendar of Python's `datetime.date`: month lengths, day numbers and weekdays. */
module Calendar {

  predicate Leap(year: int) {
    year % 4 == 0 && (year % 100 != 0 || year % 400 == 0)
  }

  function DaysInMonth(year: int, month: int): (n: int)
    ensures 28 <= n <= 31
  {
    if month == 2 then (if Leap(year) then 29 else 28)
    else if month == 4 || month == 6 || month == 9 || month == 11 then 30
    else 31
  }

  function DaysBeforeYear(year: int): int {
    365 * (year - 1) + (year - 1) / 4 - (year - 1) / 100 + (year - 1) / 400
  }

  function DaysBeforeMonth(year: int, month: int): int
    requires 1 <= month <= 13
    decreases month
  {
    if month == 1 then 0 else DaysBeforeMonth(year, month - 1) + DaysInMonth(year, month - 1)
  }

  /** Day number of the first of a month. */
  function MonthStart(year: int, month: int): int
    requires 1 <= month <= 12
  {
    DaysBeforeYear(year) + DaysBeforeMonth(year, month) + 1
  }

  datatype Date = Date(year: int, month: int, day: int) {
    predicate Valid() {
      1 <= month <= 12 && 1 <= day <= DaysInMonth(year, month)
    }

    /** `date.toordinal`. */
    function Ord(): int
      requires Valid()
    {
      MonthStart(year, month) + day - 1
    }

    function Index(): int {
      MonthIndex(year, month)
    }
  }

  /** Months counted through the years. */
  function MonthIndex(year: int, month: int): int {
    12 * year + month - 1
  }

  /** A month index gives back its year and month. */
  lemma IndexParts(year: int, month: int)
    requires 1 <= month <= 12
    ensures MonthIndex(year, month) / 12 == year && MonthIndex(year, month) % 12 + 1 == month
  {
  }

  /** The years a Python date can have. */
  predicate PyYear(year: int) {
    1 <= year <= 9999
  }

  /** `date.weekday` of a day number: Monday is 0. */
  function Weekday(n: int): (w: int)
    ensures 0 <= w < 7
  {
    (n + 6) % 7
  }

  const MONDAY := 0
  const THURSDAY := 3
  const FRIDAY := 4

  // ---------------------------------------------------------------------------
  // Months follow one another without gaps

  /** Lexicographic order on (year, month), Python's tuple comparison. */
  predicate MonthLess(y1: int, m1: int, y2: int, m2: int) {
    y1 < y2 || (y1 == y2 && m1 < m2)
  }

  /** A quotient by 4, 100 or 400 grows at exactly the multiples. */
  lemma QuotientStep(n: int, d: int)
    requires d == 4 || d == 100 || d == 400
    ensures n / d == (n - 1) / d + if n % d == 0 then 1 else 0
  {
    if d == 4 {
    } else if d == 100 {
    } else {
    }
  }

  lemma FourCenturies(year: int)
    requires year % 400 == 0
    ensures year % 100 == 0
  {
    var q, p, r := year / 400, year / 100, year % 100;
    assert 400 * q == 100 * p + r && 0 <= r < 100;
  }

  lemma Century(year: int)
    requires year % 100 == 0
    ensures year % 4 == 0
  {
    var q, p, r := year / 100, year / 4, year % 4;
    assert 100 * q == 4 * p + r && 0 <= r < 4;
  }

  lemma LeapDays(year: int)
    ensures DaysBeforeYear(year + 1) == DaysBeforeYear(year) + if Leap(year) then 366 else 365
  {
    QuotientStep(year, 4);
    QuotientStep(year, 100);
    QuotientStep(year, 400);
    if year % 400 == 0 { FourCenturies(year); }
    if year % 100 == 0 { Century(year); }
  }

  lemma MonthOffsets(year: int)
    ensures var leap := if Leap(year) then 1 else 0;
            && DaysBeforeMonth(year, 4) == 90 + leap && DaysBeforeMonth(year, 7) == 181 + leap
            && DaysBeforeMonth(year, 10) == 273 + leap && DaysBeforeMonth(year, 13) == 365 + leap
  {
    assert DaysBeforeMonth(year, 2) == 31;
    assert DaysBeforeMonth(year, 4) == DaysBeforeMonth(year, 3) + 31;
    assert DaysBeforeMonth(year, 6) == DaysBeforeMonth(year, 4) + 61;
    assert DaysBeforeMonth(year, 8) == DaysBeforeMonth(year, 6) + 61;
    assert DaysBeforeMonth(year, 10) == DaysBeforeMonth(year, 8) + 61;
    assert DaysBeforeMonth(year, 12) == DaysBeforeMonth(year, 10) + 61;
  }

  lemma YearLength(year: int)
    ensures DaysBeforeYear(year + 1) == DaysBeforeYear(year) + DaysBeforeMonth(year, 13)
  {
    LeapDays(year);
    MonthOffsets(year);
  }

  /** An earlier month ends before a later one starts. */
  lemma {:induction false} MonthsInOrder(y1: int, m1: int, y2: int, m2: int)
    requires 1 <= m1 <= 12 && 1 <= m2 <= 12 && MonthLess(y1, m1, y2, m2)
    ensures MonthStart(y1, m1) + DaysInMonth(y1, m1) <= MonthStart(y2, m2)
    decreases MonthIndex(y2, m2) - MonthIndex(y1, m1)
  {
    var y, m := if m1 == 12 then y1 + 1 else y1, if m1 == 12 then 1 else m1 + 1;
    if m1 == 12 { YearLength(y1); }
    assert MonthStart(y, m) == MonthStart(y1, m1) + DaysInMonth(y1, m1);
    if MonthLess(y, m, y2, m2) {
      MonthsInOrder(y, m, y2, m2);
    }
  }

  /** Day numbers order dates as Python's date comparison does. */
  lemma OrdOrder(a: Date, b: Date)
    requires a.Valid() && b.Valid()
    ensures a.Ord() < b.Ord() <==>
            MonthLess(a.year, a.month, b.year, b.month) || (a.year == b.year && a.month == b.month && a.day < b.day)
    ensures a.Ord() == b.Ord() <==> a == b
  {
    if MonthLess(a.year, a.month, b.year, b.month) {
      MonthsInOrder(a.year, a.month, b.year, b.month);
    } else if MonthLess(b.year, b.month, a.year, a.month) {
      MonthsInOrder(b.year, b.month, a.year, a.month);
    }
  }

  // ---------------------------------------------------------------------------
  // The n-th given weekday of a month

  /** The non-zero entries of one weekday column of `calendar.monthcalendar`, from a given day on. */
  function DaysOn(year: int, month: int, weekday: int, from: int): seq<int>
    requires 1 <= month <= 12
    decreases DaysInMonth(year, month) - from
  {
    if from > DaysInMonth(year, month) then []
    else
      (if Weekday(MonthStart(year, month) + from - 1) == weekday then [from] else []) + DaysOn(year, month, weekday, from + 1)
  }

  /** The first number on or after `from` that gives the weekday when counted from `base`. */
  function FirstOn(base: int, weekday: int, from: int): (d: int)
    requires 0 <= weekday < 7
    ensures from <= d < from + 7 && Weekday(base + d) == weekday
  {
    from + (weekday - Weekday(base + from)) % 7
  }

  lemma NextWeekday(n: int)
    ensures Weekday(n + 1) == if Weekday(n) == 6 then 0 else Weekday(n) + 1
  {
  }

  /** Days from one weekday to the next occurrence of another. */
  lemma DaysUntil(from: int, to: int)
    requires 0 <= from < 7 && 0 <= to < 7
    ensures (to - from) % 7 == if from <= to then to - from else to - from + 7
  {
  }

  lemma FirstOnStep(base: int, weekday: int, from: int)
    requires 0 <= weekday < 7
    ensures Weekday(base + from) == weekday ==> FirstOn(base, weekday, from) == from && FirstOn(base, weekday, from + 1) == from + 7
    ensures Weekday(base + from) != weekday ==> FirstOn(base, weekday, from + 1) == FirstOn(base, weekday, from)
  {
    assert base + (from + 1) == base + from + 1;
    NextWeekday(base + from);
    DaysUntil(Weekday(base + from), weekday);
    DaysUntil(Weekday(base + from + 1), weekday);
  }

  lemma {:induction false} NthWeekday(year: int, month: int, weekday: int, from: int, i: nat)
    requires 1 <= month <= 12 && 0 <= weekday < 7
    requires FirstOn(MonthStart(year, month) - 1, weekday, from) + 7 * i <= DaysInMonth(year, month)
    ensures |DaysOn(year, month, weekday, from)| > i
    ensures DaysOn(year, month, weekday, from)[i] == FirstOn(MonthStart(year, month) - 1, weekday, from) + 7 * i
    decreases DaysInMonth(year, month) - from
  {
    FirstOnStep(MonthStart(year, month) - 1, weekday, from);
    if Weekday(MonthStart(year, month) + from - 1) != weekday {
      NthWeekday(year, month, weekday, from + 1, i);
    } else if i > 0 {
      NthWeekday(year, month, weekday, from + 1, i - 1);
    }
  }

  lemma WeeksLater(day: int, n: nat)
    requires n < 4
    ensures Weekday(day + 7 * n) == Weekday(day)
  {
    if n == 0 {
    } else if n == 1 {
    } else if n == 2 {
    } else {
    }
  }

  lemma NthDayFound(year: int, month: int, weekday: int, n: nat)
    requires 1 <= month <= 12 && 0 <= weekday < 7 && n < 4
    ensures |DaysOn(year, month, weekday, 1)| > n
    ensures var d := DaysOn(year, month, weekday, 1)[n];
            7 * n + 1 <= d <= 7 * n + 7 && Weekday(MonthStart(year, month) + d - 1) == weekday
  {
    var base := MonthStart(year, month) - 1;
    var first := FirstOn(base, weekday, 1);
    assert first <= 7 && first + 7 * n <= 28 <= DaysInMonth(year, month);
    NthWeekday(year, month, weekday, 1, n);
    WeeksLater(base + first, n);
    assert MonthStart(year, month) + (first + 7 * n) - 1 == base + first + 7 * n;
  }

  /** The day of the month carrying the n-th (0-based) given weekday; the first four always exist. */
  function NthDay(year: int, month: int, weekday: int, n: nat): (d: int)
    requires 1 <= month <= 12 && 0 <= weekday < 7 && n < 4
    ensures 7 * n + 1 <= d <= 7 * n + 7
    ensures Weekday(MonthStart(year, month) + d - 1) == weekday
  {
    NthDayFound(year, month, weekday, n);
    DaysOn(year, month, weekday, 1)[n]
  }

  lemma WeekdayShift(n: int, i: int)
    requires 0 <= i <= 7
    ensures Weekday(n + i) == if Weekday(n) + i < 7 then Weekday(n) + i else Weekday(n) + i - 7
  {
  }

  /** The one day of the `n`-th (0-based) seven days of a month that has the weekday. */
  predicate NthWeekdayOf(year: int, month: int, weekday: int, n: nat, day: int)
    requires 1 <= month <= 12
  {
    MonthStart(year, month) + 7 * n <= day <= MonthStart(year, month) + 7 * n + 6 && Weekday(day) == weekday
  }

  lemma NthWeekdayUnique(year: int, month: int, weekday: int, n: nat, a: int, b: int)
    requires 1 <= month <= 12 && NthWeekdayOf(year, month, weekday, n, a) && NthWeekdayOf(year, month, weekday, n, b)
    ensures a == b
  {
    if a < b { WeekdayShift(a, b - a); }
    if b < a { WeekdayShift(b, a - b); }
  }

  /** The date after a date. */
  function Successor(d: Date): Date {
    if d.day < DaysInMonth(d.year, d.month) then Date(d.year, d.month, d.day + 1)
    else if d.month < 12 then Date(d.year, d.month + 1, 1)
    else Date(d.year + 1, 1, 1)
  }

  lemma NextMonthStart(year: int, month: int)
    requires 1 <= month <= 12
    ensures if month < 12 then MonthStart(year, month + 1) == MonthStart(year, month) + DaysInMonth(year, month)
            else MonthStart(year + 1, 1) == MonthStart(year, month) + DaysInMonth(year, month)
  {
    if month == 12 { YearLength(year); }
  }

  /** Day 1 is 1 January of the year 1. */
  lemma FirstDay(year: int)
    requires year == 1
    ensures MonthStart(year, 1) == 1
  {
  }

  /** Day 1 is a Monday. */
  lemma FirstWeekday(n: int)
    requires n == 1
    ensures Weekday(n) == MONDAY
  {
  }

  /** From date to date day number and weekday go on by one. */
  lemma DaysFollow(d: Date)
    requires d.Valid()
    ensures Successor(d).Valid() && Successor(d).Ord() == d.Ord() + 1
    ensures Weekday(d.Ord() + 1) == if Weekday(d.Ord()) == 6 then 0 else Weekday(d.Ord()) + 1
  {
    NextMonthStart(d.year, d.month);
    NextWeekday(d.Ord());
  }
}
