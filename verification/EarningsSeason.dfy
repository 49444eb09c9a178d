/** Earnings-season windows (src/regime_data_fetch/earnings_season_calendar.py). */
module EarningsSeason {
  import opened Wrappers
  import opened Calendar

  const WINDOW_LENGTH_CALENDAR_DAYS := 35

  predicate QuarterStart(month: int) {
    month == 1 || month == 4 || month == 7 || month == 10
  }

  /** A window of day numbers, both ends included. */
  datatype Window = Window(start: int, end: int) {
    predicate Contains(n: int) {
      start <= n <= end
    }
  }

  datatype CalendarError = BadQuarterMonth | YearOutOfRange | EndBeforeStart

  /** The window of a quarter of any year. */
  function SeasonWindow(year: int, quarter: int): Window
    requires QuarterStart(quarter)
  {
    var start := MonthStart(year, quarter) + NthDay(year, quarter, MONDAY, 1) - 1;
    Window(start, start + WINDOW_LENGTH_CALENDAR_DAYS)
  }

  /** The quarter's window from its second Monday, which is the one Monday from the 8th to the 14th, to 35 days later. */
  predicate SeasonDay(year: int, quarter: int, monday: int, n: int) {
    && QuarterStart(quarter)
    && MonthStart(year, quarter) + 7 <= monday <= MonthStart(year, quarter) + 13 && Weekday(monday) == MONDAY
    && monday <= n <= monday + 35
  }

  /** `compute_earnings_season_window`: building a date outside the years 1 to 9999 fails. */
  function ComputeWindow(year: int, quarter: int): Result<Window, CalendarError> {
    if !QuarterStart(quarter) then Err(BadQuarterMonth)
    else if !PyYear(year) then Err(YearOutOfRange)
    else Ok(SeasonWindow(year, quarter))
  }

  /** `_candidate_quarter_start_month`. */
  function CandidateQuarter(month: int): (q: int)
    ensures QuarterStart(q)
  {
    if month >= 10 then 10 else if month >= 7 then 7 else if month >= 4 then 4 else 1
  }

  /** `_previous_quarter_start`. */
  function PreviousQuarter(year: int, quarter: int): (int, int)
    requires QuarterStart(quarter)
  {
    if quarter == 1 then (year - 1, 10) else (year, quarter - 3)
  }

  /** `is_in_earnings_season`. */
  function InSeason(asOf: Date): Result<bool, CalendarError>
    requires asOf.Valid()
  {
    var quarter := CandidateQuarter(asOf.month);
    match ComputeWindow(asOf.year, quarter)
    case Err(e) => Err(e)
    case Ok(window) =>
      if window.Contains(asOf.Ord()) then Ok(true)
      else
        var previous := PreviousQuarter(asOf.year, quarter);
        match ComputeWindow(previous.0, previous.1)
        case Err(e) => Err(e)
        case Ok(previousWindow) => Ok(previousWindow.Contains(asOf.Ord()))
  }

  // ---------------------------------------------------------------------------
  // A window never leaves its quarter

  /** First day number after a quarter. */
  function QuarterEnd(year: int, quarter: int): int
    requires QuarterStart(quarter)
  {
    MonthStart(year, quarter) + DaysBeforeMonth(year, quarter + 3) - DaysBeforeMonth(year, quarter)
  }

  lemma WindowInQuarter(year: int, quarter: int)
    requires QuarterStart(quarter)
    ensures MonthStart(year, quarter) <= SeasonWindow(year, quarter).start
    ensures SeasonWindow(year, quarter).end < QuarterEnd(year, quarter)
  {
    MonthOffsets(year);
  }

  lemma QuartersInOrder(y1: int, q1: int, y2: int, q2: int)
    requires QuarterStart(q1) && QuarterStart(q2) && MonthLess(y1, q1, y2, q2)
    ensures QuarterEnd(y1, q1) <= MonthStart(y2, q2)
  {
    assert QuarterEnd(y1, q1) == MonthStart(y1, q1 + 2) + DaysInMonth(y1, q1 + 2);
    MonthsInOrder(y1, q1 + 2, y2, q2);
  }

  lemma DateInQuarter(d: Date)
    requires d.Valid()
    ensures MonthStart(d.year, CandidateQuarter(d.month)) <= d.Ord() < QuarterEnd(d.year, CandidateQuarter(d.month))
  {
    var q := CandidateQuarter(d.month);
    assert QuarterEnd(d.year, q) == MonthStart(d.year, q + 2) + DaysInMonth(d.year, q + 2);
    if q < d.month { MonthsInOrder(d.year, q, d.year, d.month); }
    if d.month < q + 2 { MonthsInOrder(d.year, d.month, d.year, q + 2); }
  }

  predicate InWindowOf(year: int, quarter: int, n: int) {
    QuarterStart(quarter) && SeasonWindow(year, quarter).Contains(n)
  }

  lemma InWindowIff(year: int, quarter: int, n: int)
    ensures InWindowOf(year, quarter, n) <==> exists monday :: SeasonDay(year, quarter, monday, n)
  {
    if QuarterStart(quarter) {
      var start := SeasonWindow(year, quarter).start;
      assert NthWeekdayOf(year, quarter, MONDAY, 1, start);
      if InWindowOf(year, quarter, n) { assert SeasonDay(year, quarter, start, n); }
      if monday :| SeasonDay(year, quarter, monday, n) { NthWeekdayUnique(year, quarter, MONDAY, 1, monday, start); }
    }
  }

  /** Distinct quarters have disjoint windows. */
  lemma WindowsDisjoint(y1: int, q1: int, y2: int, q2: int, n: int)
    requires InWindowOf(y1, q1, n) && InWindowOf(y2, q2, n)
    ensures y1 == y2 && q1 == q2
  {
    WindowInQuarter(y1, q1);
    WindowInQuarter(y2, q2);
    if MonthLess(y1, q1, y2, q2) {
      QuartersInOrder(y1, q1, y2, q2);
    } else if MonthLess(y2, q2, y1, q1) {
      QuartersInOrder(y2, q2, y1, q1);
    }
  }

  /** Only the window of its own quarter can contain a date. */
  lemma OwnQuarterOnly(d: Date, year: int, quarter: int)
    requires d.Valid() && InWindowOf(year, quarter, d.Ord())
    ensures year == d.year && quarter == CandidateQuarter(d.month)
  {
    var q := CandidateQuarter(d.month);
    DateInQuarter(d);
    WindowInQuarter(year, quarter);
    if MonthLess(d.year, q, year, quarter) {
      QuartersInOrder(d.year, q, year, quarter);
    } else if MonthLess(year, quarter, d.year, q) {
      QuartersInOrder(year, quarter, d.year, q);
    }
  }

  /** The test of the previous quarter never adds a date: only a date's own quarter decides. */
  lemma OwnQuarterDecides(d: Date)
    requires d.Valid() && PyYear(d.year)
    ensures InSeason(d).Ok? ==> (InSeason(d).value <==> InWindowOf(d.year, CandidateQuarter(d.month), d.Ord()))
    ensures InSeason(d).Err? <==> d.year == 1 && CandidateQuarter(d.month) == 1 && !InWindowOf(1, 1, d.Ord())
  {
    var previous := PreviousQuarter(d.year, CandidateQuarter(d.month));
    if InWindowOf(previous.0, previous.1, d.Ord()) {
      OwnQuarterOnly(d, previous.0, previous.1);
    }
  }

  /**
   A Python date is in earnings season exactly when it is at most 35 days after the second Monday of the first month of some
   quarter of some year, that Monday included. The question can only fail, in the first quarter of year 1, where the previous
   quarter lies in year 0.
   */
  lemma SeasonIff(d: Date)
    requires d.Valid() && PyYear(d.year) && InSeason(d).Ok?
    ensures InSeason(d).value <==> exists year, quarter, monday :: SeasonDay(year, quarter, monday, d.Ord())
  {
    var n := d.Ord();
    OwnQuarterDecides(d);
    InWindowIff(d.year, CandidateQuarter(d.month), n);
    if year, quarter, monday :| SeasonDay(year, quarter, monday, n) {
      InWindowIff(year, quarter, n);
      OwnQuarterOnly(d, year, quarter);
    }
  }

  // ---------------------------------------------------------------------------
  // The build loop

  lemma QuarterIndex(year: int, month: int)
    requires 1 <= month <= 12
    ensures MonthIndex(year, month) % 3 == 0 <==> QuarterStart(month)
  {
  }

  /** The quarter window of the month with a given index. */
  function WindowAt(k: int): Window {
    if QuarterStart(k % 12 + 1) then SeasonWindow(k / 12, k % 12 + 1) else Window(0, -1)
  }

  /** `windowAt` at every quarter start among `count` months from month index `k` on. */
  function WindowsFrom(windowAt: int -> Window, k: int, count: nat): seq<Window>
    decreases count
  {
    if count == 0 then []
    else (if k % 3 == 0 then [windowAt(k)] else []) + WindowsFrom(windowAt, k + 1, count - 1)
  }

  /** The windows the build loop is to produce for a range of dates. */
  function BuiltWindows(startDate: Date, endDate: Date): seq<Window>
    requires startDate.Index() <= endDate.Index()
  {
    WindowsFrom(WindowAt, startDate.Index(), endDate.Index() - startDate.Index() + 1)
  }

  lemma ComputeAt(year: int, month: int)
    requires 1 <= month <= 12 && PyYear(year) && QuarterStart(month)
    ensures ComputeWindow(year, month) == Ok(WindowAt(MonthIndex(year, month)))
  {
    IndexParts(year, month);
  }

  /** The windows so far and those of the months from `k` to `last` make up the whole list. */
  predicate Building(done: seq<Window>, windowAt: int -> Window, k: int, last: int, whole: seq<Window>) {
    k <= last + 1 && done + WindowsFrom(windowAt, k, last + 1 - k) == whole
  }

  function WithMonth(done: seq<Window>, windowAt: int -> Window, k: int): seq<Window> {
    if k % 3 == 0 then done + [windowAt(k)] else done
  }

  lemma BuildingStep(done: seq<Window>, windowAt: int -> Window, k: int, last: int, whole: seq<Window>)
    requires Building(done, windowAt, k, last, whole) && k <= last
    ensures Building(WithMonth(done, windowAt, k), windowAt, k + 1, last, whole)
  {
  }

  /** `build_earnings_season_windows`. */
  method BuildWindows(startDate: Date, endDate: Date) returns (result: Result<seq<Window>, CalendarError>)
    requires startDate.Valid() && PyYear(startDate.year) && endDate.Valid() && PyYear(endDate.year)
    ensures endDate.Ord() < startDate.Ord() ==> result == Err(EndBeforeStart)
    ensures startDate.Ord() <= endDate.Ord() ==>
      startDate.Index() <= endDate.Index() && result == Ok(BuiltWindows(startDate, endDate))
  {
    OrdOrder(endDate, startDate);
    if endDate.Ord() < startDate.Ord() {
      return Err(EndBeforeStart);
    }
    SeasonWindowsComputed();
    var windows := BuildRange(startDate.year, startDate.month, endDate.year, endDate.month, WindowAt);
    return Ok(windows);
  }

  /** `windowAt` has the windows that `compute_earnings_season_window` computes. */
  ghost predicate Computes(windowAt: int -> Window) {
    forall year, month {:trigger ComputeWindow(year, month)} :: PyYear(year) && 1 <= month <= 12 && QuarterStart(month) ==>
      ComputeWindow(year, month) == Ok(windowAt(MonthIndex(year, month)))
  }

  lemma SeasonWindowsComputed()
    ensures Computes(WindowAt)
  {
    forall year, month | PyYear(year) && 1 <= month <= 12 && QuarterStart(month) { ComputeAt(year, month); }
  }

  /** The loop body: a month that starts a quarter contributes its window. */
  method AppendQuarter(windows: seq<Window>, year: int, month: int, ghost windowAt: int -> Window) returns (extended: seq<Window>)
    requires PyYear(year) && 1 <= month <= 12 && Computes(windowAt)
    ensures extended == WithMonth(windows, windowAt, MonthIndex(year, month))
  {
    QuarterIndex(year, month);
    if !QuarterStart(month) {
      return windows;
    }
    return windows + [ComputeWindow(year, month).value];
  }

  /** The loop from month to month; `gathered` is what is to hold of the windows before each month. */
  method BuildLoop(startYear: int, startMonth: int, endYear: int, endMonth: int, ghost windowAt: int -> Window,
                   ghost gathered: (seq<Window>, int) -> bool) returns (windows: seq<Window>)
    requires PyYear(startYear) && 1 <= startMonth <= 12 && PyYear(endYear) && 1 <= endMonth <= 12
    requires MonthIndex(startYear, startMonth) <= MonthIndex(endYear, endMonth) && Computes(windowAt)
    requires gathered([], MonthIndex(startYear, startMonth))
    requires forall done, k :: gathered(done, k) && k <= MonthIndex(endYear, endMonth) ==> gathered(WithMonth(done, windowAt, k), k + 1)
    ensures gathered(windows, MonthIndex(endYear, endMonth) + 1)
  {
    windows := [];
    var year, month := startYear, startMonth;
    while year < endYear || (year == endYear && month <= endMonth)
      invariant 1 <= month <= 12 && startYear <= year
      invariant MonthIndex(year, month) <= MonthIndex(endYear, endMonth) + 1
      invariant gathered(windows, MonthIndex(year, month))
      decreases MonthIndex(endYear, endMonth) + 1 - MonthIndex(year, month)
    {
      windows := AppendQuarter(windows, year, month, windowAt);
      if month == 12 {
        year, month := year + 1, 1;
      } else {
        month := month + 1;
      }
    }
  }

  method BuildRange(startYear: int, startMonth: int, endYear: int, endMonth: int, ghost windowAt: int -> Window)
    returns (windows: seq<Window>)
    requires PyYear(startYear) && 1 <= startMonth <= 12 && PyYear(endYear) && 1 <= endMonth <= 12
    requires MonthIndex(startYear, startMonth) <= MonthIndex(endYear, endMonth) && Computes(windowAt)
    ensures var first, last := MonthIndex(startYear, startMonth), MonthIndex(endYear, endMonth);
            windows == WindowsFrom(windowAt, first, last - first + 1)
  {
    ghost var first, last := MonthIndex(startYear, startMonth), MonthIndex(endYear, endMonth);
    ghost var whole := WindowsFrom(windowAt, first, last - first + 1);
    ghost var gathered := (done: seq<Window>, k: int) => Building(done, windowAt, k, last, whole);
    forall done, k | gathered(done, k) && k <= last ensures gathered(WithMonth(done, windowAt, k), k + 1) {
      BuildingStep(done, windowAt, k, last, whole);
    }
    windows := BuildLoop(startYear, startMonth, endYear, endMonth, windowAt, gathered);
  }

  lemma {:induction false} WindowsFromContents(windowAt: int -> Window, k: int, count: nat, w: Window)
    ensures w in WindowsFrom(windowAt, k, count) <==> exists j :: k <= j < k + count && j % 3 == 0 && w == windowAt(j)
    decreases count
  {
    if count > 0 {
      WindowsFromContents(windowAt, k + 1, count - 1, w);
    }
  }

  /** Some window holds the day. */
  ghost predicate Covers(windows: seq<Window>, n: int) {
    exists w :: w in windows && w.Contains(n)
  }

  /** If only month `own` can cover `n`, the list covers it exactly when `own` lies in the range and does cover it. */
  lemma ListDecides(windowAt: int -> Window, k: int, count: nat, own: int, n: int)
    requires own % 3 == 0 && forall j :: j % 3 == 0 && windowAt(j).Contains(n) ==> j == own
    ensures Covers(WindowsFrom(windowAt, k, count), n) <==>
            k <= own < k + count && windowAt(own).Contains(n)
  {
    if w :| w in WindowsFrom(windowAt, k, count) && w.Contains(n) {
      WindowsFromContents(windowAt, k, count, w);
    }
    if k <= own < k + count && windowAt(own).Contains(n) {
      WindowsFromContents(windowAt, k, count, windowAt(own));
    }
  }

  /**
   The windows built for [start, end] decide membership of a date in that range exactly when its quarter starts no
   earlier than the month of `start`; a date of a quarter already under way at `start` is never covered.
   */
  lemma BuiltWindowsDecide(startDate: Date, endDate: Date, d: Date)
    requires d.Valid() && PyYear(d.year) && InSeason(d).Ok?
    requires startDate.Index() <= d.Index() <= endDate.Index()
    ensures Covers(BuiltWindows(startDate, endDate), d.Ord()) <==>
            InSeason(d).value && startDate.Index() <= OwnIndex(d)
  {
    OwnWindowDecides(d);
    BuiltCover(startDate, endDate, d);
  }

  /** The month index at which the quarter of a date starts. */
  function OwnIndex(d: Date): int
    requires d.Valid()
  {
    MonthIndex(d.year, CandidateQuarter(d.month))
  }

  lemma OwnIndexBefore(d: Date)
    requires d.Valid()
    ensures OwnIndex(d) <= d.Index()
  {
  }

  /** The date lies in the window of its own quarter. */
  predicate InOwnWindow(d: Date)
    requires d.Valid()
  {
    WindowAt(OwnIndex(d)).Contains(d.Ord())
  }

  lemma BuiltCover(startDate: Date, endDate: Date, d: Date)
    requires d.Valid() && startDate.Index() <= d.Index() <= endDate.Index()
    ensures Covers(BuiltWindows(startDate, endDate), d.Ord()) <==> InOwnWindow(d) && startDate.Index() <= OwnIndex(d)
  {
    OwnIndexBefore(d);
    BuiltListCovers(startDate.Index(), endDate.Index() - startDate.Index() + 1, d);
  }

  lemma BuiltListCovers(first: int, count: nat, d: Date)
    requires d.Valid()
    ensures Covers(WindowsFrom(WindowAt, first, count), d.Ord()) <==>
            first <= OwnIndex(d) < first + count && InOwnWindow(d)
  {
    var own, n := OwnIndex(d), d.Ord();
    forall j | j % 3 == 0 && WindowAt(j).Contains(n) ensures j == own {
      OwnIndexOnly(d, j);
    }
    QuarterIndex(d.year, CandidateQuarter(d.month));
    ListDecides(WindowAt, first, count, own, n);
  }

  lemma OwnWindowDecides(d: Date)
    requires d.Valid() && PyYear(d.year) && InSeason(d).Ok?
    ensures InSeason(d).value <==> InOwnWindow(d)
  {
    OwnQuarterDecides(d);
    IndexParts(d.year, CandidateQuarter(d.month));
  }

  lemma OwnIndexOnly(d: Date, j: int)
    requires d.Valid() && WindowAt(j).Contains(d.Ord())
    ensures j == OwnIndex(d)
  {
    assert InWindowOf(j / 12, j % 12 + 1, d.Ord());
    OwnQuarterOnly(d, j / 12, j % 12 + 1);
  }

  predicate InOrder(windows: seq<Window>) {
    forall i, j :: 0 <= i < j < |windows| ==> windows[i].end < windows[j].start
  }

  lemma {:induction false} ListInOrder(windowAt: int -> Window, k: int, count: nat)
    requires forall i, j :: i % 3 == 0 && j % 3 == 0 && i < j ==> windowAt(i).end < windowAt(j).start
    ensures InOrder(WindowsFrom(windowAt, k, count))
    decreases count
  {
    if count > 0 {
      ListInOrder(windowAt, k + 1, count - 1);
      forall w | w in WindowsFrom(windowAt, k + 1, count - 1) ensures k % 3 == 0 ==> windowAt(k).end < w.start {
        WindowsFromContents(windowAt, k + 1, count - 1, w);
      }
    }
  }

  /** The built windows come in order, each ending before the next one starts. */
  lemma BuiltWindowsInOrder(startDate: Date, endDate: Date)
    requires startDate.Index() <= endDate.Index()
    ensures InOrder(BuiltWindows(startDate, endDate))
  {
    forall i, j | i % 3 == 0 && j % 3 == 0 && i < j ensures WindowAt(i).end < WindowAt(j).start {
      WindowsAtInOrder(i, j);
    }
    ListInOrder(WindowAt, startDate.Index(), endDate.Index() - startDate.Index() + 1);
  }

  lemma SeasonsInOrder(y1: int, q1: int, y2: int, q2: int)
    requires QuarterStart(q1) && QuarterStart(q2) && MonthLess(y1, q1, y2, q2)
    ensures SeasonWindow(y1, q1).end < SeasonWindow(y2, q2).start
  {
    WindowInQuarter(y1, q1);
    WindowInQuarter(y2, q2);
    QuartersInOrder(y1, q1, y2, q2);
  }

  lemma WindowsAtInOrder(i: int, j: int)
    requires i % 3 == 0 && j % 3 == 0 && i < j
    ensures WindowAt(i).end < WindowAt(j).start
  {
    var y1, q1, y2, q2 := i / 12, i % 12 + 1, j / 12, j % 12 + 1;
    assert QuarterStart(q1) && QuarterStart(q2) && MonthLess(y1, q1, y2, q2);
    SeasonsInOrder(y1, q1, y2, q2);
  }
}
