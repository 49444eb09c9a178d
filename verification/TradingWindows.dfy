/**
 Trading-day windows around an anchor date (src/regime_data_fetch/event_calendar_windows.py and the identical
 `expand_trading_day_window` of expiry_calendar.py). The NYSE calendar is any predicate that is false on weekends.
 */
module TradingWindows {
  import opened Wrappers
  import opened Calendar

  type TradingCalendar = int -> bool

  predicate WeekdayDay(n: int) {
    Weekday(n) < 5
  }

  ghost predicate ClosedOnWeekends(open: TradingCalendar) {
    forall n :: open(n) ==> WeekdayDay(n)
  }

  /** The trading days of [lo, hi] in order, as the calendar's schedule lists them. */
  function Sessions(open: TradingCalendar, lo: int, hi: int): seq<int>
    decreases hi - lo
  {
    if lo > hi then [] else (if open(lo) then [lo] else []) + Sessions(open, lo + 1, hi)
  }

  /** Python's `list.index`: the first position of a value, or None for its ValueError. */
  function IndexOf(s: seq<int>, x: int): Option<nat>
    decreases |s|
  {
    if s == [] then None
    else if s[0] == x then Some(0)
    else
      match IndexOf(s[1..], x)
      case None => None
      case Some(i) => Some(i + 1)
  }

  datatype WindowError = NotATradingDay | SliceExceeded

  const SLICE_DAYS := 14

  /** `expand_nyse_window_for_scheduled_event`: a window cut out of the 14 days before and after the anchor. */
  function Expand(open: TradingCalendar, anchor: int, lookback: int, lookahead: int): Result<seq<int>, WindowError>
    requires 0 <= lookback && -lookback <= lookahead
  {
    var days := Sessions(open, anchor - SLICE_DAYS, anchor + SLICE_DAYS);
    match IndexOf(days, anchor)
    case None => Err(NotATradingDay)
    case Some(i) =>
      if i - lookback < 0 || i + lookahead >= |days| then Err(SliceExceeded)
      else Ok(days[i - lookback..i + lookahead + 1])
  }

  // ---------------------------------------------------------------------------
  // The unbounded trading calendar

  /** Number of days of [lo, hi) with a property. */
  function Count(p: TradingCalendar, lo: int, hi: int): (n: nat)
    ensures lo <= hi ==> n <= hi - lo
    decreases hi - lo
  {
    if lo >= hi then 0 else (if p(lo) then 1 else 0) + Count(p, lo + 1, hi)
  }

  function DaysWith(p: TradingCalendar, lo: int, hi: int): set<int> {
    set n | lo <= n < hi && p(n)
  }

  lemma DaysFrom(p: TradingCalendar, lo: int, hi: int)
    requires lo < hi
    ensures DaysWith(p, lo, hi) == DaysWith(p, lo + 1, hi) + if p(lo) then {lo} else {}
    ensures lo !in DaysWith(p, lo + 1, hi)
  {
  }

  lemma OneMore(s: set<int>, x: int)
    requires x !in s
    ensures |s + {x}| == |s| + 1
  {
  }

  /** It is the size of the set of these days. */
  lemma {:induction false} CountIsCardinality(p: TradingCalendar, lo: int, hi: int)
    ensures Count(p, lo, hi) == |DaysWith(p, lo, hi)|
    decreases hi - lo
  {
    if lo < hi {
      CountIsCardinality(p, lo + 1, hi);
      DaysFrom(p, lo, hi);
      OneMore(DaysWith(p, lo + 1, hi), lo);
      assert !p(lo) ==> DaysWith(p, lo, hi) == DaysWith(p, lo + 1, hi);
    } else {
      assert DaysWith(p, lo, hi) == {};
    }
  }

  /** Signed distance of a day from the anchor, counted in trading days. */
  function Rank(open: TradingCalendar, anchor: int, n: int): int {
    if anchor <= n then Count(open, anchor, n) else 0 - Count(open, n, anchor)
  }

  predicate Ascending(s: seq<int>) {
    forall i, j :: 0 <= i < j < |s| ==> s[i] < s[j]
  }

  lemma {:induction false} CountSplit(p: TradingCalendar, lo: int, mid: int, hi: int)
    requires lo <= mid <= hi
    ensures Count(p, lo, hi) == Count(p, lo, mid) + Count(p, mid, hi)
    decreases mid - lo
  {
    if lo < mid { CountSplit(p, lo + 1, mid, hi); }
  }

  /** The days are the open days of [lo, hi], in order. */
  ghost predicate OpenDays(open: TradingCalendar, lo: int, hi: int, days: seq<int>) {
    && Ascending(days) && (forall n :: n in days <==> lo <= n <= hi && open(n))
    && |days| == Count(open, lo, hi + 1) && forall i :: 0 <= i < |days| ==> Count(open, lo, days[i]) == i
  }

  lemma OpenDaysCons(open: TradingCalendar, lo: int, hi: int, rest: seq<int>)
    requires lo <= hi && OpenDays(open, lo + 1, hi, rest)
    ensures OpenDays(open, lo, hi, if open(lo) then [lo] + rest else rest)
  {
    forall i | 0 <= i < |rest| ensures lo < rest[i] && Count(open, lo, rest[i]) == i + if open(lo) then 1 else 0 {
      assert rest[i] in rest;
    }
  }

  lemma {:induction false} SessionsAreTheOpenDays(open: TradingCalendar, lo: int, hi: int)
    ensures OpenDays(open, lo, hi, Sessions(open, lo, hi))
    decreases hi - lo
  {
    if lo <= hi {
      SessionsAreTheOpenDays(open, lo + 1, hi);
      OpenDaysCons(open, lo, hi, Sessions(open, lo + 1, hi));
      assert [] + Sessions(open, lo + 1, hi) == Sessions(open, lo + 1, hi);
    }
  }

  lemma {:induction false} IndexOfFinds(s: seq<int>, x: int)
    ensures IndexOf(s, x).None? <==> x !in s
    ensures IndexOf(s, x).Some? ==> IndexOf(s, x).value < |s| && s[IndexOf(s, x).value] == x
    decreases |s|
  {
    if s != [] && s[0] != x { IndexOfFinds(s[1..], x); }
  }

  /** Expansion succeeds exactly when the anchor trades and the two 14-day slices hold enough sessions. */
  lemma ExpandOkIff(open: TradingCalendar, anchor: int, lookback: int, lookahead: int)
    requires 0 <= lookback && -lookback <= lookahead
    ensures Expand(open, anchor, lookback, lookahead).Ok? <==>
            && open(anchor)
            && lookback <= Count(open, anchor - SLICE_DAYS, anchor)
            && lookahead <= Count(open, anchor + 1, anchor + SLICE_DAYS + 1)
    ensures Expand(open, anchor, lookback, lookahead) == Err(NotATradingDay) <==> !open(anchor)
  {
    var days := Sessions(open, anchor - SLICE_DAYS, anchor + SLICE_DAYS);
    SessionsAreTheOpenDays(open, anchor - SLICE_DAYS, anchor + SLICE_DAYS);
    IndexOfFinds(days, anchor);
    CountSplit(open, anchor - SLICE_DAYS, anchor, anchor + SLICE_DAYS + 1);
  }

  /** The position of a session of the slice is its rank, counted from the anchor's position. */
  lemma IndexIsRank(open: TradingCalendar, anchor: int, k: nat)
    requires open(anchor)
    requires k < |Sessions(open, anchor - SLICE_DAYS, anchor + SLICE_DAYS)|
    ensures var days := Sessions(open, anchor - SLICE_DAYS, anchor + SLICE_DAYS);
            IndexOf(days, anchor).Some? && k == IndexOf(days, anchor).value + Rank(open, anchor, days[k])
  {
    var lo := anchor - SLICE_DAYS;
    var days := Sessions(open, lo, anchor + SLICE_DAYS);
    SessionsAreTheOpenDays(open, lo, anchor + SLICE_DAYS);
    IndexOfFinds(days, anchor);
    assert days[k] in days;
    if anchor <= days[k] {
      CountSplit(open, lo, anchor, days[k]);
    } else {
      CountSplit(open, lo, days[k], anchor);
    }
  }

  /** A session outside the slice has more sessions between itself and the anchor than the slice holds on that side. */
  lemma BeyondSlice(open: TradingCalendar, anchor: int, n: int)
    requires open(anchor) && open(n)
    ensures n > anchor + SLICE_DAYS ==> Rank(open, anchor, n) > Count(open, anchor + 1, anchor + SLICE_DAYS + 1)
    ensures n < anchor - SLICE_DAYS ==> Rank(open, anchor, n) < 0 - Count(open, anchor - SLICE_DAYS, anchor)
  {
    if n > anchor + SLICE_DAYS {
      CountSplit(open, anchor + 1, anchor + SLICE_DAYS + 1, n);
    } else if n < anchor - SLICE_DAYS {
      CountSplit(open, n, anchor - SLICE_DAYS, anchor);
    }
  }

  /**
   A successful expansion is exactly the anchor's window in the unbounded calendar: in order, it holds the trading days,
   however far away, whose rank lies between `-lookback` and `lookahead`, and there are as many as that range has ranks.
   */
  lemma ExpandExact(open: TradingCalendar, anchor: int, lookback: int, lookahead: int)
    requires 0 <= lookback && -lookback <= lookahead
    requires Expand(open, anchor, lookback, lookahead).Ok?
    ensures var window := Expand(open, anchor, lookback, lookahead).value;
            && Ascending(window) && |window| == lookback + lookahead + 1
            && forall n :: n in window <==> open(n) && -lookback <= Rank(open, anchor, n) <= lookahead
  {
    SessionsAreTheOpenDays(open, anchor - SLICE_DAYS, anchor + SLICE_DAYS);
    forall n
      ensures n in Expand(open, anchor, lookback, lookahead).value <==> open(n) && -lookback <= Rank(open, anchor, n) <= lookahead
    {
      WindowMember(open, anchor, lookback, lookahead, n);
    }
  }

  lemma WindowMember(open: TradingCalendar, anchor: int, lookback: int, lookahead: int, n: int)
    requires 0 <= lookback && -lookback <= lookahead
    requires Expand(open, anchor, lookback, lookahead).Ok?
    ensures n in Expand(open, anchor, lookback, lookahead).value <==>
            open(n) && -lookback <= Rank(open, anchor, n) <= lookahead
  {
    var days := Sessions(open, anchor - SLICE_DAYS, anchor + SLICE_DAYS);
    var i := IndexOf(days, anchor).value;
    if n in days {
      assert open(n) by { SessionsAreTheOpenDays(open, anchor - SLICE_DAYS, anchor + SLICE_DAYS); }
      assert open(anchor) by { ExpandOkIff(open, anchor, lookback, lookahead); }
      forall k: nat | k < |days| && days[k] == n ensures k == i + Rank(open, anchor, n) {
        IndexIsRank(open, anchor, k);
      }
      InsideByRank(days, i, lookback, lookahead, n, Rank(open, anchor, n));
    } else {
      SliceIsPart(days, i - lookback, i + lookahead + 1);
      if open(n) { OutsideByRank(open, anchor, lookback, lookahead, n); }
    }
  }

  lemma SliceMember(s: seq<int>, a: nat, b: nat, x: int)
    requires a <= b <= |s|
    ensures x in s[a..b] <==> exists k: nat :: a <= k < b && s[k] == x
  {
    if k: nat :| a <= k < b && s[k] == x { assert s[a..b][k - a] == x; }
  }

  lemma InsideByRank(days: seq<int>, i: nat, lookback: int, lookahead: int, n: int, rank: int)
    requires 0 <= i - lookback <= i + lookahead + 1 <= |days| && n in days
    requires forall k: nat :: k < |days| && days[k] == n ==> k == i + rank
    ensures n in days[i - lookback..i + lookahead + 1] <==> -lookback <= rank <= lookahead
  {
    var k: nat :| k < |days| && days[k] == n;
    SliceMember(days, i - lookback, i + lookahead + 1, n);
  }

  lemma OutsideByRank(open: TradingCalendar, anchor: int, lookback: int, lookahead: int, n: int)
    requires 0 <= lookback && -lookback <= lookahead
    requires Expand(open, anchor, lookback, lookahead).Ok?
    requires open(n) && n !in Sessions(open, anchor - SLICE_DAYS, anchor + SLICE_DAYS)
    ensures !(-lookback <= Rank(open, anchor, n) <= lookahead)
  {
    ExpandOkIff(open, anchor, lookback, lookahead);
    SessionsAreTheOpenDays(open, anchor - SLICE_DAYS, anchor + SLICE_DAYS);
    BeyondSlice(open, anchor, n);
  }

  lemma SliceIsPart(s: seq<int>, a: nat, b: nat)
    requires a <= b <= |s|
    ensures forall x :: x in s[a..b] ==> x in s
  {
  }

  // ---------------------------------------------------------------------------
  // Counting closures

  function Closed(open: TradingCalendar): TradingCalendar {
    n => WeekdayDay(n) && !open(n)
  }

  /** Weekdays of [lo, hi) on which the exchange is closed. */
  function Closures(open: TradingCalendar, lo: int, hi: int): nat {
    Count(Closed(open), lo, hi)
  }

  lemma {:induction false} OpenPlusClosed(open: TradingCalendar, lo: int, hi: int)
    requires ClosedOnWeekends(open)
    ensures Count(open, lo, hi) + Closures(open, lo, hi) == Count(WeekdayDay, lo, hi)
    decreases hi - lo
  {
    if lo < hi { OpenPlusClosed(open, lo + 1, hi); }
  }

  lemma WeekHasFiveWeekdays(lo: int)
    ensures Count(WeekdayDay, lo, lo + 7) == 5
  {
    WeekdayShift(lo, 1);
    WeekdayShift(lo, 2);
    WeekdayShift(lo, 3);
    WeekdayShift(lo, 4);
    WeekdayShift(lo, 5);
    WeekdayShift(lo, 6);
    assert Count(WeekdayDay, lo + 6, lo + 7) == if WeekdayDay(lo + 6) then 1 else 0;
    assert Count(WeekdayDay, lo + 4, lo + 7) == Count(WeekdayDay, lo + 6, lo + 7)
      + (if WeekdayDay(lo + 5) then 1 else 0) + (if WeekdayDay(lo + 4) then 1 else 0);
    assert Count(WeekdayDay, lo + 2, lo + 7) == Count(WeekdayDay, lo + 4, lo + 7)
      + (if WeekdayDay(lo + 3) then 1 else 0) + (if WeekdayDay(lo + 2) then 1 else 0);
  }

  /** Fourteen days hold exactly ten weekdays, so the 14-day slices tolerate `10 - lookback` and `10 - lookahead` closures. */
  lemma ToleratedClosures(open: TradingCalendar, anchor: int, lookback: int, lookahead: int)
    requires ClosedOnWeekends(open)
    requires 0 <= lookback && -lookback <= lookahead
    ensures Expand(open, anchor, lookback, lookahead).Ok? <==>
            && open(anchor)
            && Closures(open, anchor - SLICE_DAYS, anchor) <= 10 - lookback
            && Closures(open, anchor + 1, anchor + SLICE_DAYS + 1) <= 10 - lookahead
  {
    ExpandOkIff(open, anchor, lookback, lookahead);
    FortnightCounts(open, anchor - SLICE_DAYS);
    FortnightCounts(open, anchor + 1);
  }

  lemma FortnightCounts(open: TradingCalendar, lo: int)
    requires ClosedOnWeekends(open)
    ensures Count(open, lo, lo + 14) + Closures(open, lo, lo + 14) == 10
  {
    OpenPlusClosed(open, lo, lo + 14);
    CountSplit(WeekdayDay, lo, lo + 7, lo + 14);
    WeekHasFiveWeekdays(lo);
    WeekHasFiveWeekdays(lo + 7);
  }

  lemma {:induction false} NoClosuresIff(open: TradingCalendar, lo: int, hi: int)
    ensures Closures(open, lo, hi) == 0 <==> forall n :: lo <= n < hi && WeekdayDay(n) ==> open(n)
    decreases hi - lo
  {
    if lo < hi {
      NoClosuresIff(open, lo + 1, hi);
    }
  }

  // ---------------------------------------------------------------------------
  // The election window

  /** `us_general_election_date`: the day after the first Monday on or after 1 November. */
  function ElectionDate(year: int): int {
    DayAfterFirstMonday(MonthStart(year, 11))
  }

  function DayAfterFirstMonday(first: int): int {
    first + (MONDAY - Weekday(first)) % 7 + 1
  }

  lemma DayAfterFirstMondayIff(first: int, n: int)
    ensures n == DayAfterFirstMonday(first) <==> first + 1 <= n <= first + 7 && Weekday(n) == 1
  {
    var w := Weekday(first);
    assert (0 - w) % 7 == if w == 0 then 0 else 7 - w;
    if first <= n <= first + 7 { WeekdayShift(first, n - first); }
    WeekdayShift(first, DayAfterFirstMonday(first) - first);
  }

  /** The election falls on the one Tuesday between 2 and 8 November. */
  lemma ElectionIsTheTuesday(year: int, n: int)
    ensures n == ElectionDate(year) <==> MonthStart(year, 11) + 1 <= n <= MonthStart(year, 11) + 7 && Weekday(n) == 1
  {
    DayAfterFirstMondayIff(MonthStart(year, 11), n);
  }

  lemma TuesdayToFourthThursday(first: int, tuesday: int, thursday: int)
    requires first + 1 <= tuesday <= first + 7 && Weekday(tuesday) == 1
    requires first + 21 <= thursday <= first + 27 && Weekday(thursday) == THURSDAY
    ensures thursday - tuesday == 16 || thursday - tuesday == 23
  {
  }

  /** The fourth Thursday of November is 16 or 23 days after the election, beyond the slice of 14 days that follow it. */
  lemma ThanksgivingAfterSlice(year: int, thanksgiving: int)
    requires NthWeekdayOf(year, 11, THURSDAY, 3, thanksgiving)
    ensures thanksgiving - ElectionDate(year) in {16, 23}
  {
    ElectionIsTheTuesday(year, ElectionDate(year));
    TuesdayToFourthThursday(MonthStart(year, 11), ElectionDate(year), thanksgiving);
  }

  lemma LongWindowIff(open: TradingCalendar, e: int)
    requires ClosedOnWeekends(open)
    ensures Expand(open, e, 5, 10).Ok? <==>
            && open(e)
            && Closures(open, e - SLICE_DAYS, e) <= 5
            && forall n :: e < n <= e + SLICE_DAYS && WeekdayDay(n) ==> open(n)
  {
    ToleratedClosures(open, e, 5, 10);
    NoClosuresIff(open, e + 1, e + SLICE_DAYS + 1);
  }

  /** The (5, 10) election window tolerates no closure at all in the 14 days after the election. */
  lemma ElectionWindowIff(open: TradingCalendar, year: int)
    requires ClosedOnWeekends(open)
    ensures var e := ElectionDate(year);
            Expand(open, e, 5, 10).Ok? <==>
            && open(e)
            && Closures(open, e - SLICE_DAYS, e) <= 5
            && forall n :: e < n <= e + SLICE_DAYS && WeekdayDay(n) ==> open(n)
  {
    LongWindowIff(open, ElectionDate(year));
  }

  /** When the fourth Thursday of November is the only closure there can be after the election, the window always exists. */
  lemma ElectionWindowSurvivesThanksgiving(open: TradingCalendar, year: int, thanksgiving: int)
    requires ClosedOnWeekends(open) && NthWeekdayOf(year, 11, THURSDAY, 3, thanksgiving)
    requires var e := ElectionDate(year);
             && open(e) && Closures(open, e - SLICE_DAYS, e) <= 5
             && forall n :: e < n <= e + SLICE_DAYS && WeekdayDay(n) && !open(n) ==> n == thanksgiving
    ensures Expand(open, ElectionDate(year), 5, 10).Ok?
  {
    ElectionWindowIff(open, year);
    ThanksgivingAfterSlice(year, thanksgiving);
  }
}
