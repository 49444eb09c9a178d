/** Monthly options expiry (src/regime_data_fetch/expiry_calendar.py). */
module ExpiryCalendar {
  import opened Wrappers
  import opened Calendar
  import opened TradingWindows

  datatype ExpiryError = NoPriorTradingDay | EndBeforeStart

  /** `_third_friday`. */
  function ThirdFriday(year: int, month: int): int
    requires 1 <= month <= 12
  {
    MonthStart(year, month) + NthDay(year, month, FRIDAY, 2) - 1
  }

  /** It is the one Friday from the 15th to the 21st of the month. */
  lemma ThirdFridayIff(year: int, month: int, n: int)
    requires 1 <= month <= 12
    ensures n == ThirdFriday(year, month) <==>
            MonthStart(year, month) + 14 <= n <= MonthStart(year, month) + 20 && Weekday(n) == FRIDAY
  {
    if NthWeekdayOf(year, month, FRIDAY, 2, n) { NthWeekdayUnique(year, month, FRIDAY, 2, n, ThirdFriday(year, month)); }
  }

  function MonthEnd(year: int, month: int): int
    requires 1 <= month <= 12
  {
    MonthStart(year, month) + DaysInMonth(year, month) - 1
  }

  function Before(days: seq<int>, limit: int): seq<int> {
    if days == [] then [] else (if days[0] < limit then [days[0]] else []) + Before(days[1..], limit)
  }

  /** The choice `compute_monthly_options_expiry_anchor` makes among the trading days of a month. */
  function PickAnchor(days: seq<int>, thirdFriday: int): Result<int, ExpiryError> {
    if thirdFriday in days then Ok(thirdFriday)
    else
      var prior := Before(days, thirdFriday);
      if prior == [] then Err(NoPriorTradingDay) else Ok(prior[|prior| - 1])
  }

  /** `compute_monthly_options_expiry_anchor`. */
  function Anchor(open: TradingCalendar, year: int, month: int): Result<int, ExpiryError>
    requires 1 <= month <= 12
  {
    PickAnchor(Sessions(open, MonthStart(year, month), MonthEnd(year, month)), ThirdFriday(year, month))
  }

  lemma {:induction false} BeforeContents(days: seq<int>, limit: int)
    requires Ascending(days)
    ensures Ascending(Before(days, limit))
    ensures forall x :: x in Before(days, limit) <==> x in days && x < limit
  {
    if days != [] {
      BeforeContents(days[1..], limit);
      assert forall x :: x in days <==> x == days[0] || x in days[1..];
      var rest := Before(days[1..], limit);
      forall i | 0 <= i < |rest| ensures days[0] < rest[i] {
        assert rest[i] in days[1..];
      }
    }
  }

  /** The days are in order and are the trading days from `lo` to `hi`. */
  ghost predicate TradingDays(open: TradingCalendar, lo: int, hi: int, days: seq<int>) {
    Ascending(days) && forall n :: n in days <==> lo <= n <= hi && open(n)
  }

  lemma PriorDays(open: TradingCalendar, lo: int, hi: int, friday: int, days: seq<int>)
    requires TradingDays(open, lo, hi, days) && lo <= friday <= hi
    ensures TradingDays(open, lo, friday - 1, Before(days, friday))
  {
    BeforeContents(days, friday);
  }

  lemma PickAnchorLast(open: TradingCalendar, lo: int, hi: int, friday: int)
    requires lo <= friday <= hi
    ensures var picked := PickAnchor(Sessions(open, lo, hi), friday);
            && (picked.Ok? ==> open(picked.value) && lo <= picked.value <= friday
                               && forall n :: picked.value < n <= friday ==> !open(n))
            && (picked.Err? <==> forall n :: lo <= n <= friday ==> !open(n))
  {
    SessionsAreTheOpenDays(open, lo, hi);
    PickAmong(open, lo, hi, friday, Sessions(open, lo, hi));
  }

  lemma PickAmong(open: TradingCalendar, lo: int, hi: int, friday: int, days: seq<int>)
    requires lo <= friday <= hi && TradingDays(open, lo, hi, days)
    ensures var picked := PickAnchor(days, friday);
            && (picked.Ok? ==> open(picked.value) && lo <= picked.value <= friday
                               && forall n :: picked.value < n <= friday ==> !open(n))
            && (picked.Err? <==> forall n :: lo <= n <= friday ==> !open(n))
  {
    if friday !in days {
      var prior := Before(days, friday);
      PriorDays(open, lo, hi, friday, days);
      if prior != [] {
        LastIsGreatest(prior);
      } else {
        forall n | lo <= n < friday ensures !open(n) { assert n !in prior; }
      }
    }
  }

  lemma LastIsGreatest(days: seq<int>)
    requires Ascending(days) && days != []
    ensures days[|days| - 1] in days && forall n :: n in days ==> n <= days[|days| - 1]
  {
  }

  /** The anchor is the month's last session on or before the Friday from the 15th to the 21st; it fails if there is none. */
  lemma AnchorIsLastSession(open: TradingCalendar, year: int, month: int, friday: int)
    requires 1 <= month <= 12
    requires MonthStart(year, month) + 14 <= friday <= MonthStart(year, month) + 20 && Weekday(friday) == FRIDAY
    ensures var a := Anchor(open, year, month);
            && (a.Ok? ==> open(a.value) && MonthStart(year, month) <= a.value <= friday
                          && forall n :: a.value < n <= friday ==> !open(n))
            && (a.Err? <==> forall n :: MonthStart(year, month) <= n <= friday ==> !open(n))
  {
    ThirdFridayIff(year, month, friday);
    PickAnchorLast(open, MonthStart(year, month), MonthEnd(year, month), friday);
  }

  /** The anchors of `count` months, or the failure of the first month without one; `at` gives a month's anchor. */
  function AnchorsFrom(at: int -> Result<int, ExpiryError>, first: int, count: nat): Result<seq<int>, ExpiryError>
    decreases count
  {
    if count == 0 then Ok([])
    else
      match AnchorsFrom(at, first, count - 1)
      case Err(e) => Err(e)
      case Ok(done) =>
        match at(first + count - 1)
        case Err(e) => Err(e)
        case Ok(anchor) => Ok(done + [anchor])
  }

  lemma {:induction false} FailureStays(at: int -> Result<int, ExpiryError>, first: int, m: nat, n: nat)
    requires m <= n && AnchorsFrom(at, first, m).Err?
    ensures AnchorsFrom(at, first, n) == AnchorsFrom(at, first, m)
    decreases n
  {
    if m < n { FailureStays(at, first, m, n - 1); }
  }

  /** Month `k` fails with this error, and no earlier month from `first` on fails. */
  predicate FirstFailure(at: int -> Result<int, ExpiryError>, first: int, k: int, error: ExpiryError) {
    at(k) == Err(error) && forall j :: first <= j < k ==> at(j).Ok?
  }

  /** There is one anchor a month, in order; a failure is that of the first month without an anchor. */
  lemma {:induction false} AnchorsMeaning(at: int -> Result<int, ExpiryError>, first: int, count: nat)
    ensures var r := AnchorsFrom(at, first, count);
            r.Ok? ==> |r.value| == count && forall k :: first <= k < first + count ==> at(k) == Ok(r.value[k - first])
    ensures var r := AnchorsFrom(at, first, count);
            r.Err? ==> exists k :: first <= k < first + count && FirstFailure(at, first, k, r.error)
    decreases count
  {
    if count > 0 {
      AnchorsMeaning(at, first, count - 1);
      if AnchorsFrom(at, first, count - 1).Ok? && at(first + count - 1).Err? {
        assert FirstFailure(at, first, first + count - 1, AnchorsFrom(at, first, count).error);
      }
    }
  }

  /** A function of months, by month index. */
  function ByIndex<R>(of: (int, int) -> R): int -> R {
    k => of(k / 12, k % 12 + 1)
  }

  lemma ByIndexIs<R>(of: (int, int) -> R, year: int, month: int)
    requires 1 <= month <= 12
    ensures ByIndex(of)(MonthIndex(year, month)) == of(year, month)
  {
    IndexParts(year, month);
  }

  function MonthAnchors(open: TradingCalendar): (int, int) -> Result<int, ExpiryError> {
    (year, month) => if 1 <= month <= 12 then Anchor(open, year, month) else Err(NoPriorTradingDay)
  }

  /** The anchors of all months, by index. */
  function AnchorsOf(open: TradingCalendar): int -> Result<int, ExpiryError> {
    ByIndex(MonthAnchors(open))
  }

  /** `build_monthly_options_expiry_anchors`. */
  method BuildAnchors(open: TradingCalendar, startDate: Date, endDate: Date) returns (result: Result<seq<int>, ExpiryError>)
    requires startDate.Valid() && endDate.Valid()
    ensures endDate.Ord() < startDate.Ord() ==> result == Err(EndBeforeStart)
    ensures startDate.Ord() <= endDate.Ord() ==>
      startDate.Index() <= endDate.Index()
      && result == AnchorsFrom(AnchorsOf(open), startDate.Index(), endDate.Index() - startDate.Index() + 1)
  {
    if endDate.Ord() < startDate.Ord() {
      return Err(EndBeforeStart);
    }
    OrdOrder(startDate, endDate);
    result := AnchorLoop(AnchorsOf(open), startDate, endDate);
  }

  method AnchorLoop(at: int -> Result<int, ExpiryError>, startDate: Date, endDate: Date) returns (result: Result<seq<int>, ExpiryError>)
    requires startDate.Valid() && endDate.Valid() && startDate.Index() <= endDate.Index()
    ensures result == AnchorsFrom(at, startDate.Index(), endDate.Index() - startDate.Index() + 1)
  {
    ghost var first, count := startDate.Index(), 0;
    var anchors: seq<int> := [];
    var year, month := startDate.year, startDate.month;
    while year < endDate.year || (year == endDate.year && month <= endDate.month)
      invariant 1 <= month <= 12
      invariant MonthIndex(year, month) == first + count <= endDate.Index() + 1
      invariant AnchorsFrom(at, first, count) == Ok(anchors)
      decreases endDate.Index() + 1 - MonthIndex(year, month)
    {
      var anchor := at(MonthIndex(year, month));
      if anchor.Err? {
        FailureStays(at, first, count + 1, endDate.Index() - first + 1);
        return Err(anchor.error);
      }
      anchors := anchors + [anchor.value];
      count := count + 1;
      if month == 12 {
        year, month := year + 1, 1;
      } else {
        month := month + 1;
      }
    }
    return Ok(anchors);
  }

  /** A list of months from `first` on has what is computed of each of its months, in order. */
  lemma ListedMonth(of: (int, int) -> Result<int, ExpiryError>, first: int, list: seq<int>, k: int, year: int, month: int)
    requires AnchorsFrom(ByIndex(of), first, |list|) == Ok(list)
    requires 1 <= month <= 12 && k == MonthIndex(year, month) && first <= k < first + |list|
    ensures of(year, month) == Ok(list[k - first])
  {
    AnchorsMeaning(ByIndex(of), first, |list|);
    ByIndexIs(of, year, month);
  }

  /** The list of the months from `first` on has the anchor of each of its months, in order. */
  lemma BuiltAnchors(open: TradingCalendar, first: int, anchors: seq<int>, k: int, year: int, month: int)
    requires AnchorsFrom(AnchorsOf(open), first, |anchors|) == Ok(anchors)
    requires 1 <= month <= 12 && k == MonthIndex(year, month) && first <= k < first + |anchors|
    ensures Anchor(open, year, month) == Ok(anchors[k - first])
  {
    ListedMonth(MonthAnchors(open), first, anchors, k, year, month);
  }

  // ---------------------------------------------------------------------------
  // Expiry windows stay within their month

  const EXPIRY_LOOKBACK := 2

  predicate ExpiryWindowExists(open: TradingCalendar, year: int, month: int)
    requires 1 <= month <= 12
  {
    Anchor(open, year, month).Ok? && Expand(open, Anchor(open, year, month).value, EXPIRY_LOOKBACK, 0).Ok?
  }

  /** The day belongs to the expiry window of a month. */
  predicate InExpiryWindow(open: TradingCalendar, year: int, month: int, n: int) {
    && 1 <= month <= 12 && ExpiryWindowExists(open, year, month)
    && n in Expand(open, Anchor(open, year, month).value, EXPIRY_LOOKBACK, 0).value
  }

  /** `friday` is the month's third Friday, and `anchor` the month's last session on or before it. */
  predicate IsAnchor(open: TradingCalendar, year: int, month: int, friday: int, anchor: int) {
    && 1 <= month <= 12
    && MonthStart(year, month) + 14 <= friday <= MonthStart(year, month) + 20 && Weekday(friday) == FRIDAY
    && MonthStart(year, month) <= anchor <= friday && open(anchor) && forall k :: anchor < k <= friday ==> !open(k)
  }

  /** `n` is the anchor's session or one of the two before it. */
  predicate ExpiryDay(open: TradingCalendar, year: int, month: int, friday: int, anchor: int, n: int) {
    IsAnchor(open, year, month, friday, anchor) && open(n) && -2 <= Rank(open, anchor, n) <= 0
  }

  lemma IsAnchorIff(open: TradingCalendar, year: int, month: int, anchor: int)
    requires 1 <= month <= 12
    ensures Anchor(open, year, month) == Ok(anchor) <==> exists friday :: IsAnchor(open, year, month, friday, anchor)
  {
    var third := ThirdFriday(year, month);
    ThirdFridayIff(year, month, third);
    AnchorIsLastSession(open, year, month, third);
    if Anchor(open, year, month) == Ok(anchor) { assert IsAnchor(open, year, month, third, anchor); }
    if friday :| IsAnchor(open, year, month, friday, anchor) { ThirdFridayIff(year, month, friday); }
  }

  /** Where a month's window exists, it has exactly these days. */
  lemma InExpiryWindowIff(open: TradingCalendar, year: int, month: int, n: int)
    requires 1 <= month <= 12 && ExpiryWindowExists(open, year, month)
    ensures InExpiryWindow(open, year, month, n) <==> exists friday, anchor :: ExpiryDay(open, year, month, friday, anchor, n)
  {
    var last := Anchor(open, year, month).value;
    IsAnchorIff(open, year, month, last);
    assert InExpiryWindow(open, year, month, n) <==> open(n) && -2 <= Rank(open, last, n) <= 0 by {
      ExpandExact(open, last, EXPIRY_LOOKBACK, 0);
    }
    if InExpiryWindow(open, year, month, n) {
      var friday :| IsAnchor(open, year, month, friday, last);
      assert ExpiryDay(open, year, month, friday, last, n);
    }
    if friday, anchor :| ExpiryDay(open, year, month, friday, anchor, n) { IsAnchorIff(open, year, month, anchor); }
  }

  predicate ThreeSessions(open: TradingCalendar, year: int, month: int)
    requires 1 <= month <= 12
  {
    Count(open, MonthStart(year, month), ThirdFriday(year, month) + 1) >= 3
  }

  lemma {:induction false} NoneOpen(open: TradingCalendar, lo: int, hi: int)
    requires forall n :: lo <= n < hi ==> !open(n)
    ensures Count(open, lo, hi) == 0
    decreases hi - lo
  {
    if lo < hi { NoneOpen(open, lo + 1, hi); }
  }

  /** A trading day within two sessions before the anchor lies between the first and the last day the window may touch. */
  lemma WithinTwoSessions(open: TradingCalendar, first: int, friday: int, anchor: int, n: int)
    requires first <= anchor <= friday && open(anchor) && forall k :: anchor < k <= friday ==> !open(k)
    requires Count(open, first, friday + 1) >= 3
    requires open(n) && -EXPIRY_LOOKBACK <= Rank(open, anchor, n) <= 0
    ensures first <= n <= friday
  {
    CountSplit(open, first, anchor + 1, friday + 1);
    NoneOpen(open, anchor + 1, friday + 1);
    CountSplit(open, first, anchor, anchor + 1);
    assert Count(open, first, anchor) >= 2;
    if n < first {
      CountSplit(open, n, first, anchor);
    }
  }

  lemma ExpiryDayBounds(open: TradingCalendar, year: int, month: int, friday: int, anchor: int, n: int)
    requires ExpiryDay(open, year, month, friday, anchor, n) && Count(open, MonthStart(year, month), friday + 1) >= 3
    ensures MonthStart(year, month) <= n <= friday
  {
    WithinTwoSessions(open, MonthStart(year, month), friday, anchor, n);
  }

  lemma ExpiryDayInMonth(open: TradingCalendar, year: int, month: int, n: int)
    requires InExpiryWindow(open, year, month, n) && ThreeSessions(open, year, month)
    ensures MonthStart(year, month) <= n <= ThirdFriday(year, month)
  {
    assert exists friday, anchor :: ExpiryDay(open, year, month, friday, anchor, n) by { InExpiryWindowIff(open, year, month, n); }
    var friday, anchor :| ExpiryDay(open, year, month, friday, anchor, n);
    assert friday == ThirdFriday(year, month) by { ThirdFridayIff(year, month, friday); }
    ExpiryDayBounds(open, year, month, friday, anchor, n);
  }

  /** A date can only lie in the expiry window of its own month. */
  lemma OwnMonthOnly(open: TradingCalendar, d: Date, year: int, month: int)
    requires d.Valid() && InExpiryWindow(open, year, month, d.Ord()) && ThreeSessions(open, year, month)
    ensures year == d.year && month == d.month
  {
    ExpiryDayInMonth(open, year, month, d.Ord());
    if MonthLess(year, month, d.year, d.month) {
      MonthsInOrder(year, month, d.year, d.month);
    } else if MonthLess(d.year, d.month, year, month) {
      MonthsInOrder(d.year, d.month, year, month);
    }
  }

  /** So testing the date's own month is testing all months. */
  lemma OwnMonthDecides(open: TradingCalendar, d: Date)
    requires d.Valid()
    requires forall year, month :: 1 <= month <= 12 ==> ThreeSessions(open, year, month)
    ensures InExpiryWindow(open, d.year, d.month, d.Ord()) <==> exists year, month :: InExpiryWindow(open, year, month, d.Ord())
  {
    var n := d.Ord();
    if year, month :| InExpiryWindow(open, year, month, n) {
      assert ThreeSessions(open, year, month);
      OwnMonthOnly(open, d, year, month);
    }
  }
}
