/**
 The session-coverage checks of scripts/publish_canonical_snapshot.py, scripts/profile_engine.py and
 scripts/_v2_calibration_helpers.py. Days are day numbers; a check returns the sessions it would raise about.
 */
module SessionCoverage {
  import opened Wrappers
  import Calendar

  /** A stretch of index membership; the end is exclusive. */
  datatype Interval = Interval(start: int, end: Option<int>)

  datatype PitRow = PitRow(ticker: string, interval: Interval)

  predicate Within(interval: Interval, day: int) {
    interval.start <= day && (interval.end.Some? ==> day < interval.end.value)
  }

  predicate ActiveOn(intervals: seq<Interval>, day: int) {
    exists i :: 0 <= i < |intervals| && Within(intervals[i], day)
  }

  function MinOf(days: seq<int>): (m: int)
    requires days != []
    ensures m in days && forall i :: 0 <= i < |days| ==> m <= days[i]
  {
    if |days| == 1 then days[0] else var m := MinOf(days[1..]); if days[0] < m then days[0] else m
  }

  function MaxOf(days: seq<int>): (m: int)
    requires days != []
    ensures m in days && forall i :: 0 <= i < |days| ==> days[i] <= m
  {
    if |days| == 1 then days[0] else var m := MaxOf(days[1..]); if days[0] > m then days[0] else m
  }

  predicate InRange(days: seq<int>, day: int) {
    days != [] && MinOf(days) <= day <= MaxOf(days)
  }

  // ---------------------------------------------------------------------------
  // Membership intervals

  /** The intervals of the rows that a reading of the ticker column assigns to the symbol. */
  function IntervalsFor(read: string -> string, rows: seq<PitRow>, symbol: string): seq<Interval> {
    if rows == [] then []
    else
      var init, last := IntervalsFor(read, rows[..|rows| - 1], symbol), rows[|rows| - 1];
      if read(last.ticker) == symbol then init + [last.interval] else init
  }

  function AsIs(ticker: string): string {
    ticker
  }

  type BySymbol = map<string, seq<Interval>>

  /** What `_daily_ohlcv_pit_active_intervals` returns: no key for a symbol without rows, nor for a blank ticker. */
  ghost predicate GroupsRows(groups: BySymbol, clean: string -> string, rows: seq<PitRow>) {
    forall symbol ::
      && (symbol in groups <==> symbol != "" && IntervalsFor(clean, rows, symbol) != [])
      && (symbol in groups ==> groups[symbol] == IntervalsFor(clean, rows, symbol))
  }

  /** `_daily_ohlcv_pit_active_intervals`; `clean` strips and upper-cases a ticker. */
  method ActiveIntervalsBySymbol(clean: string -> string, rows: seq<PitRow>) returns (groups: BySymbol)
    ensures GroupsRows(groups, clean, rows)
  {
    groups := map[];
    for i := 0 to |rows|
      invariant GroupsRows(groups, clean, rows[..i])
    {
      assert rows[..i + 1][..i] == rows[..i];
      var ticker := clean(rows[i].ticker);
      if ticker != "" {
        groups := groups[ticker := (if ticker in groups then groups[ticker] else []) + [rows[i].interval]];
      }
    }
    assert rows[..|rows|] == rows;
  }

  /** `_constituent_active_intervals`: tickers are compared as they stand. */
  method ConstituentActiveIntervals(rows: seq<PitRow>, ticker: string) returns (intervals: seq<Interval>)
    ensures intervals == IntervalsFor(AsIs, rows, ticker)
  {
    intervals := [];
    for i := 0 to |rows|
      invariant intervals == IntervalsFor(AsIs, rows[..i], ticker)
    {
      assert rows[..i + 1][..i] == rows[..i];
      if rows[i].ticker == ticker {
        intervals := intervals + [rows[i].interval];
      }
    }
    assert rows[..|rows|] == rows;
  }

  // ---------------------------------------------------------------------------
  // The publish-time check

  /** `_expected_symbol_sessions`. */
  method ExpectedSymbolSessions(symbol: string, dates: seq<int>, sessions: seq<int>, groups: Option<BySymbol>) returns (expected: set<int>)
    requires dates != []
    ensures forall day :: day in expected <==>
      && day in sessions && InRange(dates, day)
      && (groups.Some? ==> symbol in groups.value && ActiveOn(groups.value[symbol], day))
  {
    var first, last := MinOf(dates), MaxOf(dates);
    if groups.None? {
      return set day | day in sessions && first <= day <= last;
    }
    if symbol !in groups.value || groups.value[symbol] == [] {
      return {};
    }
    var intervals := groups.value[symbol];
    expected := {};
    for i := 0 to |intervals|
      invariant forall day :: day in expected <==> day in sessions && first <= day <= last && ActiveOn(intervals[..i], day)
    {
      ActiveSnoc(intervals, i);
      var active := set day | day in sessions && intervals[i].start <= day && first <= day <= last;
      if intervals[i].end.Some? {
        active := set day | day in active && day < intervals[i].end.value;
      }
      expected := expected + active;
    }
    assert intervals[..|intervals|] == intervals;
  }

  lemma ActiveSnoc(intervals: seq<Interval>, i: nat)
    requires i < |intervals|
    ensures forall day :: ActiveOn(intervals[..i + 1], day) <==> ActiveOn(intervals[..i], day) || Within(intervals[i], day)
  {
    forall day ensures ActiveOn(intervals[..i + 1], day) <==> ActiveOn(intervals[..i], day) || Within(intervals[i], day) {
      if ActiveOn(intervals[..i], day) {
        var j :| 0 <= j < i && Within(intervals[..i][j], day);
        assert intervals[..i + 1][j] == intervals[j];
      }
      assert intervals[..i + 1][i] == intervals[i];
      if ActiveOn(intervals[..i + 1], day) && !Within(intervals[i], day) {
        var j :| 0 <= j < i + 1 && Within(intervals[..i + 1][j], day);
        assert intervals[..i][j] == intervals[j];
      }
    }
  }

  /** The sessions that `_validate_daily_ohlcv_contract` misses. */
  ghost predicate PublishMisses(symbol: string, dates: seq<int>, sessions: Option<seq<int>>, groups: Option<BySymbol>, day: int) {
    && sessions.Some? && day in sessions.value && InRange(dates, day) && day !in dates
    && (groups.Some? ==> symbol in groups.value && ActiveOn(groups.value[symbol], day))
  }

  /** The calendar part of `_validate_daily_ohlcv_contract`. */
  method PublishGap(symbol: string, dates: seq<int>, sessions: Option<seq<int>>, groups: Option<BySymbol>) returns (missing: set<int>)
    ensures forall day :: day in missing <==> PublishMisses(symbol, dates, sessions, groups, day)
  {
    if sessions.None? || dates == [] {
      return {};
    }
    var expected := ExpectedSymbolSessions(symbol, dates, sessions.value, groups);
    missing := set day | day in expected && day !in dates;
  }

  // ---------------------------------------------------------------------------
  // The profile loader's check

  /** `_expected_constituent_sessions`. */
  method ExpectedConstituentSessions(observed: seq<int>, sessions: seq<int>, intervals: Option<seq<Interval>>) returns (expected: set<int>)
    requires observed != []
    ensures forall day :: day in expected <==>
      day in sessions && InRange(observed, day) && (intervals.Some? ==> ActiveOn(intervals.value, day))
  {
    var first, last := MinOf(observed), MaxOf(observed);
    if intervals.None? {
      return set day | day in sessions && first <= day <= last;
    }
    expected := {};
    for i := 0 to |intervals.value|
      invariant forall day :: day in expected <==> day in sessions && first <= day <= last && ActiveOn(intervals.value[..i], day)
    {
      ActiveSnoc(intervals.value, i);
      var active := set day | day in sessions && intervals.value[i].start <= day && first <= day <= last;
      if intervals.value[i].end.Some? {
        active := set day | day in active && day < intervals.value[i].end.value;
      }
      expected := expected + active;
    }
    assert intervals.value[..|intervals.value|] == intervals.value;
  }

  /** The sessions that `_require_constituent_calendar_coverage` misses. */
  predicate ProfileMisses(dates: seq<int>, sessions: seq<int>, intervals: Option<seq<Interval>>, day: int) {
    && day in sessions && InRange(dates, day) && day !in dates
    && (intervals.Some? ==> ActiveOn(intervals.value, day))
  }

  /** `_require_constituent_calendar_coverage`. */
  method ConstituentGap(dates: seq<int>, sessions: seq<int>, intervals: Option<seq<Interval>>) returns (missing: set<int>)
    ensures forall day :: day in missing <==> ProfileMisses(dates, sessions, intervals, day)
  {
    if dates == [] {
      return {};
    }
    var expected := ExpectedConstituentSessions(dates, sessions, intervals);
    missing := set day | day in expected && day !in dates;
  }

  /** `_require_calendar_gap_free`. */
  function CalendarGap(observed: seq<int>, expected: seq<int>): set<int> {
    if observed == [] then {}
    else (set day | day in expected && MinOf(observed) <= day <= MaxOf(observed)) - (set day | day in observed)
  }

  // ---------------------------------------------------------------------------
  // Loading a tree

  /** The rows of a frame dated from `start` to `end`. */
  function Slice(dates: seq<int>, start: int, end: int): seq<int> {
    if dates == [] then []
    else if start <= dates[0] <= end then [dates[0]] + Slice(dates[1..], start, end)
    else Slice(dates[1..], start, end)
  }

  const COVERAGE_START := Calendar.Date(2016, 1, 4).Ord()

  datatype LoadError = MissingFile(ticker: string) | CoverageGap(ticker: string, missing: set<int>)

  /** The latest end date among a ticker's rows; open intervals are passed over. */
  function LatestExit(rows: seq<PitRow>, ticker: string): Option<int> {
    if rows == [] then None
    else
      var init, last := LatestExit(rows[..|rows| - 1], ticker), rows[|rows| - 1];
      if last.ticker != ticker || last.interval.end.None? then init
      else if init.Some? && init.value >= last.interval.end.value then init
      else last.interval.end
  }

  /** A ticker without a file may be passed over if it left the index before the price data begin. */
  predicate LeftEarly(rows: seq<PitRow>, ticker: string) {
    var exit := LatestExit(rows, ticker);
    exit.Some? && exit.value < COVERAGE_START
  }

  /** A row of the ticker ends its membership on the day. */
  predicate EndsOn(row: PitRow, ticker: string, day: int) {
    row.ticker == ticker && row.interval.end == Some(day)
  }

  /** The latest exit is the greatest end date of the ticker's rows, and missing where none of them has one. */
  lemma {:induction false} LatestExitIff(rows: seq<PitRow>, ticker: string)
    ensures LatestExit(rows, ticker).None? ==> forall i, day :: 0 <= i < |rows| ==> !EndsOn(rows[i], ticker, day)
    ensures LatestExit(rows, ticker).Some? ==>
              var exit := LatestExit(rows, ticker).value;
              && (exists i :: 0 <= i < |rows| && EndsOn(rows[i], ticker, exit))
              && forall i, day :: 0 <= i < |rows| && EndsOn(rows[i], ticker, day) ==> day <= exit
  {
    if rows != [] {
      var init := rows[..|rows| - 1];
      LatestExitIff(init, ticker);
      assert forall i :: 0 <= i < |init| ==> init[i] == rows[i];
      var exit := LatestExit(rows, ticker);
      if exit.Some? && exit == LatestExit(init, ticker) {
        var i :| 0 <= i < |init| && EndsOn(init[i], ticker, exit.value);
        assert EndsOn(rows[i], ticker, exit.value);
      } else if exit.Some? {
        assert EndsOn(rows[|rows| - 1], ticker, exit.value);
      }
    }
  }

  /** A ticker may be absent exactly if its rows have an end date and all of them lie before the price data begin. */
  lemma LeftEarlyIff(rows: seq<PitRow>, ticker: string)
    ensures LeftEarly(rows, ticker) <==>
            && (exists i, day :: 0 <= i < |rows| && EndsOn(rows[i], ticker, day))
            && (forall i, day :: 0 <= i < |rows| && EndsOn(rows[i], ticker, day) ==> day < Calendar.Date(2016, 1, 4).Ord())
  {
    LatestExitIff(rows, ticker);
  }

  /** What `_load_constituent_ohlcv_from_tree` accepts of a ticker. */
  predicate Loadable(tree: map<string, seq<int>>, rows: seq<PitRow>, start: int, end: int, sessions: Option<seq<int>>, ticker: string) {
    if ticker !in tree then LeftEarly(rows, ticker)
    else sessions.Some? ==>
      forall day :: day in sessions.value ==>
        !ProfileMisses(Slice(tree[ticker], start, end), sessions.value, Some(IntervalsFor(AsIs, rows, ticker)), day)
  }

  /** What is raised about a ticker that is not loadable. */
  ghost predicate RaisedAbout(tree: map<string, seq<int>>, rows: seq<PitRow>, start: int, end: int, sessions: Option<seq<int>>,
                        ticker: string, error: LoadError) {
    if ticker !in tree then error == MissingFile(ticker)
    else
      && error.CoverageGap? && error.ticker == ticker && error.missing != {} && sessions.Some?
      && forall day :: day in error.missing <==>
           ProfileMisses(Slice(tree[ticker], start, end), sessions.value, Some(IntervalsFor(AsIs, rows, ticker)), day)
  }

  lemma SomeElement(s: set<int>) returns (x: int)
    requires s != {}
    ensures x in s
  {
    assert exists y :: y in s by {
      if forall y :: y !in s { assert false; }
    }
    x :| x in s;
  }

  /** `_load_constituent_ohlcv_from_tree` over the dates of the overlapping tickers. */
  method LoadTree(tree: map<string, seq<int>>, rows: seq<PitRow>, tickers: seq<string>, start: int, end: int, sessions: Option<seq<int>>)
    returns (result: Result<map<string, seq<int>>, LoadError>)
    ensures result.Ok? <==> forall i :: 0 <= i < |tickers| ==> Loadable(tree, rows, start, end, sessions, tickers[i])
    ensures result.Err? ==>
      exists i :: 0 <= i < |tickers| && RaisedAbout(tree, rows, start, end, sessions, tickers[i], result.error)
                  && forall j :: 0 <= j < i ==> Loadable(tree, rows, start, end, sessions, tickers[j])
    ensures result.Ok? ==> forall ticker ::
      && (ticker in result.value <==> ticker in tickers && ticker in tree && Slice(tree[ticker], start, end) != [])
      && (ticker in result.value ==> result.value[ticker] == Slice(tree[ticker], start, end))
  {
    var out: map<string, seq<int>> := map[];
    for i := 0 to |tickers|
      invariant forall j :: 0 <= j < i ==> Loadable(tree, rows, start, end, sessions, tickers[j])
      invariant forall ticker ::
        && (ticker in out <==> ticker in tickers[..i] && ticker in tree && Slice(tree[ticker], start, end) != [])
        && (ticker in out ==> out[ticker] == Slice(tree[ticker], start, end))
    {
      var ticker := tickers[i];
      assert tickers[..i + 1] == tickers[..i] + [ticker];
      if ticker !in tree {
        if LeftEarly(rows, ticker) {
          continue;
        }
        return Err(MissingFile(ticker));
      }
      var frame := Slice(tree[ticker], start, end);
      if frame == [] {
        continue;
      }
      if sessions.Some? {
        var intervals := ConstituentActiveIntervals(rows, ticker);
        var missing := ConstituentGap(frame, sessions.value, Some(intervals));
        if missing != {} {
          ghost var day := SomeElement(missing);
          assert ProfileMisses(frame, sessions.value, Some(intervals), day);
          return Err(CoverageGap(ticker, missing));
        }
      }
      out := out[ticker := frame];
    }
    assert tickers[..|tickers|] == tickers;
    return Ok(out);
  }

  // ---------------------------------------------------------------------------
  // One check implies the other

  lemma {:induction false} SliceHas(dates: seq<int>, start: int, end: int, day: int)
    ensures day in Slice(dates, start, end) <==> day in dates && start <= day <= end
  {
    if dates != [] { SliceHas(dates[1..], start, end, day); }
  }

  lemma RangeOf(days: seq<int>, day: int)
    requires day in days
    ensures InRange(days, day)
  {
    var i :| 0 <= i < |days| && days[i] == day;
  }

  /** Between the first and the last date of a slice nothing is cut away. */
  lemma SliceRange(dates: seq<int>, start: int, end: int, day: int)
    requires InRange(Slice(dates, start, end), day)
    ensures start <= day <= end && InRange(dates, day) && (day in Slice(dates, start, end) <==> day in dates)
  {
    var slice := Slice(dates, start, end);
    SliceHas(dates, start, end, day);
    SliceHas(dates, start, end, MinOf(slice));
    SliceHas(dates, start, end, MaxOf(slice));
    RangeOf(dates, MinOf(slice));
    RangeOf(dates, MaxOf(slice));
  }

  lemma {:induction false} ExactIsAmong(clean: string -> string, rows: seq<PitRow>, symbol: string, day: int)
    requires clean(symbol) == symbol && ActiveOn(IntervalsFor(AsIs, rows, symbol), day)
    ensures ActiveOn(IntervalsFor(clean, rows, symbol), day)
  {
    var init, last := rows[..|rows| - 1], rows[|rows| - 1];
    var exact, cleaned := IntervalsFor(AsIs, init, symbol), IntervalsFor(clean, init, symbol);
    if ActiveOn(exact, day) {
      ExactIsAmong(clean, init, symbol, day);
      var i :| 0 <= i < |cleaned| && Within(cleaned[i], day);
      assert Within(IntervalsFor(clean, rows, symbol)[i], day);
    } else {
      var i :| 0 <= i < |IntervalsFor(AsIs, rows, symbol)| && Within(IntervalsFor(AsIs, rows, symbol)[i], day);
      assert forall k :: 0 <= k < |exact| ==> IntervalsFor(AsIs, rows, symbol)[k] == exact[k];
      assert Within(IntervalsFor(clean, rows, symbol)[|cleaned|], day);
    }
  }

  ghost predicate PublishPasses(symbol: string, dates: seq<int>, sessions: seq<int>, groups: Option<BySymbol>) {
    forall day :: !PublishMisses(symbol, dates, Some(sessions), groups, day)
  }

  ghost predicate ProfilePasses(dates: seq<int>, sessions: seq<int>, intervals: Option<seq<Interval>>) {
    forall day :: !ProfileMisses(dates, sessions, intervals, day)
  }

  /** Wherever the loader takes the symbol for active, so does publishing. */
  ghost predicate ActiveAmong(symbol: string, groups: Option<BySymbol>, intervals: Option<seq<Interval>>) {
    && (groups.Some? <==> intervals.Some?)
    && (groups.Some? ==> forall day :: ActiveOn(intervals.value, day) ==> symbol in groups.value && ActiveOn(groups.value[symbol], day))
  }

  /** What the profile loader misses in a slice, the publish-time check misses in the whole. */
  lemma SlicesPass(symbol: string, dates: seq<int>, sessions: seq<int>, groups: Option<BySymbol>, intervals: Option<seq<Interval>>,
                   start: int, end: int)
    requires ActiveAmong(symbol, groups, intervals) && PublishPasses(symbol, dates, sessions, groups)
    ensures ProfilePasses(Slice(dates, start, end), sessions, intervals)
  {
    forall day ensures !ProfileMisses(Slice(dates, start, end), sessions, intervals, day) {
      assert !PublishMisses(symbol, dates, Some(sessions), groups, day);
      if InRange(Slice(dates, start, end), day) { SliceRange(dates, start, end, day); }
    }
  }

  /** The intervals that publishing looks up for a symbol. */
  function LookedUp(symbol: string, groups: Option<BySymbol>): Option<seq<Interval>> {
    if groups.None? then None else if symbol in groups.value then Some(groups.value[symbol]) else Some([])
  }

  ghost predicate AllSlicesPass(dates: seq<int>, sessions: seq<int>, intervals: Option<seq<Interval>>) {
    forall start, end :: ProfilePasses(Slice(dates, start, end), sessions, intervals)
  }

  /** With one reading of the intervals, publishing accepts exactly the dates of which the loader accepts every slice. */
  lemma PublishIsAllSlices(symbol: string, dates: seq<int>, sessions: seq<int>, groups: Option<BySymbol>)
    ensures PublishPasses(symbol, dates, sessions, groups) <==> AllSlicesPass(dates, sessions, LookedUp(symbol, groups))
  {
    var intervals := LookedUp(symbol, groups);
    if PublishPasses(symbol, dates, sessions, groups) {
      forall start, end ensures ProfilePasses(Slice(dates, start, end), sessions, intervals) {
        SlicesPass(symbol, dates, sessions, groups, intervals, start, end);
      }
    }
    if AllSlicesPass(dates, sessions, intervals) && dates != [] {
      SliceAll(dates, MinOf(dates), MaxOf(dates));
      WholePasses(symbol, dates, sessions, groups, MinOf(dates), MaxOf(dates));
    }
  }

  lemma WholePasses(symbol: string, dates: seq<int>, sessions: seq<int>, groups: Option<BySymbol>, start: int, end: int)
    requires Slice(dates, start, end) == dates && ProfilePasses(Slice(dates, start, end), sessions, LookedUp(symbol, groups))
    ensures PublishPasses(symbol, dates, sessions, groups)
  {
    forall day ensures !PublishMisses(symbol, dates, Some(sessions), groups, day) {
      assert !ProfileMisses(dates, sessions, LookedUp(symbol, groups), day);
    }
  }

  lemma {:induction false} SliceAll(dates: seq<int>, start: int, end: int)
    requires forall i :: 0 <= i < |dates| ==> start <= dates[i] <= end
    ensures Slice(dates, start, end) == dates
  {
    if dates != [] { SliceAll(dates[1..], start, end); }
  }

  /** A symbol that cleaning leaves alone and that passed the publish-time check passes the loader's check for every slice. */
  lemma CoverageInherited(clean: string -> string, rows: seq<PitRow>, groups: BySymbol, symbol: string, dates: seq<int>, sessions: seq<int>)
    requires GroupsRows(groups, clean, rows) && clean(symbol) == symbol && symbol != ""
    requires PublishPasses(symbol, dates, sessions, Some(groups))
    ensures AllSlicesPass(dates, sessions, Some(IntervalsFor(AsIs, rows, symbol)))
  {
    forall day | ActiveOn(IntervalsFor(AsIs, rows, symbol), day) ensures symbol in groups && ActiveOn(groups[symbol], day) {
      ExactIsAmong(clean, rows, symbol, day);
    }
    forall start, end ensures ProfilePasses(Slice(dates, start, end), sessions, Some(IntervalsFor(AsIs, rows, symbol))) {
      SlicesPass(symbol, dates, sessions, Some(groups), Some(IntervalsFor(AsIs, rows, symbol)), start, end);
    }
  }

  ghost predicate Idempotent(clean: string -> string) {
    forall text :: clean(clean(text)) == clean(text)
  }

  lemma {:induction false} NoTickerCleansTo(clean: string -> string, rows: seq<PitRow>, symbol: string)
    requires Idempotent(clean) && clean(symbol) != symbol
    ensures IntervalsFor(clean, rows, symbol) == []
  {
    if rows != [] {
      NoTickerCleansTo(clean, rows[..|rows| - 1], symbol);
      assert clean(clean(rows[|rows| - 1].ticker)) == clean(rows[|rows| - 1].ticker);
    }
  }

  /** The failing case: a blank symbol, or one that cleaning changes, has no intervals at publish time and passes with any gap. */
  lemma UncleanSymbolUncovered(clean: string -> string, rows: seq<PitRow>, groups: BySymbol, symbol: string, day: int)
    requires GroupsRows(groups, clean, rows) && Idempotent(clean) && (symbol == "" || clean(symbol) != symbol)
    requires ActiveOn(IntervalsFor(AsIs, rows, symbol), day)
    ensures PublishPasses(symbol, [day - 1, day + 1], [day], Some(groups))
    ensures !AllSlicesPass([day - 1, day + 1], [day], Some(IntervalsFor(AsIs, rows, symbol)))
  {
    var dates, intervals := [day - 1, day + 1], Some(IntervalsFor(AsIs, rows, symbol));
    if symbol != "" { NoTickerCleansTo(clean, rows, symbol); }
    assert symbol !in groups;
    SliceAll(dates, day - 1, day + 1);
    RangeOf(dates, day - 1);
    RangeOf(dates, day + 1);
    assert ProfileMisses(Slice(dates, day - 1, day + 1), [day], intervals, day);
    assert !ProfilePasses(Slice(dates, day - 1, day + 1), [day], intervals);
  }

  /** With these membership rows, passing the publish-time check always means passing the loader's check for every slice. */
  ghost predicate AlwaysInherits(rows: seq<PitRow>, groups: BySymbol, symbol: string) {
    forall dates, sessions :: PublishPasses(symbol, dates, sessions, Some(groups)) ==>
      AllSlicesPass(dates, sessions, Some(IntervalsFor(AsIs, rows, symbol)))
  }

  /**
   Coverage inheritance: publishing cleans tickers and the loader does not, so the loader's check is implied exactly for
   the symbols that cleaning leaves alone, and for those that the loader never takes for active.
   */
  lemma CoverageInheritedIff(clean: string -> string, rows: seq<PitRow>, groups: BySymbol, symbol: string)
    requires GroupsRows(groups, clean, rows) && Idempotent(clean)
    ensures AlwaysInherits(rows, groups, symbol) <==>
            (symbol != "" && clean(symbol) == symbol) || forall day :: !ActiveOn(IntervalsFor(AsIs, rows, symbol), day)
  {
    var intervals := IntervalsFor(AsIs, rows, symbol);
    if symbol != "" && clean(symbol) == symbol {
      forall dates, sessions | PublishPasses(symbol, dates, sessions, Some(groups)) ensures AllSlicesPass(dates, sessions, Some(intervals)) {
        CoverageInherited(clean, rows, groups, symbol, dates, sessions);
      }
    } else if day :| ActiveOn(intervals, day) {
      UncleanSymbolUncovered(clean, rows, groups, symbol, day);
      assert PublishPasses(symbol, [day - 1, day + 1], [day], Some(groups));
    } else {
      forall dates, sessions ensures AllSlicesPass(dates, sessions, Some(intervals)) { NeverActive(dates, sessions, intervals); }
    }
  }

  lemma NeverActive(dates: seq<int>, sessions: seq<int>, intervals: seq<Interval>)
    requires forall day :: !ActiveOn(intervals, day)
    ensures AllSlicesPass(dates, sessions, Some(intervals))
  {
  }

  /** Two accepted slices with an observed date in common make one accepted slice. */
  lemma SlicesGlue(dates: seq<int>, sessions: seq<int>, intervals: Option<seq<Interval>>, a: int, b: int, c: int, d: int, shared: int)
    requires shared in dates && a <= b <= shared <= c <= d
    requires ProfilePasses(Slice(dates, a, c), sessions, intervals) && ProfilePasses(Slice(dates, b, d), sessions, intervals)
    ensures ProfilePasses(Slice(dates, a, d), sessions, intervals)
  {
    forall day ensures !ProfileMisses(Slice(dates, a, d), sessions, intervals, day) {
      assert !ProfileMisses(Slice(dates, a, c), sessions, intervals, day) && !ProfileMisses(Slice(dates, b, d), sessions, intervals, day);
      if InRange(Slice(dates, a, d), day) && day !in Slice(dates, a, d) {
        SliceRange(dates, a, d, day);
        if day <= shared {
          LowerHalf(dates, a, c, d, shared, day);
        } else {
          UpperHalf(dates, a, b, d, shared, day);
        }
      }
    }
  }

  lemma LowerHalf(dates: seq<int>, a: int, c: int, d: int, shared: int, day: int)
    requires shared in dates && a <= shared <= c <= d && day <= shared && InRange(Slice(dates, a, d), day) && day !in dates
    ensures InRange(Slice(dates, a, c), day) && day !in Slice(dates, a, c)
  {
    var first := MinOf(Slice(dates, a, d));
    SliceHas(dates, a, d, first);
    SliceHas(dates, a, c, first);
    SliceHas(dates, a, c, shared);
    SliceHas(dates, a, c, day);
    RangeOf(Slice(dates, a, c), first);
    RangeOf(Slice(dates, a, c), shared);
  }

  lemma UpperHalf(dates: seq<int>, a: int, b: int, d: int, shared: int, day: int)
    requires shared in dates && a <= b <= shared <= d && shared < day && InRange(Slice(dates, a, d), day) && day !in dates
    ensures InRange(Slice(dates, b, d), day) && day !in Slice(dates, b, d)
  {
    var last := MaxOf(Slice(dates, a, d));
    SliceHas(dates, a, d, last);
    SliceHas(dates, b, d, last);
    SliceHas(dates, b, d, shared);
    SliceHas(dates, b, d, day);
    RangeOf(Slice(dates, b, d), last);
    RangeOf(Slice(dates, b, d), shared);
  }

  /** Without membership intervals both checks are `_require_calendar_gap_free`. */
  lemma WithoutIntervals(symbol: string, dates: seq<int>, sessions: seq<int>, day: int)
    ensures day in CalendarGap(dates, sessions) <==> ProfileMisses(dates, sessions, None, day)
    ensures day in CalendarGap(dates, sessions) <==> PublishMisses(symbol, dates, Some(sessions), None, day)
  {
    if dates != [] {
      assert day in CalendarGap(dates, sessions) <==> day in sessions && InRange(dates, day) && day !in dates;
    }
  }
}
