/** Event label resolution (src/regime_data_fetch/event_calendar.py). */
module EventLabels {
  import opened Wrappers
  import opened Calendar
  import opened TradingWindows
  import ExpiryCalendar
  import EarningsSeason

  datatype Label =
    | GeopoliticalEvent
    | ElectionWindow
    | FedWeek
    | GlobalRateDecision
    | BudgetWeek
    | CpiWeek
    | NfpWeek
    | ExpiryWeek
    | EarningsSeasonLabel
    | NormalCalendar
    | Unknown

  /** `EVENT_PRECEDENCE`. */
  const EVENT_PRECEDENCE: seq<Label> := [
    GeopoliticalEvent, ElectionWindow, FedWeek, GlobalRateDecision, BudgetWeek, CpiWeek, NfpWeek,
    ExpiryWeek, EarningsSeasonLabel, NormalCalendar, Unknown]

  datatype WindowSpec = WindowSpec(name: Label, lookback: nat, lookahead: nat)

  /** `SCHEDULED_EVENT_WINDOWS`. */
  const SCHEDULED_EVENT_WINDOWS: map<string, WindowSpec> := map[
    "FOMC" := WindowSpec(FedWeek, 2, 2),
    "CPI" := WindowSpec(CpiWeek, 1, 1),
    "NFP" := WindowSpec(NfpWeek, 1, 1),
    "budget" := WindowSpec(BudgetWeek, 0, 0),
    "election" := WindowSpec(ElectionWindow, 5, 10),
    "geopolitical_event" := WindowSpec(GeopoliticalEvent, 0, 0),
    "global_rate_decision" := WindowSpec(GlobalRateDecision, 0, 0),
    "ECB_decision" := WindowSpec(GlobalRateDecision, 0, 0),
    "BOE_decision" := WindowSpec(GlobalRateDecision, 0, 0),
    "BOJ_decision" := WindowSpec(GlobalRateDecision, 0, 0)]

  /** The fields of a scheduled event that resolution reads; `date` is a day number. */
  datatype Event = Event(date: int, market: string, eventType: string, windowDays: Option<(int, int)>) {
    /** What the event's constructor enforces of its window. */
    predicate Valid() {
      windowDays.Some? ==> windowDays.value.0 <= windowDays.value.1
    }

    predicate Relevant() {
      (market == "US" || market == "GLOBAL") && eventType in SCHEDULED_EVENT_WINDOWS
    }

    function Name(): Label
      requires Relevant()
    {
      SCHEDULED_EVENT_WINDOWS[eventType].name
    }

    /** The offsets in force; a window's lower bound counts by its absolute value. */
    function Offsets(): (o: (int, int))
      requires Relevant() && Valid()
      ensures 0 <= o.0 && -o.0 <= o.1
    {
      match windowDays
      case None => (SCHEDULED_EVENT_WINDOWS[eventType].lookback, SCHEDULED_EVENT_WINDOWS[eventType].lookahead)
      case Some(days) => (if days.0 < 0 then -days.0 else days.0, days.1)
    }

    function Window(open: TradingCalendar): Result<seq<int>, WindowError>
      requires Relevant() && Valid()
    {
      Expand(open, date, Offsets().0, Offsets().1)
    }
  }

  datatype LabelError = WindowFailed | ExpiryFailed | ExpiryWindowFailed | SeasonFailed


  predicate SomeWindowFails(open: TradingCalendar, events: seq<Event>)
    requires forall e :: e in events ==> e.Valid()
  {
    exists i :: 0 <= i < |events| && events[i].Relevant() && events[i].Window(open).Err?
  }

  predicate Matches(open: TradingCalendar, n: int, e: Event)
    requires e.Valid()
  {
    e.Relevant() && e.Window(open).Ok? && n in e.Window(open).value
  }

  function MatchingLabels(open: TradingCalendar, n: int, events: seq<Event>): set<Label>
    requires forall e :: e in events ==> e.Valid()
  {
    set e | e in events && Matches(open, n, e) :: e.Name()
  }

  /** `_matching_scheduled_event_labels`: the loop fails at the first event whose window cannot be expanded. */
  method MatchingScheduledEventLabels(open: TradingCalendar, n: int, events: seq<Event>)
    returns (result: Result<set<Label>, LabelError>)
    requires forall e :: e in events ==> e.Valid()
    ensures result == if SomeWindowFails(open, events) then Err(WindowFailed) else Ok(MatchingLabels(open, n, events))
  {
    var labels: set<Label> := {};
    for i := 0 to |events|
      invariant !SomeWindowFails(open, events[..i])
      invariant labels == MatchingLabels(open, n, events[..i])
    {
      var event := events[i];
      assert events[..i + 1] == events[..i] + [event];
      MatchingLabelsStep(open, n, events[..i], event);
      FailureStep(open, events, i);
      if event.Relevant() {
        var window := event.Window(open);
        if window.Err? {
          return Err(WindowFailed);
        }
        if n in window.value {
          labels := labels + {event.Name()};
        }
      }
    }
    assert events[..|events|] == events;
    return Ok(labels);
  }

  lemma FailureStep(open: TradingCalendar, events: seq<Event>, i: nat)
    requires i < |events| && (forall e :: e in events ==> e.Valid()) && !SomeWindowFails(open, events[..i])
    ensures events[i].Relevant() && events[i].Window(open).Err? ==> SomeWindowFails(open, events)
    ensures !(events[i].Relevant() && events[i].Window(open).Err?) ==> !SomeWindowFails(open, events[..i + 1])
  {
    forall j | 0 <= j < i ensures !(events[j].Relevant() && events[j].Window(open).Err?) {
      assert events[..i][j] == events[j];
    }
  }

  lemma MatchingLabelsStep(open: TradingCalendar, n: int, events: seq<Event>, e: Event)
    requires e.Valid() && forall e' :: e' in events ==> e'.Valid()
    ensures MatchingLabels(open, n, events + [e]) ==
            MatchingLabels(open, n, events) + if Matches(open, n, e) then {e.Name()} else {}
  {
    assert forall e' :: e' in events + [e] <==> e' in events || e' == e;
  }

  // ---------------------------------------------------------------------------
  // Resolution

  datatype Resolution = Resolution(matching: seq<Label>, primary: Label)

  function Pick(precedence: seq<Label>, labels: set<Label>): seq<Label> {
    if precedence == [] then []
    else (if precedence[0] in labels then [precedence[0]] else []) + Pick(precedence[1..], labels)
  }

  function OrderedBy(precedence: seq<Label>, labels: set<Label>): Resolution {
    var ordered := Pick(precedence, labels);
    if ordered == [] then Resolution([NormalCalendar], NormalCalendar) else Resolution(ordered, ordered[0])
  }

  function Ordered(labels: set<Label>): Resolution {
    OrderedBy(EVENT_PRECEDENCE, labels)
  }

  /** The two labels that depend on the date alone. */
  function DateLabels(open: TradingCalendar, asOf: Date): Result<set<Label>, LabelError>
    requires asOf.Valid()
  {
    match ExpiryCalendar.Anchor(open, asOf.year, asOf.month)
    case Err(_) => Err(ExpiryFailed)
    case Ok(anchor) =>
      match Expand(open, anchor, ExpiryCalendar.EXPIRY_LOOKBACK, 0)
      case Err(_) => Err(ExpiryWindowFailed)
      case Ok(window) =>
        match EarningsSeason.InSeason(asOf)
        case Err(_) => Err(SeasonFailed)
        case Ok(inSeason) =>
          Ok((if asOf.Ord() in window then {ExpiryWeek} else {}) + (if inSeason then {EarningsSeasonLabel} else {}))
  }

  function Resolve(open: TradingCalendar, asOf: Date, events: seq<Event>): Result<Resolution, LabelError>
    requires asOf.Valid() && forall e :: e in events ==> e.Valid()
  {
    if SomeWindowFails(open, events) then Err(WindowFailed)
    else
      match DateLabels(open, asOf)
      case Err(e) => Err(e)
      case Ok(dateLabels) => Ok(Ordered(MatchingLabels(open, asOf.Ord(), events) + dateLabels))
  }

  /** `resolve_event_label`. */
  method ResolveEventLabel(open: TradingCalendar, asOf: Date, events: seq<Event>) returns (result: Result<Resolution, LabelError>)
    requires asOf.Valid() && forall e :: e in events ==> e.Valid()
    ensures result == Resolve(open, asOf, events)
  {
    var scheduled := MatchingScheduledEventLabels(open, asOf.Ord(), events);
    if scheduled.Err? {
      return Err(scheduled.error);
    }
    var labels := scheduled.value;
    var anchor := ExpiryCalendar.Anchor(open, asOf.year, asOf.month);
    if anchor.Err? {
      return Err(ExpiryFailed);
    }
    var window := Expand(open, anchor.value, ExpiryCalendar.EXPIRY_LOOKBACK, 0);
    if window.Err? {
      return Err(ExpiryWindowFailed);
    }
    if asOf.Ord() in window.value {
      labels := labels + {ExpiryWeek};
    }
    var inSeason := EarningsSeason.InSeason(asOf);
    if inSeason.Err? {
      return Err(SeasonFailed);
    }
    if inSeason.value {
      labels := labels + {EarningsSeasonLabel};
    }
    assert labels == scheduled.value + DateLabels(open, asOf).value;
    return Ok(Ordered(labels));
  }

  // ---------------------------------------------------------------------------
  // Shape of a resolution

  function Precedence(l: Label): (i: nat)
    ensures i < |EVENT_PRECEDENCE| && EVENT_PRECEDENCE[i] == l
  {
    match l
    case GeopoliticalEvent => 0
    case ElectionWindow => 1
    case FedWeek => 2
    case GlobalRateDecision => 3
    case BudgetWeek => 4
    case CpiWeek => 5
    case NfpWeek => 6
    case ExpiryWeek => 7
    case EarningsSeasonLabel => 8
    case NormalCalendar => 9
    case Unknown => 10
  }

  /** Strictly ordered by precedence, hence free of repetitions. */
  predicate StrictlyOrdered(labels: seq<Label>) {
    forall i, j :: 0 <= i < j < |labels| ==> Precedence(labels[i]) < Precedence(labels[j])
  }

  lemma {:induction false} PickShape(precedence: seq<Label>, labels: set<Label>)
    requires StrictlyOrdered(precedence)
    ensures StrictlyOrdered(Pick(precedence, labels))
    ensures forall l :: l in Pick(precedence, labels) <==> l in precedence && l in labels
  {
    if precedence != [] {
      var rest := Pick(precedence[1..], labels);
      PickShape(precedence[1..], labels);
      forall i | 0 <= i < |rest| ensures Precedence(precedence[0]) < Precedence(rest[i]) {
        assert rest[i] in precedence[1..];
      }
      assert forall l :: l in precedence <==> l == precedence[0] || l in precedence[1..];
    }
  }

  /** What the ordering of a label set yields. */
  predicate Shape(r: Resolution, labels: set<Label>) {
    && r.matching != [] && r.primary == r.matching[0] && StrictlyOrdered(r.matching)
    && (forall l :: l in labels ==> l in r.matching)
    && (labels == {} ==> r.matching == [NormalCalendar])
    && (labels != {} ==> forall l :: l in r.matching ==> l in labels)
  }

  lemma OrderedByShape(precedence: seq<Label>, labels: set<Label>)
    requires StrictlyOrdered(precedence) && forall l :: l in labels ==> l in precedence
    ensures Shape(OrderedBy(precedence, labels), labels)
  {
    PickShape(precedence, labels);
    var ordered := Pick(precedence, labels);
    assert forall i :: 0 <= i < |ordered| ==> ordered[i] in labels;
    if labels != {} {
      var l :| l in labels;
      assert l in ordered;
    }
  }

  lemma PrecedenceAt(i: nat)
    requires i < |EVENT_PRECEDENCE|
    ensures Precedence(EVENT_PRECEDENCE[i]) == i
  {
  }

  lemma PrecedenceIsComplete()
    ensures StrictlyOrdered(EVENT_PRECEDENCE)
    ensures forall l: Label :: l in EVENT_PRECEDENCE
  {
    forall i | 0 <= i < |EVENT_PRECEDENCE| ensures Precedence(EVENT_PRECEDENCE[i]) == i {
      PrecedenceAt(i);
    }
    forall l: Label ensures l in EVENT_PRECEDENCE {
      var i := Precedence(l);
      assert EVENT_PRECEDENCE[i] == l;
    }
  }

  lemma OrderedShape(labels: set<Label>)
    ensures Shape(Ordered(labels), labels)
  {
    PrecedenceIsComplete();
    OrderedByShape(EVENT_PRECEDENCE, labels);
  }

  /** The day is a trading day whose rank around the event's date lies within the event's offsets. */
  predicate WithinWindow(open: TradingCalendar, n: int, e: Event)
    requires e.Valid() && e.Relevant()
  {
    open(n) && InOffsets(e.Offsets(), Rank(open, e.date, n))
  }

  predicate InOffsets(o: (int, int), rank: int) {
    -o.0 <= rank <= o.1
  }

  /** The ranks from `-o.0` to `o.1` are those of the window as written exactly if it does not start after the event's day. */
  lemma WindowReadIff(e: Event)
    requires e.Valid() && e.Relevant() && e.windowDays.Some?
    ensures var lo, hi := e.windowDays.value.0, e.windowDays.value.1;
            (forall r :: InOffsets(e.Offsets(), r) <==> lo <= r <= hi) <==> lo <= 0
  {
    var lo := e.windowDays.value.0;
    if lo > 0 { assert InOffsets(e.Offsets(), -lo); }
  }

  /** A window of one to three sessions after the event takes in the session before it, and the event's day. */
  lemma LateWindowReadsBack(open: TradingCalendar, n: int, e: Event)
    requires e.Relevant() && e.windowDays == Some((1, 3))
    ensures e.Valid() && (WithinWindow(open, n, e) <==> open(n) && -1 <= Rank(open, e.date, n) <= 3)
  {
  }

  /**
   A US or global event of a known type gives its type's label to the trading days around it: by the offsets of its type, or
   from minus the absolute value of its window's start up to its window's end.
   */
  predicate EventSays(open: TradingCalendar, n: int, e: Event, l: Label) {
    && e.market in {"US", "GLOBAL"} && e.eventType in SCHEDULED_EVENT_WINDOWS
    && var spec, rank := SCHEDULED_EVENT_WINDOWS[e.eventType], Rank(open, e.date, n);
       && l == spec.name && open(n)
       && (e.windowDays.None? ==> 0 - spec.lookback <= rank <= spec.lookahead)
       && (e.windowDays.Some? ==> rank <= e.windowDays.value.1 && (e.windowDays.value.0 <= rank || -e.windowDays.value.0 <= rank))
  }

  /** The event types that give a label, and its default window. */
  function TypesOf(l: Label): set<string> {
    match l
    case FedWeek => {"FOMC"}
    case CpiWeek => {"CPI"}
    case NfpWeek => {"NFP"}
    case BudgetWeek => {"budget"}
    case ElectionWindow => {"election"}
    case GeopoliticalEvent => {"geopolitical_event"}
    case GlobalRateDecision => {"global_rate_decision", "ECB_decision", "BOE_decision", "BOJ_decision"}
    case _ => {}
  }

  function DefaultWindow(l: Label): (int, int) {
    if l == FedWeek then (2, 2) else if l == CpiWeek || l == NfpWeek then (1, 1) else if l == ElectionWindow then (5, 10) else (0, 0)
  }

  /** An event without a window of its own, told by its label instead of its type. */
  lemma EventSaysByLabel(open: TradingCalendar, n: int, e: Event, l: Label)
    requires e.windowDays.None?
    ensures EventSays(open, n, e, l) <==>
            && (e.market == "US" || e.market == "GLOBAL") && e.eventType in TypesOf(l) && open(n)
            && 0 - DefaultWindow(l).0 <= Rank(open, e.date, n) <= DefaultWindow(l).1
  {
  }

  lemma EventSaysIff(open: TradingCalendar, n: int, e: Event, l: Label)
    requires e.Valid()
    ensures EventSays(open, n, e, l) <==> e.Relevant() && e.Name() == l && WithinWindow(open, n, e)
  {
  }

  lemma MatchesIff(open: TradingCalendar, n: int, e: Event)
    requires e.Valid() && e.Relevant() && e.Window(open).Ok?
    ensures Matches(open, n, e) <==> WithinWindow(open, n, e)
  {
    ExpandExact(open, e.date, e.Offsets().0, e.Offsets().1);
  }

  lemma ScheduledNames(e: Event)
    requires e.Relevant()
    ensures Precedence(e.Name()) <= Precedence(NfpWeek)
  {
  }

  lemma MatchingMeaning(open: TradingCalendar, n: int, events: seq<Event>, l: Label)
    requires forall e :: e in events ==> e.Valid()
    requires !SomeWindowFails(open, events)
    ensures l in MatchingLabels(open, n, events) <==> exists e :: e in events && EventSays(open, n, e, l)
  {
    forall e | e in events && e.Relevant() ensures Matches(open, n, e) <==> WithinWindow(open, n, e) {
      var i :| 0 <= i < |events| && events[i] == e;
      assert e.Window(open).Ok?;
      MatchesIff(open, n, e);
    }
    forall e | e in events { EventSaysIff(open, n, e, l); }
    if e :| e in events && EventSays(open, n, e, l) {
      assert Matches(open, n, e);
    }
  }

  lemma NoneBeyondNormal(open: TradingCalendar, n: int, events: seq<Event>)
    requires forall e :: e in events ==> e.Valid()
    ensures forall l :: l in MatchingLabels(open, n, events) ==> Precedence(l) <= Precedence(NfpWeek)
  {
    forall e | e in events && e.Relevant() { ScheduledNames(e); }
  }

  /** The date is an expiry day of its month. */
  ghost predicate InExpiryWeek(open: TradingCalendar, asOf: Date)
    requires asOf.Valid()
  {
    exists friday, anchor :: ExpiryCalendar.ExpiryDay(open, asOf.year, asOf.month, friday, anchor, asOf.Ord())
  }

  /** The date is a season day of some quarter. */
  ghost predicate InSomeSeason(asOf: Date)
    requires asOf.Valid()
  {
    exists year, quarter, monday :: EarningsSeason.SeasonDay(year, quarter, monday, asOf.Ord())
  }

  lemma DateLabelsMeaning(open: TradingCalendar, asOf: Date)
    requires asOf.Valid() && PyYear(asOf.year) && DateLabels(open, asOf).Ok?
    ensures var labels := DateLabels(open, asOf).value;
            && labels <= {ExpiryWeek, EarningsSeasonLabel}
            && (ExpiryWeek in labels <==> InExpiryWeek(open, asOf))
            && (EarningsSeasonLabel in labels <==> InSomeSeason(asOf))
  {
    assert EarningsSeason.InSeason(asOf).value <==> InSomeSeason(asOf) by { EarningsSeason.SeasonIff(asOf); }
    assert ExpiryCalendar.InExpiryWindow(open, asOf.year, asOf.month, asOf.Ord()) <==> InExpiryWeek(open, asOf) by {
      ExpiryCalendar.InExpiryWindowIff(open, asOf.year, asOf.month, asOf.Ord());
    }
  }

  /** The labels that apply to a date, told by the unbounded trading calendar and the weekdays of the months. */
  ghost predicate Applies(open: TradingCalendar, asOf: Date, events: seq<Event>, l: Label)
    requires asOf.Valid() && forall e :: e in events ==> e.Valid()
  {
    || (exists e :: e in events && EventSays(open, asOf.Ord(), e, l))
    || (l == ExpiryWeek && InExpiryWeek(open, asOf))
    || (l == EarningsSeasonLabel && InSomeSeason(asOf))
  }

  /**
   A resolution lists exactly the labels that apply, strictly by precedence, with the primary label at its head;
   where none applies it is the normal calendar alone.
   */
  lemma ResolutionMeaning(open: TradingCalendar, asOf: Date, events: seq<Event>)
    requires asOf.Valid() && PyYear(asOf.year) && forall e :: e in events ==> e.Valid()
    requires Resolve(open, asOf, events).Ok?
    ensures var r := Resolve(open, asOf, events).value;
            && r.matching != [] && r.primary == r.matching[0] && StrictlyOrdered(r.matching)
            && (forall l :: Applies(open, asOf, events, l) ==> l in r.matching && l != NormalCalendar)
            && (forall l :: l in r.matching ==>
                  Applies(open, asOf, events, l) || (r.matching == [NormalCalendar] && l == NormalCalendar))
  {
    var r := Resolve(open, asOf, events).value;
    var labels := MatchingLabels(open, asOf.Ord(), events) + DateLabels(open, asOf).value;
    assert r == Ordered(labels);
    assert NormalCalendar !in labels && forall l :: Applies(open, asOf, events, l) <==> l in labels by {
      LabelsAreThoseThatApply(open, asOf, events);
    }
    OrderedFacts(r, labels);
  }

  lemma OrderedFacts(r: Resolution, labels: set<Label>)
    requires r == Ordered(labels) && NormalCalendar !in labels
    ensures r.matching != [] && r.primary == r.matching[0] && StrictlyOrdered(r.matching)
    ensures forall l :: l in labels ==> l in r.matching && l != NormalCalendar
    ensures forall l :: l in r.matching ==> l in labels || (r.matching == [NormalCalendar] && l == NormalCalendar)
  {
    OrderedShape(labels);
  }

  /** Every label that events or dates give comes before the normal calendar. */
  lemma BelowNormal(open: TradingCalendar, asOf: Date, events: seq<Event>)
    requires asOf.Valid() && DateLabels(open, asOf).Ok? && forall e :: e in events ==> e.Valid()
    ensures forall l :: l in MatchingLabels(open, asOf.Ord(), events) + DateLabels(open, asOf).value ==>
                          Precedence(l) < Precedence(NormalCalendar)
  {
    NoneBeyondNormal(open, asOf.Ord(), events);
    DatesGiveTwo(open, asOf);
    UnionBelowNormal(MatchingLabels(open, asOf.Ord(), events), DateLabels(open, asOf).value);
  }

  lemma UnionBelowNormal(scheduled: set<Label>, dated: set<Label>)
    requires forall l :: l in scheduled ==> Precedence(l) <= Precedence(NfpWeek)
    requires forall l :: l in dated ==> l == ExpiryWeek || l == EarningsSeasonLabel
    ensures forall l :: l in scheduled + dated ==> Precedence(l) < Precedence(NormalCalendar)
  {
  }

  lemma DatesGiveTwo(open: TradingCalendar, asOf: Date)
    requires asOf.Valid() && DateLabels(open, asOf).Ok?
    ensures forall l :: l in DateLabels(open, asOf).value ==> l == ExpiryWeek || l == EarningsSeasonLabel
  {
  }

  lemma LabelsAreThoseThatApply(open: TradingCalendar, asOf: Date, events: seq<Event>)
    requires asOf.Valid() && PyYear(asOf.year) && forall e :: e in events ==> e.Valid()
    requires !SomeWindowFails(open, events) && DateLabels(open, asOf).Ok?
    ensures var labels := MatchingLabels(open, asOf.Ord(), events) + DateLabels(open, asOf).value;
            && NormalCalendar !in labels
            && forall l :: Applies(open, asOf, events, l) <==> l in labels
  {
    var labels := MatchingLabels(open, asOf.Ord(), events) + DateLabels(open, asOf).value;
    BelowNormal(open, asOf, events);
    assert NormalCalendar !in labels;
    forall l { AppliesIff(open, asOf, events, l); }
  }

  lemma AppliesIff(open: TradingCalendar, asOf: Date, events: seq<Event>, l: Label)
    requires asOf.Valid() && PyYear(asOf.year) && forall e :: e in events ==> e.Valid()
    requires !SomeWindowFails(open, events) && DateLabels(open, asOf).Ok?
    ensures Applies(open, asOf, events, l) <==> l in MatchingLabels(open, asOf.Ord(), events) + DateLabels(open, asOf).value
  {
    MatchingMeaning(open, asOf.Ord(), events, l);
    DateLabelMeaning(open, asOf, l);
  }

  lemma DateLabelMeaning(open: TradingCalendar, asOf: Date, l: Label)
    requires asOf.Valid() && PyYear(asOf.year) && DateLabels(open, asOf).Ok?
    ensures l in DateLabels(open, asOf).value <==>
            (l == ExpiryWeek && InExpiryWeek(open, asOf)) || (l == EarningsSeasonLabel && InSomeSeason(asOf))
  {
    DateLabelsMeaning(open, asOf);
  }

  // ---------------------------------------------------------------------------
  // When a resolution fails

  /** The 14 days before and after the day have the sessions that its window needs. */
  predicate Expandable(open: TradingCalendar, day: int, window: (int, int)) {
    open(day) && window.0 <= Count(open, day - 14, day) && window.1 <= Count(open, day + 1, day + 15)
  }

  lemma EventWindowOkIff(open: TradingCalendar, e: Event)
    requires e.Valid() && e.Relevant()
    ensures e.Window(open).Ok? <==> Expandable(open, e.date, e.Offsets())
  {
    ExpandOkIff(open, e.date, e.Offsets().0, e.Offsets().1);
  }

  /** The expiry window of the date's month exists: an anchor with two sessions in the 14 days before it. */
  ghost predicate ExpiryExpandable(open: TradingCalendar, asOf: Date)
    requires asOf.Valid()
  {
    exists friday, anchor :: ExpiryCalendar.IsAnchor(open, asOf.year, asOf.month, friday, anchor) && Expandable(open, anchor, (2, 0))
  }

  lemma AnchorWindowOkIff(open: TradingCalendar, year: int, month: int, anchor: int)
    requires 1 <= month <= 12 && ExpiryCalendar.Anchor(open, year, month) == Ok(anchor)
    ensures ExpiryCalendar.ExpiryWindowExists(open, year, month) <==> Expandable(open, anchor, (2, 0))
  {
    ExpandOkIff(open, anchor, ExpiryCalendar.EXPIRY_LOOKBACK, 0);
  }

  lemma ExpiryOkIff(open: TradingCalendar, asOf: Date)
    requires asOf.Valid()
    ensures ExpiryCalendar.ExpiryWindowExists(open, asOf.year, asOf.month) <==> ExpiryExpandable(open, asOf)
  {
    var result := ExpiryCalendar.Anchor(open, asOf.year, asOf.month);
    forall anchor ensures
      (result == Ok(anchor) <==> exists friday :: ExpiryCalendar.IsAnchor(open, asOf.year, asOf.month, friday, anchor)) &&
      (result == Ok(anchor) ==> (ExpiryCalendar.ExpiryWindowExists(open, asOf.year, asOf.month) <==> Expandable(open, anchor, (2, 0))))
    {
      ExpiryCalendar.IsAnchorIff(open, asOf.year, asOf.month, anchor);
      if result == Ok(anchor) { AnchorWindowOkIff(open, asOf.year, asOf.month, anchor); }
    }
  }

  lemma SeasonOkIff(asOf: Date)
    requires asOf.Valid() && PyYear(asOf.year)
    ensures EarningsSeason.InSeason(asOf).Ok? <==> asOf.year > 1 || asOf.month > 3 || InSomeSeason(asOf)
  {
    EarningsSeason.OwnQuarterDecides(asOf);
    EarningsSeason.InWindowIff(1, 1, asOf.Ord());
    if year, quarter, monday :| EarningsSeason.SeasonDay(year, quarter, monday, asOf.Ord()) {
      EarningsSeason.InWindowIff(year, quarter, asOf.Ord());
      EarningsSeason.OwnQuarterOnly(asOf, year, quarter);
    }
  }

  predicate EventsExpandable(open: TradingCalendar, events: seq<Event>)
    requires forall e :: e in events ==> e.Valid()
  {
    forall e :: e in events && e.Relevant() ==>
      Expandable(open, e.date, e.Offsets())
  }

  lemma EventsOkIff(open: TradingCalendar, events: seq<Event>)
    requires forall e :: e in events ==> e.Valid()
    ensures SomeWindowFails(open, events) <==> !EventsExpandable(open, events)
  {
    forall e | e in events && e.Relevant() { EventWindowOkIff(open, e); }
    if e :| e in events && e.Relevant() && e.Window(open).Err? {
      var i :| 0 <= i < |events| && events[i] == e;
    }
  }

  /**
   A resolution succeeds exactly if the windows of all relevant events and the expiry window of the date's month can be
   expanded, and the date is not one of the first quarter of year 1 outside its season.
   */
  lemma ResolveOkIff(open: TradingCalendar, asOf: Date, events: seq<Event>)
    requires asOf.Valid() && PyYear(asOf.year) && forall e :: e in events ==> e.Valid()
    ensures Resolve(open, asOf, events).Ok? <==>
            && EventsExpandable(open, events) && ExpiryExpandable(open, asOf)
            && (asOf.year > 1 || asOf.month > 3 || InSomeSeason(asOf))
  {
    EventsOkIff(open, events);
    ExpiryOkIff(open, asOf);
    SeasonOkIff(asOf);
    DateLabelsOkIff(open, asOf);
  }

  lemma DateLabelsOkIff(open: TradingCalendar, asOf: Date)
    requires asOf.Valid()
    ensures DateLabels(open, asOf).Ok? <==>
            ExpiryCalendar.ExpiryWindowExists(open, asOf.year, asOf.month) && EarningsSeason.InSeason(asOf).Ok?
  {
  }

  // ---------------------------------------------------------------------------
  // Order, repetition and growth of the event list

  lemma SameEventsSameFailure(open: TradingCalendar, some: seq<Event>, more: seq<Event>)
    requires forall e :: e in more ==> e.Valid()
    requires forall e :: e in some ==> e in more
    ensures SomeWindowFails(open, some) ==> SomeWindowFails(open, more)
  {
    if SomeWindowFails(open, some) {
      var i :| 0 <= i < |some| && some[i].Relevant() && some[i].Window(open).Err?;
      assert some[i] in more;
      var j :| 0 <= j < |more| && more[j] == some[i];
    }
  }

  /** The order of the events and their repetition do not matter, not even to whether resolution fails. */
  lemma OrderAndRepetitionIrrelevant(open: TradingCalendar, asOf: Date, events: seq<Event>, others: seq<Event>)
    requires asOf.Valid() && forall e :: e in events ==> e.Valid()
    requires forall e :: e in events <==> e in others
    ensures Resolve(open, asOf, events) == Resolve(open, asOf, others)
  {
    SameEventsSameFailure(open, events, others);
    SameEventsSameFailure(open, others, events);
    if !SomeWindowFails(open, events) {
      assert MatchingLabels(open, asOf.Ord(), events) == MatchingLabels(open, asOf.Ord(), others);
    }
  }

  /** Adding events never removes a label other than the normal calendar, and never repairs a failure. */
  lemma MoreEventsMoreLabels(open: TradingCalendar, asOf: Date, some: seq<Event>, more: seq<Event>)
    requires asOf.Valid() && forall e :: e in more ==> e.Valid()
    requires forall e :: e in some ==> e in more
    requires Resolve(open, asOf, more).Ok?
    ensures Resolve(open, asOf, some).Ok?
    ensures forall l :: l in Resolve(open, asOf, some).value.matching && l != NormalCalendar
                        ==> l in Resolve(open, asOf, more).value.matching
    ensures Precedence(Resolve(open, asOf, more).value.primary) <= Precedence(Resolve(open, asOf, some).value.primary)
  {
    SameEventsSameFailure(open, some, more);
    ResolvesTo(open, asOf, some, DateLabels(open, asOf).value);
    ResolvesTo(open, asOf, more, DateLabels(open, asOf).value);
    MoreMatching(open, asOf.Ord(), some, more);
    BelowNormal(open, asOf, more);
    MoreLabels(MatchingLabels(open, asOf.Ord(), some) + DateLabels(open, asOf).value,
               MatchingLabels(open, asOf.Ord(), more) + DateLabels(open, asOf).value);
  }

  lemma ResolvesTo(open: TradingCalendar, asOf: Date, events: seq<Event>, dateLabels: set<Label>)
    requires asOf.Valid() && forall e :: e in events ==> e.Valid()
    requires !SomeWindowFails(open, events) && DateLabels(open, asOf) == Ok(dateLabels)
    ensures Resolve(open, asOf, events) == Ok(Ordered(MatchingLabels(open, asOf.Ord(), events) + dateLabels))
  {
  }

  lemma MoreMatching(open: TradingCalendar, n: int, some: seq<Event>, more: seq<Event>)
    requires (forall e :: e in more ==> e.Valid()) && forall e :: e in some ==> e in more
    ensures MatchingLabels(open, n, some) <= MatchingLabels(open, n, more)
  {
  }

  lemma MoreLabels(few: set<Label>, many: set<Label>)
    requires few <= many && forall l :: l in many ==> Precedence(l) <= Precedence(NormalCalendar)
    ensures forall l :: l in Ordered(few).matching && l != NormalCalendar ==> l in Ordered(many).matching
    ensures Precedence(Ordered(many).primary) <= Precedence(Ordered(few).primary)
  {
    OrderedShape(few);
    OrderedShape(many);
    var r := Ordered(many);
    var p := Ordered(few).primary;
    if few != {} {
      assert p in r.matching;
      var i :| 0 <= i < |r.matching| && r.matching[i] == p;
    } else {
      assert Ordered(few).matching[0] in Ordered(few).matching;
      assert r.matching[0] in r.matching;
    }
  }
}
