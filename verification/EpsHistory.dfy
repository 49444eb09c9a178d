/**
 The accumulated weekly EPS history of src/regime_data_fetch/aggregate_eps.py: live fetches and Wayback seeds rewrite one
 table, in any order. Dates are day numbers, estimates exact numbers, and NaN is `None`.
 */
module EpsHistory {
  import opened Wrappers
  import opened KeyedRows

  datatype Reading = Reading(tag: string, value: Option<real>, source: string)

  type EpsRow = Row<int, Reading>

  datatype Snapshot = Snapshot(date: int, tag: string, value: Option<real>)

  datatype Capture = Capture(asOf: int, value: Option<real>)

  datatype SeedError = NoTimeline | EmptyTimeline

  const LOOKBACK := 4

  function LiveRow(s: Snapshot): EpsRow {
    Row(s.date, Reading(s.tag, s.value, "S&P Global aggregate forward EPS workbook"))
  }

  function SeedRow(c: Capture): EpsRow {
    Row(c.asOf, Reading("wayback_backfill", c.value, "wayback_machine"))
  }

  predicate Earlier(a: int, b: int) {
    a < b
  }

  // ---------------------------------------------------------------------------
  // The table

  function WithoutDate(rows: seq<EpsRow>, date: int): seq<EpsRow> {
    if rows == [] then []
    else
      var rest := WithoutDate(rows[..|rows| - 1], date);
      if rows[|rows| - 1].key == date then rest else rest + [rows[|rows| - 1]]
  }

  /** `~isin` over the existing dates. */
  function OnlyNewDates(rows: seq<EpsRow>, existing: seq<EpsRow>): seq<EpsRow> {
    if rows == [] then []
    else
      var rest := OnlyNewDates(rows[..|rows| - 1], existing);
      if Lookup(existing, rows[|rows| - 1].key).Some? then rest else rest + [rows[|rows| - 1]]
  }

  function SeedRows(timeline: seq<Capture>): (rows: seq<EpsRow>)
    ensures |rows| == |timeline|
  {
    seq(|timeline|, i requires 0 <= i < |timeline| => SeedRow(timeline[i]))
  }

  /** The history on disk; `None` while there is no file. */
  type Table = Option<seq<EpsRow>>

  function RowsOf(table: Table): seq<EpsRow> {
    if table.Some? then table.value else []
  }

  function Appended(table: Table, s: Snapshot): seq<EpsRow> {
    SortByKey(Earlier, WithoutDate(RowsOf(table), s.date) + [LiveRow(s)])
  }

  function Seeded(table: Table, timeline: seq<Capture>): seq<EpsRow> {
    SortByKey(Earlier, RowsOf(table) + OnlyNewDates(KeepLast(SeedRows(timeline)), RowsOf(table)))
  }

  class History {
    var table: Table

    constructor ()
      ensures table == None
    {
      table := None;
    }

    /** `append_weekly_eps_snapshot`. */
    method AppendWeekly(s: Snapshot) returns (combined: seq<EpsRow>)
      modifies this
      ensures table == Some(combined) && combined == Appended(old(table), s)
      ensures Increasing(Earlier, RowsOf(old(table))) ==>
        && Increasing(Earlier, combined)
        && forall date :: Lookup(combined, date) == if date == s.date then Some(LiveRow(s).data) else Lookup(RowsOf(old(table)), date)
    {
      if table.Some? {
        combined := WithoutDate(table.value, s.date) + [LiveRow(s)];
      } else {
        combined := [LiveRow(s)];
      }
      combined := SortByKey(Earlier, combined);
      AppendedTable(table, s);
      table := Some(combined);
    }

    /** `seed_weekly_history_from_wayback_timeline`; an error leaves the history alone. */
    method SeedFromTimeline(timeline: Option<seq<Capture>>) returns (result: Result<seq<EpsRow>, SeedError>)
      modifies this
      ensures timeline.None? ==> result == Err(NoTimeline) && table == old(table)
      ensures timeline == Some([]) ==> result == Err(EmptyTimeline) && table == old(table)
      ensures timeline.Some? && timeline.value != [] ==>
        result == Ok(Seeded(old(table), timeline.value)) && table == Some(Seeded(old(table), timeline.value))
    {
      if timeline.None? {
        return Err(NoTimeline);
      }
      if timeline.value == [] {
        return Err(EmptyTimeline);
      }
      var seeded := KeepLast(SeedRows(timeline.value));
      var combined;
      if table.Some? {
        combined := table.value + OnlyNewDates(seeded, table.value);
      } else {
        AllNew(seeded);
        combined := seeded;
      }
      combined := SortByKey(Earlier, combined);
      table := Some(combined);
      return Ok(combined);
    }
  }

  lemma {:induction false} AllNew(rows: seq<EpsRow>)
    ensures OnlyNewDates(rows, []) == rows && [] + OnlyNewDates(rows, []) == rows
  {
    if rows != [] {
      AllNew(rows[..|rows| - 1]);
      assert rows == rows[..|rows| - 1] + [rows[|rows| - 1]];
    }
  }

  // ---------------------------------------------------------------------------
  // One operation, one date at a time

  lemma {:induction false} WithoutDateRows(rows: seq<EpsRow>, gone: int, date: int)
    ensures Lookup(WithoutDate(rows, gone), date) == if date == gone then None else Lookup(rows, date)
  {
    if rows != [] {
      WithoutDateRows(rows[..|rows| - 1], gone, date);
      LookupSnoc(WithoutDate(rows[..|rows| - 1], gone), rows[|rows| - 1], date);
    }
  }

  lemma {:induction false} OnlyNewRows(rows: seq<EpsRow>, existing: seq<EpsRow>, date: int)
    ensures Lookup(OnlyNewDates(rows, existing), date) == if Lookup(existing, date).Some? then None else Lookup(rows, date)
  {
    if rows != [] {
      OnlyNewRows(rows[..|rows| - 1], existing, date);
      LookupSnoc(OnlyNewDates(rows[..|rows| - 1], existing), rows[|rows| - 1], date);
    }
  }

  lemma DistinctSnoc(rows: seq<EpsRow>, row: EpsRow)
    requires DistinctKeys(rows) && Lookup(rows, row.key).None?
    ensures DistinctKeys(rows + [row])
  {
    LookupFinds(rows, row.key);
  }

  lemma DistinctInit(rows: seq<EpsRow>)
    requires DistinctKeys(rows) && rows != []
    ensures DistinctKeys(rows[..|rows| - 1]) && Lookup(rows[..|rows| - 1], rows[|rows| - 1].key).None?
  {
    LookupFinds(rows[..|rows| - 1], rows[|rows| - 1].key);
  }

  lemma {:induction false} WithoutDateDistinct(rows: seq<EpsRow>, gone: int)
    requires DistinctKeys(rows)
    ensures DistinctKeys(WithoutDate(rows, gone))
  {
    if rows != [] {
      DistinctInit(rows);
      WithoutDateDistinct(rows[..|rows| - 1], gone);
      if rows[|rows| - 1].key != gone {
        WithoutDateRows(rows[..|rows| - 1], gone, rows[|rows| - 1].key);
        DistinctSnoc(WithoutDate(rows[..|rows| - 1], gone), rows[|rows| - 1]);
      }
    }
  }

  lemma {:induction false} OnlyNewDistinct(rows: seq<EpsRow>, existing: seq<EpsRow>)
    requires DistinctKeys(rows)
    ensures DistinctKeys(OnlyNewDates(rows, existing))
  {
    if rows != [] {
      DistinctInit(rows);
      OnlyNewDistinct(rows[..|rows| - 1], existing);
      if Lookup(existing, rows[|rows| - 1].key).None? {
        OnlyNewRows(rows[..|rows| - 1], existing, rows[|rows| - 1].key);
        DistinctSnoc(OnlyNewDates(rows[..|rows| - 1], existing), rows[|rows| - 1]);
      }
    }
  }

  lemma ConcatDistinct(a: seq<EpsRow>, b: seq<EpsRow>)
    requires DistinctKeys(a) && DistinctKeys(b) && forall date :: Lookup(b, date).Some? ==> Lookup(a, date).None?
    ensures DistinctKeys(a + b)
  {
    forall i, j | 0 <= i < |a| && 0 <= j < |b| ensures a[i].key != b[j].key {
      LookupFinds(b, b[j].key);
      LookupFinds(a, b[j].key);
    }
  }

  /** A live append replaces the row of its date and no other. */
  lemma AppendedRows(table: Table, s: Snapshot, date: int)
    requires Increasing(Earlier, RowsOf(table))
    ensures Increasing(Earlier, Appended(table, s))
    ensures Lookup(Appended(table, s), date) == if date == s.date then Some(LiveRow(s).data) else Lookup(RowsOf(table), date)
  {
    var kept := WithoutDate(RowsOf(table), s.date);
    WithoutDateDistinct(RowsOf(table), s.date);
    WithoutDateRows(RowsOf(table), s.date, s.date);
    WithoutDateRows(RowsOf(table), s.date, date);
    DistinctSnoc(kept, LiveRow(s));
    SortedDistinct(Earlier, kept + [LiveRow(s)]);
    SortedRows(Earlier, kept + [LiveRow(s)], date);
    LookupSnoc(kept, LiveRow(s), date);
  }

  /** A seed fills in the dates without a row, each with its freshest capture, and leaves the others. */
  lemma SeededRows(table: Table, timeline: seq<Capture>, date: int)
    requires Increasing(Earlier, RowsOf(table))
    ensures Increasing(Earlier, Seeded(table, timeline))
    ensures Lookup(Seeded(table, timeline), date) ==
            if Lookup(RowsOf(table), date).Some? then Lookup(RowsOf(table), date) else Lookup(SeedRows(timeline), date)
  {
    var rows, kept := RowsOf(table), KeepLast(SeedRows(timeline));
    var added := OnlyNewDates(kept, rows);
    KeptRows(SeedRows(timeline), date);
    KeptDistinct(SeedRows(timeline));
    OnlyNewDistinct(kept, rows);
    forall day ensures Lookup(added, day) == if Lookup(rows, day).Some? then None else Lookup(kept, day) {
      OnlyNewRows(kept, rows, day);
    }
    ConcatDistinct(rows, added);
    SortedDistinct(Earlier, rows + added);
    SortedRows(Earlier, rows + added, date);
    LookupConcat(rows, added, date);
  }

  // ---------------------------------------------------------------------------
  // Any interleaving

  datatype Op = Live(snapshot: Snapshot) | Seed(timeline: Option<seq<Capture>>)

  function Apply(table: Table, op: Op): Table {
    match op
    case Live(s) => Some(Appended(table, s))
    case Seed(timeline) => if timeline.None? || timeline.value == [] then table else Some(Seeded(table, timeline.value))
  }

  function Run(ops: seq<Op>): Table {
    if ops == [] then None else Apply(Run(ops[..|ops| - 1]), ops[|ops| - 1])
  }

  /** The live fetch that an operation is, if any. */
  function LiveOf(op: Op): seq<Snapshot> {
    if op.Live? then [op.snapshot] else []
  }

  /** The rows that an operation seeds, if any. */
  function SeedOf(op: Op): seq<seq<Capture>> {
    if op.Seed? && op.timeline.Some? && op.timeline.value != [] then [op.timeline.value] else []
  }

  /** The live fetches of a run, in order. */
  function Lives(ops: seq<Op>): seq<Snapshot> {
    if ops == [] then [] else Lives(ops[..|ops| - 1]) + LiveOf(ops[|ops| - 1])
  }

  /** The seeds of a run that had rows, in order. */
  function Seeds(ops: seq<Op>): seq<seq<Capture>> {
    if ops == [] then [] else Seeds(ops[..|ops| - 1]) + SeedOf(ops[|ops| - 1])
  }

  function LatestLive(lives: seq<Snapshot>, date: int): Option<Reading> {
    if lives == [] then None
    else if lives[|lives| - 1].date == date then Some(LiveRow(lives[|lives| - 1]).data) else LatestLive(lives[..|lives| - 1], date)
  }

  function FirstSeed(seeds: seq<seq<Capture>>, date: int): Option<Reading> {
    if seeds == [] then None
    else if FirstSeed(seeds[..|seeds| - 1], date).Some? then FirstSeed(seeds[..|seeds| - 1], date)
    else Lookup(SeedRows(seeds[|seeds| - 1]), date)
  }

  /** What a date holds in the end: its latest live row, else its first seeded one. */
  function FinalRow(lives: seq<Snapshot>, seeds: seq<seq<Capture>>, date: int): Option<Reading> {
    if LatestLive(lives, date).Some? then LatestLive(lives, date) else FirstSeed(seeds, date)
  }

  /** The last live fetch of the date. */
  predicate IsLatestLive(lives: seq<Snapshot>, date: int, i: nat) {
    i < |lives| && lives[i].date == date && forall j :: i < j < |lives| ==> lives[j].date != date
  }

  predicate HasCapture(timeline: seq<Capture>, date: int) {
    exists j :: 0 <= j < |timeline| && timeline[j].asOf == date
  }

  predicate IsLastCapture(timeline: seq<Capture>, date: int, j: nat) {
    j < |timeline| && timeline[j].asOf == date && forall l :: j < l < |timeline| ==> timeline[l].asOf != date
  }

  /** The last capture of the date in the first seed that has one. */
  predicate IsFirstSeed(seeds: seq<seq<Capture>>, date: int, k: nat, j: nat) {
    k < |seeds| && IsLastCapture(seeds[k], date, j) && forall m :: 0 <= m < k ==> !HasCapture(seeds[m], date)
  }

  lemma {:induction false} LatestLiveIs(lives: seq<Snapshot>, date: int, i: nat)
    requires IsLatestLive(lives, date, i)
    ensures LatestLive(lives, date) == Some(LiveRow(lives[i]).data)
  {
    if i < |lives| - 1 { LatestLiveIs(lives[..|lives| - 1], date, i); }
  }

  lemma {:induction false} NoLive(lives: seq<Snapshot>, date: int)
    requires forall i :: 0 <= i < |lives| ==> lives[i].date != date
    ensures LatestLive(lives, date).None?
  {
    if lives != [] { NoLive(lives[..|lives| - 1], date); }
  }

  lemma SeedRowsInit(timeline: seq<Capture>)
    requires timeline != []
    ensures SeedRows(timeline)[..|timeline| - 1] == SeedRows(timeline[..|timeline| - 1])
  {
  }

  lemma {:induction false} LastCaptureIs(timeline: seq<Capture>, date: int, j: nat)
    requires IsLastCapture(timeline, date, j)
    ensures Lookup(SeedRows(timeline), date) == Some(SeedRow(timeline[j]).data)
  {
    if j < |timeline| - 1 {
      SeedRowsInit(timeline);
      LastCaptureIs(timeline[..|timeline| - 1], date, j);
    }
  }

  lemma NoCapture(timeline: seq<Capture>, date: int)
    requires !HasCapture(timeline, date)
    ensures Lookup(SeedRows(timeline), date).None?
  {
    LookupFinds(SeedRows(timeline), date);
  }

  lemma {:induction false} NoSeed(seeds: seq<seq<Capture>>, date: int)
    requires forall k :: 0 <= k < |seeds| ==> !HasCapture(seeds[k], date)
    ensures FirstSeed(seeds, date).None?
  {
    if seeds != [] {
      NoSeed(seeds[..|seeds| - 1], date);
      NoCapture(seeds[|seeds| - 1], date);
    }
  }

  lemma {:induction false} FirstSeedIs(seeds: seq<seq<Capture>>, date: int, k: nat, j: nat)
    requires IsFirstSeed(seeds, date, k, j)
    ensures FirstSeed(seeds, date) == Some(SeedRow(seeds[k][j]).data)
  {
    var init := seeds[..|seeds| - 1];
    if k < |init| {
      FirstSeedIs(init, date, k, j);
    } else {
      NoSeed(init, date);
      LastCaptureIs(seeds[k], date, j);
    }
  }

  /**
   What a date holds in the end, by position: the reading of the last live fetch of the date; without one, that of the last
   capture in the first seed that has the date; otherwise nothing.
   */
  lemma FinalRowMeaning(lives: seq<Snapshot>, seeds: seq<seq<Capture>>, date: int)
    ensures forall i: nat :: IsLatestLive(lives, date, i) ==>
              FinalRow(lives, seeds, date) == Some(Reading(lives[i].tag, lives[i].value, "S&P Global aggregate forward EPS workbook"))
    ensures (forall i :: 0 <= i < |lives| ==> lives[i].date != date) ==>
              && (forall k: nat, j: nat :: IsFirstSeed(seeds, date, k, j) ==>
                    FinalRow(lives, seeds, date) == Some(Reading("wayback_backfill", seeds[k][j].value, "wayback_machine")))
              && ((forall k :: 0 <= k < |seeds| ==> !HasCapture(seeds[k], date)) ==> FinalRow(lives, seeds, date).None?)
  {
    forall i: nat | IsLatestLive(lives, date, i) { LatestLiveIs(lives, date, i); }
    if forall i :: 0 <= i < |lives| ==> lives[i].date != date {
      NoLive(lives, date);
      forall k: nat, j: nat | IsFirstSeed(seeds, date, k, j) { FirstSeedIs(seeds, date, k, j); }
      if forall k :: 0 <= k < |seeds| ==> !HasCapture(seeds[k], date) { NoSeed(seeds, date); }
    }
  }

  /** What an operation makes of the row that a date has. */
  function NextRow(row: Option<Reading>, op: Op, date: int): Option<Reading> {
    if op.Live? then (if op.snapshot.date == date then Some(LiveRow(op.snapshot).data) else row)
    else if row.Some? || SeedOf(op) == [] then row
    else Lookup(SeedRows(op.timeline.value), date)
  }

  lemma ApplyRows(table: Table, op: Op, date: int)
    requires Increasing(Earlier, RowsOf(table))
    ensures Increasing(Earlier, RowsOf(Apply(table, op)))
    ensures Lookup(RowsOf(Apply(table, op)), date) == NextRow(Lookup(RowsOf(table), date), op, date)
  {
    if op.Live? {
      AppendedRows(table, op.snapshot, date);
    } else if SeedOf(op) != [] {
      SeededRows(table, op.timeline.value, date);
    }
  }

  lemma FinalRowStep(lives: seq<Snapshot>, seeds: seq<seq<Capture>>, op: Op, date: int)
    ensures FinalRow(lives + LiveOf(op), seeds + SeedOf(op), date) == NextRow(FinalRow(lives, seeds, date), op, date)
  {
    if op.Live? {
      assert (lives + [op.snapshot])[..|lives|] == lives;
      assert seeds + SeedOf(op) == seeds;
    } else {
      assert lives + LiveOf(op) == lives;
      if SeedOf(op) != [] {
        assert (seeds + SeedOf(op))[..|seeds|] == seeds;
      } else {
        assert seeds + SeedOf(op) == seeds;
      }
    }
  }

  /** Every interleaving keeps one row per date, in increasing order, and each date holds the row it should. */
  lemma {:induction false} RunRows(ops: seq<Op>, date: int)
    ensures Increasing(Earlier, RowsOf(Run(ops)))
    ensures Lookup(RowsOf(Run(ops)), date) == FinalRow(Lives(ops), Seeds(ops), date)
  {
    if ops != [] {
      var init, op := ops[..|ops| - 1], ops[|ops| - 1];
      RunRows(init, date);
      ApplyRows(Run(init), op, date);
      FinalRowStep(Lives(init), Seeds(init), op, date);
    }
  }

  /** A history exists exactly if something was fetched or seeded. */
  lemma {:induction false} RunExists(ops: seq<Op>)
    ensures Run(ops).Some? <==> Lives(ops) != [] || Seeds(ops) != []
  {
    if ops != [] {
      var init, op := ops[..|ops| - 1], ops[|ops| - 1];
      RunExists(init);
      ApplyExists(Run(init), op);
      EmptySum(Lives(init), LiveOf(op));
      EmptySum(Seeds(init), SeedOf(op));
    }
  }

  lemma ApplyExists(table: Table, op: Op)
    ensures Apply(table, op).Some? <==> table.Some? || LiveOf(op) != [] || SeedOf(op) != []
  {
  }

  lemma EmptySum<T>(a: seq<T>, b: seq<T>)
    ensures a + b == [] <==> a == [] && b == []
  {
    assert |a + b| == |a| + |b|;
  }

  lemma SameTables(a: Table, b: Table)
    requires a.Some? == b.Some? && Increasing(Earlier, RowsOf(a)) && Increasing(Earlier, RowsOf(b))
    requires forall date :: Lookup(RowsOf(a), date) == Lookup(RowsOf(b), date)
    ensures a == b
  {
    forall key ensures Lookup(RowsOf(a), key) == Lookup(RowsOf(b), key) {
    }
    SameTable(Earlier, RowsOf(a), RowsOf(b));
  }

  lemma SameFinalRow(ops: seq<Op>, others: seq<Op>, date: int)
    requires Lives(ops) == Lives(others) && Seeds(ops) == Seeds(others)
    ensures Increasing(Earlier, RowsOf(Run(ops))) && Increasing(Earlier, RowsOf(Run(others)))
    ensures Lookup(RowsOf(Run(ops)), date) == Lookup(RowsOf(Run(others)), date)
  {
    RunRows(ops, date);
    RunRows(others, date);
  }

  lemma SameExistence(ops: seq<Op>, others: seq<Op>)
    requires Lives(ops) == Lives(others) && Seeds(ops) == Seeds(others)
    ensures Run(ops).Some? == Run(others).Some?
  {
    RunExists(ops);
    RunExists(others);
  }

  /** Confluence: how live fetches and seeds interleave does not matter, only their own orders do. */
  lemma Confluence(ops: seq<Op>, others: seq<Op>)
    requires Lives(ops) == Lives(others) && Seeds(ops) == Seeds(others)
    ensures Run(ops) == Run(others)
  {
    SameFinalRow(ops, others, 0);
    forall date ensures Lookup(RowsOf(Run(ops)), date) == Lookup(RowsOf(Run(others)), date) {
      SameFinalRow(ops, others, date);
    }
    SameExistence(ops, others);
    SameTables(Run(ops), Run(others));
  }

  lemma {:induction false} LivesConcat(a: seq<Op>, b: seq<Op>)
    ensures Lives(a + b) == Lives(a) + Lives(b)
  {
    if b == [] {
      assert a + b == a;
    } else {
      assert (a + b)[..|a + b| - 1] == a + b[..|b| - 1];
      LivesConcat(a, b[..|b| - 1]);
    }
  }

  lemma {:induction false} SeedsConcat(a: seq<Op>, b: seq<Op>)
    ensures Seeds(a + b) == Seeds(a) + Seeds(b)
  {
    if b == [] {
      assert a + b == a;
    } else {
      assert (a + b)[..|a + b| - 1] == a + b[..|b| - 1];
      SeedsConcat(a, b[..|b| - 1]);
    }
  }

  function LiveOps(lives: seq<Snapshot>): (ops: seq<Op>)
    ensures |ops| == |lives|
  {
    seq(|lives|, i requires 0 <= i < |lives| => Live(lives[i]))
  }

  predicate LivesOnly(ops: seq<Op>, lives: seq<Snapshot>) {
    Lives(ops) == lives && Seeds(ops) == []
  }

  lemma LivesOnlySnoc(ops: seq<Op>, lives: seq<Snapshot>, s: Snapshot)
    requires LivesOnly(ops, lives)
    ensures LivesOnly(ops + [Live(s)], lives + [s])
  {
    assert (ops + [Live(s)])[..|ops|] == ops;
  }

  lemma LiveOpsSnoc(lives: seq<Snapshot>, s: Snapshot)
    ensures LiveOps(lives + [s]) == LiveOps(lives) + [Live(s)]
  {
    assert (lives + [s])[..|lives|] == lives;
  }

  lemma {:induction false} OnlyLives(lives: seq<Snapshot>)
    ensures LivesOnly(LiveOps(lives), lives)
  {
    if lives != [] {
      var init, last := lives[..|lives| - 1], lives[|lives| - 1];
      assert lives == init + [last];
      OnlyLives(init);
      LiveOpsSnoc(init, last);
      LivesOnlySnoc(LiveOps(init), init, last);
    }
  }

  /** Live fetches with one seed in their midst. */
  function Around(earlier: seq<Snapshot>, timeline: Option<seq<Capture>>, later: seq<Snapshot>): seq<Op> {
    LiveOps(earlier) + [Seed(timeline)] + LiveOps(later)
  }

  /** Wherever among the live fetches a seed comes, the history is the one it gives when it comes first. */
  lemma SeedMoves(earlier: seq<Snapshot>, timeline: Option<seq<Capture>>, later: seq<Snapshot>)
    ensures Run(Around(earlier, timeline, later)) == Run(Around([], timeline, earlier + later))
    ensures Revisions(RowsOf(Run(Around(earlier, timeline, later)))) == Revisions(RowsOf(Run(Around([], timeline, earlier + later))))
  {
    SeedWithin(earlier, timeline, later);
    SeedWithin([], timeline, earlier + later);
    assert [] + (earlier + later) == earlier + later;
    Confluence(Around(earlier, timeline, later), Around([], timeline, earlier + later));
  }

  lemma SeedWithin(earlier: seq<Snapshot>, timeline: Option<seq<Capture>>, later: seq<Snapshot>)
    ensures Lives(Around(earlier, timeline, later)) == earlier + later
    ensures Seeds(Around(earlier, timeline, later)) == SeedOf(Seed(timeline))
  {
    OnlyLives(earlier);
    OnlyLives(later);
    SeedAfter(LiveOps(earlier), timeline);
    NoSeedAfter(LiveOps(earlier) + [Seed(timeline)], LiveOps(later), earlier, later);
  }

  lemma NoSeedAfter(front: seq<Op>, back: seq<Op>, a: seq<Snapshot>, b: seq<Snapshot>)
    requires Lives(front) == a && Lives(back) == b && Seeds(back) == []
    ensures Lives(front + back) == a + b && Seeds(front + back) == Seeds(front)
  {
    LivesConcat(front, back);
    SeedsConcat(front, back);
    assert Seeds(front) + [] == Seeds(front);
  }

  lemma SeedAfter(front: seq<Op>, timeline: Option<seq<Capture>>)
    requires Seeds(front) == []
    ensures Lives(front + [Seed(timeline)]) == Lives(front)
    ensures Seeds(front + [Seed(timeline)]) == SeedOf(Seed(timeline))
  {
    OneSeed(timeline);
    LivesConcat(front, [Seed(timeline)]);
    SeedsConcat(front, [Seed(timeline)]);
  }

  lemma OneSeed(timeline: Option<seq<Capture>>)
    ensures Lives([Seed(timeline)]) == [] && Seeds([Seed(timeline)]) == SeedOf(Seed(timeline))
  {
    assert [Seed(timeline)][..0] == [];
  }

  // ---------------------------------------------------------------------------
  // The four-week revision

  function Revision(rows: seq<EpsRow>, i: nat): (revision: Option<real>)
    requires i < |rows|
    ensures revision.Some? ==> rows[i].data.value.Some? && i >= 4 && rows[i - 4].data.value.Some?
                               && rows[i].data.value.value == rows[i - 4].data.value.value * (1.0 + revision.value)
    ensures revision.None? <==> i < 4 || rows[i].data.value.None? || rows[i - 4].data.value in {None, Some(0.0)}
  {
    if i < LOOKBACK then None
    else
      var current, prior := rows[i].data.value, rows[i - LOOKBACK].data.value;
      if current.None? || prior.None? || prior.value == 0.0 then None else Some((current.value - prior.value) / prior.value)
  }

  /** `compute_eps_revision_direction_4w`. */
  function Revisions(history: seq<EpsRow>): seq<Option<real>> {
    var rows := SortByKey(Earlier, history);
    seq(|rows|, i requires 0 <= i < |rows| => Revision(rows, i))
  }

  lemma RevisionsShape(rows: seq<EpsRow>)
    requires Increasing(Earlier, rows)
    ensures |Revisions(rows)| == |rows| && forall i :: 0 <= i < |rows| ==> Revisions(rows)[i] == Revision(rows, i)
  {
    SortedIsSorted(Earlier, rows);
  }

  lemma AppendedLater(rows: seq<EpsRow>, s: Snapshot)
    requires Increasing(Earlier, rows) && forall i :: 0 <= i < |rows| ==> rows[i].key < s.date
    ensures Appended(Some(rows), s) == rows + [LiveRow(s)] && Increasing(Earlier, rows + [LiveRow(s)])
  {
    forall date ensures Lookup(Appended(Some(rows), s), date) == Lookup(rows + [LiveRow(s)], date) {
      AppendedRows(Some(rows), s, date);
      LookupSnoc(rows, LiveRow(s), date);
    }
    AppendedRows(Some(rows), s, 0);
    SameTable(Earlier, Appended(Some(rows), s), rows + [LiveRow(s)]);
  }

  lemma AppendedTable(table: Table, s: Snapshot)
    ensures Increasing(Earlier, RowsOf(table)) ==>
              && Increasing(Earlier, Appended(table, s))
              && forall date :: Lookup(Appended(table, s), date) ==
                                if date == s.date then Some(LiveRow(s).data) else Lookup(RowsOf(table), date)
  {
    if Increasing(Earlier, RowsOf(table)) {
      AppendedRows(table, s, 0);
      forall date { AppendedRows(table, s, date); }
    }
  }

  /** A fetch for a new latest date adds one row and one revision and changes no earlier revision. */
  lemma LaterFetchExtends(rows: seq<EpsRow>, s: Snapshot)
    requires Increasing(Earlier, rows) && forall i :: 0 <= i < |rows| ==> rows[i].key < s.date
    ensures Appended(Some(rows), s) == rows + [LiveRow(s)]
    ensures Revisions(Appended(Some(rows), s)) == Revisions(rows) + [Revision(rows + [LiveRow(s)], |rows|)]
  {
    var more := rows + [LiveRow(s)];
    AppendedLater(rows, s);
    RevisionsShape(rows);
    RevisionsShape(more);
    forall i | 0 <= i < |rows| ensures Revisions(more)[i] == Revisions(rows)[i] { RevisionOfPrefix(rows, LiveRow(s), i); }
    IsSnoc(Revisions(rows), Revisions(more));
  }

  lemma IsSnoc<T>(short: seq<T>, long: seq<T>)
    requires |long| == |short| + 1 && forall i :: 0 <= i < |short| ==> long[i] == short[i]
    ensures long == short + [long[|short|]]
  {
  }

  lemma RevisionOfPrefix(rows: seq<EpsRow>, row: EpsRow, i: nat)
    requires i < |rows|
    ensures Revision(rows + [row], i) == Revision(rows, i)
  {
  }

  lemma {:induction false} LookupUpdate(rows: seq<EpsRow>, k: nat, row: EpsRow, date: int)
    requires DistinctKeys(rows) && k < |rows| && row.key == rows[k].key
    ensures Lookup(rows[k := row], date) == if date == row.key then Some(row.data) else Lookup(rows, date)
  {
    var init := rows[..|rows| - 1];
    if k < |rows| - 1 {
      assert rows[k := row][..|rows| - 1] == init[k := row];
      LookupUpdate(init, k, row, date);
    } else {
      assert rows[k := row][..|rows| - 1] == init;
    }
  }

  lemma AppendedInPlace(rows: seq<EpsRow>, s: Snapshot, k: nat)
    requires Increasing(Earlier, rows) && k < |rows| && rows[k].key == s.date
    ensures Appended(Some(rows), s) == rows[k := LiveRow(s)] && Increasing(Earlier, rows[k := LiveRow(s)])
  {
    var updated := rows[k := LiveRow(s)];
    assert Increasing(Earlier, updated) by { UpdateKeepsOrder(rows, k, LiveRow(s)); }
    forall date ensures Lookup(Appended(Some(rows), s), date) == Lookup(updated, date) {
      AppendedRows(Some(rows), s, date);
      LookupUpdate(rows, k, LiveRow(s), date);
    }
    AppendedRows(Some(rows), s, 0);
    SameTable(Earlier, Appended(Some(rows), s), updated);
  }

  lemma UpdateKeepsOrder(rows: seq<EpsRow>, k: nat, row: EpsRow)
    requires Increasing(Earlier, rows) && k < |rows| && rows[k].key == row.key
    ensures Increasing(Earlier, rows[k := row])
  {
  }

  lemma RevisionsUpdate(rows: seq<EpsRow>, row: EpsRow, k: nat, i: nat)
    requires Increasing(Earlier, rows) && k < |rows| && i < |rows| && Increasing(Earlier, rows[k := row])
    ensures |Revisions(rows[k := row])| == |Revisions(rows)| == |rows|
    ensures i != k && i != k + LOOKBACK ==> Revisions(rows[k := row])[i] == Revisions(rows)[i]
  {
    RevisionsShape(rows);
    RevisionsShape(rows[k := row]);
    assert i != k && i != k + LOOKBACK ==> Revision(rows[k := row], i) == Revision(rows, i);
  }

  /** Fetching a date again replaces its row in place and can change only its own revision and the one four rows later. */
  lemma RefetchIsLocal(rows: seq<EpsRow>, s: Snapshot, k: nat, i: nat)
    requires Increasing(Earlier, rows) && k < |rows| && rows[k].key == s.date && i < |rows|
    ensures Appended(Some(rows), s) == rows[k := LiveRow(s)]
    ensures |Revisions(Appended(Some(rows), s))| == |Revisions(rows)| == |rows|
    ensures i != k && i != k + LOOKBACK ==> Revisions(Appended(Some(rows), s))[i] == Revisions(rows)[i]
  {
    AppendedInPlace(rows, s, k);
    RevisionsUpdate(rows, LiveRow(s), k, i);
  }
}
