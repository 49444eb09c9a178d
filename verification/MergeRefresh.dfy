/**
 Incremental refreshes of a keyed table (src/regime_data_fetch/fetch_workflow.py): each batch is merged into what is
 stored. Keys are the values of the key columns after the date column was normalised; `before` orders them.
 */
module MergeRefresh {
  import opened Wrappers
  import opened KeyedRows

  /** A dataframe: without a "date" column there are no keys to merge on. */
  datatype Frame<K, V> = Frame(hasDate: bool, rows: seq<Row<K, V>>)

  datatype MergeError = NoDateColumn

  /** `_normalize_date_column`. */
  function Normalized<K, V>(frame: Frame<K, V>): Result<Frame<K, V>, MergeError> {
    if frame.rows == [] && !frame.hasDate then Ok(frame)
    else if !frame.hasDate then Err(NoDateColumn)
    else Ok(frame)
  }

  /** `_merge_existing_rows`. */
  function Merged<K(==), V>(before: (K, K) -> bool, existing: Option<Frame<K, V>>, batch: Frame<K, V>): Result<Frame<K, V>, MergeError> {
    if batch.rows == [] && !batch.hasDate then
      if existing.Some? then Normalized(existing.value) else Ok(batch)
    else
      match Normalized(batch)
      case Err(e) => Err(e)
      case Ok(added) =>
        if existing.None? || existing.value.rows == [] then Ok(added)
        else
          match Normalized(existing.value)
          case Err(e) => Err(e)
          case Ok(kept) => Ok(Frame(true, SortByKey(before, KeepLast(SortByKey(before, kept.rows + added.rows)))))
  }

  // ---------------------------------------------------------------------------
  // The order of several key columns

  /** `sort_values` over two key columns, or a column and further columns. */
  function ThenBy<A(==), B>(first: (A, A) -> bool, second: (B, B) -> bool): ((A, B), (A, B)) -> bool {
    (a: (A, B), b: (A, B)) => first(a.0, b.0) || (a.0 == b.0 && second(a.1, b.1))
  }

  lemma ThenByIsOrder<A(!new), B(!new)>(first: (A, A) -> bool, second: (B, B) -> bool)
    requires StrictOrder(first) && StrictOrder(second)
    ensures StrictOrder(ThenBy(first, second))
  {
    var before := ThenBy(first, second);
    forall a: (A, B), b: (A, B) ensures a == b || before(a, b) || before(b, a) {
      assert a.0 == b.0 || first(a.0, b.0) || first(b.0, a.0);
      assert a.1 == b.1 || second(a.1, b.1) || second(b.1, a.1);
    }
  }

  /** Strings by code point. */
  predicate TextBefore(a: string, b: string) {
    b != "" && (a == "" || a[0] < b[0] || (a[0] == b[0] && TextBefore(a[1..], b[1..])))
  }

  /** At the first place where the texts differ, the smaller one ends or has the smaller character. */
  predicate DifferAt(a: string, b: string, n: nat) {
    n <= |a| && n < |b| && a[..n] == b[..n] && (n == |a| || a[n] < b[n])
  }

  lemma {:induction false} TextBeforeIff(a: string, b: string)
    ensures TextBefore(a, b) <==> exists n: nat :: DifferAt(a, b, n)
  {
    forall n: nat | 0 < n && DifferAt(a, b, n) ensures a != "" && b != "" && a[0] == b[0] {
      assert a[..n][0] == b[..n][0];
    }
    if a != "" && b != "" && a[0] == b[0] {
      TextBeforeIff(a[1..], b[1..]);
      if n: nat :| DifferAt(a[1..], b[1..], n) {
        assert a[..n + 1] == [a[0]] + a[1..][..n] && b[..n + 1] == [b[0]] + b[1..][..n];
        assert DifferAt(a, b, n + 1);
      }
      if n: nat :| DifferAt(a, b, n) {
        assert n > 0 && a[..n] == [a[0]] + a[1..][..n - 1] && b[..n] == [b[0]] + b[1..][..n - 1];
        assert a[1..][..n - 1] == a[..n][1..] && b[1..][..n - 1] == b[..n][1..];
        assert DifferAt(a[1..], b[1..], n - 1);
      }
    } else {
      assert TextBefore(a, b) ==> DifferAt(a, b, 0);
    }
  }

  lemma {:induction false} TextTotal(a: string, b: string)
    ensures a == b || TextBefore(a, b) || TextBefore(b, a)
    ensures a == b ==> !TextBefore(a, b)
  {
    if a != "" && b != "" && a[0] == b[0] {
      TextTotal(a[1..], b[1..]);
      assert a == [a[0]] + a[1..] && b == [b[0]] + b[1..];
    }
  }

  lemma {:induction false} TextTransitive(a: string, b: string, c: string)
    requires TextBefore(a, b) && TextBefore(b, c)
    ensures TextBefore(a, c)
  {
    if a != "" && a[0] == b[0] == c[0] { TextTransitive(a[1..], b[1..], c[1..]); }
  }

  predicate EarlierDate(a: int, b: int) {
    a < b
  }

  /** The key columns of the daily prices, symbol and date, order their rows strictly. */
  lemma SymbolDateIsOrder()
    ensures StrictOrder(ThenBy(TextBefore, EarlierDate))
  {
    forall a, b ensures (a == b || TextBefore(a, b) || TextBefore(b, a)) && (a == b ==> !TextBefore(a, b)) {
      TextTotal(a, b);
    }
    forall a, b, c | TextBefore(a, b) && TextBefore(b, c) ensures TextBefore(a, c) {
      TextTransitive(a, b, c);
    }
    ThenByIsOrder(TextBefore, EarlierDate);
  }

  // ---------------------------------------------------------------------------
  // One merge

  function RowsOf<K, V>(stored: Option<Frame<K, V>>): seq<Row<K, V>> {
    if stored.Some? then stored.value.rows else []
  }

  /** What a merge can use of a batch. */
  function Usable<K, V>(batch: Frame<K, V>): seq<Row<K, V>> {
    if batch.hasDate then batch.rows else []
  }

  /** What every merge leaves behind: rows only with a date column. */
  predicate WellFormed<K, V>(stored: Option<Frame<K, V>>) {
    stored.Some? && !stored.value.hasDate ==> stored.value.rows == []
  }

  lemma ResortedRows<K(!new), V>(before: (K, K) -> bool, rows: seq<Row<K, V>>, key: K)
    requires StrictOrder(before)
    ensures var resorted := SortByKey(before, KeepLast(SortByKey(before, rows)));
            Increasing(before, resorted) && Lookup(resorted, key) == Lookup(rows, key)
  {
    var sorted := SortByKey(before, rows);
    SortedRows(before, rows, key);
    KeptOrder(before, sorted);
    KeptRows(sorted, key);
    SortedIsSorted(before, KeepLast(sorted));
  }

  /** A merge fails only for a batch that has rows but no date column. */
  lemma MergeFails<K, V>(before: (K, K) -> bool, existing: Option<Frame<K, V>>, batch: Frame<K, V>)
    requires WellFormed(existing)
    ensures Merged(before, existing, batch).Err? <==> !batch.hasDate && batch.rows != []
    ensures Merged(before, existing, batch).Ok? ==> WellFormed(Some(Merged(before, existing, batch).value))
  {
  }

  /** The merged table holds the batch's last row for every key of the batch, and the old rows for all other keys. */
  lemma MergedRows<K(!new), V>(before: (K, K) -> bool, existing: Option<Frame<K, V>>, batch: Frame<K, V>, key: K)
    requires StrictOrder(before) && WellFormed(existing) && Merged(before, existing, batch).Ok?
    ensures Lookup(Merged(before, existing, batch).value.rows, key) ==
            if Lookup(Usable(batch), key).Some? then Lookup(Usable(batch), key) else Lookup(RowsOf(existing), key)
  {
    if batch.hasDate && RowsOf(existing) != [] {
      ResortedRows(before, existing.value.rows + batch.rows, key);
      LookupConcat(existing.value.rows, batch.rows, key);
    }
  }

  /** Only a merge of a dated batch into rows sorts and dedupes; any other keeps one of the two frames verbatim. */
  lemma MergedShape<K(!new), V>(before: (K, K) -> bool, existing: Option<Frame<K, V>>, batch: Frame<K, V>)
    requires StrictOrder(before) && WellFormed(existing) && Merged(before, existing, batch).Ok?
    ensures var merged := Merged(before, existing, batch).value.rows;
            if !batch.hasDate then merged == RowsOf(existing)
            else if RowsOf(existing) == [] then merged == batch.rows
            else Increasing(before, merged)
  {
    if batch.hasDate && RowsOf(existing) != [] {
      var rows := existing.value.rows + batch.rows;
      ResortedRows(before, rows, rows[0].key);
    }
  }

  /** Merging the same dated batch again changes nothing exactly if the table was left sorted and free of duplicates. */
  lemma RemergeIsNoop<K(!new), V>(before: (K, K) -> bool, existing: Option<Frame<K, V>>, batch: Frame<K, V>)
    requires StrictOrder(before) && WellFormed(existing) && batch.hasDate
    ensures Merged(before, existing, batch).Ok?
    ensures var once := Merged(before, existing, batch).value; var twice := Merged(before, Some(once), batch);
            twice.Ok? && (twice.value.rows == once.rows <==> Increasing(before, once.rows))
  {
    var once := Merged(before, existing, batch).value;
    var twice := Merged(before, Some(once), batch).value;
    MergedShape(before, Some(once), batch);
    forall key ensures Lookup(twice.rows, key) == Lookup(once.rows, key) {
      MergedRows(before, existing, batch, key);
      MergedRows(before, Some(once), batch, key);
    }
    if once.rows == [] {
      assert batch.rows == [] by { EmptyMerge(before, existing, batch); }
    } else if Increasing(before, once.rows) {
      SameTable(before, twice.rows, once.rows);
    }
  }

  class StoredTable<K(==, !new), V> {
    const before: (K, K) -> bool
    var stored: Option<Frame<K, V>>

    constructor (before: (K, K) -> bool)
      requires StrictOrder(before)
      ensures this.before == before && stored == None && Valid()
    {
      this.before := before;
      stored := None;
    }

    /** The order orders, and the tree on disk was written by a merge. */
    ghost predicate Valid()
      reads this
    {
      StrictOrder(before) && WellFormed(stored)
    }

    /**
     `_write_merged_partitioned_daily_ohlcv`: every key of the batch holds the batch's last row for it, every other key
     its old row, and a dated batch merged into rows leaves them sorted with unique keys. A batch with rows but no date
     column fails and changes nothing; the old tree goes only once the merged frame is complete.
     */
    method WriteMerged(batch: Frame<K, V>) returns (result: Result<Frame<K, V>, MergeError>)
      requires Valid()
      modifies this`stored
      ensures Valid()
      ensures result.Err? <==> !batch.hasDate && batch.rows != []
      ensures stored == if result.Ok? then Some(result.value) else old(stored)
      ensures result.Ok? ==> forall key ::
        Lookup(RowsOf(stored), key) ==
        if Lookup(Usable(batch), key).Some? then Lookup(Usable(batch), key) else Lookup(old(RowsOf(stored)), key)
      ensures batch.hasDate && old(RowsOf(stored)) != [] ==> Increasing(before, RowsOf(stored))
      ensures result.Ok? && batch.hasDate && old(RowsOf(stored)) == [] ==> RowsOf(stored) == batch.rows
      ensures result.Ok? && !batch.hasDate ==> RowsOf(stored) == old(RowsOf(stored))
    {
      MergeFails(before, stored, batch);
      result := Merged(before, stored, batch);
      if result.Ok? {
        MergedShape(before, stored, batch);
        forall key { MergedRows(before, stored, batch, key); }
        stored := None;
        stored := Some(result.value);
      }
    }
  }

  lemma EmptyMerge<K(!new), V>(before: (K, K) -> bool, existing: Option<Frame<K, V>>, batch: Frame<K, V>)
    requires StrictOrder(before) && WellFormed(existing) && batch.hasDate && Merged(before, existing, batch).value.rows == []
    ensures batch.rows == []
  {
    if batch.rows != [] {
      MergedRows(before, existing, batch, batch.rows[|batch.rows| - 1].key);
    }
  }

  // ---------------------------------------------------------------------------
  // Any sequence of refreshes

  /** The table after a refresh; a failing one leaves it alone. */
  function Refreshed<K(==), V>(before: (K, K) -> bool, stored: Option<Frame<K, V>>, batch: Frame<K, V>): Option<Frame<K, V>> {
    var merged := Merged(before, stored, batch);
    if merged.Ok? then Some(merged.value) else stored
  }

  function RunBatches<K(==), V>(before: (K, K) -> bool, batches: seq<Frame<K, V>>): Option<Frame<K, V>> {
    if batches == [] then None
    else Refreshed(before, RunBatches(before, batches[..|batches| - 1]), batches[|batches| - 1])
  }

  /** All usable rows in the order they were fetched. */
  function AllRows<K, V>(batches: seq<Frame<K, V>>): seq<Row<K, V>> {
    if batches == [] then [] else AllRows(batches[..|batches| - 1]) + Usable(batches[|batches| - 1])
  }

  /** The one batch that is still stored as it came, if no merge has sorted the table yet. */
  function RawRows<K(==), V(==)>(batches: seq<Frame<K, V>>): Option<seq<Row<K, V>>> {
    if batches == [] then Some([])
    else
      var raw, batch := RawRows(batches[..|batches| - 1]), batches[|batches| - 1];
      if !batch.hasDate then raw else if raw == Some([]) then Some(batch.rows) else None
  }

  lemma {:induction false} RunWellFormed<K(!new), V>(before: (K, K) -> bool, batches: seq<Frame<K, V>>)
    ensures WellFormed(RunBatches(before, batches))
  {
    if batches != [] {
      RunWellFormed(before, batches[..|batches| - 1]);
      MergeFails(before, RunBatches(before, batches[..|batches| - 1]), batches[|batches| - 1]);
    }
  }

  /** No key is lost and the last writer wins, whatever the batches look like. */
  lemma {:induction false} RunLookup<K(!new), V>(before: (K, K) -> bool, batches: seq<Frame<K, V>>, key: K)
    requires StrictOrder(before)
    ensures Lookup(RowsOf(RunBatches(before, batches)), key) == Lookup(AllRows(batches), key)
  {
    if batches != [] {
      var init, batch := batches[..|batches| - 1], batches[|batches| - 1];
      RunLookup(before, init, key);
      RunWellFormed(before, init);
      MergeFails(before, RunBatches(before, init), batch);
      LookupConcat(AllRows(init), Usable(batch), key);
      if Merged(before, RunBatches(before, init), batch).Ok? {
        MergedRows(before, RunBatches(before, init), batch, key);
      }
    }
  }

  lemma {:induction false} RunShape<K(!new), V>(before: (K, K) -> bool, batches: seq<Frame<K, V>>)
    requires StrictOrder(before)
    ensures var rows := RowsOf(RunBatches(before, batches));
            if RawRows(batches).Some? then rows == RawRows(batches).value else rows != [] && Increasing(before, rows)
  {
    if batches != [] {
      var init, batch := batches[..|batches| - 1], batches[|batches| - 1];
      RunShape(before, init);
      RunWellFormed(before, init);
      MergeFails(before, RunBatches(before, init), batch);
      if Merged(before, RunBatches(before, init), batch).Ok? {
        MergedShape(before, RunBatches(before, init), batch);
        if batch.hasDate && RowsOf(RunBatches(before, init)) != [] { MergeKeepsRows(before, RunBatches(before, init), batch); }
      }
    }
  }

  lemma MergeKeepsRows<K(!new), V>(before: (K, K) -> bool, existing: Option<Frame<K, V>>, batch: Frame<K, V>)
    requires StrictOrder(before) && WellFormed(existing) && Merged(before, existing, batch).Ok? && RowsOf(existing) != []
    ensures Merged(before, existing, batch).value.rows != []
  {
    var rows := RowsOf(existing);
    MergedRows(before, existing, batch, rows[|rows| - 1].key);
  }

  /** The table is sorted with unique keys, unless the only rows so far came in one batch that is not. */
  lemma RunIncreasingIff<K(!new), V>(before: (K, K) -> bool, batches: seq<Frame<K, V>>)
    requires StrictOrder(before)
    ensures Increasing(before, RowsOf(RunBatches(before, batches)))
            <==> (RawRows(batches).Some? ==> Increasing(before, RawRows(batches).value))
  {
    RunShape(before, batches);
  }

  /** The first dated batch with rows. */
  function FirstRows<K, V>(batches: seq<Frame<K, V>>): seq<Row<K, V>> {
    if batches == [] then []
    else if Usable(batches[0]) != [] then Usable(batches[0]) else FirstRows(batches[1..])
  }

  lemma {:induction false} FirstRowsSnoc<K, V>(batches: seq<Frame<K, V>>, batch: Frame<K, V>)
    ensures FirstRows(batches + [batch]) == if FirstRows(batches) != [] then FirstRows(batches) else Usable(batch)
  {
    if batches == [] {
      assert batches + [batch] == [batch] && [batch][1..] == [];
    } else {
      assert (batches + [batch])[1..] == batches[1..] + [batch];
      FirstRowsSnoc(batches[1..], batch);
    }
  }

  lemma {:induction false} RawIsFirst<K, V>(batches: seq<Frame<K, V>>)
    ensures RawRows(batches).Some? ==> RawRows(batches).value == FirstRows(batches)
  {
    if batches != [] {
      var init, batch := batches[..|batches| - 1], batches[|batches| - 1];
      RawIsFirst(init);
      assert batches == init + [batch];
      FirstRowsSnoc(init, batch);
    }
  }

  /** If the first batch with rows is sorted with unique keys, so is the table after every refresh. */
  lemma GoodFirstBatch<K(!new), V>(before: (K, K) -> bool, batches: seq<Frame<K, V>>)
    requires StrictOrder(before) && Increasing(before, FirstRows(batches))
    ensures Increasing(before, RowsOf(RunBatches(before, batches)))
  {
    RawIsFirst(batches);
    RunShape(before, batches);
  }
}
