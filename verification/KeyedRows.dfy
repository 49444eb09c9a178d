/** Rows with a key, and the few dataframe operations that the accumulators are made of. */
module KeyedRows {
  import opened Wrappers

  datatype Row<K, V> = Row(key: K, data: V)

  /** What a key holds: the data of its last row. */
  function Lookup<K(==), V>(rows: seq<Row<K, V>>, key: K): Option<V> {
    if rows == [] then None
    else if rows[|rows| - 1].key == key then Some(rows[|rows| - 1].data) else Lookup(rows[..|rows| - 1], key)
  }

  lemma {:induction false} LookupFinds<K, V>(rows: seq<Row<K, V>>, key: K)
    ensures Lookup(rows, key).Some? <==> exists i :: 0 <= i < |rows| && rows[i].key == key
    ensures Lookup(rows, key).Some? ==> Row(key, Lookup(rows, key).value) in rows
  {
    if rows != [] { LookupFinds(rows[..|rows| - 1], key); }
  }

  lemma {:induction false} LookupConcat<K, V>(a: seq<Row<K, V>>, b: seq<Row<K, V>>, key: K)
    ensures Lookup(a + b, key) == if Lookup(b, key).Some? then Lookup(b, key) else Lookup(a, key)
  {
    if b == [] {
      assert a + b == a;
    } else {
      assert (a + b)[..|a + b| - 1] == a + b[..|b| - 1];
      LookupConcat(a, b[..|b| - 1], key);
    }
  }

  lemma LookupSnoc<K, V>(rows: seq<Row<K, V>>, row: Row<K, V>, key: K)
    ensures Lookup(rows + [row], key) == if row.key == key then Some(row.data) else Lookup(rows, key)
  {
    assert (rows + [row])[..|rows|] == rows;
  }

  // ---------------------------------------------------------------------------
  // Order

  ghost predicate StrictOrder<K(!new)>(before: (K, K) -> bool) {
    && (forall a :: !before(a, a))
    && (forall a, b, c :: before(a, b) && before(b, c) ==> before(a, c))
    && (forall a, b :: a == b || before(a, b) || before(b, a))
  }

  /** Sorted, with one row per key. */
  predicate Increasing<K, V>(before: (K, K) -> bool, rows: seq<Row<K, V>>) {
    forall i, j :: 0 <= i < j < |rows| ==> before(rows[i].key, rows[j].key)
  }

  predicate Ascending<K, V>(before: (K, K) -> bool, rows: seq<Row<K, V>>) {
    forall i, j :: 0 <= i < j < |rows| ==> !before(rows[j].key, rows[i].key)
  }

  predicate DistinctKeys<K(==), V>(rows: seq<Row<K, V>>) {
    forall i, j :: 0 <= i < j < |rows| ==> rows[i].key != rows[j].key
  }

  lemma IncreasingIff<K(!new), V>(before: (K, K) -> bool, rows: seq<Row<K, V>>)
    requires StrictOrder(before)
    ensures Increasing(before, rows) <==> Ascending(before, rows) && DistinctKeys(rows)
  {
  }

  /** Two sorted tables with the same rows for every key are the same table. */
  lemma {:induction false} SameTable<K(!new), V>(before: (K, K) -> bool, a: seq<Row<K, V>>, b: seq<Row<K, V>>)
    requires StrictOrder(before) && Increasing(before, a) && Increasing(before, b)
    requires forall key :: Lookup(a, key) == Lookup(b, key)
    ensures a == b
  {
    if a == [] {
      assert b != [] ==> Lookup(a, b[|b| - 1].key) == Lookup(b, b[|b| - 1].key);
    } else {
      var x := a[|a| - 1];
      assert Lookup(b, x.key) == Lookup(a, x.key) == Some(x.data);
      var y := b[|b| - 1];
      assert Lookup(a, y.key) == Lookup(b, y.key) == Some(y.data);
      LookupFinds(b, x.key);
      LookupFinds(a, y.key);
      assert x.key == y.key;
      var a', b' := a[..|a| - 1], b[..|b| - 1];
      forall key ensures Lookup(a', key) == Lookup(b', key) {
        assert Lookup(a, key) == Lookup(b, key);
        LookupFinds(a', key);
        LookupFinds(b', key);
      }
      SameTable(before, a', b');
      assert a == a' + [x] && b == b' + [y];
    }
  }

  // ---------------------------------------------------------------------------
  // Sorting

  function Insert<K, V>(before: (K, K) -> bool, rows: seq<Row<K, V>>, row: Row<K, V>): seq<Row<K, V>> {
    if rows != [] && before(row.key, rows[|rows| - 1].key)
    then Insert(before, rows[..|rows| - 1], row) + [rows[|rows| - 1]]
    else rows + [row]
  }

  /** A stable `sort_values`. */
  function SortByKey<K, V>(before: (K, K) -> bool, rows: seq<Row<K, V>>): seq<Row<K, V>> {
    if rows == [] then [] else Insert(before, SortByKey(before, rows[..|rows| - 1]), rows[|rows| - 1])
  }

  lemma {:induction false} InsertedRows<K(!new), V>(before: (K, K) -> bool, rows: seq<Row<K, V>>, row: Row<K, V>, key: K)
    requires StrictOrder(before)
    ensures Lookup(Insert(before, rows, row), key) == if key == row.key then Some(row.data) else Lookup(rows, key)
  {
    if rows != [] && before(row.key, rows[|rows| - 1].key) {
      InsertedRows(before, rows[..|rows| - 1], row, key);
      LookupSnoc(Insert(before, rows[..|rows| - 1], row), rows[|rows| - 1], key);
    } else {
      LookupSnoc(rows, row, key);
    }
  }

  lemma {:induction false} InsertedFrom<K, V>(before: (K, K) -> bool, rows: seq<Row<K, V>>, row: Row<K, V>)
    ensures forall r :: r in Insert(before, rows, row) ==> r == row || r in rows
  {
    if rows != [] && before(row.key, rows[|rows| - 1].key) { InsertedFrom(before, rows[..|rows| - 1], row); }
  }

  lemma {:induction false} InsertedOrder<K(!new), V>(before: (K, K) -> bool, rows: seq<Row<K, V>>, row: Row<K, V>)
    requires StrictOrder(before) && Ascending(before, rows)
    ensures Ascending(before, Insert(before, rows, row))
    ensures Increasing(before, rows) && Lookup(rows, row.key).None? ==> Increasing(before, Insert(before, rows, row))
  {
    if rows != [] && before(row.key, rows[|rows| - 1].key) {
      var init, last := rows[..|rows| - 1], rows[|rows| - 1];
      var inserted := Insert(before, init, row);
      InsertedOrder(before, init, row);
      InsertedFrom(before, init, row);
      LookupFinds(init, row.key);
      forall i | 0 <= i < |inserted|
        ensures !before(last.key, inserted[i].key)
        ensures Increasing(before, rows) ==> before(inserted[i].key, last.key)
      {
        assert inserted[i] in inserted;
      }
    } else {
      LookupFinds(rows, row.key);
      forall i | 0 <= i < |rows|
        ensures !before(row.key, rows[i].key)
        ensures Lookup(rows, row.key).None? ==> before(rows[i].key, row.key)
      {
        assert i < |rows| - 1 ==> !before(rows[|rows| - 1].key, rows[i].key);
      }
    }
  }

  /** Sorting keeps what every key holds. */
  lemma {:induction false} SortedRows<K(!new), V>(before: (K, K) -> bool, rows: seq<Row<K, V>>, key: K)
    requires StrictOrder(before)
    ensures Ascending(before, SortByKey(before, rows)) && Lookup(SortByKey(before, rows), key) == Lookup(rows, key)
  {
    if rows != [] {
      SortedRows(before, rows[..|rows| - 1], key);
      InsertedRows(before, SortByKey(before, rows[..|rows| - 1]), rows[|rows| - 1], key);
      InsertedOrder(before, SortByKey(before, rows[..|rows| - 1]), rows[|rows| - 1]);
    }
  }

  lemma {:induction false} SortedDistinct<K(!new), V>(before: (K, K) -> bool, rows: seq<Row<K, V>>)
    requires StrictOrder(before) && DistinctKeys(rows)
    ensures Increasing(before, SortByKey(before, rows))
  {
    if rows != [] {
      var init, last := rows[..|rows| - 1], rows[|rows| - 1];
      SortedDistinct(before, init);
      SortedRows(before, init, last.key);
      LookupFinds(init, last.key);
      InsertedOrder(before, SortByKey(before, init), last);
    }
  }

  lemma SortedIsSorted<K(!new), V>(before: (K, K) -> bool, rows: seq<Row<K, V>>)
    requires StrictOrder(before) && Increasing(before, rows)
    ensures SortByKey(before, rows) == rows
  {
    IncreasingIff(before, rows);
    SortedDistinct(before, rows);
    forall key ensures Lookup(SortByKey(before, rows), key) == Lookup(rows, key) {
      SortedRows(before, rows, key);
    }
    SameTable(before, SortByKey(before, rows), rows);
  }

  // ---------------------------------------------------------------------------
  // Duplicates

  /** `drop_duplicates(keep="last")`. */
  function KeepLast<K(==), V>(rows: seq<Row<K, V>>): seq<Row<K, V>> {
    if rows == [] then []
    else if Lookup(rows[1..], rows[0].key).Some? then KeepLast(rows[1..])
    else [rows[0]] + KeepLast(rows[1..])
  }

  lemma LookupCons<K, V>(row: Row<K, V>, rest: seq<Row<K, V>>, key: K)
    ensures Lookup([row] + rest, key) ==
            if Lookup(rest, key).Some? then Lookup(rest, key) else if row.key == key then Some(row.data) else None
  {
    LookupConcat([row], rest, key);
    LookupSnoc([], row, key);
    assert [] + [row] == [row];
  }

  lemma {:induction false} KeptRows<K, V>(rows: seq<Row<K, V>>, key: K)
    ensures Lookup(KeepLast(rows), key) == Lookup(rows, key)
  {
    if rows != [] {
      KeptRows(rows[1..], key);
      assert rows == [rows[0]] + rows[1..];
      LookupCons(rows[0], rows[1..], key);
      LookupCons(rows[0], KeepLast(rows[1..]), key);
    }
  }

  lemma {:induction false} KeptFrom<K, V>(rows: seq<Row<K, V>>)
    ensures forall r :: r in KeepLast(rows) ==> r in rows
  {
    if rows != [] { KeptFrom(rows[1..]); }
  }

  lemma {:induction false} KeptDistinct<K, V>(rows: seq<Row<K, V>>)
    ensures DistinctKeys(KeepLast(rows))
  {
    if rows != [] {
      KeptDistinct(rows[1..]);
      KeptRows(rows[1..], rows[0].key);
      LookupFinds(KeepLast(rows[1..]), rows[0].key);
    }
  }

  lemma {:induction false} KeptOrder<K(!new), V>(before: (K, K) -> bool, rows: seq<Row<K, V>>)
    requires StrictOrder(before) && Ascending(before, rows)
    ensures Increasing(before, KeepLast(rows))
  {
    KeptAscending(before, rows);
    KeptDistinct(rows);
    IncreasingIff(before, KeepLast(rows));
  }

  lemma {:induction false} KeptAscending<K(!new), V>(before: (K, K) -> bool, rows: seq<Row<K, V>>)
    requires StrictOrder(before) && Ascending(before, rows)
    ensures Ascending(before, KeepLast(rows))
  {
    if rows != [] {
      KeptAscending(before, rows[1..]);
      KeptFrom(rows[1..]);
      var kept := KeepLast(rows[1..]);
      forall i | 0 <= i < |kept| ensures !before(kept[i].key, rows[0].key) {
        assert kept[i] in kept;
      }
    }
  }
}
