/** Consolidation embeds every source faithfully: nothing is lost, ids do not clash, references follow their rows. */
module ConsolidationProperties {
  import opened Wrappers
  import opened KeyedRows
  import opened Consolidation

  /** What the primary keys of a source guarantee. */
  predicate PrimaryKeys(source: Source) {
    DistinctKeys(source.runs) && DistinctKeys(source.artifacts) && DistinctKeys(Consolidation.RowsOf(source.blobs))
  }

  predicate AllKeyed(sources: seq<Source>) {
    forall s :: 0 <= s < |sources| ==> PrimaryKeys(sources[s])
  }

  // ---------------------------------------------------------------------------
  // Ids

  /** An id map sends the id of a row to the row's place in the target. */
  lemma {:induction false} IdAt<T>(rows: seq<Row<int, T>>, base: nat, k: nat)
    requires DistinctKeys(rows) && k < |rows|
    ensures rows[k].key in IdsOf(rows, base) && IdsOf(rows, base)[rows[k].key] == base + k + 1
  {
    if k < |rows| - 1 { IdAt(rows[..|rows| - 1], base, k); }
  }

  /** Every id in the map is the id of a row. */
  lemma {:induction false} IdFind<T>(rows: seq<Row<int, T>>, base: nat, id: int) returns (k: nat)
    requires id in IdsOf(rows, base)
    ensures k < |rows| && rows[k].key == id && IdsOf(rows, base)[id] == base + k + 1
  {
    if rows[|rows| - 1].key == id {
      k := |rows| - 1;
    } else {
      k := IdFind(rows[..|rows| - 1], base, id);
    }
  }

  predicate Injective(ids: IdMap) {
    forall a, b :: a in ids && b in ids && ids[a] == ids[b] ==> a == b
  }

  /** Id maps are injective, and map into the range of the rows that the import adds. */
  lemma IdsInjective<T>(rows: seq<Row<int, T>>, base: nat)
    ensures Injective(IdsOf(rows, base))
    ensures forall id :: id in IdsOf(rows, base) ==> base < IdsOf(rows, base)[id] <= base + |rows|
  {
    forall a | a in IdsOf(rows, base) ensures base < IdsOf(rows, base)[a] <= base + |rows| {
      var i := IdFind(rows, base, a);
    }
    forall a, b | a in IdsOf(rows, base) && b in IdsOf(rows, base) && IdsOf(rows, base)[a] == IdsOf(rows, base)[b] ensures a == b {
      var i := IdFind(rows, base, a);
      var j := IdFind(rows, base, b);
    }
  }

  // ---------------------------------------------------------------------------
  // Where the rows of a source begin

  function RunBase(sources: seq<Source>, n: nat): nat
    requires n <= |sources|
  {
    if n == 0 then 0 else RunBase(sources, n - 1) + |sources[n - 1].runs|
  }

  function ArtifactBase(sources: seq<Source>, n: nat): nat
    requires n <= |sources|
  {
    if n == 0 then 0 else ArtifactBase(sources, n - 1) + |sources[n - 1].artifacts|
  }

  function OutputBase(sources: seq<Source>, n: nat): nat
    requires n <= |sources|
  {
    if n == 0 then 0 else OutputBase(sources, n - 1) + |sources[n - 1].outputs|
  }

  lemma ImportedSizes(augment: Augment, db: Db, source: Source)
    requires KnownRuns(RunIds(db, source), source)
    ensures var after := Imported(augment, db, source);
            && |after.runs| == |db.runs| + |source.runs|
            && |after.artifacts| == |db.artifacts| + |source.artifacts|
            && |after.outputs| == |db.outputs| + |source.outputs|
  {
  }

  lemma ConsolidatedGrows(augment: Augment, sources: seq<Source>, n: nat)
    requires 0 < n <= |sources| && AllValid(sources)
    ensures var db, before, source := Consolidated(augment, sources, n), Consolidated(augment, sources, n - 1), sources[n - 1];
            && |db.runs| == |before.runs| + |source.runs|
            && |db.artifacts| == |before.artifacts| + |source.artifacts|
            && |db.outputs| == |before.outputs| + |source.outputs|
  {
    ImportSplits(Consolidated(augment, sources, n - 1), sources[n - 1]);
    ImportedSizes(augment, Consolidated(augment, sources, n - 1), sources[n - 1]);
  }

  /** The tables that only grow hold exactly the rows of all sources: the counts add up. */
  lemma {:induction false} RowsAddUp(augment: Augment, sources: seq<Source>, n: nat)
    requires n <= |sources| && AllValid(sources)
    ensures var db := Consolidated(augment, sources, n);
            |db.runs| == RunBase(sources, n) && |db.artifacts| == ArtifactBase(sources, n) && |db.outputs| == OutputBase(sources, n)
  {
    if n > 0 {
      RowsAddUp(augment, sources, n - 1);
      ConsolidatedGrows(augment, sources, n);
    }
  }

  lemma {:induction false} BasesGrow(sources: seq<Source>, m: nat, n: nat)
    requires m < n <= |sources|
    ensures RunBase(sources, m) + |sources[m].runs| <= RunBase(sources, n)
    ensures ArtifactBase(sources, m) + |sources[m].artifacts| <= ArtifactBase(sources, n)
    ensures OutputBase(sources, m) + |sources[m].outputs| <= OutputBase(sources, n)
    decreases n - m
  {
    if m < n - 1 { BasesGrow(sources, m, n - 1); }
  }

  /** Rows of different sources, and different rows of one source, never share an id. */
  lemma IdsDisjoint(sources: seq<Source>, s: nat, k: nat, t: nat, l: nat)
    requires s < |sources| && t < |sources|
    ensures k < |sources[s].runs| && l < |sources[t].runs| && RunBase(sources, s) + k == RunBase(sources, t) + l ==> s == t && k == l
    ensures k < |sources[s].artifacts| && l < |sources[t].artifacts| && ArtifactBase(sources, s) + k == ArtifactBase(sources, t) + l
            ==> s == t && k == l
  {
    if s < t { BasesGrow(sources, s, t); }
    if t < s { BasesGrow(sources, t, s); }
  }

  // ---------------------------------------------------------------------------
  // Runs, artifacts and outputs

  /** What importing a source into `before` leaves. */
  predicate ImportStep(augment: Augment, source: Source, before: Db, after: Db) {
    KnownRuns(RunIds(before, source), source) && after == Imported(augment, before, source)
  }

  /** The target before and after every source. */
  ghost predicate IsHistory(augment: Augment, sources: seq<Source>, states: seq<Db>) {
    && |states| == |sources| + 1
    && forall n :: 0 <= n <= |sources| ==> IsState(augment, sources, states, n)
  }

  ghost predicate IsState(augment: Augment, sources: seq<Source>, states: seq<Db>, n: int)
    requires 0 <= n <= |sources| && |states| == |sources| + 1
  {
    AllValid(sources) && states[n] == Consolidated(augment, sources, n)
  }

  /** Importing goes from each state to the next, and the state's sizes are the bases. */
  lemma HistoryStep(augment: Augment, sources: seq<Source>, states: seq<Db>, n: nat)
    requires IsHistory(augment, sources, states) && n < |sources|
    ensures ImportStep(augment, sources[n], states[n], states[n + 1])
    ensures SizesAre(states[n], RunBase(sources, n), ArtifactBase(sources, n), OutputBase(sources, n))
  {
    assert IsState(augment, sources, states, n) && IsState(augment, sources, states, n + 1);
    assert SizesAre(states[n], RunBase(sources, n), ArtifactBase(sources, n), OutputBase(sources, n)) by {
      RowsAddUp(augment, sources, n);
    }
    ImportSplits(states[n], sources[n]);
  }

  /**
   Sources with valid references have a history: it starts empty, each state is the import of one source into the one
   before, and it ends in the consolidated target.
   */
  lemma HistoryOf(augment: Augment, sources: seq<Source>) returns (states: seq<Db>)
    requires AllValid(sources)
    ensures IsHistory(augment, sources, states)
    ensures states[0] == EMPTY_DB && states[|sources|] == Consolidated(augment, sources, |sources|)
    ensures forall n :: 0 <= n < |sources| ==> ImportStep(augment, sources[n], states[n], states[n + 1])
  {
    states := seq(|sources| + 1, n requires 0 <= n <= |sources| => Consolidated(augment, sources, n));
    assert IsState(augment, sources, states, 0) && IsState(augment, sources, states, |sources|);
    forall n: nat | n < |sources| { HistoryStep(augment, sources, states, n); }
  }

  predicate SizesAre(db: Db, runs: nat, artifacts: nat, outputs: nat) {
    |db.runs| == runs && |db.artifacts| == artifacts && |db.outputs| == outputs
  }

  predicate Extends(before: Db, after: Db) {
    before.runs <= after.runs && before.artifacts <= after.artifacts && before.outputs <= after.outputs
  }

  lemma ImportExtends(augment: Augment, source: Source, before: Db, after: Db)
    requires ImportStep(augment, source, before, after)
    ensures Extends(before, after)
    ensures after.blobs == WithBlobs(ArtifactIds(before, source), before.blobs, Consolidation.RowsOf(source.blobs))
    ensures after.bars == WithBars(before.bars, Consolidation.RowsOf(source.bars))
  {
  }

  /** The notes end in where the row came from; before that they say what the row's notes said, if they said anything. */
  predicate NotesTell(source: Source, before: Option<string>, after: Option<string>) {
    var origin := "imported_from=" + source.tag + ":" + source.path;
    && after.Some?
    && (before.Some? && before.value != "" ==> after.value == before.value + " | " + origin)
    && (before.None? || before.value == "" ==> after.value == origin)
  }

  lemma StampTells(source: Source, notes: Option<string>)
    ensures NotesTell(source, notes, Stamp(source, notes))
  {
  }

  /** What a source's run is in the target: only parameters and notes differ, and they name the source. */
  predicate RunImage(augment: Augment, source: Source, before: Run, after: Run) {
    && after.info == before.info && after.params == augment(before.params, source.tag, source.path)
    && NotesTell(source, before.notes, after.notes)
  }

  lemma ImportedRun(augment: Augment, source: Source, db: Db, after: Db, k: nat)
    requires ImportStep(augment, source, db, after) && k < |source.runs|
    ensures var runs := after.runs;
            |db.runs| + k < |runs| && RunImage(augment, source, source.runs[k].data, runs[|db.runs| + k])
  {
    StampTells(source, source.runs[k].data.notes);
  }

  lemma ImportedArtifact(augment: Augment, source: Source, db: Db, after: Db, k: nat, j: nat)
    requires ImportStep(augment, source, db, after) && PrimaryKeys(source)
    requires k < |source.artifacts| && j < |source.runs| && source.runs[j].key == source.artifacts[k].data.runId
    ensures var artifacts, a := after.artifacts, source.artifacts[k].data;
            |db.artifacts| + k < |artifacts|
            && var b := artifacts[|db.artifacts| + k];
               b.runId == |db.runs| + j + 1 && b.info == a.info && NotesTell(source, a.notes, b.notes)
  {
    StampTells(source, source.artifacts[k].data.notes);
    IdAt(source.runs, |db.runs|, j);
  }

  lemma ImportedOutput(augment: Augment, source: Source, db: Db, after: Db, k: nat, j: nat)
    requires ImportStep(augment, source, db, after) && PrimaryKeys(source)
    requires k < |source.outputs| && j < |source.runs| && source.runs[j].key == source.outputs[k].runId
    ensures var outputs, o := after.outputs, source.outputs[k];
            |db.outputs| + k < |outputs|
            && var p := outputs[|db.outputs| + k];
               p.runId == |db.runs| + j + 1 && p.info == o.info && NotesTell(source, o.notes, p.notes)
  {
    StampTells(source, source.outputs[k].notes);
    IdAt(source.runs, |db.runs|, j);
  }

  /** Later sources do not touch the rows that are there. */
  lemma {:induction false} RowsStay(augment: Augment, sources: seq<Source>, states: seq<Db>, m: nat, n: nat)
    requires IsHistory(augment, sources, states) && m <= n <= |sources|
    ensures Extends(states[m], states[n])
    decreases n - m
  {
    if m < n {
      RowsStay(augment, sources, states, m, n - 1);
      HistoryStep(augment, sources, states, n - 1);
      ImportExtends(augment, sources[n - 1], states[n - 1], states[n]);
    }
  }

  /** The target keeps every run of every source. */
  lemma RunsEmbedded(augment: Augment, sources: seq<Source>, states: seq<Db>, n: nat, s: nat, k: nat)
    requires IsHistory(augment, sources, states) && s < n <= |sources| && k < |sources[s].runs|
    ensures RunBase(sources, s) + k < |states[n].runs|
    ensures RunImage(augment, sources[s], sources[s].runs[k].data, states[n].runs[RunBase(sources, s) + k])
  {
    HistoryStep(augment, sources, states, s);
    ImportedRun(augment, sources[s], states[s], states[s + 1], k);
    RowsStay(augment, sources, states, s + 1, n);
  }

  /** The target keeps every artifact, pointing to the image of the run it pointed to. */
  lemma ArtifactsEmbedded(augment: Augment, sources: seq<Source>, states: seq<Db>, n: nat, s: nat, k: nat, j: nat)
    requires IsHistory(augment, sources, states) && s < n <= |sources| && PrimaryKeys(sources[s])
    requires k < |sources[s].artifacts| && j < |sources[s].runs| && sources[s].runs[j].key == sources[s].artifacts[k].data.runId
    ensures ArtifactBase(sources, s) + k < |states[n].artifacts|
    ensures var a, b := sources[s].artifacts[k].data, states[n].artifacts[ArtifactBase(sources, s) + k];
            b.runId == RunBase(sources, s) + j + 1 && b.info == a.info && NotesTell(sources[s], a.notes, b.notes)
  {
    HistoryStep(augment, sources, states, s);
    ImportedArtifact(augment, sources[s], states[s], states[s + 1], k, j);
    RowsStay(augment, sources, states, s + 1, n);
  }

  /** The target keeps every output, pointing to the image of the run it pointed to. */
  lemma OutputsEmbedded(augment: Augment, sources: seq<Source>, states: seq<Db>, n: nat, s: nat, k: nat, j: nat)
    requires IsHistory(augment, sources, states) && s < n <= |sources| && PrimaryKeys(sources[s])
    requires k < |sources[s].outputs| && j < |sources[s].runs| && sources[s].runs[j].key == sources[s].outputs[k].runId
    ensures OutputBase(sources, s) + k < |states[n].outputs|
    ensures var o, p := sources[s].outputs[k], states[n].outputs[OutputBase(sources, s) + k];
            p.runId == RunBase(sources, s) + j + 1 && p.info == o.info && NotesTell(sources[s], o.notes, p.notes)
  {
    HistoryStep(augment, sources, states, s);
    ImportedOutput(augment, sources[s], states[s], states[s + 1], k, j);
    RowsStay(augment, sources, states, s + 1, n);
  }

  predicate IsRunOf(source: Source, j: int, runId: int) {
    0 <= j < |source.runs| && source.runs[j].key == runId
  }

  /** Following a reference commutes with the import: an artifact's run in the target is the image of its run in the source. */
  lemma ReferencesFollow(augment: Augment, sources: seq<Source>, states: seq<Db>, n: nat, s: nat, k: nat)
    requires IsHistory(augment, sources, states) && s < n <= |sources| && PrimaryKeys(sources[s]) && k < |sources[s].artifacts|
    ensures var db := states[n]; var i := ArtifactBase(sources, s) + k;
            && i < |db.artifacts| && 0 < db.artifacts[i].runId <= |db.runs|
            && exists j :: IsRunOf(sources[s], j, sources[s].artifacts[k].data.runId)
                           && RunImage(augment, sources[s], sources[s].runs[j].data, db.runs[db.artifacts[i].runId - 1])
  {
    assert IsState(augment, sources, states, n) && ValidRefs(sources[s]);
    var j := IdFind(sources[s].runs, 0, sources[s].artifacts[k].data.runId);
    ArtifactsEmbedded(augment, sources, states, n, s, k, j);
    RunsEmbedded(augment, sources, states, n, s, j);
    assert IsRunOf(sources[s], j, sources[s].artifacts[k].data.runId);
  }

  // ---------------------------------------------------------------------------
  // Blobs

  lemma {:induction false} BlobsElsewhere(ids: IdMap, blobs: map<int, string>, rows: seq<Row<int, string>>, target: int)
    requires forall id :: id in ids ==> ids[id] != target
    ensures target in WithBlobs(ids, blobs, rows) <==> target in blobs
    ensures target in blobs ==> WithBlobs(ids, blobs, rows)[target] == blobs[target]
  {
    if rows != [] { BlobsElsewhere(ids, blobs, rows[..|rows| - 1], target); }
  }

  lemma {:induction false} BlobsAt(ids: IdMap, blobs: map<int, string>, rows: seq<Row<int, string>>, id: int)
    requires Injective(ids) && id in ids && ids[id] !in blobs
    ensures ids[id] in WithBlobs(ids, blobs, rows) <==> Lookup(rows, id).Some?
    ensures Lookup(rows, id).Some? ==> WithBlobs(ids, blobs, rows)[ids[id]] == Lookup(rows, id).value
  {
    if rows != [] {
      BlobsAt(ids, blobs, rows[..|rows| - 1], id);
      var last := rows[|rows| - 1];
      assert last.key in ids && ids[last.key] == ids[id] ==> last.key == id;
    }
  }

  /** Blobs are stored only under the ids of artifacts that are there. */
  lemma {:induction false} BlobIdsBounded(augment: Augment, sources: seq<Source>, states: seq<Db>, n: nat)
    requires IsHistory(augment, sources, states) && n <= |sources|
    ensures forall id :: id in states[n].blobs ==> id <= ArtifactBase(sources, n)
  {
    if n == 0 {
      assert IsState(augment, sources, states, 0);
    } else {
      BlobIdsBounded(augment, sources, states, n - 1);
      HistoryStep(augment, sources, states, n - 1);
      ImportExtends(augment, sources[n - 1], states[n - 1], states[n]);
      forall id | id in states[n].blobs ensures id <= ArtifactBase(sources, n) {
        if id > ArtifactBase(sources, n) { ImportedBlobElsewhere(states[n - 1], sources[n - 1], id); }
      }
    }
  }

  /** An import changes no blob outside the range of its new artifact ids. */
  lemma ImportedBlobElsewhere(db: Db, source: Source, id: int)
    requires id <= |db.artifacts| || id > |db.artifacts| + |source.artifacts|
    ensures var after := WithBlobs(ArtifactIds(db, source), db.blobs, Consolidation.RowsOf(source.blobs));
            (id in after <==> id in db.blobs) && (id in db.blobs ==> after[id] == db.blobs[id])
  {
    IdsInjective(source.artifacts, |db.artifacts|);
    BlobsElsewhere(ArtifactIds(db, source), db.blobs, Consolidation.RowsOf(source.blobs), id);
  }

  lemma ImportedBlob(db: Db, source: Source, k: nat)
    requires PrimaryKeys(source) && k < |source.artifacts| && forall id :: id in db.blobs ==> id <= |db.artifacts|
    ensures var after, id := WithBlobs(ArtifactIds(db, source), db.blobs, Consolidation.RowsOf(source.blobs)), |db.artifacts| + k + 1;
            BlobIs(after, id, Lookup(Consolidation.RowsOf(source.blobs), source.artifacts[k].key))
  {
    IdAt(source.artifacts, |db.artifacts|, k);
    IdsInjective(source.artifacts, |db.artifacts|);
    BlobsAt(ArtifactIds(db, source), db.blobs, Consolidation.RowsOf(source.blobs), source.artifacts[k].key);
  }

  predicate BlobIs(blobs: map<int, string>, id: int, blob: Option<string>) {
    (id in blobs <==> blob.Some?) && (blob.Some? ==> blobs[id] == blob.value)
  }

  /** An artifact has in the target exactly the blob it has in its source. */
  lemma {:induction false} BlobsEmbedded(augment: Augment, sources: seq<Source>, states: seq<Db>, n: nat, s: nat, k: nat)
    requires IsHistory(augment, sources, states) && s < n <= |sources| && PrimaryKeys(sources[s]) && k < |sources[s].artifacts|
    ensures BlobIs(states[n].blobs, ArtifactBase(sources, s) + k + 1,
                   if sources[s].blobs.Some? then Lookup(sources[s].blobs.value, sources[s].artifacts[k].key) else None)
    decreases n
  {
    HistoryStep(augment, sources, states, n - 1);
    ImportExtends(augment, sources[n - 1], states[n - 1], states[n]);
    if s == n - 1 {
      BlobIdsBounded(augment, sources, states, s);
      ImportedBlob(states[s], sources[s], k);
    } else {
      BlobsEmbedded(augment, sources, states, n - 1, s, k);
      BasesGrow(sources, s, n - 1);
      ImportedBlobElsewhere(states[n - 1], sources[n - 1], ArtifactBase(sources, s) + k + 1);
    }
  }

  /** The blobs of a source whose artifact exists. */
  function KnownBlobs(ids: IdMap, rows: seq<Row<int, string>>): nat {
    if rows == [] then 0 else KnownBlobs(ids, rows[..|rows| - 1]) + if rows[|rows| - 1].key in ids then 1 else 0
  }

  lemma {:induction false} BlobsCount(ids: IdMap, blobs: map<int, string>, rows: seq<Row<int, string>>)
    requires Injective(ids) && DistinctKeys(rows) && forall id :: id in ids ==> ids[id] !in blobs
    ensures |WithBlobs(ids, blobs, rows)| == |blobs| + KnownBlobs(ids, rows)
  {
    if rows != [] {
      var init, last := rows[..|rows| - 1], rows[|rows| - 1];
      BlobsCount(ids, blobs, init);
      if last.key in ids {
        BlobsAt(ids, blobs, init, last.key);
        LookupFinds(init, last.key);
        MapGrows(WithBlobs(ids, blobs, init), ids[last.key], last.data);
      }
    }
  }

  lemma MapGrows(m: map<int, string>, key: int, value: string)
    requires key !in m
    ensures |m[key := value]| == |m| + 1
  {
    assert m[key := value].Keys == m.Keys + {key};
    assert |m[key := value]| == |m[key := value].Keys| && |m| == |m.Keys|;
  }

  function BlobTotal(sources: seq<Source>, n: nat): nat
    requires n <= |sources|
  {
    if n == 0 then 0
    else BlobTotal(sources, n - 1) + KnownBlobs(IdsOf(sources[n - 1].artifacts, 0), Consolidation.RowsOf(sources[n - 1].blobs))
  }

  lemma {:induction false} SameKnown(ids: IdMap, others: IdMap, rows: seq<Row<int, string>>)
    requires ids.Keys == others.Keys
    ensures KnownBlobs(ids, rows) == KnownBlobs(others, rows)
  {
    if rows != [] { SameKnown(ids, others, rows[..|rows| - 1]); }
  }

  lemma ImportedBlobCount(db: Db, source: Source)
    requires PrimaryKeys(source) && forall id :: id in db.blobs ==> id <= |db.artifacts|
    ensures |WithBlobs(ArtifactIds(db, source), db.blobs, Consolidation.RowsOf(source.blobs))|
            == |db.blobs| + KnownBlobs(IdsOf(source.artifacts, 0), Consolidation.RowsOf(source.blobs))
  {
    IdsInjective(source.artifacts, |db.artifacts|);
    IdsShift(source.artifacts, |db.artifacts|);
    SameKnown(ArtifactIds(db, source), IdsOf(source.artifacts, 0), Consolidation.RowsOf(source.blobs));
    BlobsCount(ArtifactIds(db, source), db.blobs, Consolidation.RowsOf(source.blobs));
  }

  /** The target has one blob for every blob of a known artifact. */
  lemma {:induction false} BlobsAddUp(augment: Augment, sources: seq<Source>, states: seq<Db>, n: nat)
    requires IsHistory(augment, sources, states) && n <= |sources| && AllKeyed(sources)
    ensures |states[n].blobs| == BlobTotal(sources, n)
  {
    if n == 0 {
      assert IsState(augment, sources, states, 0);
    } else {
      BlobsAddUp(augment, sources, states, n - 1);
      HistoryStep(augment, sources, states, n - 1);
      ImportExtends(augment, sources[n - 1], states[n - 1], states[n]);
      BlobIdsBounded(augment, sources, states, n - 1);
      assert PrimaryKeys(sources[n - 1]);
      ImportedBlobCount(states[n - 1], sources[n - 1]);
    }
  }

  /** The reported blob count of a source is the imported one exactly if each of its blobs belongs to an artifact. */
  lemma {:induction false} ReportedBlobs(ids: IdMap, rows: seq<Row<int, string>>)
    ensures KnownBlobs(ids, rows) <= |rows|
    ensures KnownBlobs(ids, rows) == |rows| <==> forall i :: 0 <= i < |rows| ==> rows[i].key in ids
  {
    if rows != [] {
      var init := rows[..|rows| - 1];
      ReportedBlobs(ids, init);
      assert rows == init + [rows[|rows| - 1]];
      assert forall i :: 0 <= i < |init| ==> init[i] == rows[i];
    }
  }

  // ---------------------------------------------------------------------------
  // Daily bars

  /** The bar of the last source that has one. */
  function LastBar(sources: seq<Source>, n: nat, key: BarKey): Option<string>
    requires n <= |sources|
  {
    if n == 0 then None
    else
      var bar := if sources[n - 1].bars.Some? then Lookup(sources[n - 1].bars.value, key) else None;
      if bar.Some? then bar else LastBar(sources, n - 1, key)
  }

  lemma {:induction false} WithBarsAt(bars: map<BarKey, string>, rows: seq<Row<BarKey, string>>, key: BarKey)
    ensures var bar := Lookup(rows, key); var after := WithBars(bars, rows);
            if bar.Some? then key in after && after[key] == bar.value
            else (key in after <==> key in bars) && (key in bars ==> after[key] == bars[key])
  {
    if rows != [] { WithBarsAt(bars, rows[..|rows| - 1], key); }
  }

  /** Each symbol and date holds the bar of the last source that has it, and no bar comes from nowhere. */
  lemma {:induction false} LastSourceWins(augment: Augment, sources: seq<Source>, states: seq<Db>, n: nat, key: BarKey)
    requires IsHistory(augment, sources, states) && n <= |sources|
    ensures LastBar(sources, n, key) == if key in states[n].bars then Some(states[n].bars[key]) else None
  {
    if n == 0 {
      assert IsState(augment, sources, states, 0);
    } else {
      LastSourceWins(augment, sources, states, n - 1, key);
      HistoryStep(augment, sources, states, n - 1);
      ImportExtends(augment, sources[n - 1], states[n - 1], states[n]);
      WithBarsAt(states[n - 1].bars, Consolidation.RowsOf(sources[n - 1].bars), key);
    }
  }

  // ---------------------------------------------------------------------------
  // Reported counts

  lemma {:induction false} IdCount<T>(rows: seq<Row<int, T>>, base: nat)
    requires DistinctKeys(rows)
    ensures |IdsOf(rows, base)| == |rows|
  {
    if rows != [] {
      var init, last := rows[..|rows| - 1], rows[|rows| - 1];
      IdCount(init, base);
      if last.key in IdsOf(init, base) { var k := IdFind(init, base, last.key); }
      var ids := IdsOf(init, base);
      assert ids[last.key := base + |rows|].Keys == ids.Keys + {last.key};
      assert |ids.Keys| == |ids| && |ids[last.key := base + |rows|].Keys| == |ids[last.key := base + |rows|]|;
    }
  }

  /** An import reports the numbers of rows that the source's tables have, missing tables counting as empty. */
  lemma CountsAreRows(source: Source)
    requires PrimaryKeys(source)
    ensures var counts := CountsOf(source);
            && counts.runs == |source.runs| && counts.artifacts == |source.artifacts| && counts.outputs == |source.outputs|
            && counts.blobs == (if source.blobs.Some? then |source.blobs.value| else 0)
            && counts.bars == (if source.bars.Some? then |source.bars.value| else 0)
  {
    IdCount(source.runs, 0);
    IdCount(source.artifacts, 0);
  }
}
