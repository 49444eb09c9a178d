/**
 Merging acquisition databases (src/regime_data_fetch/acquisition_consolidation.py): rows get new ids in the target, and
 references follow them. Columns that are only copied form one `info` value.
 */
module Consolidation {
  import opened Wrappers
  import opened KeyedRows

  datatype Run = Run(info: string, params: string, notes: Option<string>)

  datatype Artifact = Artifact(runId: int, info: string, notes: Option<string>)

  datatype Output = Output(runId: int, info: string, notes: Option<string>)

  type BarKey = (string, string)

  /** The tables of one source in primary-key order; two of them may not exist. */
  datatype Source = Source(
    tag: string,
    path: string,
    runs: seq<Row<int, Run>>,
    artifacts: seq<Row<int, Artifact>>,
    blobs: Option<seq<Row<int, string>>>,
    outputs: seq<Output>,
    bars: Option<seq<Row<BarKey, string>>>)

  /** The target. Its run and artifact ids count up from 1, so the row of an id is the one before that position. */
  datatype Db = Db(runs: seq<Run>, artifacts: seq<Artifact>, blobs: map<int, string>, outputs: seq<Output>, bars: map<BarKey, string>)

  const EMPTY_DB := Db([], [], map[], [], map[])

  datatype Counts = Counts(runs: nat, artifacts: nat, blobs: nat, outputs: nat, bars: nat)

  datatype ImportError = MissingDb | DanglingRun(runId: int)

  /** `_augment_params_json`, given the parameters, the source's label and its path. */
  type Augment = (string, string, string) -> string

  // ---------------------------------------------------------------------------
  // What the import makes of a row

  function MergeNotes(existing: Option<string>, extra: string): string {
    if existing.Some? && existing.value != "" then existing.value + " | " + extra else extra
  }

  function Stamp(source: Source, notes: Option<string>): Option<string> {
    Some(MergeNotes(notes, "imported_from=" + source.tag + ":" + source.path))
  }

  function StampedRun(augment: Augment, source: Source, run: Run): Run {
    Run(run.info, augment(run.params, source.tag, source.path), Stamp(source, run.notes))
  }

  type IdMap = map<int, int>

  /** The ids that the rows get when the target table has `base` rows already. */
  function IdsOf<T>(rows: seq<Row<int, T>>, base: nat): IdMap {
    if rows == [] then map[] else IdsOf(rows[..|rows| - 1], base)[rows[|rows| - 1].key := base + |rows|]
  }

  function ImportedRuns(augment: Augment, source: Source, n: nat): seq<Run>
    requires n <= |source.runs|
  {
    seq(n, i requires 0 <= i < n => StampedRun(augment, source, source.runs[i].data))
  }

  predicate KnownRuns(ids: IdMap, source: Source) {
    && (forall i :: 0 <= i < |source.artifacts| ==> source.artifacts[i].data.runId in ids)
    && (forall i :: 0 <= i < |source.outputs| ==> source.outputs[i].runId in ids)
  }

  function ImportedArtifacts(ids: IdMap, source: Source, n: nat): seq<Artifact>
    requires n <= |source.artifacts| && forall i :: 0 <= i < n ==> source.artifacts[i].data.runId in ids
  {
    seq(n, i requires 0 <= i < n =>
      var a := source.artifacts[i].data; Artifact(ids[a.runId], a.info, Stamp(source, a.notes)))
  }

  /** Blobs of unknown artifacts stay behind. */
  function WithBlobs(ids: IdMap, blobs: map<int, string>, rows: seq<Row<int, string>>): map<int, string> {
    if rows == [] then blobs
    else
      var last, init := rows[|rows| - 1], WithBlobs(ids, blobs, rows[..|rows| - 1]);
      if last.key in ids then init[ids[last.key] := last.data] else init
  }

  function ImportedOutputs(ids: IdMap, source: Source, n: nat): seq<Output>
    requires n <= |source.outputs| && forall i :: 0 <= i < n ==> source.outputs[i].runId in ids
  {
    seq(n, i requires 0 <= i < n =>
      var o := source.outputs[i]; Output(ids[o.runId], o.info, Stamp(source, o.notes)))
  }

  /** INSERT OR REPLACE of one row after the other. */
  function WithBars(bars: map<BarKey, string>, rows: seq<Row<BarKey, string>>): map<BarKey, string> {
    if rows == [] then bars else WithBars(bars, rows[..|rows| - 1])[rows[|rows| - 1].key := rows[|rows| - 1].data]
  }

  function RowsOf<T>(rows: Option<seq<T>>): seq<T> {
    if rows.Some? then rows.value else []
  }

  /** Every artifact and output refers to a run of its own source. */
  predicate ValidRefs(source: Source) {
    KnownRuns(IdsOf(source.runs, 0), source)
  }

  function RunIds(db: Db, source: Source): IdMap {
    IdsOf(source.runs, |db.runs|)
  }

  function ArtifactIds(db: Db, source: Source): IdMap {
    IdsOf(source.artifacts, |db.artifacts|)
  }

  /** The target after importing a source. */
  function Imported(augment: Augment, db: Db, source: Source): Db
    requires KnownRuns(RunIds(db, source), source)
  {
    Db(db.runs + ImportedRuns(augment, source, |source.runs|),
       db.artifacts + ImportedArtifacts(RunIds(db, source), source, |source.artifacts|),
       WithBlobs(ArtifactIds(db, source), db.blobs, RowsOf(source.blobs)),
       db.outputs + ImportedOutputs(RunIds(db, source), source, |source.outputs|),
       WithBars(db.bars, RowsOf(source.bars)))
  }

  /** The counts that an import reports; blobs are counted in the source. */
  function CountsOf(source: Source): Counts {
    Counts(|IdsOf(source.runs, 0)|, |IdsOf(source.artifacts, 0)|, |RowsOf(source.blobs)|, |source.outputs|, |RowsOf(source.bars)|)
  }

  lemma {:induction false} IdsShift<T>(rows: seq<Row<int, T>>, base: nat)
    ensures IdsOf(rows, base).Keys == IdsOf(rows, 0).Keys
    ensures forall id :: id in IdsOf(rows, base) ==> IdsOf(rows, base)[id] == base + IdsOf(rows, 0)[id]
    ensures |IdsOf(rows, base)| == |IdsOf(rows, 0)|
  {
    if rows != [] { IdsShift(rows[..|rows| - 1], base); }
    assert |IdsOf(rows, base)| == |IdsOf(rows, base).Keys| && |IdsOf(rows, 0)| == |IdsOf(rows, 0).Keys|;
  }

  lemma {:induction false} RunsHaveIds<T>(rows: seq<Row<int, T>>, base: nat)
    ensures forall i :: 0 <= i < |rows| ==> rows[i].key in IdsOf(rows, base)
  {
    if rows != [] {
      var init := rows[..|rows| - 1];
      RunsHaveIds(init, base);
      assert forall i :: 0 <= i < |init| ==> rows[i] == init[i];
    }
  }

  lemma ImportSplits(db: Db, source: Source)
    ensures KnownRuns(RunIds(db, source), source) <==> ValidRefs(source)
    ensures RunIds(db, source).Keys == IdsOf(source.runs, 0).Keys
    ensures |RunIds(db, source)| == CountsOf(source).runs && |ArtifactIds(db, source)| == CountsOf(source).artifacts
  {
    IdsShift(source.runs, |db.runs|);
    IdsShift(source.artifacts, |db.artifacts|);
  }

  function AllCounts(sources: seq<Source>, n: nat): (counts: seq<Counts>)
    requires n <= |sources|
    ensures |counts| == n
  {
    seq(n, i requires 0 <= i < n => CountsOf(sources[i]))
  }

  lemma CountsSnoc(sources: seq<Source>, n: nat, counts: seq<Counts>, last: Counts)
    requires n < |sources| && counts == AllCounts(sources, n) && last == CountsOf(sources[n])
    ensures counts + [last] == AllCounts(sources, n + 1)
  {
  }

  predicate AllValid(sources: seq<Source>) {
    forall i :: 0 <= i < |sources| ==> ValidRefs(sources[i])
  }

  /** The target after the first `n` sources. */
  function Consolidated(augment: Augment, sources: seq<Source>, n: nat): Db
    requires n <= |sources| && AllValid(sources)
  {
    if n == 0 then EMPTY_DB
    else
      var db := Consolidated(augment, sources, n - 1);
      ImportSplits(db, sources[n - 1]);
      Imported(augment, db, sources[n - 1])
  }

  /** How many sources come before the first one that is missing or refers to an unknown run. */
  function GoodPrefix(sources: seq<Option<Source>>): (n: nat)
    ensures n <= |sources| && forall i :: 0 <= i < n ==> sources[i].Some? && ValidRefs(sources[i].value)
    ensures n < |sources| ==> sources[n].None? || !ValidRefs(sources[n].value)
  {
    if sources == [] || sources[0].None? || !ValidRefs(sources[0].value) then 0 else 1 + GoodPrefix(sources[1..])
  }

  /** What is raised about a source: it is missing, or one of its rows refers to a run that it does not have. */
  predicate RightError(source: Option<Source>, error: ImportError) {
    match source
    case None => error == MissingDb
    case Some(s) =>
      && error.DanglingRun? && (forall i :: 0 <= i < |s.runs| ==> s.runs[i].key != error.runId)
      && (|| (exists i :: 0 <= i < |s.artifacts| && s.artifacts[i].data.runId == error.runId)
          || (exists i :: 0 <= i < |s.outputs| && s.outputs[i].runId == error.runId))
  }

  function Present(sources: seq<Option<Source>>, n: nat): (present: seq<Source>)
    requires n <= |sources| && forall i :: 0 <= i < n ==> sources[i].Some?
    ensures |present| == n
  {
    seq(n, i requires 0 <= i < n => sources[i].value)
  }

  lemma AllGood(sources: seq<Option<Source>>, good: seq<Source>)
    requires good == Present(sources, GoodPrefix(sources))
    ensures AllValid(good)
    ensures forall i :: 0 <= i < |sources| && i <= |good| ==> (sources[i].Some? && ValidRefs(sources[i].value) <==> i < |good|)
    ensures forall i :: 0 <= i < |good| ==> good[i] == sources[i].value
  {
    GoodUpTo(sources, GoodPrefix(sources));
  }

  lemma GoodUpTo(sources: seq<Option<Source>>, n: nat)
    requires n <= |sources| && forall i :: 0 <= i < n ==> sources[i].Some? && ValidRefs(sources[i].value)
    requires n < |sources| ==> sources[n].None? || !ValidRefs(sources[n].value)
    ensures var good := Present(sources, n);
            && AllValid(good)
            && (forall i :: 0 <= i < |sources| && i <= n ==> (sources[i].Some? && ValidRefs(sources[i].value) <==> i < n))
            && forall i :: 0 <= i < n ==> good[i] == sources[i].value
  {
  }

  class Target {
    const augment: Augment
    var runs: seq<Run>
    var artifacts: seq<Artifact>
    var blobs: map<int, string>
    var outputs: seq<Output>
    var bars: map<BarKey, string>

    constructor (augment: Augment)
      ensures this.augment == augment && Contents() == EMPTY_DB
    {
      this.augment := augment;
      runs, artifacts, blobs, outputs, bars := [], [], map[], [], map[];
    }

    ghost function Contents(): Db
      reads this
    {
      Db(runs, artifacts, blobs, outputs, bars)
    }

    /** `consolidate_acquisition_dbs`: it starts afresh and stops at the first source that fails; `None` has no file. */
    method Consolidate(sources: seq<Option<Source>>) returns (result: Result<seq<Counts>, ImportError>)
      modifies this
      ensures result.Ok? <==> GoodPrefix(sources) == |sources|
      ensures AllValid(Present(sources, GoodPrefix(sources)))
      ensures Contents() == Consolidated(augment, Present(sources, GoodPrefix(sources)), GoodPrefix(sources))
      ensures result.Ok? ==> result.value == AllCounts(Present(sources, |sources|), |sources|)
      ensures result.Err? ==> RightError(sources[GoodPrefix(sources)], result.error)
    {
      runs, artifacts, blobs, outputs, bars := [], [], map[], [], map[];
      var counts: seq<Counts> := [];
      ghost var good := Present(sources, GoodPrefix(sources));
      AllGood(sources, good);
      for i := 0 to |sources|
        invariant i <= |good| && Contents() == Consolidated(augment, good, i)
        invariant counts == AllCounts(good, i)
      {
        var imported := ImportNext(sources[i], good, i);
        if imported.Err? {
          return Err(imported.error);
        }
        CountsSnoc(good, i, counts, imported.value);
        counts := counts + [imported.value];
      }
      assert good == Present(sources, |sources|);
      return Ok(counts);
    }

    /** One round of the consolidation loop. */
    method ImportNext(source: Option<Source>, ghost good: seq<Source>, ghost i: nat) returns (result: Result<Counts, ImportError>)
      requires i <= |good| && AllValid(good) && Contents() == Consolidated(augment, good, i)
      requires source.Some? && ValidRefs(source.value) <==> i < |good|
      requires i < |good| ==> good[i] == source.value
      modifies this
      ensures result.Ok? <==> i < |good|
      ensures result.Ok? ==> Contents() == Consolidated(augment, good, i + 1) && result.value == CountsOf(source.value)
      ensures result.Err? ==> Contents() == old(Contents()) && RightError(source, result.error)
    {
      if source.None? {
        return Err(MissingDb);
      }
      result := ImportOneSource(source.value);
    }

    method InsertRuns(source: Source) returns (ids: IdMap)
      modifies this`runs
      ensures runs == old(runs) + ImportedRuns(augment, source, |source.runs|) && ids == IdsOf(source.runs, |old(runs)|)
    {
      ids := map[];
      for i := 0 to |source.runs|
        invariant runs == old(runs) + ImportedRuns(augment, source, i)
        invariant ids == IdsOf(source.runs[..i], |old(runs)|)
      {
        assert source.runs[..i + 1][..i] == source.runs[..i];
        runs := runs + [StampedRun(augment, source, source.runs[i].data)];
        ids := ids[source.runs[i].key := |runs|];
      }
      assert source.runs[..|source.runs|] == source.runs;
    }

    method InsertArtifacts(source: Source, runIds: IdMap) returns (result: Result<IdMap, ImportError>)
      modifies this`artifacts
      ensures result.Ok? <==> forall i :: 0 <= i < |source.artifacts| ==> source.artifacts[i].data.runId in runIds
      ensures result.Ok? ==>
        && artifacts == old(artifacts) + ImportedArtifacts(runIds, source, |source.artifacts|)
        && result.value == IdsOf(source.artifacts, |old(artifacts)|)
      ensures result.Err? ==>
        && result.error.DanglingRun? && result.error.runId !in runIds
        && exists i :: 0 <= i < |source.artifacts| && source.artifacts[i].data.runId == result.error.runId
    {
      var ids: IdMap := map[];
      for i := 0 to |source.artifacts|
        invariant forall j :: 0 <= j < i ==> source.artifacts[j].data.runId in runIds
        invariant artifacts == old(artifacts) + ImportedArtifacts(runIds, source, i)
        invariant ids == IdsOf(source.artifacts[..i], |old(artifacts)|)
      {
        var a := source.artifacts[i].data;
        if a.runId !in runIds {
          return Err(DanglingRun(a.runId));
        }
        assert source.artifacts[..i + 1][..i] == source.artifacts[..i];
        artifacts := artifacts + [Artifact(runIds[a.runId], a.info, Stamp(source, a.notes))];
        ids := ids[source.artifacts[i].key := |artifacts|];
      }
      assert source.artifacts[..|source.artifacts|] == source.artifacts;
      return Ok(ids);
    }

    method InsertBlobs(rows: seq<Row<int, string>>, ids: IdMap)
      modifies this`blobs
      ensures blobs == WithBlobs(ids, old(blobs), rows)
    {
      for i := 0 to |rows|
        invariant blobs == WithBlobs(ids, old(blobs), rows[..i])
      {
        assert rows[..i + 1][..i] == rows[..i];
        if rows[i].key in ids {
          blobs := blobs[ids[rows[i].key] := rows[i].data];
        }
      }
      assert rows[..|rows|] == rows;
    }

    method InsertOutputs(source: Source, runIds: IdMap) returns (error: Option<ImportError>)
      modifies this`outputs
      ensures error.None? <==> forall i :: 0 <= i < |source.outputs| ==> source.outputs[i].runId in runIds
      ensures error.None? ==> outputs == old(outputs) + ImportedOutputs(runIds, source, |source.outputs|)
      ensures error.Some? ==>
        && error.value.DanglingRun? && error.value.runId !in runIds
        && exists i :: 0 <= i < |source.outputs| && source.outputs[i].runId == error.value.runId
    {
      for i := 0 to |source.outputs|
        invariant forall j :: 0 <= j < i ==> source.outputs[j].runId in runIds
        invariant outputs == old(outputs) + ImportedOutputs(runIds, source, i)
      {
        var o := source.outputs[i];
        if o.runId !in runIds {
          return Some(DanglingRun(o.runId));
        }
        outputs := outputs + [Output(runIds[o.runId], o.info, Stamp(source, o.notes))];
      }
      return None;
    }

    method InsertBars(rows: seq<Row<BarKey, string>>)
      modifies this`bars
      ensures bars == WithBars(old(bars), rows)
    {
      for i := 0 to |rows|
        invariant bars == WithBars(old(bars), rows[..i])
      {
        assert rows[..i + 1][..i] == rows[..i];
        bars := bars[rows[i].key := rows[i].data];
      }
      assert rows[..|rows|] == rows;
    }

    /** `_import_one_source`: one transaction, rolled back when a reference dangles. */
    method ImportOneSource(source: Source) returns (result: Result<Counts, ImportError>)
      modifies this
      ensures result.Ok? <==> ValidRefs(source)
      ensures result.Ok? ==>
        && KnownRuns(old(RunIds(Contents(), source)), source)
        && Contents() == old(Imported(augment, Contents(), source)) && result.value == CountsOf(source)
      ensures result.Err? ==>
        Contents() == old(Contents()) && RightError(Some(source), result.error)
    {
      var saved := (runs, artifacts, blobs, outputs);
      ImportSplits(Contents(), source);
      RunsHaveIds(source.runs, |runs|);
      var runIds := InsertRuns(source);
      var artifactIds := InsertArtifacts(source, runIds);
      if artifactIds.Err? {
        runs, artifacts := saved.0, saved.1;
        return Err(artifactIds.error);
      }
      if source.blobs.Some? {
        InsertBlobs(source.blobs.value, artifactIds.value);
      }
      var dangling := InsertOutputs(source, runIds);
      if dangling.Some? {
        runs, artifacts, blobs, outputs := saved.0, saved.1, saved.2, saved.3;
        return Err(dangling.value);
      }
      if source.bars.Some? {
        InsertBars(source.bars.value);
      }
      return Ok(Counts(|runIds|, |artifactIds.value|, |RowsOf(source.blobs)|, |source.outputs|, |RowsOf(source.bars)|));
    }
  }
}
