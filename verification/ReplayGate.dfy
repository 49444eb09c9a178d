/**
 The replay verdict of a walk-forward batch (scripts/run_walkforward_replay_check.py) and the report gate that
 consumes it (scripts/build_walkforward_report.py).
 */
module ReplayGate {
  import opened Wrappers
  import opened ReplayDiff

  /** A row of the batch's run table; a `None` version or path is a NULL column. */
  datatype RunRow = RunRow(
    asOf: string,
    status: string,
    engineVersion: Option<string>,
    configVersion: Option<string>,
    archivePath: Option<string>,
    outputPath: Option<string>)

  datatype DateResult = DateResult(asOf: string, matches: bool, breaksQualification: bool)

  /** The verdict file. A hand-made file may lack a version, hence the options. */
  datatype Verdict = Verdict(
    engineVersion: Option<string>,
    configVersion: Option<string>,
    allPassed: bool,
    results: seq<DateResult>)

  datatype MissingPath = MissingPath(asOf: string)

  /** What replaying a date yields and what was stored for it; the engine and the archives are inputs of the model. */
  datatype Batch = Batch(replayed: string -> Json, stored: string -> Json, engineVersion: string, configVersion: string)

  function SuccessRuns(runs: seq<RunRow>): seq<RunRow> {
    if runs == [] then []
    else (if runs[0].status == "success" then [runs[0]] else []) + SuccessRuns(runs[1..])
  }

  function DatesOf(runs: seq<RunRow>): seq<string> {
    seq(|runs|, i requires 0 <= i < |runs| => runs[i].asOf)
  }

  function ResultDates(results: seq<DateResult>): seq<string> {
    seq(|results|, i requires 0 <= i < |results| => results[i].asOf)
  }

  function ReplayOne(batch: Batch, run: RunRow): Result<DateResult, MissingPath> {
    if run.archivePath.None? || run.outputPath.None? then Err(MissingPath(run.asOf))
    else
      var diff := Diff(batch.replayed(run.asOf), batch.stored(run.asOf));
      Ok(DateResult(run.asOf, diff.None?, diff.Some? && Touches(diff.value)))
  }

  function ReplayAll(batch: Batch, runs: seq<RunRow>): Result<seq<DateResult>, MissingPath> {
    if runs == [] then Ok([])
    else
      match ReplayOne(batch, runs[0])
      case Err(e) => Err(e)
      case Ok(first) =>
        match ReplayAll(batch, runs[1..])
        case Err(e) => Err(e)
        case Ok(rest) => Ok([first] + rest)
  }

  predicate AllMatch(results: seq<DateResult>) {
    forall i :: 0 <= i < |results| ==> results[i].matches
  }

  /** `run_walkforward_replay_check`. */
  function ReplayCheck(batch: Batch, runs: seq<RunRow>): Result<Verdict, MissingPath> {
    match ReplayAll(batch, SuccessRuns(runs))
    case Err(e) => Err(e)
    case Ok(results) =>
      Ok(Verdict(Some(batch.engineVersion), Some(batch.configVersion), results != [] && AllMatch(results), results))
  }

  function EngineVersions(runs: seq<RunRow>): set<string> {
    set row | row in runs && row.engineVersion.Some? :: row.engineVersion.value
  }

  function ConfigVersions(runs: seq<RunRow>): set<string> {
    set row | row in runs && row.configVersion.Some? :: row.configVersion.value
  }

  /** `versions[0] if len(versions) == 1 else None`. */
  function Sole(versions: set<string>): (v: Option<string>)
    ensures forall x :: v == Some(x) <==> versions == {x}
  {
    if |versions| == 1 then
      SingletonFacts(versions);
      var x :| versions == {x};
      Some(x)
    else
      assert forall x :: versions == {x} ==> |versions| == 1;
      None
  }

  lemma SingletonFacts(versions: set<string>)
    requires |versions| == 1
    ensures exists x :: versions == {x}
    ensures forall x, y :: versions == {x} && versions == {y} ==> x == y
  {
    var x :| x in versions;
    assert |versions - {x}| == 0;
    assert versions == {x};
    forall a, b | versions == {a} && versions == {b} ensures a == b {
      assert a in versions;
    }
  }

  datatype Reason =
    | MissingReplayVerification
    | NoSuccessfulRunsToReplay
    | ReplayMismatchDetected
    | ReplayDatesMismatch
    | ReplayVersionMismatch

  /** What the gate finds wrong with a verdict. */
  function Complaints(nothingToReplay: bool, passed: bool, sameDates: bool, sameVersions: bool): set<Reason> {
    if nothingToReplay then {NoSuccessfulRunsToReplay}
    else
      (if passed then {} else {ReplayMismatchDetected}) +
      (if sameDates then {} else {ReplayDatesMismatch}) +
      (if sameVersions then {} else {ReplayVersionMismatch})
  }

  /** The verdict lists the successful dates of the table, each as often. Sorted lists are equal exactly when the multisets are. */
  predicate SameDates(verdict: Verdict, runs: seq<RunRow>) {
    multiset(ResultDates(verdict.results)) == multiset(DatesOf(SuccessRuns(runs)))
  }

  /** The verdict has the one engine and the one config version of the table. */
  predicate SameVersions(verdict: Verdict, runs: seq<RunRow>) {
    verdict.engineVersion == Sole(EngineVersions(runs)) && verdict.configVersion == Sole(ConfigVersions(runs))
  }

  /** `_replay_gate_reasons`; the gate is clean when no reason is given. */
  function GateReasons(verdict: Option<Verdict>, runs: seq<RunRow>): set<Reason> {
    match verdict
    case None => {MissingReplayVerification}
    case Some(v) => Complaints(DatesOf(SuccessRuns(runs)) == [], v.allPassed, SameDates(v, runs), SameVersions(v, runs))
  }

  /** The date's documents agree up to null-valued keys, and no NaN is compared on its own. */
  predicate Replays(batch: Batch, asOf: string) {
    Agree(batch.replayed(asOf), batch.stored(asOf)) && !ExposesNaN(batch.replayed(asOf), batch.stored(asOf))
  }

  lemma {:induction false} ReplayAllResults(batch: Batch, runs: seq<RunRow>)
    requires ReplayAll(batch, runs).Ok?
    ensures var results := ReplayAll(batch, runs).value;
            && ResultDates(results) == DatesOf(runs)
            && (AllMatch(results) <==> forall i :: 0 <= i < |runs| ==> Replays(batch, runs[i].asOf))
  {
    if runs != [] {
      ReplayAllResults(batch, runs[1..]);
      var first, rest := ReplayOne(batch, runs[0]).value, ReplayAll(batch, runs[1..]).value;
      DiffNoneIff(batch.replayed(runs[0].asOf), batch.stored(runs[0].asOf));
      ResultsCons(first, rest, runs);
      AllReplayCons(batch, runs);
    }
  }

  lemma ResultsCons(first: DateResult, rest: seq<DateResult>, runs: seq<RunRow>)
    requires runs != [] && first.asOf == runs[0].asOf && ResultDates(rest) == DatesOf(runs[1..])
    ensures ResultDates([first] + rest) == DatesOf(runs)
    ensures AllMatch([first] + rest) <==> first.matches && AllMatch(rest)
  {
    assert DatesOf(runs) == [runs[0].asOf] + DatesOf(runs[1..]);
    assert ResultDates([first] + rest) == [first.asOf] + ResultDates(rest);
    var results := [first] + rest;
    assert results[0] == first && forall i :: 0 <= i < |rest| ==> results[i + 1] == rest[i];
    if first.matches && AllMatch(rest) {
      forall i | 0 <= i < |results| ensures results[i].matches { if i > 0 { assert results[i] == rest[i - 1]; } }
    }
  }

  lemma AllReplayCons(batch: Batch, runs: seq<RunRow>)
    requires runs != []
    ensures (forall i :: 0 <= i < |runs| ==> Replays(batch, runs[i].asOf)) <==>
            Replays(batch, runs[0].asOf) && forall i :: 0 <= i < |runs[1..]| ==> Replays(batch, runs[1..][i].asOf)
  {
    var tail := runs[1..];
    if forall i :: 0 <= i < |tail| ==> Replays(batch, tail[i].asOf) {
      forall i | 0 < i < |runs| ensures Replays(batch, runs[i].asOf) { assert tail[i - 1] == runs[i]; }
    }
  }

  /** The verdict passes exactly if there was something to replay and all of it agrees; it names the versions that replayed. */
  lemma VerdictMeaning(batch: Batch, runs: seq<RunRow>)
    requires ReplayCheck(batch, runs).Ok?
    ensures var verdict, successes := ReplayCheck(batch, runs).value, SuccessRuns(runs);
            && verdict.engineVersion == Some(batch.engineVersion) && verdict.configVersion == Some(batch.configVersion)
            && ResultDates(verdict.results) == DatesOf(successes)
            && (verdict.allPassed <==> successes != [] && forall i :: 0 <= i < |successes| ==> Replays(batch, successes[i].asOf))
  {
    ReplayAllResults(batch, SuccessRuns(runs));
    var results := ReplayCheck(batch, runs).value.results;
    assert |ResultDates(results)| == |results| && |DatesOf(SuccessRuns(runs))| == |SuccessRuns(runs)|;
  }

  /** Each result is that of its own run. */
  lemma {:induction false} ResultAt(batch: Batch, runs: seq<RunRow>, i: nat)
    requires ReplayAll(batch, runs).Ok? && i < |runs|
    ensures |ReplayAll(batch, runs).value| == |runs| && ReplayOne(batch, runs[i]) == Ok(ReplayAll(batch, runs).value[i])
  {
    if |runs| > 1 { ResultAt(batch, runs[1..], if i > 0 then i - 1 else 0); }
  }

  /**
   A result breaks qualification exactly if the date's two documents part somewhere below a classification key, or part where
   one of them has a classification key in what it holds there. If it does not, everything at or below a classification key
   agrees. It matches exactly if the documents agree throughout.
   */
  lemma BreaksQualificationIff(batch: Batch, runs: seq<RunRow>, i: nat)
    requires ReplayAll(batch, runs).Ok? && i < |runs|
    ensures var results, replayed, stored := ReplayAll(batch, runs).value, batch.replayed(runs[i].asOf), batch.stored(runs[i].asOf);
            && |results| == |runs| && results[i].asOf == runs[i].asOf
            && (results[i].matches <==> Agree(replayed, stored) && !ExposesNaN(replayed, stored))
            && (results[i].breaksQualification <==> exists path :: ClassificationParts(replayed, stored, path))
            && (!results[i].breaksQualification ==>
                  forall path :: ClassificationPath(path) ==> Agree(Lookup(replayed, path), Lookup(stored, path)))
  {
    ResultAt(batch, runs, i);
    var replayed, stored := batch.replayed(runs[i].asOf), batch.stored(runs[i].asOf);
    DiffNoneIff(replayed, stored);
    DiffTouchesIff(replayed, stored);
    if !ReplayAll(batch, runs).value[i].breaksQualification {
      forall path | ClassificationPath(path) ensures Agree(Lookup(replayed, path), Lookup(stored, path)) {
        ClassificationSound(replayed, stored, path);
      }
    }
  }

  predicate HasPaths(run: RunRow) {
    run.archivePath.Some? && run.outputPath.Some?
  }

  /** The replay fails exactly if a run lacks one of its paths, and names the first such run's date. */
  lemma {:induction false} ReplayFailsIff(batch: Batch, runs: seq<RunRow>)
    ensures ReplayAll(batch, runs).Ok? <==> forall i :: 0 <= i < |runs| ==> HasPaths(runs[i])
    ensures ReplayAll(batch, runs).Err? ==>
              exists i :: 0 <= i < |runs| && !HasPaths(runs[i]) && ReplayAll(batch, runs).error.asOf == runs[i].asOf
                          && forall j :: 0 <= j < i ==> HasPaths(runs[j])
  {
    if runs != [] {
      var tail := runs[1..];
      ReplayFailsIff(batch, tail);
      assert forall i :: 0 < i < |runs| ==> runs[i] == tail[i - 1];
      if HasPaths(runs[0]) && ReplayAll(batch, tail).Err? {
        var i :| 0 <= i < |tail| && !HasPaths(tail[i]) && ReplayAll(batch, tail).error.asOf == tail[i].asOf
                 && forall j :: 0 <= j < i ==> HasPaths(tail[j]);
        assert runs[i + 1] == tail[i];
        forall j | 0 <= j < i + 1 ensures HasPaths(runs[j]) { if j > 0 { assert HasPaths(tail[j - 1]); } }
      }
    }
  }

  /** The successful runs are the rows with that status, as often as the table has them. */
  lemma {:induction false} SuccessRunsAre(runs: seq<RunRow>, row: RunRow)
    ensures multiset(SuccessRuns(runs))[row] == if row.status == "success" then multiset(runs)[row] else 0
  {
    if runs != [] {
      SuccessRunsAre(runs[1..], row);
      assert runs == [runs[0]] + runs[1..];
    }
  }

  /**
   The gate over a verdict produced from `produced` and read back against `runs` is clean exactly when there is
   something to replay, every replayed date agrees up to null keys outside lists, the verdict still covers the successful
   dates of the table, and the table carries one engine and one config version, namely the verdict's.
   With `runs == produced` the date condition holds by itself (`CleanGateUnchangedTable`).
   */
  lemma CleanGateIff(batch: Batch, produced: seq<RunRow>, runs: seq<RunRow>)
    requires ReplayCheck(batch, produced).Ok?
    ensures GateReasons(Some(ReplayCheck(batch, produced).value), runs) == {} <==>
            && SuccessRuns(runs) != []
            && multiset(DatesOf(SuccessRuns(produced))) == multiset(DatesOf(SuccessRuns(runs)))
            && (forall i :: 0 <= i < |SuccessRuns(produced)| ==> Replays(batch, SuccessRuns(produced)[i].asOf))
            && EngineVersions(runs) == {batch.engineVersion}
            && ConfigVersions(runs) == {batch.configVersion}
  {
    ReplayAllResults(batch, SuccessRuns(produced));
    var verdict := ReplayCheck(batch, produced).value;
    var dates := DatesOf(SuccessRuns(runs));
    ReasonsMeaning(Some(verdict), runs);
    if dates != [] && multiset(ResultDates(verdict.results)) == multiset(dates) {
      assert dates[0] in multiset(dates);
      assert dates[0] in ResultDates(verdict.results);
    }
  }

  lemma ComplaintsMeaning(nothingToReplay: bool, passed: bool, sameDates: bool, sameVersions: bool)
    ensures var reasons := Complaints(nothingToReplay, passed, sameDates, sameVersions);
            && MissingReplayVerification !in reasons
            && (NoSuccessfulRunsToReplay in reasons <==> nothingToReplay)
            && (ReplayMismatchDetected in reasons <==> !nothingToReplay && !passed)
            && (ReplayDatesMismatch in reasons <==> !nothingToReplay && !sameDates)
            && (ReplayVersionMismatch in reasons <==> !nothingToReplay && !sameVersions)
            && (reasons == {} <==> !nothingToReplay && passed && sameDates && sameVersions)
  {
  }

  lemma NoDatesIff(runs: seq<RunRow>)
    ensures DatesOf(runs) == [] <==> runs == []
  {
  }

  /** When each reason is given: the first two stand alone, the others each for its own complaint. */
  lemma ReasonsMeaning(verdict: Option<Verdict>, runs: seq<RunRow>)
    ensures var reasons := GateReasons(verdict, runs);
            && (MissingReplayVerification in reasons <==> verdict.None?)
            && (NoSuccessfulRunsToReplay in reasons <==> verdict.Some? && SuccessRuns(runs) == [])
            && (ReplayMismatchDetected in reasons <==> verdict.Some? && SuccessRuns(runs) != [] && !verdict.value.allPassed)
            && (ReplayDatesMismatch in reasons <==> verdict.Some? && SuccessRuns(runs) != [] && !SameDates(verdict.value, runs))
            && (ReplayVersionMismatch in reasons <==> verdict.Some? && SuccessRuns(runs) != [] && !SameVersions(verdict.value, runs))
            && (reasons == {} <==>
                  && verdict.Some? && SuccessRuns(runs) != []
                  && verdict.value.allPassed && SameDates(verdict.value, runs) && SameVersions(verdict.value, runs))
  {
    if verdict.Some? {
      NoDatesIff(SuccessRuns(runs));
      var v := verdict.value;
      ComplaintsMeaning(DatesOf(SuccessRuns(runs)) == [], v.allPassed, SameDates(v, runs), SameVersions(v, runs));
    }
  }

  lemma CleanGateUnchangedTable(batch: Batch, runs: seq<RunRow>)
    requires ReplayCheck(batch, runs).Ok?
    ensures GateReasons(Some(ReplayCheck(batch, runs).value), runs) == {} <==>
            && SuccessRuns(runs) != []
            && (forall i :: 0 <= i < |SuccessRuns(runs)| ==> Replays(batch, SuccessRuns(runs)[i].asOf))
            && EngineVersions(runs) == {batch.engineVersion}
            && ConfigVersions(runs) == {batch.configVersion}
  {
    CleanGateIff(batch, runs, runs);
  }

  lemma SeveralVersions(versions: set<string>, v: string, w: string)
    requires v in versions && w in versions && v != w
    ensures Sole(versions) == None
  {
  }

  /**
   A verdict file without versions is accepted against a table of several versions: both sides read as None.
   The producer always writes its versions, so this concerns hand-made files only.
   */
  lemma VersionlessVerdictPasses(asOf: string, v1: string, v2: string, c1: string, c2: string)
    requires v1 != v2 && c1 != c2
    ensures var runs := [RunRow(asOf, "success", Some(v1), Some(c1), None, None), RunRow(asOf, "failed", Some(v2), Some(c2), None, None)];
            GateReasons(Some(Verdict(None, None, true, [DateResult(asOf, true, false)])), runs) == {}
  {
    var r1 := RunRow(asOf, "success", Some(v1), Some(c1), None, None);
    var r2 := RunRow(asOf, "failed", Some(v2), Some(c2), None, None);
    var runs := [r1, r2];
    assert r1 in runs && r2 in runs;
    assert Sole(EngineVersions(runs)) == None by {
      assert v1 in EngineVersions(runs) && v2 in EngineVersions(runs);
      SeveralVersions(EngineVersions(runs), v1, v2);
    }
    assert Sole(ConfigVersions(runs)) == None by {
      assert c1 in ConfigVersions(runs) && c2 in ConfigVersions(runs);
      SeveralVersions(ConfigVersions(runs), c1, c2);
    }
    assert SuccessRuns(runs) == [r1] by {
      assert runs[1..] == [r2] && [r2][1..] == [];
      assert SuccessRuns([r2]) == [];
    }
    assert DatesOf([r1]) == [asOf] == ResultDates([DateResult(asOf, true, false)]);
  }
}
