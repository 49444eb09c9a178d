/**
 Publishing a manifest: `run_publish`, `run_dry_run` and `run_check` of scripts/publish_canonical_snapshot.py over
 local files, a store and the manifest entries in memory.
 */
module PublishSnapshot {
  import opened Wrappers
  import opened Strings
  import opened ArtifactKeys
  import opened CanonicalParquet
  import opened ArtifactStore
  import opened ArtifactManifest

  /** What the semantic checks compare with: the sessions of SPY, and membership intervals by symbol. */
  datatype Reference = Reference(sessions: Option<seq<int>>, intervals: Option<map<string, seq<(int, Option<int>)>>>)

  /**
   What publishing depends on and does not change. SHA-256, one parquet pass, the parquet readers, the daily OHLCV contract,
   the semantic checks of a canonical parquet file and the reading of their reference data, which may raise, are arbitrary
   functions; `repoRoot` and `dataRoot` are the components of absolute directories.
   */
  datatype Env = Env(
    sha: Bytes -> string,
    pass: Pass,
    rowCount: Bytes -> nat,
    dateRange: Bytes -> (Option<string>, Option<string>),
    contract: (string, Bytes) -> bool,
    reference: (map<string, Bytes>, seq<Entry>) -> Option<Reference>,
    semantics: (Reference, Bytes, Entry) -> bool,
    repoRoot: seq<string>,
    dataRoot: seq<string>,
    backend: Backend)

  /** The digest really is a sha in lower-case hex. Nothing is assumed about collisions. */
  ghost predicate HexDigest(sha: Bytes -> string) {
    forall b :: HexDigits64(sha(b))
  }

  datatype World = World(files: map<string, Bytes>, objects: Objects)

  /** A value for a manifest field. */
  datatype Scalar = NullScalar | IntScalar(number: int) | StrScalar(text: string)

  datatype Status = StatusMissing | StatusMatch | StatusUpdated | StatusUploaded

  datatype Report = Report(
    name: string, localPath: string, status: Status, oldSha: string, newSha: Option<string>, updates: map<string, Scalar>)

  datatype PublishError =
    | CannotCanonicalize(reason: CanonicalError)
    | ContractViolated(name: string)
    | CannotMint(key: KeyError)
    | UploadFailed(store: StoreError)

  // ---------------------------------------------------------------------------
  // One artifact

  /** `_resolve_local_path`. */
  function ResolveLocalPath(env: Env, localPath: string): string {
    var parts := PathParts(localPath);
    if IsAbsolute(localPath) then "/" + Join(parts, '/')
    else if |parts| >= 2 && parts[0] == "data" && parts[1] == "raw" then "/" + Join(env.dataRoot + parts[2..], '/')
    else "/" + Join(env.repoRoot + parts, '/')
  }

  function LocalFile(env: Env, e: Entry): string {
    ResolveLocalPath(env, e.localPath)
  }

  /** `_is_parquet`. */
  predicate IsParquet(path: string) {
    LowerText(Suffix(FileName(PathParts(path)))) == ".parquet"
  }

  function DigestAt(env: Env, path: string, content: Bytes): Result<Digest, CanonicalError> {
    DigestOf(env.sha, env.pass, IsParquet(path), content)
  }

  /** The content of a file once publish has put the canonical bytes in place. */
  function Refreshed(env: Env, content: Bytes, d: Digest): Bytes {
    if d.canonical.Some? && env.sha(content) != d.sha then d.canonical.value else content
  }

  function MintedUri(uri: string, sha: string): Result<string, KeyError> {
    match StripContentAddress(uri)
    case Err(e) => Err(e)
    case Ok(logical) => ContentAddressedKey(logical, sha)
  }

  /** The entry after its content changed. */
  function UpdatedEntry(env: Env, e: Entry, uri: string, d: Digest): Entry {
    var moved := e.(sha256 := d.sha, uri := uri);
    if d.canonical.None? then moved
    else
      var range := env.dateRange(d.canonical.value);
      moved.(rows := Some(env.rowCount(d.canonical.value)),
             minDate := if range.0.Some? then range.0 else e.minDate,
             maxDate := if range.1.Some? then range.1 else e.maxDate)
  }

  function Updates(env: Env, uri: string, d: Digest): map<string, Scalar> {
    var moved: map<string, Scalar> := map["sha256" := StrScalar(d.sha), "uri" := StrScalar(uri)];
    if d.canonical.None? then moved
    else
      var range := env.dateRange(d.canonical.value);
      moved + map["rows" := IntScalar(env.rowCount(d.canonical.value))]
            + (if range.0.Some? then map["min_date" := StrScalar(range.0.value)] else map[])
            + (if range.1.Some? then map["max_date" := StrScalar(range.1.value)] else map[])
  }

  datatype Step = Step(world: World, entry: Entry, outcome: Result<Report, PublishError>)

  /** The body of the publish loop. On an error the files may already have been made canonical. */
  function PublishEntry(env: Env, upload: bool, w: World, e: Entry): Step {
    var path := LocalFile(env, e);
    if path !in w.files then Step(w, e, Ok(Report(e.name, path, StatusMissing, e.sha256, None, map[])))
    else
      match DigestAt(env, path, w.files[path])
      case Err(x) => Step(w, e, Err(CannotCanonicalize(x)))
      case Ok(d) =>
        if d.canonical.Some? && !env.contract(e.name, d.canonical.value) then Step(w, e, Err(ContractViolated(e.name)))
        else PublishDigest(env, upload, w.(files := w.files[path := Refreshed(env, w.files[path], d)]), e, path, d)
  }

  /** What follows once the file holds the canonical bytes. */
  function PublishDigest(env: Env, upload: bool, w: World, e: Entry, path: string, d: Digest): Step
    requires path in w.files
  {
    if d.sha == e.sha256 then Step(w, e, Ok(Report(e.name, path, StatusMatch, e.sha256, Some(d.sha), map[])))
    else
      match MintedUri(e.uri, d.sha)
      case Err(x) => Step(w, e, Err(CannotMint(x)))
      case Ok(uri) =>
        var put := PutResult(env.backend, env.sha, w.objects, w.files[path], uri, false);
        if upload && put.Err? then Step(w, e, Err(UploadFailed(put.error)))
        else
          var objects := if upload then PutObjects(env.backend, env.sha, w.objects, w.files[path], uri, false) else w.objects;
          var status := if upload then StatusUploaded else StatusUpdated;
          Step(w.(objects := objects), UpdatedEntry(env, e, uri, d),
               Ok(Report(e.name, path, status, e.sha256, Some(d.sha), Updates(env, uri, d))))
  }

  // ---------------------------------------------------------------------------
  // The whole manifest

  /** `--only`: an empty selection selects everything. */
  predicate Selected(only: set<string>, e: Entry) {
    only == {} || e.name in only
  }

  /** `error` is the exception that stopped the loop; the entries before it keep their updates in memory. */
  datatype Outcome = Outcome(world: World, entries: seq<Entry>, reports: seq<Report>, error: Option<PublishError>)

  /** What the loop does in an entry's turn. */
  type Round = (World, Entry) -> Step

  function Rounds(env: Env, upload: bool): Round {
    (w, e) => PublishEntry(env, upload, w, e)
  }

  /** The loop of `run_publish`, for any round. */
  function LoopFrom(round: Round, only: set<string>, w: World, entries: seq<Entry>): Outcome
    decreases |entries|
  {
    if entries == [] then Outcome(w, [], [], None)
    else if !Selected(only, entries[0]) then
      var rest := LoopFrom(round, only, w, entries[1..]);
      rest.(entries := [entries[0]] + rest.entries)
    else
      var step := round(w, entries[0]);
      match step.outcome
      case Err(x) => Outcome(step.world, entries, [], Some(x))
      case Ok(report) =>
        var rest := LoopFrom(round, only, step.world, entries[1..]);
        Outcome(rest.world, [step.entry] + rest.entries, [report] + rest.reports, rest.error)
  }

  function PublishFrom(env: Env, upload: bool, only: set<string>, w: World, entries: seq<Entry>): Outcome {
    LoopFrom(Rounds(env, upload), only, w, entries)
  }

  /** The outcome of a loop that has reached entry `i` with these reports. */
  ghost function Continued(round: Round, only: set<string>, w: World, entries: seq<Entry>, i: nat, reports: seq<Report>): Outcome
    requires i <= |entries|
  {
    var rest := LoopFrom(round, only, w, entries[i..]);
    Outcome(rest.world, entries[..i] + rest.entries, reports + rest.reports, rest.error)
  }

  lemma ContinuedSkip(round: Round, only: set<string>, w: World, entries: seq<Entry>, i: nat, reports: seq<Report>)
    requires i < |entries| && !Selected(only, entries[i])
    ensures Continued(round, only, w, entries, i, reports) == Continued(round, only, w, entries, i + 1, reports)
  {
    SplitAt(entries, i, entries[i]);
    var rest := LoopFrom(round, only, w, entries[i + 1..]);
    assert entries[..i] + ([entries[i]] + rest.entries) == (entries[..i] + [entries[i]]) + rest.entries;
  }

  lemma ContinuedFail(round: Round, only: set<string>, w: World, entries: seq<Entry>, i: nat, reports: seq<Report>)
    requires i < |entries| && Selected(only, entries[i]) && round(w, entries[i]).outcome.Err?
    ensures var step := round(w, entries[i]);
            Continued(round, only, w, entries, i, reports) == Outcome(step.world, entries, reports, Some(step.outcome.error))
  {
    SplitAt(entries, i, entries[i]);
    assert reports + [] == reports;
  }

  lemma ContinuedNext(round: Round, only: set<string>, w: World, entries: seq<Entry>, i: nat, reports: seq<Report>)
    requires i < |entries| && Selected(only, entries[i]) && round(w, entries[i]).outcome.Ok?
    ensures var step := round(w, entries[i]);
            Continued(round, only, w, entries, i, reports)
            == Continued(round, only, step.world, entries[i := step.entry], i + 1, reports + [step.outcome.value])
  {
    var step := round(w, entries[i]);
    SplitAt(entries, i, step.entry);
    var rest := LoopFrom(round, only, step.world, entries[i + 1..]);
    assert entries[..i] + ([step.entry] + rest.entries) == (entries[..i] + [step.entry]) + rest.entries;
    assert reports + ([step.outcome.value] + rest.reports) == (reports + [step.outcome.value]) + rest.reports;
  }

  /** One round of the publish loop. */
  lemma ContinuedStep(round: Round, only: set<string>, w: World, entries: seq<Entry>, i: nat, reports: seq<Report>)
    requires i < |entries|
    ensures var step := round(w, entries[i]);
            Continued(round, only, w, entries, i, reports) ==
            if !Selected(only, entries[i]) then Continued(round, only, w, entries, i + 1, reports)
            else if step.outcome.Err? then Outcome(step.world, entries, reports, Some(step.outcome.error))
            else Continued(round, only, step.world, entries[i := step.entry], i + 1, reports + [step.outcome.value])
  {
    if !Selected(only, entries[i]) {
      ContinuedSkip(round, only, w, entries, i, reports);
    } else if round(w, entries[i]).outcome.Err? {
      ContinuedFail(round, only, w, entries, i, reports);
    } else {
      ContinuedNext(round, only, w, entries, i, reports);
    }
  }

  lemma SplitAt(entries: seq<Entry>, i: nat, e: Entry)
    requires i < |entries|
    ensures entries[i..][0] == entries[i] && entries[i..][1..] == entries[i + 1..]
    ensures entries == entries[..i] + entries[i..] && entries[..i + 1] == entries[..i] + [entries[i]]
    ensures entries[i := e][..i + 1] == entries[..i] + [e] && entries[i := e][i + 1..] == entries[i + 1..]
  {
  }

  /** A failure leaves the entry as it was. */
  lemma FailureKeepsEntry(env: Env, upload: bool, w: World, e: Entry)
    ensures PublishEntry(env, upload, w, e).outcome.Err? ==> PublishEntry(env, upload, w, e).entry == e
  {
  }

  lemma ContinuedRound(env: Env, upload: bool, only: set<string>, w: World, entries: seq<Entry>, i: nat, reports: seq<Report>)
    requires i < |entries|
    ensures var round, step := Rounds(env, upload), PublishEntry(env, upload, w, entries[i]);
            Continued(round, only, w, entries, i, reports) ==
            if !Selected(only, entries[i]) then Continued(round, only, w, entries, i + 1, reports)
            else if step.outcome.Err? then Outcome(step.world, entries[i := step.entry], reports, Some(step.outcome.error))
            else Continued(round, only, step.world, entries[i := step.entry], i + 1, reports + [step.outcome.value])
  {
    ContinuedStep(Rounds(env, upload), only, w, entries, i, reports);
    FailureKeepsEntry(env, upload, w, entries[i]);
  }

  lemma ContinuedEnd(round: Round, only: set<string>, w: World, entries: seq<Entry>, reports: seq<Report>)
    ensures Continued(round, only, w, entries, |entries|, reports) == Outcome(w, entries, reports, None)
    ensures Continued(round, only, w, entries, 0, []) == LoopFrom(round, only, w, entries)
  {
    assert entries[|entries|..] == [] && entries[..|entries|] == entries && entries[0..] == entries;
  }

  datatype DryStatus = DryMissing | DryMatch | CanonicalizeWouldChangeSha | WouldUpload

  /** The body of the dry-run loop. */
  function DryRunEntry(env: Env, w: World, e: Entry): Result<DryStatus, CanonicalError> {
    var path := LocalFile(env, e);
    if path !in w.files then Ok(DryMissing)
    else
      match DigestAt(env, path, w.files[path])
      case Err(x) => Err(x)
      case Ok(d) =>
        if d.sha != e.sha256 then Ok(WouldUpload)
        else if d.canonical.Some? && env.sha(w.files[path]) != e.sha256 then Ok(CanonicalizeWouldChangeSha)
        else Ok(DryMatch)
  }

  datatype LocalStatus = LocalMissing | LocalReadError | LocalMatch | LocalDrift

  /** `_check_local`. */
  function CheckLocal(env: Env, w: World, e: Entry): LocalStatus {
    var path := LocalFile(env, e);
    if path !in w.files then LocalMissing
    else
      match DigestAt(env, path, w.files[path])
      case Err(_) => LocalReadError
      case Ok(d) => if d.sha == e.sha256 then LocalMatch else LocalDrift
  }

  datatype CheckError = NoReference | StoreFailed(store: StoreError)

  /** `_semantic_check_artifact`: None where there is nothing to look at, else whether the content is in order. */
  function SemanticStatus(env: Env, r: Reference, w: World, e: Entry): Option<bool> {
    var path := LocalFile(env, e);
    if path !in w.files || !IsParquet(path) then None
    else
      var digest := DigestAt(env, path, w.files[path]);
      Some(digest.Ok? && digest.value.canonical.Some? && env.semantics(r, digest.value.canonical.value, e))
  }

  /** The local file and its digest, which `_check_store` passes to the store. */
  function HintFor(env: Env, w: World, e: Entry): Option<Hint> {
    var path := LocalFile(env, e);
    if path !in w.files || DigestAt(env, path, w.files[path]).Err? then None
    else Some(Hint(path, DigestAt(env, path, w.files[path]).value.sha))
  }

  datatype CheckReport = CheckReport(name: string, local: LocalStatus, stored: CheckResult, semantic: Option<bool>) {
    /** `ArtifactReport.is_issue`. */
    predicate IsIssue() {
      local != LocalMatch || stored.status == Drift || stored.status == Missing || semantic == Some(false)
    }
  }

  predicate NoIssue(reports: seq<CheckReport>) {
    forall i :: 0 <= i < |reports| ==> !reports[i].IsIssue()
  }

  /** The body of the check loop; it raises where the store cannot make out the uri. */
  function CheckEntry(env: Env, r: Reference, w: World, e: Entry): Result<CheckReport, StoreError> {
    match CheckHinted(env.backend, env.sha, w.objects, e.uri, e.sha256, HintFor(env, w, e))
    case Err(x) => Err(x)
    case Ok(stored) => Ok(CheckReport(e.name, CheckLocal(env, w, e), stored, SemanticStatus(env, r, w, e)))
  }

  function DryRuns(env: Env, w: World): Entry -> Result<DryStatus, CanonicalError> {
    e => DryRunEntry(env, w, e)
  }

  function Checks(env: Env, r: Reference, w: World): Entry -> Result<CheckReport, StoreError> {
    e => CheckEntry(env, r, w, e)
  }

  /** Asking entry after entry: all answers in order, or the first error. */
  function AskAll<R, E>(ask: Entry -> Result<R, E>, entries: seq<Entry>): Result<seq<R>, E>
    decreases |entries|
  {
    if entries == [] then Ok([])
    else
      match AskAll(ask, entries[..|entries| - 1])
      case Err(e) => Err(e)
      case Ok(answers) =>
        match ask(entries[|entries| - 1])
        case Err(e) => Err(e)
        case Ok(answer) => Ok(answers + [answer])
  }

  lemma AskSnoc<R, E>(ask: Entry -> Result<R, E>, entries: seq<Entry>, e: Entry)
    requires AskAll(ask, entries).Ok?
    ensures AskAll(ask, entries + [e]) ==
            if ask(e).Err? then Err(ask(e).error) else Ok(AskAll(ask, entries).value + [ask(e).value])
  {
    assert (entries + [e])[..|entries|] == entries;
  }

  lemma {:induction false} ErrorStays<R, E>(ask: Entry -> Result<R, E>, entries: seq<Entry>, n: nat)
    requires n <= |entries| && AskAll(ask, entries[..n]).Err?
    ensures AskAll(ask, entries) == AskAll(ask, entries[..n])
    decreases |entries|
  {
    if n == |entries| {
      assert entries[..n] == entries;
    } else {
      assert entries[..|entries| - 1][..n] == entries[..n];
      ErrorStays(ask, entries[..|entries| - 1], n);
    }
  }

  predicate AnsweredBefore<R, E>(ask: Entry -> Result<R, E>, entries: seq<Entry>, n: nat)
    requires n <= |entries|
  {
    forall i :: 0 <= i < n ==> ask(entries[i]).Ok?
  }

  /** Every entry gets its own answer; an error is that of the first entry without an answer. */
  lemma {:induction false} AskAllMeaning<R, E>(ask: Entry -> Result<R, E>, entries: seq<Entry>)
    ensures AskAll(ask, entries).Ok? ==>
              var answers := AskAll(ask, entries).value;
              |answers| == |entries| && forall i :: 0 <= i < |entries| ==> ask(entries[i]) == Ok(answers[i])
    ensures AskAll(ask, entries).Err? ==>
              exists i: nat :: i < |entries| && AnsweredBefore(ask, entries, i)
                               && ask(entries[i]).Err? && ask(entries[i]).error == AskAll(ask, entries).error
    decreases |entries|
  {
    if entries != [] {
      var init := entries[..|entries| - 1];
      AskAllMeaning(ask, init);
      assert forall i :: 0 <= i < |init| ==> init[i] == entries[i];
      if AskAll(ask, init).Err? {
        var i: nat :| i < |init| && AnsweredBefore(ask, init, i) && ask(init[i]).Err? && ask(init[i]).error == AskAll(ask, init).error;
        assert AnsweredBefore(ask, entries, i) && ask(entries[i]).Err?;
      } else {
        assert AnsweredBefore(ask, entries, |init|);
      }
    }
  }

  class Publisher {
    const env: Env
    const store: Store
    const workspace: Workspace
    var entries: seq<Entry>

    constructor (env: Env, store: Store, workspace: Workspace, entries: seq<Entry>)
      ensures this.env == env && this.store == store && this.workspace == workspace && this.entries == entries
    {
      this.env, this.store, this.workspace, this.entries := env, store, workspace, entries;
    }

    ghost predicate Valid()
      reads this
    {
      store.backend == env.backend && store.sha == env.sha
    }

    ghost function Now(): World
      reads this, store, workspace
    {
      World(workspace.files, store.objects)
    }

    /** The loop body: files, store and the entry change in place. */
    method PublishOne(i: nat, upload: bool) returns (outcome: Result<Report, PublishError>)
      requires Valid() && i < |entries|
      modifies this`entries, store, workspace
      ensures Valid()
      ensures var step := old(PublishEntry(env, upload, Now(), entries[i]));
              Now() == step.world && entries == old(entries)[i := step.entry] && outcome == step.outcome
    {
      var artifact := entries[i];
      var local := LocalFile(env, artifact);
      if local !in workspace.files {
        return Ok(Report(artifact.name, local, StatusMissing, artifact.sha256, None, map[]));
      }
      var digest := DigestAt(env, local, workspace.files[local]);
      if digest.Err? {
        return Err(CannotCanonicalize(digest.error));
      }
      var d := digest.value;
      if d.canonical.Some? {
        if !env.contract(artifact.name, d.canonical.value) {
          return Err(ContractViolated(artifact.name));
        }
        if env.sha(workspace.files[local]) != d.sha {
          workspace.files := workspace.files[local := d.canonical.value];
        }
      }
      assert workspace.files == old(workspace.files)[local := Refreshed(env, old(workspace.files)[local], d)];
      outcome := PublishRefreshed(i, local, d, upload);
    }

    /** The loop body once the file holds the canonical bytes. */
    method PublishRefreshed(i: nat, local: string, d: Digest, upload: bool) returns (outcome: Result<Report, PublishError>)
      requires Valid() && i < |entries| && local in workspace.files
      modifies this`entries, store
      ensures Valid()
      ensures var step := old(PublishDigest(env, upload, Now(), entries[i], local, d));
              Now() == step.world && entries == old(entries)[i := step.entry] && outcome == step.outcome
    {
      var artifact := entries[i];
      if d.sha == artifact.sha256 {
        return Ok(Report(artifact.name, local, StatusMatch, artifact.sha256, Some(d.sha), map[]));
      }
      var minted := MintedUri(artifact.uri, d.sha);
      if minted.Err? {
        return Err(CannotMint(minted.error));
      }
      if upload {
        var put := store.PutFile(workspace, local, minted.value, false);
        if put.Err? {
          return Err(UploadFailed(put.error));
        }
      }
      entries := entries[i := UpdatedEntry(env, artifact, minted.value, d)];
      return Ok(Report(artifact.name, local, if upload then StatusUploaded else StatusUpdated, artifact.sha256,
                       Some(d.sha), Updates(env, minted.value, d)));
    }

    /** `run_publish`. */
    method RunPublish(only: set<string>, upload: bool) returns (result: Result<seq<Report>, PublishError>)
      requires Valid()
      modifies this`entries, store, workspace
      ensures Valid()
      ensures var outcome := old(PublishFrom(env, upload, only, Now(), entries));
              && Now() == outcome.world && entries == outcome.entries
              && result == if outcome.error.Some? then Err(outcome.error.value) else Ok(outcome.reports)
    {
      var reports: seq<Report> := [];
      ghost var round := Rounds(env, upload);
      ghost var whole := LoopFrom(round, only, Now(), entries);
      ContinuedEnd(round, only, Now(), entries, reports);
      var i := 0;
      while i < |entries|
        invariant Valid() && 0 <= i <= |entries|
        invariant whole == Continued(round, only, Now(), entries, i, reports)
        decreases |entries| - i
      {
        ghost var before, was := Now(), entries;
        ContinuedRound(env, upload, only, before, was, i, reports);
        if Selected(only, entries[i]) {
          var outcome := PublishOne(i, upload);
          if outcome.Err? {
            return Err(outcome.error);
          }
          reports := reports + [outcome.value];
        }
        i := i + 1;
      }
      ContinuedEnd(round, only, Now(), entries, reports);
      return Ok(reports);
    }

    /** `run_dry_run`: it changes nothing. */
    method RunDryRun(only: set<string>) returns (result: Result<seq<DryStatus>, CanonicalError>)
      ensures result == AskAll(DryRuns(env, Now()), Chosen(only, entries))
    {
      var statuses: seq<DryStatus> := [];
      ghost var ask := DryRuns(env, Now());
      for i := 0 to |entries|
        invariant AskAll(ask, Chosen(only, entries[..i])) == Ok(statuses)
      {
        assert entries[..i + 1] == entries[..i] + [entries[i]];
        ChosenStep(only, entries[..i], entries[i]);
        if Selected(only, entries[i]) {
          AskSnoc(ask, Chosen(only, entries[..i]), entries[i]);
          var status := DryRuns(env, World(workspace.files, store.objects))(entries[i]);
          if status.Err? {
            FirstErrorDecides(ask, only, entries, i + 1);
            return Err(status.error);
          }
          statuses := statuses + [status.value];
        }
      }
      assert entries[..|entries|] == entries;
      return Ok(statuses);
    }

    /**
     `run_check` with a store: a report for every selected entry, and whether none of them is an issue; or the first error of
     the store, or that of reading the reference data before the loop.
     */
    method RunCheck(only: set<string>) returns (result: Result<(bool, seq<CheckReport>), CheckError>)
      requires Valid()
      ensures var reference := env.reference(workspace.files, entries);
              if reference.None? then result == Err(NoReference)
              else
                var reports := AskAll(Checks(env, reference.value, Now()), Chosen(only, entries));
                result == if reports.Err? then Err(StoreFailed(reports.error)) else Ok((NoIssue(reports.value), reports.value))
    {
      var reference := env.reference(workspace.files, entries);
      if reference.None? {
        return Err(NoReference);
      }
      var checked := CheckAll(only, reference.value);
      if checked.Err? {
        return Err(StoreFailed(checked.error));
      }
      return Ok((NoIssue(checked.value), checked.value));
    }

    /** The check loop. */
    method CheckAll(only: set<string>, reference: Reference) returns (result: Result<seq<CheckReport>, StoreError>)
      requires Valid()
      ensures result == AskAll(Checks(env, reference, Now()), Chosen(only, entries))
    {
      var reports: seq<CheckReport> := [];
      ghost var ask := Checks(env, reference, Now());
      for i := 0 to |entries|
        invariant AskAll(ask, Chosen(only, entries[..i])) == Ok(reports)
      {
        assert entries[..i + 1] == entries[..i] + [entries[i]];
        ChosenStep(only, entries[..i], entries[i]);
        if Selected(only, entries[i]) {
          AskSnoc(ask, Chosen(only, entries[..i]), entries[i]);
          var report := CheckOne(i, reference);
          if report.Err? {
            FirstErrorDecides(ask, only, entries, i + 1);
            return Err(report.error);
          }
          reports := reports + [report.value];
        }
      }
      assert entries[..|entries|] == entries;
      return Ok(reports);
    }

    method CheckOne(i: nat, reference: Reference) returns (report: Result<CheckReport, StoreError>)
      requires Valid() && i < |entries|
      ensures report == Checks(env, reference, Now())(entries[i])
    {
      var e, w := entries[i], World(workspace.files, store.objects);
      var local, semantic := CheckLocal(env, w, e), SemanticStatus(env, reference, w, e);
      var stored := store.CheckFile(e.uri, e.sha256, HintFor(env, w, e));
      return if stored.Err? then Err(stored.error) else Ok(CheckReport(e.name, local, stored.value, semantic));
    }
  }

  /** `_filter_artifacts`. */
  function Chosen(only: set<string>, entries: seq<Entry>): seq<Entry> {
    if entries == [] then []
    else
      var front := Chosen(only, entries[..|entries| - 1]);
      if Selected(only, entries[|entries| - 1]) then front + [entries[|entries| - 1]] else front
  }

  lemma {:induction false} ChosenPrefix(only: set<string>, entries: seq<Entry>, n: nat)
    requires n <= |entries|
    ensures Chosen(only, entries[..n]) <= Chosen(only, entries)
  {
    if n == |entries| {
      assert entries[..n] == entries;
    } else {
      var init := entries[..|entries| - 1];
      ChosenPrefix(only, init, n);
      assert init[..n] == entries[..n];
    }
  }

  lemma FirstErrorDecides<R, E>(ask: Entry -> Result<R, E>, only: set<string>, entries: seq<Entry>, n: nat)
    requires n <= |entries| && AskAll(ask, Chosen(only, entries[..n])).Err?
    ensures AskAll(ask, Chosen(only, entries)) == AskAll(ask, Chosen(only, entries[..n]))
  {
    ChosenPrefix(only, entries, n);
    var front := Chosen(only, entries[..n]);
    assert Chosen(only, entries)[..|front|] == front;
    ErrorStays(ask, Chosen(only, entries), |front|);
  }

  lemma ChosenStep(only: set<string>, entries: seq<Entry>, e: Entry)
    ensures Chosen(only, entries + [e]) == Chosen(only, entries) + if Selected(only, e) then [e] else []
  {
    assert (entries + [e])[..|entries|] == entries;
  }
}
