/** What a publish pins: the content that canonicalisation settles on, told by the single pass and the sha alone. */
module PublishContents {
  import opened Wrappers
  import opened Strings
  import opened ArtifactKeys
  import opened CanonicalParquet
  import opened ArtifactStore
  import opened ArtifactManifest
  import opened PublishSnapshot
  import opened PublishLoop
  import opened PublishProperties

  // ---------------------------------------------------------------------------
  // Which file an entry names, and whether it is a parquet file

  predicate IsData(parts: seq<string>) {
    |parts| >= 2 && parts[0] == "data" && parts[1] == "raw"
  }

  /** An absolute path names itself; what lies in data/raw is found in the data root, and all else in the repository. */
  lemma ResolvedParts(env: Env, localPath: string)
    requires CleanParts(env.repoRoot) && CleanParts(env.dataRoot)
    ensures var parts, resolved := PathParts(localPath), ResolveLocalPath(env, localPath);
            && IsAbsolute(resolved)
            && (IsAbsolute(localPath) ==> PathParts(resolved) == parts)
            && (!IsAbsolute(localPath) && IsData(parts) ==> PathParts(resolved) == env.dataRoot + parts[2..])
            && (!IsAbsolute(localPath) && !IsData(parts) ==> PathParts(resolved) == env.repoRoot + parts)
  {
    var parts := PathParts(localPath);
    var target := if IsAbsolute(localPath) then parts else if IsData(parts) then env.dataRoot + parts[2..] else env.repoRoot + parts;
    PartsOfAbsolute(target);
  }

  /** The letters of "parquet", each small or capital. */
  predicate SpellsParquet(s: string) {
    |s| == 7 && forall i :: 0 <= i < 7 ==> s[i] == "parquet"[i] || s[i] == "PARQUET"[i]
  }

  lemma LowerSpells(s: string)
    ensures LowerText("." + s) == ".parquet" <==> SpellsParquet(s)
  {
    var lower := LowerText("." + s);
    if SpellsParquet(s) {
      assert |lower| == 8 && forall i :: 0 <= i < 7 ==> lower[i + 1] == "parquet"[i];
    }
    if lower == ".parquet" {
      forall i | 0 <= i < 7 ensures s[i] == "parquet"[i] || s[i] == "PARQUET"[i] { assert lower[i + 1] == "parquet"[i]; }
    }
  }

  /** A parquet file has a name before its extension. */
  lemma IsParquetIff(path: string)
    ensures IsParquet(path) <==> exists stem, ext :: stem != "" && SpellsParquet(ext) && FileName(PathParts(path)) == stem + "." + ext
  {
    var name := FileName(PathParts(path));
    if IsParquet(path) {
      NameSplits(name);
      LowerSpells(Suffix(name)[1..]);
    }
    if stem, ext :| stem != "" && SpellsParquet(ext) && name == stem + "." + ext {
      SuffixedName(stem, ext);
      LowerSpells(ext);
    }
  }

  // ---------------------------------------------------------------------------
  // The digest

  /** `c` is what `n` passes make of the content, at most as many as the loop has rounds, and one more pass leaves it alone. */
  predicate SettledContent(pass: Pass, content: Bytes, n: nat, c: Bytes) {
    1 <= n <= 3 && Iterate(pass, content, n) == Some(c) && pass(c) == Some(c)
  }

  /** Any two contents that passes settle on are the same, so `c` is determined. */
  lemma {:induction false} SettledContentUnique(pass: Pass, content: Bytes, m: nat, c: Bytes, n: nat, d: Bytes)
    requires m <= n && Iterate(pass, content, m) == Some(c) && pass(c) == Some(c) && Iterate(pass, content, n) == Some(d)
    ensures c == d
    decreases m
  {
    if m == 0 {
      FixpointStays(pass, content, n);
    } else {
      SettledContentUnique(pass, pass(content).value, m - 1, c, n - 1, d);
    }
  }

  /** The content whose sha stands for the file: of a parquet file what its passes settle on, of any other the file as it is. */
  ghost predicate PinnedContent(env: Env, parquet: bool, content: Bytes, c: Bytes) {
    if parquet then exists n: nat :: SettledContent(env.pass, content, n, c) else c == content
  }

  /** The digest of a content. */
  function DigestOn(env: Env, parquet: bool, c: Bytes): Digest {
    Digest(env.sha(c), if parquet then Some(c) else None)
  }

  lemma DigestMeaning(env: Env, path: string, content: Bytes)
    requires DigestAt(env, path, content).Ok?
    ensures var d := DigestAt(env, path, content).value;
            var c := if IsParquet(path) then Canonical(env.pass, content).value else content;
            && (IsParquet(path) ==> Canonical(env.pass, content).Ok?)
            && PinnedContent(env, IsParquet(path), content, c)
            && d == DigestOn(env, IsParquet(path), c)
  {
    if IsParquet(path) {
      var first := env.pass(content).value;
      SettleFixpoint(env.pass, first, ROUNDS);
      var c := Canonical(env.pass, content).value;
      var n: nat :| n < ROUNDS && Iterate(env.pass, first, n) == Some(c);
      assert SettledContent(env.pass, content, n + 1, c);
    }
  }

  /** Where there is such a content, the digest is that of it. */
  lemma DigestIs(env: Env, path: string, content: Bytes, c: Bytes)
    requires PinnedContent(env, IsParquet(path), content, c)
    ensures DigestAt(env, path, content) == Ok(DigestOn(env, IsParquet(path), c))
  {
    if IsParquet(path) {
      var n: nat :| SettledContent(env.pass, content, n, c);
      assert FixpointAfter(env.pass, content, n);
      CanonicalIsFixpoint(env.pass, content);
      DigestMeaning(env, path, content);
      var d := Canonical(env.pass, content).value;
      var m: nat :| SettledContent(env.pass, content, m, d);
      if m <= n {
        SettledContentUnique(env.pass, content, m, d, n, c);
      } else {
        SettledContentUnique(env.pass, content, n, c, m, d);
      }
    }
  }

  /** The passes over a parquet file fail or do not settle in time. */
  ghost predicate Unsettled(env: Env, path: string, content: Bytes) {
    forall c :: !PinnedContent(env, IsParquet(path), content, c)
  }

  lemma UnsettledIff(env: Env, path: string, content: Bytes)
    ensures DigestAt(env, path, content).Err? <==> Unsettled(env, path, content)
  {
    if DigestAt(env, path, content).Ok? { DigestMeaning(env, path, content); }
    if c :| PinnedContent(env, IsParquet(path), content, c) { DigestIs(env, path, content, c); }
  }

  // ---------------------------------------------------------------------------
  // One turn

  /** The entry is pinned to the content; what changed is described by the content, and nothing else changed. */
  predicate Pins(env: Env, parquet: bool, c: Bytes, before: Entry, after: Entry) {
    && after.sha256 == env.sha(c)
    && (before.sha256 == env.sha(c) ==> after == before)
    && (before.sha256 != env.sha(c) ==>
          && MintedUri(before.uri, env.sha(c)) == Ok(after.uri)
          && after.rows == (if parquet then Some(env.rowCount(c)) else before.rows)
          && after.minDate == (if parquet && env.dateRange(c).0.Some? then env.dateRange(c).0 else before.minDate)
          && after.maxDate == (if parquet && env.dateRange(c).1.Some? then env.dateRange(c).1 else before.maxDate)
          && after.name == before.name && after.stage == before.stage && after.localPath == before.localPath)
  }

  /** What the file holds in the end: the content, unless what it held before has the content's sha. */
  function Canonicalised(env: Env, content: Bytes, c: Bytes): Bytes {
    if env.sha(content) == env.sha(c) then content else c
  }

  /** The turn of an entry that has the digest `d` left the file and the entry so. */
  predicate Done(env: Env, path: string, content: Bytes, e: Entry, w: World, f: Entry) {
    && DigestAt(env, path, content).Ok?
    && var d := DigestAt(env, path, content).value;
       && path in w.files && w.files[path] == Refreshed(env, content, d) && DoneEntry(env, e, d, f)
  }

  predicate DoneEntry(env: Env, e: Entry, d: Digest, f: Entry) {
    && (d.canonical.Some? ==> env.contract(e.name, d.canonical.value))
    && if d.sha == e.sha256 then f == e
       else MintedUri(e.uri, d.sha).Ok? && f == UpdatedEntry(env, e, MintedUri(e.uri, d.sha).value, d)
  }

  /** The file at `path` has its first content, or that content made canonical. */
  predicate KeptOrRefreshed(env: Env, path: string, before: map<string, Bytes>, after: map<string, Bytes>) {
    && (path in before <==> path in after)
    && (path in before && after[path] != before[path] ==>
          && DigestAt(env, path, before[path]).Ok?
          && after[path] == Refreshed(env, before[path], DigestAt(env, path, before[path]).value))
  }

  lemma TurnKeepsFile(env: Env, upload: bool, w: World, v: World, e: Entry, path: string)
    requires KeptOrRefreshed(env, path, w.files, v.files)
    ensures KeptOrRefreshed(env, path, w.files, PublishEntry(env, upload, v, e).world.files)
  {
    EntryFiles(env, upload, v, e);
    if path in w.files && DigestAt(env, path, w.files[path]).Ok? { RefreshedDigest(env, path, w.files[path]); }
  }

  lemma TurnKeepsDone(env: Env, upload: bool, v: World, g: Entry, path: string, content: Bytes, e: Entry, f: Entry)
    requires Done(env, path, content, e, v, f)
    ensures Done(env, path, content, e, PublishEntry(env, upload, v, g).world, f)
  {
    EntryFiles(env, upload, v, g);
    RefreshedDigest(env, path, content);
  }

  lemma DigestPins(env: Env, upload: bool, v: World, e: Entry, path: string, d: Digest)
    requires path in v.files && PublishDigest(env, upload, v, e, path, d).outcome.Ok?
    requires d.canonical.Some? ==> env.contract(e.name, d.canonical.value)
    ensures PublishDigest(env, upload, v, e, path, d).world.files == v.files
    ensures DoneEntry(env, e, d, PublishDigest(env, upload, v, e, path, d).entry)
  {
  }

  lemma TurnDoes(env: Env, upload: bool, w: World, v: World, e: Entry, path: string)
    requires path == LocalFile(env, e) && path in w.files && KeptOrRefreshed(env, path, w.files, v.files)
    requires PublishEntry(env, upload, v, e).outcome.Ok?
    ensures var step := PublishEntry(env, upload, v, e); Done(env, path, w.files[path], e, step.world, step.entry)
  {
    var reached, u, p, d := EntryReaches(env, upload, v, e);
    assert reached;
    ReachedEntry(env, upload, v, u, e, p, d);
    DigestPins(env, upload, u, e, p, d);
    if v.files[path] != w.files[path] { RefreshedDigest(env, path, w.files[path]); }
  }

  /** The turn of an entry with such a content fails for one of three reasons, looked at in this order. */
  lemma TurnFailsIff(env: Env, upload: bool, w: World, e: Entry, c: Bytes)
    requires LocalFile(env, e) in w.files && PinnedContent(env, IsParquet(LocalFile(env, e)), w.files[LocalFile(env, e)], c)
    ensures var path, outcome := LocalFile(env, e), PublishEntry(env, upload, w, e).outcome;
            var uri := MintedUri(e.uri, env.sha(c));
            if IsParquet(path) && !env.contract(e.name, c) then outcome == Err(ContractViolated(e.name))
            else if e.sha256 == env.sha(c) then outcome.Ok?
            else if uri.Err? then outcome == Err(CannotMint(uri.error))
            else
              var put := PutResult(env.backend, env.sha, w.objects, Canonicalised(env, w.files[path], c), uri.value, false);
              if upload && put.Err? then outcome == Err(UploadFailed(put.error)) else outcome.Ok?
  {
    DigestIs(env, LocalFile(env, e), w.files[LocalFile(env, e)], c);
  }

  /** It fails as well where the passes fail or do not settle, and where the file is missing it never does. */
  lemma TurnFailsUnsettled(env: Env, upload: bool, w: World, e: Entry)
    ensures var path, outcome := LocalFile(env, e), PublishEntry(env, upload, w, e).outcome;
            && (path !in w.files ==> outcome.Ok?)
            && (path in w.files ==> (Unsettled(env, path, w.files[path]) <==> outcome.Err? && outcome.error.CannotCanonicalize?))
  {
    if LocalFile(env, e) in w.files { UnsettledIff(env, LocalFile(env, e), w.files[LocalFile(env, e)]); }
  }

  // ---------------------------------------------------------------------------
  // A whole publish

  lemma PublishDoes(env: Env, upload: bool, only: set<string>, w: World, entries: seq<Entry>, i: nat)
    requires PublishFrom(env, upload, only, w, entries).error.None? && i < |entries| && Selected(only, entries[i])
    requires LocalFile(env, entries[i]) in w.files
    ensures var o, path := PublishFrom(env, upload, only, w, entries), LocalFile(env, entries[i]);
            |o.entries| == |entries| && Done(env, path, w.files[path], entries[i], o.world, o.entries[i])
  {
    var round, e := Rounds(env, upload), entries[i];
    var path := LocalFile(env, e);
    var content := w.files[path];
    forall v: World, g | KeptOrRefreshed(env, path, w.files, v.files)
      ensures KeptOrRefreshed(env, path, w.files, round(v, g).world.files)
    {
      TurnKeepsFile(env, upload, w, v, g, path);
    }
    forall v, g, f | Done(env, path, content, e, v, f) ensures Done(env, path, content, e, round(v, g).world, f) {
      TurnKeepsDone(env, upload, v, g, path, content, e, f);
    }
    forall v: World | KeptOrRefreshed(env, path, w.files, v.files) && !TurnFails(round, only, v, e)
      ensures Done(env, path, content, e, TurnWorld(round, only, v, e), TurnEntry(round, only, v, e))
    {
      TurnDoes(env, upload, w, v, e, path);
    }
    LoopGains(round, only, w, entries, i, (v: World) => KeptOrRefreshed(env, path, w.files, v.files),
              (v, f) => Done(env, path, content, e, v, f));
  }

  /** What a publish has made of an entry and its file, told by the content that was there before. */
  ghost predicate PublishedAs(env: Env, parquet: bool, c: Bytes, before: Entry, content: Bytes, after: Entry, file: Bytes) {
    && PinnedContent(env, parquet, content, c)
    && Pins(env, parquet, c, before, after) && file == Canonicalised(env, content, c)
    && (parquet ==> env.contract(before.name, c))
  }

  lemma DigestHasContent(env: Env, path: string, content: Bytes) returns (c: Bytes)
    requires DigestAt(env, path, content).Ok?
    ensures PinnedContent(env, IsParquet(path), content, c) && DigestAt(env, path, content).value == DigestOn(env, IsParquet(path), c)
    ensures IsParquet(path) || c == content
  {
    DigestMeaning(env, path, content);
    c := if IsParquet(path) then Canonical(env.pass, content).value else content;
  }

  lemma DonePins(env: Env, parquet: bool, c: Bytes, e: Entry, f: Entry)
    requires DoneEntry(env, e, DigestOn(env, parquet, c), f)
    ensures Pins(env, parquet, c, e, f) && (parquet ==> env.contract(e.name, c))
  {
  }

  lemma RefreshedIs(env: Env, parquet: bool, content: Bytes, c: Bytes)
    requires parquet || c == content
    ensures Refreshed(env, content, DigestOn(env, parquet, c)) == Canonicalised(env, content, c)
  {
  }

  lemma DoneMeans(env: Env, path: string, content: Bytes, e: Entry, w: World, f: Entry)
    requires Done(env, path, content, e, w, f)
    ensures exists c :: PublishedAs(env, IsParquet(path), c, e, content, f, w.files[path])
  {
    var c := DigestHasContent(env, path, content);
    DonePins(env, IsParquet(path), c, e, f);
    RefreshedIs(env, IsParquet(path), content, c);
    assert PublishedAs(env, IsParquet(path), c, e, content, f, w.files[path]);
  }

  /**
   After a publish that returned, an entry whose name was asked for, or any entry if none was, is pinned to the sha of the
   content that the passes over its parquet file settle on, and its file holds that content unless it had the same sha anyway; of
   a file that is no parquet file, the content is what it was. A missing file stays missing, and its entry and those not
   asked for stay as they were.
   */
  lemma PublishPinsContent(env: Env, upload: bool, only: set<string>, w: World, entries: seq<Entry>, i: nat)
    requires PublishFrom(env, upload, only, w, entries).error.None? && i < |entries|
    ensures var o, path := PublishFrom(env, upload, only, w, entries), LocalFile(env, entries[i]);
            && |o.entries| == |entries| && (path in o.world.files <==> path in w.files)
            && if path !in w.files || !(only == {} || entries[i].name in only) then o.entries[i] == entries[i]
               else exists c :: PublishedAs(env, IsParquet(path), c, entries[i], w.files[path], o.entries[i], o.world.files[path])
  {
    var o, path := PublishFrom(env, upload, only, w, entries), LocalFile(env, entries[i]);
    FilesStayOrSettle(env, upload, only, w, entries, path);
    if !Selected(only, entries[i]) {
      UnselectedStays(env, upload, only, w, entries, i);
    } else if path in w.files {
      PublishDoes(env, upload, only, w, entries, i);
      DoneMeans(env, path, w.files[path], entries[i], o.world, o.entries[i]);
    } else {
      PublishPassesOver(env, upload, only, w, entries, i);
    }
  }

  lemma PublishPassesOver(env: Env, upload: bool, only: set<string>, w: World, entries: seq<Entry>, i: nat)
    requires PublishFrom(env, upload, only, w, entries).error.None? && i < |entries| && LocalFile(env, entries[i]) !in w.files
    ensures var o := PublishFrom(env, upload, only, w, entries);
            |o.entries| == |entries| && o.entries[i] == entries[i] && LocalFile(env, entries[i]) !in o.world.files
  {
    var round, path := Rounds(env, upload), LocalFile(env, entries[i]);
    forall v: World, g | path !in v.files ensures path !in round(v, g).world.files { EntryFiles(env, upload, v, g); }
    LoopKeeps(round, only, w, entries, (v: World) => path !in v.files);
    var v := LoopVisits(round, only, w, entries, i, (v: World) => path !in v.files);
  }

  /** Whether a publish returns or fails, each file ends up with what it held before or with what its passes settle on. */
  lemma FilesStayOrSettle(env: Env, upload: bool, only: set<string>, w: World, entries: seq<Entry>, path: string)
    ensures var files := PublishFrom(env, upload, only, w, entries).world.files;
            && (path in files <==> path in w.files)
            && (path in files && files[path] != w.files[path] ==>
                  IsParquet(path) && PinnedContent(env, true, w.files[path], files[path]))
  {
    var round := Rounds(env, upload);
    forall v: World, g | KeptOrRefreshed(env, path, w.files, v.files)
      ensures KeptOrRefreshed(env, path, w.files, round(v, g).world.files)
    {
      TurnKeepsFile(env, upload, w, v, g, path);
    }
    LoopKeeps(round, only, w, entries, (v: World) => KeptOrRefreshed(env, path, w.files, v.files));
    if path in w.files && DigestAt(env, path, w.files[path]).Ok? { DigestMeaning(env, path, w.files[path]); }
  }

  /** A publish changes no file but those of selected entries. */
  lemma OnlyNamedFilesChange(env: Env, upload: bool, only: set<string>, w: World, entries: seq<Entry>, path: string)
    requires PublishFrom(env, upload, only, w, entries).error.None?
    requires path in w.files && forall e :: e in entries && Selected(only, e) ==> LocalFile(env, e) != path
    ensures var files := PublishFrom(env, upload, only, w, entries).world.files; path in files && files[path] == w.files[path]
  {
    var same := (v: World) => path in v.files && v.files[path] == w.files[path];
    if !same(PublishFrom(env, upload, only, w, entries).world) {
      var j, v := LoopCrosses(Rounds(env, upload), only, w, entries, same);
      EntryFiles(env, upload, v, entries[j]);
    }
  }

  // ---------------------------------------------------------------------------
  // What a publish reports

  /** The report on an entry whose file is there or not, and which the publish has changed or not. */
  predicate ReportFits(upload: bool, path: string, present: bool, before: Entry, after: Entry, report: Report) {
    && report.name == before.name && report.localPath == path && report.oldSha == before.sha256
    && if !present then report.status == StatusMissing && report.newSha == None && after == before
       else
         && report.newSha == Some(after.sha256)
         && report.status == if after == before then StatusMatch else if upload then StatusUploaded else StatusUpdated
  }

  lemma DigestReports(env: Env, upload: bool, w: World, e: Entry, path: string, d: Digest)
    requires path in w.files && PublishDigest(env, upload, w, e, path, d).outcome.Ok?
    ensures var step := PublishDigest(env, upload, w, e, path, d); ReportFits(upload, path, true, e, step.entry, step.outcome.value)
  {
    DigestDoes(env, upload, w, e, path, d);
    if MintedUri(e.uri, d.sha).Ok? { UpdatedKeepsName(env, e, MintedUri(e.uri, d.sha).value, d); }
  }

  lemma TurnReports(env: Env, upload: bool, v: World, e: Entry)
    requires PublishEntry(env, upload, v, e).outcome.Ok?
    ensures var step, path := PublishEntry(env, upload, v, e), LocalFile(env, e);
            ReportFits(upload, path, path in v.files, e, step.entry, step.outcome.value)
  {
    var reached, u, path, d := EntryReaches(env, upload, v, e);
    if reached {
      ReachedEntry(env, upload, v, u, e, path, d);
      DigestReports(env, upload, u, e, path, d);
    }
  }

  /**
   A publish that returns reports on the selected entries in their order: missing files, entries that match, and entries that
   it changed, with the sha before and after.
   */
  lemma PublishReports(env: Env, upload: bool, only: set<string>, w: World, entries: seq<Entry>, i: nat)
    requires PublishFrom(env, upload, only, w, entries).error.None? && i < |entries| && (only == {} || entries[i].name in only)
    ensures var o, k, path := PublishFrom(env, upload, only, w, entries), |Chosen(only, entries[..i])|, LocalFile(env, entries[i]);
            && |o.reports| == |Chosen(only, entries)| && k < |o.reports| && |o.entries| == |entries|
            && ReportFits(upload, path, path in w.files, entries[i], o.entries[i], o.reports[k])
  {
    var round := Rounds(env, upload);
    LoopReportCount(round, only, w, entries);
    forall v: World, e | v.files.Keys == w.files.Keys ensures round(v, e).world.files.Keys == w.files.Keys {
      EntryFiles(env, upload, v, e);
    }
    var v := LoopReports(round, only, w, entries, i, (v: World) => v.files.Keys == w.files.Keys);
    TurnReports(env, upload, v, entries[i]);
  }

  // ---------------------------------------------------------------------------
  // What a dry run and a check say

  /** What a dry run says of an entry, told by the content that a publish would pin. */
  lemma DryRunMeaning(env: Env, w: World, e: Entry)
    ensures var path, said := LocalFile(env, e), DryRunEntry(env, w, e);
            if path !in w.files then said == Ok(DryMissing)
            else
              var content := w.files[path];
              && (said.Err? <==> Unsettled(env, path, content))
              && forall c :: PinnedContent(env, IsParquet(path), content, c) ==>
                   said == Ok(if env.sha(c) != e.sha256 then WouldUpload
                              else if IsParquet(path) && env.sha(content) != env.sha(c) then CanonicalizeWouldChangeSha else DryMatch)
  {
    var path := LocalFile(env, e);
    if path in w.files {
      UnsettledIff(env, path, w.files[path]);
      forall c | PinnedContent(env, IsParquet(path), w.files[path], c) ensures
        DigestAt(env, path, w.files[path]) == Ok(DigestOn(env, IsParquet(path), c))
      {
        DigestIs(env, path, w.files[path], c);
      }
    }
  }

  /** What a check reports on an entry whose content is the one to pin. */
  lemma CheckOfContent(env: Env, r: Reference, w: World, e: Entry, c: Bytes)
    requires LocalFile(env, e) in w.files && PinnedContent(env, IsParquet(LocalFile(env, e)), w.files[LocalFile(env, e)], c)
    ensures var path := LocalFile(env, e);
            && CheckLocal(env, w, e) == (if env.sha(c) == e.sha256 then LocalMatch else LocalDrift)
            && SemanticStatus(env, r, w, e) == (if IsParquet(path) then Some(env.semantics(r, c, e)) else None)
            && HintFor(env, w, e) == Some(Hint(path, env.sha(c)))
  {
    DigestIs(env, LocalFile(env, e), w.files[LocalFile(env, e)], c);
  }

  lemma CheckOfUnsettled(env: Env, r: Reference, w: World, e: Entry)
    requires LocalFile(env, e) in w.files && Unsettled(env, LocalFile(env, e), w.files[LocalFile(env, e)])
    ensures CheckLocal(env, w, e) == LocalReadError && HintFor(env, w, e) == None
  {
    UnsettledIff(env, LocalFile(env, e), w.files[LocalFile(env, e)]);
  }

  /**
   Nothing to complain about: the file is there, the content that a publish would pin has the manifest's sha and passes the
   semantic checks, and the store, told where and what that content is, reports a match or cannot tell.
   */
  ghost predicate InOrder(env: Env, r: Reference, w: World, e: Entry) {
    var path := LocalFile(env, e);
    && path in w.files
    && exists c :: PinnedContent(env, IsParquet(path), w.files[path], c) && PassesAs(env, r, w, e, path, c)
  }

  predicate PassesAs(env: Env, r: Reference, w: World, e: Entry, path: string, c: Bytes) {
    && env.sha(c) == e.sha256 && (IsParquet(path) ==> env.semantics(r, c, e))
    && var stored := CheckHinted(env.backend, env.sha, w.objects, e.uri, e.sha256, Some(Hint(path, env.sha(c))));
       stored.Ok? && (stored.value.status == Match || stored.value.status == Unverifiable)
  }

  lemma IssueIff(env: Env, r: Reference, w: World, e: Entry)
    requires CheckEntry(env, r, w, e).Ok?
    ensures CheckEntry(env, r, w, e).value.IsIssue() <==> !InOrder(env, r, w, e)
  {
    var path := LocalFile(env, e);
    if path in w.files {
      if c :| PinnedContent(env, IsParquet(path), w.files[path], c) {
        CheckOfContent(env, r, w, e, c);
        forall d | PinnedContent(env, IsParquet(path), w.files[path], d)
          ensures PassesAs(env, r, w, e, path, d) ==> PassesAs(env, r, w, e, path, c)
        {
          DigestIs(env, path, w.files[path], c);
          DigestIs(env, path, w.files[path], d);
        }
      } else {
        CheckOfUnsettled(env, r, w, e);
      }
    }
  }

  /** A check that returns finds no issue exactly if every selected entry is in order; an empty selection selects all. */
  lemma CleanCheckIff(env: Env, r: Reference, only: set<string>, w: World, entries: seq<Entry>)
    requires AskAll(Checks(env, r, w), Chosen(only, entries)).Ok?
    ensures NoIssue(AskAll(Checks(env, r, w), Chosen(only, entries)).value) <==>
            forall i :: 0 <= i < |entries| && (only == {} || entries[i].name in only) ==> InOrder(env, r, w, entries[i])
  {
    var ask, chosen := Checks(env, r, w), Chosen(only, entries);
    AskAllMeaning(ask, chosen);
    var reports := AskAll(ask, chosen).value;
    forall k: nat | k < |chosen| ensures !reports[k].IsIssue() <==> InOrder(env, r, w, chosen[k]) {
      assert ask(chosen[k]) == Ok(reports[k]);
      IssueIff(env, r, w, chosen[k]);
    }
    if NoIssue(reports) {
      forall i: nat | i < |entries| && Selected(only, entries[i]) ensures InOrder(env, r, w, entries[i]) {
        ChosenAt(only, entries, i);
      }
    } else {
      var k: nat :| k < |reports| && reports[k].IsIssue();
      var i := ChosenFrom(only, entries, k);
    }
  }
}
