/** What one publish achieves: idempotence, agreement with dry run and check, and stable keys. */
module PublishProperties {
  import opened Wrappers
  import opened Strings
  import opened ArtifactKeys
  import opened CanonicalParquet
  import opened ArtifactStore
  import opened ArtifactManifest
  import opened PublishSnapshot
  import opened PublishLoop

  // ---------------------------------------------------------------------------
  // Idempotence

  /** Publishing has nothing left to do for the entry: the file is missing, or canonical and pinned by its own sha. */
  predicate Settled(env: Env, w: World, e: Entry) {
    var path := LocalFile(env, e);
    path in w.files ==>
      var digest := DigestAt(env, path, w.files[path]);
      && digest.Ok? && digest.value.sha == e.sha256
      && (digest.value.canonical.Some? ==> env.contract(e.name, digest.value.canonical.value))
      && Refreshed(env, w.files[path], digest.value) == w.files[path]
  }

  /** Putting the canonical bytes in place does not change the digest, and needs to happen only once. */
  lemma RefreshedDigest(env: Env, path: string, content: Bytes)
    requires DigestAt(env, path, content).Ok?
    ensures var d := DigestAt(env, path, content).value;
            && DigestAt(env, path, Refreshed(env, content, d)) == Ok(d)
            && Refreshed(env, Refreshed(env, content, d), d) == Refreshed(env, content, d)
            && env.sha(Refreshed(env, content, d)) == d.sha
  {
    if IsParquet(path) { CanonicalIsFixpoint(env.pass, content); }
  }

  /** The files after publishing one entry, whether that succeeded or not. */
  function FilesAfter(env: Env, files: map<string, Bytes>, e: Entry): map<string, Bytes> {
    var path := LocalFile(env, e);
    if path !in files then files
    else
      match DigestAt(env, path, files[path])
      case Err(_) => files
      case Ok(d) =>
        if d.canonical.Some? && !env.contract(e.name, d.canonical.value) then files
        else files[path := Refreshed(env, files[path], d)]
  }

  lemma EntryFiles(env: Env, upload: bool, w: World, e: Entry)
    ensures PublishEntry(env, upload, w, e).world.files == FilesAfter(env, w.files, e)
  {
  }

  /** The round got to the digest of the file at `path`, and went on in the world `v`. */
  predicate Reached(env: Env, w: World, v: World, e: Entry, path: string, d: Digest) {
    && path == LocalFile(env, e) && path in w.files && DigestAt(env, path, w.files[path]) == Ok(d)
    && (d.canonical.Some? ==> env.contract(e.name, d.canonical.value))
    && v == w.(files := w.files[path := Refreshed(env, w.files[path], d)])
  }

  lemma ReachedEntry(env: Env, upload: bool, w: World, v: World, e: Entry, path: string, d: Digest)
    requires Reached(env, w, v, e, path, d)
    ensures path in v.files && env.sha(v.files[path]) == d.sha
    ensures PublishEntry(env, upload, w, e) == PublishDigest(env, upload, v, e, path, d)
  {
    RefreshedDigest(env, path, w.files[path]);
  }

  /** A round leaves entry and objects alone, or gets to the digest. */
  lemma EntryReaches(env: Env, upload: bool, w: World, e: Entry) returns (reached: bool, v: World, path: string, d: Digest)
    ensures reached ==> Reached(env, w, v, e, path, d)
    ensures var step := PublishEntry(env, upload, w, e);
            !reached ==>
              && step.entry == e && step.world.objects == w.objects
              && (step.outcome.Ok? ==> path !in w.files && path == LocalFile(env, e))
  {
    path := LocalFile(env, e);
    if path !in w.files || DigestAt(env, path, w.files[path]).Err? {
      reached, v, d := false, w, Digest("", None);
    } else {
      d := DigestAt(env, path, w.files[path]).value;
      v := w.(files := w.files[path := Refreshed(env, w.files[path], d)]);
      reached := d.canonical.Some? ==> env.contract(e.name, d.canonical.value);
    }
  }

  /** What the rest of a round does to entry and objects: nothing, or the put of the file under a minted uri. */
  lemma DigestDoes(env: Env, upload: bool, w: World, e: Entry, path: string, d: Digest)
    requires path in w.files
    ensures var step := PublishDigest(env, upload, w, e, path, d);
            || (step.entry == e && step.world.objects == w.objects)
            || (&& MintedUri(e.uri, d.sha).Ok?
                && var uri := MintedUri(e.uri, d.sha).value;
                   && d.sha != e.sha256 && step.outcome.Ok? && step.entry == UpdatedEntry(env, e, uri, d)
                   && (upload ==> PutResult(env.backend, env.sha, w.objects, w.files[path], uri, false).Ok?)
                   && step.world.objects ==
                      if upload then PutObjects(env.backend, env.sha, w.objects, w.files[path], uri, false) else w.objects)
  {
  }

  lemma UpdatedKeepsName(env: Env, e: Entry, uri: string, d: Digest)
    ensures var f := UpdatedEntry(env, e, uri, d); f.name == e.name && f.localPath == e.localPath && f.sha256 == d.sha && f.uri == uri
  {
  }

  lemma EntryKeepsName(env: Env, upload: bool, w: World, e: Entry)
    ensures var f := PublishEntry(env, upload, w, e).entry; f.name == e.name && f.localPath == e.localPath
  {
    var reached, v, path, d := EntryReaches(env, upload, w, e);
    if reached {
      ReachedEntry(env, upload, w, v, e, path, d);
      DigestDoes(env, upload, v, e, path, d);
      if MintedUri(e.uri, d.sha).Ok? { UpdatedKeepsName(env, e, MintedUri(e.uri, d.sha).value, d); }
    }
  }

  lemma EntrySettles(env: Env, upload: bool, w: World, e: Entry)
    requires PublishEntry(env, upload, w, e).outcome.Ok?
    ensures Settled(env, PublishEntry(env, upload, w, e).world, PublishEntry(env, upload, w, e).entry)
  {
    var path := LocalFile(env, e);
    EntryFiles(env, upload, w, e);
    EntryKeepsName(env, upload, w, e);
    if path in w.files {
      RefreshedDigest(env, path, w.files[path]);
      EntryPinsDigest(env, upload, w, e);
    }
  }

  lemma EntryPinsDigest(env: Env, upload: bool, w: World, e: Entry)
    requires PublishEntry(env, upload, w, e).outcome.Ok? && LocalFile(env, e) in w.files
    ensures var d := DigestAt(env, LocalFile(env, e), w.files[LocalFile(env, e)]);
            && d.Ok? && PublishEntry(env, upload, w, e).entry.sha256 == d.value.sha
            && (d.value.canonical.Some? ==> env.contract(e.name, d.value.canonical.value))
  {
  }

  predicate Quiet(report: Report) {
    report.status == StatusMatch || report.status == StatusMissing
  }

  lemma SettledIsQuiet(env: Env, upload: bool, w: World, e: Entry)
    requires Settled(env, w, e)
    ensures var step := PublishEntry(env, upload, w, e);
            && step.world == w && step.entry == e && step.outcome.Ok? && Quiet(step.outcome.value)
            && (step.outcome.value.status == StatusMatch <==> LocalFile(env, e) in w.files)
  {
    var path := LocalFile(env, e);
    if path in w.files {
      assert w.files[path := w.files[path]] == w.files;
    }
  }

  /** Publishing another entry, even of the same file, leaves a settled entry settled. */
  lemma SettledStays(env: Env, upload: bool, w: World, e: Entry, other: Entry)
    requires Settled(env, w, e)
    ensures Settled(env, PublishEntry(env, upload, w, other).world, e)
  {
    EntryFiles(env, upload, w, other);
  }

  predicate AllSettled(env: Env, only: set<string>, w: World, entries: seq<Entry>) {
    forall i :: 0 <= i < |entries| && Selected(only, entries[i]) ==> Settled(env, w, entries[i])
  }

  lemma TurnSettles(env: Env, upload: bool, only: set<string>, w: World, e: Entry)
    requires Selected(only, e) && !TurnFails(Rounds(env, upload), only, w, e)
    ensures var round := Rounds(env, upload); Settled(env, TurnWorld(round, only, w, e), TurnEntry(round, only, w, e))
  {
    EntrySettles(env, upload, w, e);
  }

  lemma PublishSettles(env: Env, upload: bool, only: set<string>, w: World, entries: seq<Entry>, i: nat)
    requires PublishFrom(env, upload, only, w, entries).error.None? && i < |entries| && Selected(only, entries[i])
    ensures var o := PublishFrom(env, upload, only, w, entries); |o.entries| == |entries| && Settled(env, o.world, o.entries[i])
  {
    forall v, e, f | Settled(env, v, f) ensures Settled(env, Rounds(env, upload)(v, e).world, f) { SettledStays(env, upload, v, f, e); }
    forall v | !TurnFails(Rounds(env, upload), only, v, entries[i])
      ensures Settled(env, TurnWorld(Rounds(env, upload), only, v, entries[i]), TurnEntry(Rounds(env, upload), only, v, entries[i]))
    {
      TurnSettles(env, upload, only, v, entries[i]);
    }
    LoopGains(Rounds(env, upload), only, w, entries, i, _ => true, (v, f) => Settled(env, v, f));
  }

  lemma PublishSettlesAll(env: Env, upload: bool, only: set<string>, w: World, entries: seq<Entry>)
    requires PublishFrom(env, upload, only, w, entries).error.None?
    ensures var o := PublishFrom(env, upload, only, w, entries);
            |o.entries| == |entries| && AllSettled(env, only, o.world, o.entries)
  {
    var o := PublishFrom(env, upload, only, w, entries);
    PublishKeepsNames(env, upload, only, w, entries);
    forall i | 0 <= i < |o.entries| && Selected(only, o.entries[i]) ensures Settled(env, o.world, o.entries[i]) {
      assert SameNames(entries[i], o.entries[i]);
      PublishSettles(env, upload, only, w, entries, i);
    }
  }

  lemma SettledPublishIsIdle(env: Env, upload: bool, only: set<string>, w: World, entries: seq<Entry>)
    requires AllSettled(env, only, w, entries)
    ensures var o := PublishFrom(env, upload, only, w, entries);
            o.world == w && o.entries == entries && o.error.None? && forall r :: r in o.reports ==> Quiet(r)
  {
    forall i | 0 <= i < |entries| && Selected(only, entries[i]) ensures IdleRound(Rounds(env, upload), w, entries[i], Quiet) {
      SettledIsQuiet(env, upload, w, entries[i]);
    }
    LoopIdles(Rounds(env, upload), only, w, entries, Quiet);
  }

  /**
   A second publish after one that returned reports MATCH (or MISSING) for everything and writes nothing: no file, no
   object, no entry. This holds for every pass and every sha, even one with collisions, and whether or not either run uploads.
   */
  lemma PublishIdempotent(env: Env, upload: bool, again: bool, only: set<string>, w: World, entries: seq<Entry>)
    requires PublishFrom(env, upload, only, w, entries).error.None?
    ensures var first := PublishFrom(env, upload, only, w, entries);
            var second := PublishFrom(env, again, only, first.world, first.entries);
            && second.world == first.world && second.entries == first.entries && second.error.None?
            && forall r :: r in second.reports ==> Quiet(r)
  {
    PublishSettlesAll(env, upload, only, w, entries);
    var first := PublishFrom(env, upload, only, w, entries);
    SettledPublishIsIdle(env, again, only, first.world, first.entries);
  }

  // ---------------------------------------------------------------------------
  // Dry run

  /** The second world shows the digests of the first. */
  predicate SameDigests(env: Env, w: World, v: World) {
    && w.files.Keys == v.files.Keys
    && forall path :: path in w.files ==> DigestAt(env, path, v.files[path]) == DigestAt(env, path, w.files[path])
  }

  lemma EntryKeepsDigests(env: Env, upload: bool, w: World, v: World, e: Entry)
    requires SameDigests(env, w, v)
    ensures SameDigests(env, w, PublishEntry(env, upload, v, e).world)
  {
    EntryFiles(env, upload, v, e);
    var path := LocalFile(env, e);
    if path in v.files && DigestAt(env, path, v.files[path]).Ok? {
      RefreshedDigest(env, path, v.files[path]);
    }
  }

  lemma DryRunReads(env: Env, w: World, e: Entry)
    ensures var path := LocalFile(env, e);
            if path in w.files
            then DigestAt(env, path, w.files[path]).Ok? ==>
                   && DryRunEntry(env, w, e).Ok?
                   && (DryRunEntry(env, w, e) == Ok(WouldUpload) <==> DigestAt(env, path, w.files[path]).value.sha != e.sha256)
            else DryRunEntry(env, w, e) == Ok(DryMissing)
  {
  }

  lemma ChangedIff(env: Env, upload: bool, w: World, e: Entry)
    requires PublishEntry(env, upload, w, e).outcome.Ok?
    ensures var path := LocalFile(env, e);
            && (path in w.files ==> DigestAt(env, path, w.files[path]).Ok?)
            && (PublishEntry(env, upload, w, e).entry != e <==> path in w.files && DigestAt(env, path, w.files[path]).value.sha != e.sha256)
  {
    if LocalFile(env, e) in w.files { EntryPinsDigest(env, upload, w, e); }
  }

  lemma DryRunPredictsEntry(env: Env, upload: bool, w: World, v: World, e: Entry)
    requires SameDigests(env, w, v) && PublishEntry(env, upload, v, e).outcome.Ok?
    ensures DryRunEntry(env, w, e).Ok?
    ensures DryRunEntry(env, w, e) == Ok(WouldUpload) <==> PublishEntry(env, upload, v, e).entry != e
  {
    DryRunReads(env, w, e);
    ChangedIff(env, upload, v, e);
    var path := LocalFile(env, e);
    assert path in v.files ==>
             DigestAt(env, path, v.files[path]).Ok? && DigestAt(env, path, w.files[path]) == DigestAt(env, path, v.files[path]);
  }

  lemma DryRunPredictsTurn(env: Env, upload: bool, only: set<string>, w: World, v: World, e: Entry)
    requires SameDigests(env, w, v) && !TurnFails(Rounds(env, upload), only, v, e)
    ensures Selected(only, e) ==>
              && DryRunEntry(env, w, e).Ok?
              && (DryRunEntry(env, w, e) == Ok(WouldUpload) <==> TurnEntry(Rounds(env, upload), only, v, e) != e)
  {
    if Selected(only, e) { DryRunPredictsEntry(env, upload, w, v, e); }
  }

  /**
   A dry run says WOULD_UPLOAD for exactly the selected entries that a publish of the same state changes, although the
   publish rewrites files as it goes.
   */
  lemma DryRunPredicts(env: Env, upload: bool, only: set<string>, w: World, entries: seq<Entry>, i: nat)
    requires i < |entries| && Selected(only, entries[i])
    requires PublishFrom(env, upload, only, w, entries).error.None?
    ensures |PublishFrom(env, upload, only, w, entries).entries| == |entries| && DryRunEntry(env, w, entries[i]).Ok?
    ensures DryRunEntry(env, w, entries[i]) == Ok(WouldUpload) <==>
            PublishFrom(env, upload, only, w, entries).entries[i] != entries[i]
  {
    forall v, e | SameDigests(env, w, v) ensures SameDigests(env, w, Rounds(env, upload)(v, e).world) {
      EntryKeepsDigests(env, upload, w, v, e);
    }
    var v := LoopVisits(Rounds(env, upload), only, w, entries, i, v => SameDigests(env, w, v));
    DryRunPredictsTurn(env, upload, only, w, v, entries[i]);
  }

  // ---------------------------------------------------------------------------
  // Check after publish

  predicate StoreMatches(env: Env, w: World, e: Entry) {
    Check(env.backend, env.sha, w.objects, e.uri, e.sha256) == Ok(CheckResult(Match, Some(e.sha256)))
  }

  /** The store has grown, and the entry, if it is a new one, resolves and matches there. */
  ghost predicate Uploaded(env: Env, before: Objects, e: Entry, w: World, f: Entry) {
    && AppendOnly(before, w.objects) && Truthful(env.backend, env.sha, w.objects)
    && (f != e ==> StoreMatches(env, w, f) && Resolves(env.backend, env.sha, w.objects, f.uri, f.sha256))
  }

  lemma PutUploads(env: Env, w: World, content: Bytes, e: Entry, f: Entry)
    requires Truthful(env.backend, env.sha, w.objects) && f.sha256 == env.sha(content)
    requires PutResult(env.backend, env.sha, w.objects, content, f.uri, false).Ok?
    ensures Uploaded(env, w.objects, e, w.(objects := PutObjects(env.backend, env.sha, w.objects, content, f.uri, false)), f)
  {
    PutResolves(env.backend, env.sha, w.objects, content, f.uri);
    PutIsAppendOnly(env.backend, env.sha, w.objects, content, f.uri);
  }

  lemma DigestUploads(env: Env, w: World, e: Entry, path: string, d: Digest)
    requires path in w.files && env.sha(w.files[path]) == d.sha && Truthful(env.backend, env.sha, w.objects)
    ensures var step := PublishDigest(env, true, w, e, path, d); Uploaded(env, w.objects, e, step.world, step.entry)
  {
    var step := PublishDigest(env, true, w, e, path, d);
    DigestDoes(env, true, w, e, path, d);
    if step.entry != e {
      var uri := MintedUri(e.uri, d.sha).value;
      UpdatedKeepsName(env, e, uri, d);
      PutUploads(env, w, w.files[path], e, step.entry);
    } else if MintedUri(e.uri, d.sha).Ok? {
      UpdatedKeepsName(env, e, MintedUri(e.uri, d.sha).value, d);
    }
  }

  /**
   Publishing an entry only adds to the store; an entry that it changed was uploaded: its new key resolves to its new sha,
   and the store reports a match.
   */
  lemma EntryUploads(env: Env, w: World, e: Entry)
    requires Truthful(env.backend, env.sha, w.objects)
    ensures var step := PublishEntry(env, true, w, e); Uploaded(env, w.objects, e, step.world, step.entry)
  {
    var reached, v, path, d := EntryReaches(env, true, w, e);
    if reached {
      ReachedEntry(env, true, w, v, e, path, d);
      DigestUploads(env, v, e, path, d);
    }
  }

  lemma AppendKeepsMatch(env: Env, before: World, after: World, e: Entry)
    requires AppendOnly(before.objects, after.objects) && StoreMatches(env, before, e)
    ensures StoreMatches(env, after, e)
  {
  }

  lemma AppendTransitive(a: Objects, b: Objects, c: Objects)
    requires AppendOnly(a, b) && AppendOnly(b, c)
    ensures AppendOnly(a, c)
  {
  }

  /** The store of the second world has grown from that of the first, and the files show the same digests. */
  ghost predicate Ahead(env: Env, w: World, v: World) {
    AppendOnly(w.objects, v.objects) && Truthful(env.backend, env.sha, v.objects) && SameDigests(env, w, v)
  }

  lemma EntryStaysAhead(env: Env, w: World, v: World, e: Entry)
    requires Ahead(env, w, v)
    ensures Ahead(env, w, PublishEntry(env, true, v, e).world)
  {
    EntryUploads(env, v, e);
    EntryKeepsDigests(env, true, w, v, e);
    AppendTransitive(w.objects, v.objects, PublishEntry(env, true, v, e).world.objects);
  }

  lemma PublishStaysAhead(env: Env, only: set<string>, w: World, entries: seq<Entry>)
    requires Truthful(env.backend, env.sha, w.objects)
    ensures Ahead(env, w, PublishFrom(env, true, only, w, entries).world)
  {
    forall v, e | Ahead(env, w, v) ensures Ahead(env, w, Rounds(env, true)(v, e).world) { EntryStaysAhead(env, w, v, e); }
    LoopKeeps(Rounds(env, true), only, w, entries, v => Ahead(env, w, v));
  }

  /** The entry is one that a dry run announces. */
  predicate WouldChange(env: Env, only: set<string>, w: World, e: Entry) {
    Selected(only, e) && DryRunEntry(env, w, e) == Ok(WouldUpload)
  }

  /** An entry that matched before, or is changed now, matches after its turn. */
  lemma TurnMatches(env: Env, only: set<string>, w: World, v: World, e: Entry)
    requires Ahead(env, w, v) && !TurnFails(Rounds(env, true), only, v, e)
    requires StoreMatches(env, w, e) || WouldChange(env, only, w, e)
    ensures var round := Rounds(env, true); StoreMatches(env, TurnWorld(round, only, v, e), TurnEntry(round, only, v, e))
  {
    if Selected(only, e) {
      EntryMatches(env, only, w, v, e);
    } else {
      AppendKeepsMatch(env, w, v, e);
    }
  }

  lemma EntryMatches(env: Env, only: set<string>, w: World, v: World, e: Entry)
    requires Ahead(env, w, v) && PublishEntry(env, true, v, e).outcome.Ok?
    requires StoreMatches(env, w, e) || WouldChange(env, only, w, e)
    ensures StoreMatches(env, PublishEntry(env, true, v, e).world, PublishEntry(env, true, v, e).entry)
  {
    DryRunPredictsEntry(env, true, w, v, e);
    EntryUploads(env, v, e);
    EntryStaysAhead(env, w, v, e);
    if PublishEntry(env, true, v, e).entry == e { AppendKeepsMatch(env, w, PublishEntry(env, true, v, e).world, e); }
  }

  lemma MatchStays(env: Env, v: World, e: Entry, f: Entry)
    requires Truthful(env.backend, env.sha, v.objects) && StoreMatches(env, v, f)
    ensures StoreMatches(env, PublishEntry(env, true, v, e).world, f)
  {
    EntryUploads(env, v, e);
    AppendKeepsMatch(env, v, PublishEntry(env, true, v, e).world, f);
  }

  /**
   After a publish that returned, an entry matches in the store if it matched before or if a dry run had announced it;
   both can be asked before the publish.
   */
  lemma StoreMatchesAfterPublish(env: Env, only: set<string>, w: World, entries: seq<Entry>, i: nat)
    requires Truthful(env.backend, env.sha, w.objects) && PublishFrom(env, true, only, w, entries).error.None?
    requires i < |entries| && (StoreMatches(env, w, entries[i]) || WouldChange(env, only, w, entries[i]))
    ensures var o := PublishFrom(env, true, only, w, entries);
            |o.entries| == |entries| && StoreMatches(env, o.world, o.entries[i])
  {
    var round := Rounds(env, true);
    forall v, e | Ahead(env, w, v) ensures Ahead(env, w, round(v, e).world) { EntryStaysAhead(env, w, v, e); }
    forall v, e, f | Ahead(env, w, v) && StoreMatches(env, v, f) ensures StoreMatches(env, round(v, e).world, f) {
      MatchStays(env, v, e, f);
    }
    forall v | Ahead(env, w, v) && !TurnFails(round, only, v, entries[i])
      ensures StoreMatches(env, TurnWorld(round, only, v, entries[i]), TurnEntry(round, only, v, entries[i]))
    {
      TurnMatches(env, only, w, v, entries[i]);
    }
    LoopGains(round, only, w, entries, i, v => Ahead(env, w, v), (v, f) => StoreMatches(env, v, f));
  }

  /** Only a changed entry puts an object, and it puts it where its new uri leads. */
  lemma DigestAdds(env: Env, w: World, e: Entry, path: string, d: Digest, location: string)
    requires path in w.files && location in PublishDigest(env, true, w, e, path, d).world.objects && location !in w.objects
    ensures var f := PublishDigest(env, true, w, e, path, d).entry; f != e && env.backend.Locate(f.uri) == Ok(location)
  {
    DigestDoes(env, true, w, e, path, d);
    var uri := MintedUri(e.uri, d.sha).value;
    UpdatedKeepsName(env, e, uri, d);
    PutAdds(env, w.objects, w.files[path], uri, location);
  }

  lemma EntryAdds(env: Env, w: World, e: Entry, location: string)
    requires location in PublishEntry(env, true, w, e).world.objects && location !in w.objects
    ensures PublishEntry(env, true, w, e).entry != e && env.backend.Locate(PublishEntry(env, true, w, e).entry.uri) == Ok(location)
  {
    var reached, v, path, d := EntryReaches(env, true, w, e);
    ReachedEntry(env, true, w, v, e, path, d);
    DigestAdds(env, v, e, path, d, location);
  }

  lemma PutAdds(env: Env, objects: Objects, payload: Bytes, uri: string, location: string)
    requires location in PutObjects(env.backend, env.sha, objects, payload, uri, false) && location !in objects
    ensures env.backend.Locate(uri) == Ok(location)
  {
  }

  lemma PublishAdds(env: Env, only: set<string>, w: World, entries: seq<Entry>, location: string) returns (j: nat)
    requires PublishFrom(env, true, only, w, entries).error.None?
    requires location in PublishFrom(env, true, only, w, entries).world.objects && location !in w.objects
    ensures var o := PublishFrom(env, true, only, w, entries);
            && j < |entries| == |o.entries| && Selected(only, entries[j]) && o.entries[j] != entries[j]
            && env.backend.Locate(o.entries[j].uri) == Ok(location)
  {
    var v;
    j, v := LoopCrosses(Rounds(env, true), only, w, entries, (v: World) => location !in v.objects);
    EntryAdds(env, v, entries[j], location);
  }

  /** Entry `j` is announced by a dry run, and what it gets pinned to lies where entry `i` points and has its sha. */
  predicate Fills(env: Env, only: set<string>, w: World, entries: seq<Entry>, after: seq<Entry>, j: nat, i: nat)
    requires |after| == |entries| && i < |entries|
  {
    && j < |entries| && WouldChange(env, only, w, entries[j])
    && env.backend.Locate(after[j].uri).Ok? && env.backend.Locate(after[j].uri) == env.backend.Locate(after[i].uri)
    && after[j].sha256 == after[i].sha256
  }

  lemma SamePlaceMatches(env: Env, w: World, e: Entry, f: Entry)
    requires env.backend.Locate(e.uri).Ok? && env.backend.Locate(e.uri) == env.backend.Locate(f.uri) && StoreMatches(env, w, e)
    ensures StoreMatches(env, w, f) <==> f.sha256 == e.sha256
  {
  }

  lemma MatchIsLocated(env: Env, w: World, e: Entry)
    requires StoreMatches(env, w, e)
    ensures env.backend.Locate(e.uri).Ok? && env.backend.Locate(e.uri).value in w.objects
  {
  }

  lemma MatchWasThere(env: Env, before: World, after: World, e: Entry)
    requires AppendOnly(before.objects, after.objects) && StoreMatches(env, after, e)
    requires env.backend.Locate(e.uri).Ok? && env.backend.Locate(e.uri).value in before.objects
    ensures StoreMatches(env, before, e)
  {
  }

  lemma FilledMatches(env: Env, only: set<string>, w: World, entries: seq<Entry>, j: nat, i: nat)
    requires Truthful(env.backend, env.sha, w.objects) && PublishFrom(env, true, only, w, entries).error.None? && i < |entries|
    requires var o := PublishFrom(env, true, only, w, entries); |o.entries| == |entries| && Fills(env, only, w, entries, o.entries, j, i)
    ensures var o := PublishFrom(env, true, only, w, entries); StoreMatches(env, o.world, o.entries[i])
  {
    var o := PublishFrom(env, true, only, w, entries);
    StoreMatchesAfterPublish(env, only, w, entries, j);
    SamePlaceMatches(env, o.world, o.entries[j], o.entries[i]);
  }

  /**
   Exactly when an entry matches in the store after a publish that returned: it matched before, or an upload, its own or
   that of another entry pinned to the same place and content, filled it in.
   */
  lemma StoreMatchesIff(env: Env, only: set<string>, w: World, entries: seq<Entry>, i: nat)
    requires Truthful(env.backend, env.sha, w.objects) && PublishFrom(env, true, only, w, entries).error.None? && i < |entries|
    ensures var o := PublishFrom(env, true, only, w, entries);
            && |o.entries| == |entries|
            && (StoreMatches(env, o.world, o.entries[i]) <==>
                StoreMatches(env, w, entries[i]) || exists j: nat :: Fills(env, only, w, entries, o.entries, j, i))
  {
    var o := PublishFrom(env, true, only, w, entries);
    PublishKeepsNames(env, true, only, w, entries);
    var before, after := StoreMatches(env, w, entries[i]), StoreMatches(env, o.world, o.entries[i]);
    assert before ==> after by {
      if before { StoreMatchesAfterPublish(env, only, w, entries, i); }
    }
    forall j: nat | Fills(env, only, w, entries, o.entries, j, i) ensures after {
      FilledMatches(env, only, w, entries, j, i);
    }
    if after && !before {
      var j := FilledBy(env, only, w, entries, i);
    }
  }

  lemma FilledBy(env: Env, only: set<string>, w: World, entries: seq<Entry>, i: nat) returns (j: nat)
    requires Truthful(env.backend, env.sha, w.objects) && PublishFrom(env, true, only, w, entries).error.None? && i < |entries|
    requires var o := PublishFrom(env, true, only, w, entries);
             |o.entries| == |entries| && StoreMatches(env, o.world, o.entries[i]) && !StoreMatches(env, w, entries[i])
    ensures Fills(env, only, w, entries, PublishFrom(env, true, only, w, entries).entries, j, i)
  {
    var o := PublishFrom(env, true, only, w, entries);
    PublishStaysAhead(env, only, w, entries);
    MatchIsLocated(env, o.world, o.entries[i]);
    var location := env.backend.Locate(o.entries[i].uri).value;
    if o.entries[i] != entries[i] {
      j := i;
      UnselectedStays(env, true, only, w, entries, i);
    } else {
      if location in w.objects { MatchWasThere(env, w, o.world, entries[i]); }
      j := PublishAdds(env, only, w, entries, location);
    }
    DryRunPredicts(env, true, only, w, entries, j);
    StoreMatchesAfterPublish(env, only, w, entries, j);
    SamePlaceMatches(env, o.world, o.entries[j], o.entries[i]);
  }

  lemma UnselectedStays(env: Env, upload: bool, only: set<string>, w: World, entries: seq<Entry>, i: nat)
    requires PublishFrom(env, upload, only, w, entries).error.None? && i < |entries|
    ensures |PublishFrom(env, upload, only, w, entries).entries| == |entries|
    ensures !Selected(only, entries[i]) ==> PublishFrom(env, upload, only, w, entries).entries[i] == entries[i]
  {
    var v := LoopVisits(Rounds(env, upload), only, w, entries, i, _ => true);
  }

  /**
   What `run_check` reports for a selected entry after a publish that returned, if the entry matched in the store before or
   a dry run had announced it: a match in the store, hint or no hint, and locally a match unless the file is missing.
   */
  lemma CheckAfterPublish(env: Env, reference: Reference, only: set<string>, w: World, entries: seq<Entry>, i: nat)
    requires Truthful(env.backend, env.sha, w.objects) && PublishFrom(env, true, only, w, entries).error.None?
    requires i < |entries| && Selected(only, entries[i])
    requires StoreMatches(env, w, entries[i]) || WouldChange(env, only, w, entries[i])
    ensures var o := PublishFrom(env, true, only, w, entries);
            && |o.entries| == |entries|
            && var e := o.entries[i];
               CheckEntry(env, reference, o.world, e) ==
               Ok(CheckReport(e.name, if LocalFile(env, e) in o.world.files then LocalMatch else LocalMissing,
                              CheckResult(Match, Some(e.sha256)), SemanticStatus(env, reference, o.world, e)))
  {
    var o := PublishFrom(env, true, only, w, entries);
    PublishSettlesAll(env, true, only, w, entries);
    PublishKeepsNames(env, true, only, w, entries);
    StoreMatchesAfterPublish(env, only, w, entries, i);
    SettledCheck(env, reference, o.world, o.entries[i]);
  }

  lemma SettledCheck(env: Env, reference: Reference, w: World, e: Entry)
    requires Settled(env, w, e) && StoreMatches(env, w, e)
    ensures CheckEntry(env, reference, w, e) ==
            Ok(CheckReport(e.name, if LocalFile(env, e) in w.files then LocalMatch else LocalMissing,
                           CheckResult(Match, Some(e.sha256)), SemanticStatus(env, reference, w, e)))
  {
    MatchDespiteHint(env, w, e, HintFor(env, w, e));
  }

  lemma MatchDespiteHint(env: Env, w: World, e: Entry, hint: Option<Hint>)
    requires StoreMatches(env, w, e) && (hint.Some? ==> hint.value.sha == e.sha256)
    ensures CheckHinted(env.backend, env.sha, w.objects, e.uri, e.sha256, hint) == Ok(CheckResult(Match, Some(e.sha256)))
  {
  }

  /** A publish without upload leaves the store alone. */
  lemma NoUploadKeepsObjects(env: Env, only: set<string>, w: World, entries: seq<Entry>)
    ensures PublishFrom(env, false, only, w, entries).world.objects == w.objects
  {
    forall v, e ensures Rounds(env, false)(v, e).world.objects == v.objects { NoUpload(env, v, e); }
    LoopKeeps(Rounds(env, false), only, w, entries, (v: World) => v.objects == w.objects);
  }

  lemma NoUpload(env: Env, w: World, e: Entry)
    ensures PublishEntry(env, false, w, e).world.objects == w.objects
  {
    var reached, v, path, d := EntryReaches(env, false, w, e);
    if reached {
      ReachedEntry(env, false, w, v, e, path, d);
      DigestDoes(env, false, v, e, path, d);
    }
  }

  /**
   The failing case: what a publish with `--skip-upload` changed, a later publish does not upload, so an entry whose new uri
   leads to a free place stays missing from the store.
   */
  lemma SkippedUploadStaysMissing(env: Env, only: set<string>, w: World, entries: seq<Entry>, i: nat)
    requires PublishFrom(env, false, only, w, entries).error.None? && i < |entries|
    requires var first := PublishFrom(env, false, only, w, entries);
             i < |first.entries| && first.entries[i] != entries[i]
             && env.backend.Locate(first.entries[i].uri).Ok? && env.backend.Locate(first.entries[i].uri).value !in w.objects
    ensures var first := PublishFrom(env, false, only, w, entries);
            var second := PublishFrom(env, true, only, first.world, first.entries);
            && second.error.None? && second.entries == first.entries
            && Check(env.backend, env.sha, second.world.objects, second.entries[i].uri, second.entries[i].sha256)
               == Ok(CheckResult(Missing, None))
  {
    PublishIdempotent(env, false, true, only, w, entries);
    NoUploadKeepsObjects(env, only, w, entries);
  }

  // ---------------------------------------------------------------------------
  // Keys and validity over runs

  predicate SameNames(e: Entry, f: Entry) {
    f.name == e.name && f.localPath == e.localPath
  }

  lemma PublishKeepsNames(env: Env, upload: bool, only: set<string>, w: World, entries: seq<Entry>)
    ensures var o := PublishFrom(env, upload, only, w, entries);
            |o.entries| == |entries| && forall i :: 0 <= i < |entries| ==> SameNames(entries[i], o.entries[i])
  {
    forall v, e ensures SameNames(e, Rounds(env, upload)(v, e).entry) { EntryKeepsName(env, upload, v, e); }
    LoopRelates(Rounds(env, upload), only, w, entries, SameNames);
  }

  /** The uri has a logical key that minting and stripping carry around unchanged. */
  predicate StableUri(uri: string) {
    match StripContentAddress(uri)
    case Err(_) => false
    case Ok(k) => Normalized(k) && !HiddenSha(FileName(PathParts(k)))
  }

  function LogicalKey(uri: string): string
    requires StableUri(uri)
  {
    StripContentAddress(uri).value
  }

  lemma MintedIsStable(uri: string, sha: string)
    requires StableUri(uri) && MintedUri(uri, sha).Ok?
    ensures StableUri(MintedUri(uri, sha).value) && LogicalKey(MintedUri(uri, sha).value) == LogicalKey(uri)
  {
    StripUndoesMint(LogicalKey(uri), sha);
  }

  /** Exactly when a new minted uri has the logical key of the old one. */
  lemma MintedKeepsKeyIff(uri: string, sha: string)
    requires StripContentAddress(uri).Ok? && MintedUri(uri, sha).Ok?
    ensures var key := StripContentAddress(uri).value;
            StripContentAddress(MintedUri(uri, sha).value) == Ok(key) <==>
            Normalized(key) && !(HiddenSha(FileName(PathParts(key))) && FileName(PathParts(key))[1..] != sha)
  {
    StripUndoesMint(StripContentAddress(uri).value, sha);
  }

  lemma EntryKeepsKey(env: Env, upload: bool, w: World, e: Entry)
    requires StableUri(e.uri)
    ensures var f := PublishEntry(env, upload, w, e).entry; StableUri(f.uri) && LogicalKey(f.uri) == LogicalKey(e.uri)
  {
    var f := PublishEntry(env, upload, w, e).entry;
    if f != e {
      var d := DigestAt(env, LocalFile(env, e), w.files[LocalFile(env, e)]).value;
      MintedIsStable(e.uri, d.sha);
    }
  }

  predicate AllStable(entries: seq<Entry>) {
    forall i :: 0 <= i < |entries| ==> StableUri(entries[i].uri)
  }

  predicate DistinctKeys(entries: seq<Entry>)
    requires AllStable(entries)
  {
    forall i, j :: 0 <= i < j < |entries| ==> LogicalKey(entries[i].uri) != LogicalKey(entries[j].uri)
  }

  predicate SameKey(e: Entry, f: Entry) {
    StableUri(e.uri) ==> StableUri(f.uri) && LogicalKey(f.uri) == LogicalKey(e.uri)
  }

  /** Publish never changes the logical key of a stable uri, whether it returns or fails. */
  lemma PublishKeepsLogicalKeys(env: Env, upload: bool, only: set<string>, w: World, entries: seq<Entry>)
    ensures var o := PublishFrom(env, upload, only, w, entries);
            |o.entries| == |entries| && forall i :: 0 <= i < |entries| ==> SameKey(entries[i], o.entries[i])
  {
    forall v, e ensures SameKey(e, Rounds(env, upload)(v, e).entry) {
      if StableUri(e.uri) { EntryKeepsKey(env, upload, v, e); }
    }
    LoopRelates(Rounds(env, upload), only, w, entries, SameKey);
  }

  /** Entries with pairwise distinct logical keys have pairwise distinct uris. */
  lemma DistinctKeysDistinctUris(entries: seq<Entry>)
    requires AllStable(entries) && DistinctKeys(entries)
    ensures Distinct(Uris(entries))
  {
    forall i, j | 0 <= i < j < |entries| ensures entries[i].uri != entries[j].uri {
      assert LogicalKey(entries[i].uri) != LogicalKey(entries[j].uri);
    }
  }

  predicate StaysValid(e: Entry, f: Entry) {
    ValidateEntry(e).None? ==> ValidateEntry(f).None?
  }

  lemma UpdatedStaysValid(env: Env, e: Entry, uri: string, d: Digest)
    requires HexDigits64(d.sha)
    ensures StaysValid(e, UpdatedEntry(env, e, uri, d))
  {
  }

  lemma EntryStaysValid(env: Env, upload: bool, w: World, e: Entry)
    requires HexDigest(env.sha)
    ensures StaysValid(e, PublishEntry(env, upload, w, e).entry)
  {
    var reached, v, path, d := EntryReaches(env, upload, w, e);
    if reached {
      ReachedEntry(env, upload, w, v, e, path, d);
      DigestDoes(env, upload, v, e, path, d);
      if MintedUri(e.uri, d.sha).Ok? { UpdatedStaysValid(env, e, MintedUri(e.uri, d.sha).value, d); }
    }
  }

  lemma PublishKeepsEntriesValid(env: Env, upload: bool, only: set<string>, w: World, entries: seq<Entry>)
    requires HexDigest(env.sha)
    ensures var o := PublishFrom(env, upload, only, w, entries);
            |o.entries| == |entries| && forall i :: 0 <= i < |entries| ==> StaysValid(entries[i], o.entries[i])
  {
    forall v, e ensures StaysValid(e, Rounds(env, upload)(v, e).entry) { EntryStaysValid(env, upload, v, e); }
    LoopRelates(Rounds(env, upload), only, w, entries, StaysValid);
  }

  /**
   Over a publish a valid manifest with pairwise distinct logical keys stays one: no minted key collides with another minted
   key or with an untouched uri.
   */
  lemma PublishKeepsManifestValid(env: Env, upload: bool, only: set<string>, w: World, entries: seq<Entry>)
    requires HexDigest(env.sha) && ValidManifest(entries) && AllStable(entries) && DistinctKeys(entries)
    ensures var o := PublishFrom(env, upload, only, w, entries);
            ValidManifest(o.entries) && AllStable(o.entries) && DistinctKeys(o.entries)
  {
    var o := PublishFrom(env, upload, only, w, entries);
    PublishKeepsLogicalKeys(env, upload, only, w, entries);
    KeysCarryOver(entries, o.entries);
    DistinctKeysDistinctUris(o.entries);
    PublishKeepsNames(env, upload, only, w, entries);
    assert Names(o.entries) == Names(entries) && LocalPaths(o.entries) == LocalPaths(entries);
    PublishKeepsEntriesValid(env, upload, only, w, entries);
  }

  lemma KeysCarryOver(entries: seq<Entry>, others: seq<Entry>)
    requires |others| == |entries| && forall i :: 0 <= i < |entries| ==> SameKey(entries[i], others[i])
    requires AllStable(entries) && DistinctKeys(entries)
    ensures AllStable(others) && DistinctKeys(others)
  {
    forall i, j | 0 <= i < j < |others| ensures LogicalKey(others[i].uri) != LogicalKey(others[j].uri) {
      assert LogicalKey(entries[i].uri) != LogicalKey(entries[j].uri);
    }
  }
}
