/**
 Publishing as a protocol: local rewrites, publishes that stop or crash anywhere, and manifest commits, in any order.
 The subject is the durability of pins: a (uri, sha) that a manifest on disk ever carried.
 */
module PublishRuns {
  import opened Wrappers
  import opened Strings
  import opened ArtifactKeys
  import opened CanonicalParquet
  import opened ArtifactStore
  import opened ArtifactManifest
  import opened PublishSnapshot
  import opened PublishProperties

  type Pin = (string, string)

  function Pins(entries: seq<Entry>): set<Pin> {
    set e | e in entries :: (e.uri, e.sha256)
  }

  /** A publish under way: the payload in memory, the next entry to look at and the reports so far. */
  datatype Progress = Progress(only: set<string>, entries: seq<Entry>, next: nat, reports: seq<Report>)

  /** `committed` collects the pins of every manifest version that was ever on disk. */
  datatype State = State(world: World, disk: seq<Entry>, committed: set<Pin>, run: Option<Progress>)

  ghost predicate Init(env: Env, s: State) {
    && s.run.None? && s.committed == Pins(s.disk) && Truthful(env.backend, env.sha, s.world.objects)
    && forall p :: p in s.committed ==> Resolves(env.backend, env.sha, s.world.objects, p.0, p.1)
  }

  /** Fetchers rewrite, add or delete local files; publishing may be under way, between two artifacts. */
  predicate Rewrite(s: State, t: State) {
    t == s.(world := World(t.world.files, s.world.objects))
  }

  ghost predicate Start(s: State, t: State) {
    s.run.None? && exists only: set<string> :: t == s.(run := Some(Progress(only, s.disk, 0, [])))
  }

  predicate InLoop(s: State) {
    s.run.Some? && s.run.value.next < |s.run.value.entries|
  }

  function Current(s: State): Entry
    requires InLoop(s)
  {
    s.run.value.entries[s.run.value.next]
  }

  /** The state after a round of the publish loop; an exception ends the run before anything reaches the manifest. */
  function Stepped(s: State, step: PublishSnapshot.Step): State
    requires InLoop(s)
  {
    var p := s.run.value;
    s.(world := step.world,
       run := match step.outcome
              case Err(_) => None
              case Ok(report) => Some(p.(entries := p.entries[p.next := step.entry], next := p.next + 1, reports := p.reports + [report])))
  }

  /** One round of the publish loop, with nothing else going on. */
  predicate Advance(env: Env, s: State, t: State) {
    && InLoop(s)
    && var p := s.run.value;
       t == if Selected(p.only, Current(s)) then Stepped(s, PublishEntry(env, true, s.world, Current(s)))
            else s.(run := Some(p.(next := p.next + 1)))
  }

  /** The current file has been read and hashed, and its content accepted. */
  predicate Hashed(env: Env, s: State)
    requires InLoop(s)
  {
    var path := LocalFile(env, Current(s));
    && path in s.world.files && DigestAt(env, path, s.world.files[path]).Ok?
    && var d := DigestAt(env, path, s.world.files[path]).value;
       d.canonical.Some? ==> env.contract(Current(s).name, d.canonical.value)
  }

  function CurrentDigest(env: Env, s: State): Digest
    requires InLoop(s) && Hashed(env, s)
  {
    var path := LocalFile(env, Current(s));
    DigestAt(env, path, s.world.files[path]).value
  }

  /** The rest of the round, after the digest was taken, on whatever the files hold by then. */
  function RoundOn(env: Env, s: State, files: map<string, Bytes>): PublishSnapshot.Step
    requires InLoop(s) && Hashed(env, s) && LocalFile(env, Current(s)) in files
  {
    PublishDigest(env, true, World(files, s.world.objects), Current(s), LocalFile(env, Current(s)), CurrentDigest(env, s))
  }

  /** A round in which the files are rewritten after the digest was taken; a file gone by then ends the run as a crash does. */
  predicate Interrupted(env: Env, s: State, t: State, files: map<string, Bytes>) {
    && InLoop(s) && Selected(s.run.value.only, Current(s)) && Hashed(env, s) && LocalFile(env, Current(s)) in files
    && t == Stepped(s, RoundOn(env, s, files))
  }

  /** The rewrite kept the sha, or the round changes no entry anyway. */
  predicate Harmless(env: Env, s: State, t: State, files: map<string, Bytes>)
    requires Interrupted(env, s, t, files)
  {
    t.run.Some? && t.run.value.entries != s.run.value.entries ==>
      env.sha(files[LocalFile(env, Current(s))]) == CurrentDigest(env, s).sha
  }

  /** The round as it goes if the store copies other bytes than those it hashed for the upload. */
  function CopiedStep(env: Env, s: State, copied: Bytes): PublishSnapshot.Step
    requires InLoop(s) && LocalFile(env, Current(s)) in PublishEntry(env, true, s.world, Current(s)).world.files
  {
    var step := PublishEntry(env, true, s.world, Current(s));
    step.(world := step.world.(objects := CopyObjects(env.backend, env.sha, s.world.objects, Uploading(env, s), copied, step.entry.uri)))
  }

  /** What the store hashes for the upload of the round. */
  function Uploading(env: Env, s: State): Bytes
    requires InLoop(s) && LocalFile(env, Current(s)) in PublishEntry(env, true, s.world, Current(s)).world.files
  {
    PublishEntry(env, true, s.world, Current(s)).world.files[LocalFile(env, Current(s))]
  }

  /** A round that uploads a file which is rewritten between the store's hash and the store's copy. */
  predicate Copied(env: Env, s: State, t: State, copied: Bytes) {
    && InLoop(s) && Selected(s.run.value.only, Current(s))
    && PublishEntry(env, true, s.world, Current(s)).entry != Current(s)
    && LocalFile(env, Current(s)) in PublishEntry(env, true, s.world, Current(s)).world.files
    && t == Stepped(s, CopiedStep(env, s, copied))
  }

  predicate CopyIsFaithful(env: Env, s: State, copied: Bytes)
    requires InLoop(s) && LocalFile(env, Current(s)) in PublishEntry(env, true, s.world, Current(s)).world.files
  {
    var uri := PublishEntry(env, true, s.world, Current(s)).entry.uri;
    FaithfulCopy(env.backend, env.sha, s.world.objects, Uploading(env, s), copied, uri)
  }

  ghost predicate QuietCopy(env: Env, s: State, t: State) {
    exists copied :: Copied(env, s, t, copied) && CopyIsFaithful(env, s, copied)
  }

  ghost predicate QuietRewrite(env: Env, s: State, t: State) {
    exists files :: Interrupted(env, s, t, files) && Harmless(env, s, t, files)
  }

  /** A put of new content that died half-way in a local copy: some bytes under a key that was free. */
  ghost predicate Torn(env: Env, w: World, e: Entry, objects: Objects) {
    && env.backend.LocalBackend?
    && exists sha: string, location: string, bytes: Bytes ::
         && MintedUri(e.uri, sha).Ok? && env.backend.Locate(MintedUri(e.uri, sha).value) == Ok(location)
         && location !in w.objects && objects == w.objects[location := StoredObject(bytes, None)]
  }

  /** The run dies between two artifacts, or inside one with any part of its effects done. */
  ghost predicate Crash(env: Env, s: State, t: State) {
    && s.run.Some? && t == s.(world := t.world, run := None)
    && (|| t.world == s.world
        || (&& InLoop(s)
            && (t.world.files == s.world.files || t.world.files == FilesAfter(env, s.world.files, Current(s)))
            && (|| t.world.objects == s.world.objects
                || t.world.objects == PublishEntry(env, true, s.world, Current(s)).world.objects
                || Torn(env, s.world, Current(s), t.world.objects))))
  }

  /** The run dies after a round in which the files were rewritten in any way, harmful ways included. */
  ghost predicate CrashInside(env: Env, s: State, t: State) {
    exists u, files :: Interrupted(env, s, u, files) && t == u.(run := None)
  }

  /** The finished run patches the manifest on disk. */
  predicate Commit(s: State, t: State) {
    && s.run.Some? && s.run.value.next == |s.run.value.entries|
    && t == s.(disk := s.run.value.entries, committed := s.committed + Pins(s.run.value.entries), run := None)
  }

  ghost predicate Next(env: Env, s: State, t: State) {
    || Rewrite(s, t) || Start(s, t) || Advance(env, s, t) || QuietRewrite(env, s, t) || QuietCopy(env, s, t)
    || Crash(env, s, t) || CrashInside(env, s, t) || Commit(s, t)
  }

  ghost predicate StepAt(env: Env, trace: seq<State>, i: int)
    requires 0 <= i < |trace| - 1
  {
    Next(env, trace[i], trace[i + 1])
  }

  ghost predicate Behavior(env: Env, trace: seq<State>) {
    trace != [] && forall i :: 0 <= i < |trace| - 1 ==> StepAt(env, trace, i)
  }

  // ---------------------------------------------------------------------------
  // A publish is a run

  lemma BehaviorCons(env: Env, s: State, rest: seq<State>)
    requires Behavior(env, rest) && Next(env, s, rest[0])
    ensures Behavior(env, [s] + rest)
  {
    var trace := [s] + rest;
    forall i | 0 <= i < |trace| - 1 ensures StepAt(env, trace, i) {
      if i > 0 { assert StepAt(env, rest, i - 1) && trace[i] == rest[i - 1] && trace[i + 1] == rest[i]; }
    }
  }

  lemma BehaviorSnoc(env: Env, rest: seq<State>, t: State)
    requires Behavior(env, rest) && Next(env, rest[|rest| - 1], t)
    ensures Behavior(env, rest + [t])
  {
    var trace := rest + [t];
    forall i | 0 <= i < |trace| - 1 ensures StepAt(env, trace, i) {
      if i < |rest| - 1 { assert StepAt(env, rest, i); }
    }
  }

  /** Where a run in the publish loop gets to on its own. */
  ghost function LoopEnd(s: State, o: Outcome): State
    requires s.run.Some?
  {
    s.(world := o.world,
       run := if o.error.Some? then None else Some(s.run.value.(entries := o.entries, next := |o.entries|, reports := o.reports)))
  }

  /** One round of the loop, and what is left of it then. */
  lemma AdvanceContinues(env: Env, s: State) returns (t: State)
    requires InLoop(s)
    ensures Advance(env, s, t)
    ensures var p, round := s.run.value, Rounds(env, true);
            var o := Continued(round, p.only, s.world, p.entries, p.next, p.reports);
            if t.run.None? then LoopEnd(s, o) == t
            else
              var q := t.run.value;
              && q.only == p.only && |q.entries| == |p.entries| && q.next == p.next + 1
              && LoopEnd(s, o) == LoopEnd(t, Continued(round, q.only, t.world, q.entries, q.next, q.reports))
  {
    var p := s.run.value;
    ContinuedRound(env, true, p.only, s.world, p.entries, p.next, p.reports);
    t := if Selected(p.only, Current(s)) then Stepped(s, PublishEntry(env, true, s.world, Current(s)))
         else s.(run := Some(p.(next := p.next + 1)));
    if t.run.None? { FailureKeepsEntry(env, true, s.world, Current(s)); }
  }

  lemma {:induction false} LoopRuns(env: Env, s: State) returns (trace: seq<State>)
    requires s.run.Some? && s.run.value.next <= |s.run.value.entries|
    ensures Behavior(env, trace) && trace[0] == s
    ensures var p := s.run.value;
            trace[|trace| - 1] == LoopEnd(s, Continued(Rounds(env, true), p.only, s.world, p.entries, p.next, p.reports))
    decreases |s.run.value.entries| - s.run.value.next
  {
    var p := s.run.value;
    if p.next == |p.entries| {
      ContinuedEnd(Rounds(env, true), p.only, s.world, p.entries, p.reports);
      trace := [s];
    } else {
      var t := AdvanceContinues(env, s);
      var rest := [t];
      if t.run.Some? { rest := LoopRuns(env, t); }
      BehaviorCons(env, s, rest);
      trace := [s] + rest;
    }
  }

  /**
   Whatever a publish with upload does is a run of the protocol: it starts, goes round the loop, and ends with the payload
   committed or, where the publish fails, with the manifest as it was.
   */
  lemma PublishIsARun(env: Env, s: State, only: set<string>) returns (trace: seq<State>)
    requires s.run.None?
    ensures Behavior(env, trace) && trace[0] == s
    ensures var o, last := PublishFrom(env, true, only, s.world, s.disk), trace[|trace| - 1];
            last == if o.error.Some? then s.(world := o.world)
                    else State(o.world, o.entries, s.committed + Pins(o.entries), None)
  {
    var started := s.(run := Some(Progress(only, s.disk, 0, [])));
    assert Start(s, started);
    trace := LoopRuns(env, started);
    ContinuedEnd(Rounds(env, true), only, s.world, s.disk, []);
    var o := PublishFrom(env, true, only, s.world, s.disk);
    var reached := LoopEnd(started, o);
    assert trace[|trace| - 1] == reached;
    BehaviorCons(env, s, trace);
    trace := [s] + trace;
    if o.error.None? {
      var committed := State(o.world, o.entries, s.committed + Pins(o.entries), None);
      assert Commit(reached, committed);
      BehaviorSnoc(env, trace, committed);
      trace := trace + [committed];
    }
  }

  // ---------------------------------------------------------------------------
  // The store only grows

  lemma DigestAppends(env: Env, w: World, e: Entry, path: string, d: Digest)
    requires path in w.files
    ensures AppendOnly(w.objects, PublishDigest(env, true, w, e, path, d).world.objects)
  {
    DigestDoes(env, true, w, e, path, d);
    if MintedUri(e.uri, d.sha).Ok? { PutIsAppendOnly(env.backend, env.sha, w.objects, w.files[path], MintedUri(e.uri, d.sha).value); }
  }

  lemma EntryAppends(env: Env, w: World, e: Entry)
    ensures AppendOnly(w.objects, PublishEntry(env, true, w, e).world.objects)
  {
    var reached, v, path, d := EntryReaches(env, true, w, e);
    if reached {
      ReachedEntry(env, true, w, v, e, path, d);
      DigestAppends(env, v, e, path, d);
    }
  }

  lemma InterruptedAppends(env: Env, s: State, t: State, files: map<string, Bytes>)
    requires Interrupted(env, s, t, files)
    ensures AppendOnly(s.world.objects, t.world.objects)
  {
    DigestAppends(env, World(files, s.world.objects), Current(s), LocalFile(env, Current(s)), CurrentDigest(env, s));
  }

  lemma CopiedAppends(env: Env, s: State, t: State, copied: Bytes)
    requires Copied(env, s, t, copied)
    ensures AppendOnly(s.world.objects, t.world.objects)
  {
    CopyAppends(env, s.world.objects, Uploading(env, s), copied, PublishEntry(env, true, s.world, Current(s)).entry.uri);
  }

  lemma CopyAppends(env: Env, objects: Objects, hashed: Bytes, copied: Bytes, uri: string)
    ensures AppendOnly(objects, CopyObjects(env.backend, env.sha, objects, hashed, copied, uri))
  {
  }

  lemma CrashAppends(env: Env, s: State, t: State)
    requires Crash(env, s, t)
    ensures AppendOnly(s.world.objects, t.world.objects)
  {
    if InLoop(s) { EntryAppends(env, s.world, Current(s)); }
  }

  lemma StoreOnlyGrows(env: Env, s: State, t: State)
    requires Next(env, s, t)
    ensures AppendOnly(s.world.objects, t.world.objects)
  {
    if Advance(env, s, t) {
      EntryAppends(env, s.world, Current(s));
    } else if QuietRewrite(env, s, t) {
      var files :| Interrupted(env, s, t, files) && Harmless(env, s, t, files);
      InterruptedAppends(env, s, t, files);
    } else if QuietCopy(env, s, t) {
      var copied :| Copied(env, s, t, copied);
      CopiedAppends(env, s, t, copied);
    } else if Crash(env, s, t) {
      CrashAppends(env, s, t);
    } else if CrashInside(env, s, t) {
      var u, files :| Interrupted(env, s, u, files) && t == u.(run := None);
      InterruptedAppends(env, s, u, files);
    }
  }

  lemma StepOf(env: Env, trace: seq<State>, j: nat)
    requires Behavior(env, trace) && 0 < j < |trace|
    ensures Next(env, trace[j - 1], trace[j])
  {
    assert StepAt(env, trace, j - 1);
  }

  /** What holds at some moment and survives every step, holds from then on. */
  lemma {:induction false} Onward(env: Env, trace: seq<State>, i: nat, j: nat, inv: State -> bool)
    requires Behavior(env, trace) && i <= j < |trace| && inv(trace[i])
    requires forall s, t :: Next(env, s, t) && inv(s) ==> inv(t)
    ensures inv(trace[j])
    decreases j - i
  {
    if i < j {
      Onward(env, trace, i, j - 1, inv);
      StepOf(env, trace, j);
    }
  }

  lemma StoreGrowsOverRuns(env: Env, trace: seq<State>, i: nat, j: nat)
    requires Behavior(env, trace) && i <= j < |trace|
    ensures AppendOnly(trace[i].world.objects, trace[j].world.objects)
  {
    var first := trace[i].world.objects;
    forall s, t | Next(env, s, t) && AppendOnly(first, s.world.objects) ensures AppendOnly(first, t.world.objects) {
      StoreOnlyGrows(env, s, t);
      AppendTransitive(first, s.world.objects, t.world.objects);
    }
    Onward(env, trace, i, j, (s: State) => AppendOnly(first, s.world.objects));
  }

  /** Whatever resolves at some point of a run resolves at every later point, and to the same bytes. */
  lemma ResolvesForever(env: Env, trace: seq<State>, i: nat, j: nat, uri: string, sha: string)
    requires Behavior(env, trace) && i <= j < |trace|
    requires Resolves(env.backend, env.sha, trace[i].world.objects, uri, sha)
    ensures Resolves(env.backend, env.sha, trace[j].world.objects, uri, sha)
    ensures var location := env.backend.Locate(uri).value;
            trace[j].world.objects[location] == trace[i].world.objects[location]
  {
    StoreGrowsOverRuns(env, trace, i, j);
  }

  // ---------------------------------------------------------------------------
  // Pin durability

  predicate AllResolve(env: Env, objects: Objects, pins: set<Pin>) {
    forall p :: p in pins ==> Resolves(env.backend, env.sha, objects, p.0, p.1)
  }

  /** The pins of the payload in memory are already good, before the manifest carries them. */
  ghost predicate Safe(env: Env, s: State) {
    && Truthful(env.backend, env.sha, s.world.objects)
    && Pins(s.disk) <= s.committed
    && AllResolve(env, s.world.objects, s.committed)
    && (s.run.Some? ==> AllResolve(env, s.world.objects, Pins(s.run.value.entries)))
  }

  lemma GrowthKeepsPins(env: Env, before: Objects, after: Objects, pins: set<Pin>)
    requires AppendOnly(before, after) && AllResolve(env, before, pins)
    ensures AllResolve(env, after, pins)
  {
    forall p | p in pins ensures Resolves(env.backend, env.sha, after, p.0, p.1) {
      AppendKeepsPins(env.backend, env.sha, before, after, p.0, p.1);
    }
  }

  lemma PutStaysTruthful(env: Env, objects: Objects, payload: Bytes, uri: string)
    requires Truthful(env.backend, env.sha, objects)
    ensures Truthful(env.backend, env.sha, PutObjects(env.backend, env.sha, objects, payload, uri, false))
  {
  }

  lemma DigestStaysTruthful(env: Env, w: World, e: Entry, path: string, d: Digest)
    requires path in w.files && Truthful(env.backend, env.sha, w.objects)
    ensures Truthful(env.backend, env.sha, PublishDigest(env, true, w, e, path, d).world.objects)
  {
    var after := PublishDigest(env, true, w, e, path, d).world.objects;
    assert after == w.objects
           || (MintedUri(e.uri, d.sha).Ok?
               && after == PutObjects(env.backend, env.sha, w.objects, w.files[path], MintedUri(e.uri, d.sha).value, false)) by {
      DigestDoes(env, true, w, e, path, d);
    }
    if after != w.objects { PutStaysTruthful(env, w.objects, w.files[path], MintedUri(e.uri, d.sha).value); }
  }

  lemma CrashStaysTruthful(env: Env, s: State, t: State)
    requires Crash(env, s, t) && Truthful(env.backend, env.sha, s.world.objects)
    ensures Truthful(env.backend, env.sha, t.world.objects)
  {
    if InLoop(s) { EntryUploads(env, s.world, Current(s)); }
  }

  /**
   A file may be rewritten between its digest and its upload, which hashes it anew while the manifest keeps the digest.
   If the round succeeds and changes the entry, the new pin is good exactly if the file to upload has the digest's sha;
   this holds whether the key was free or taken.
   */
  lemma RewriteBeforeUpload(env: Env, w: World, e: Entry, path: string, d: Digest)
    requires path in w.files && Truthful(env.backend, env.sha, w.objects)
    requires PublishDigest(env, true, w, e, path, d).outcome.Ok? && PublishDigest(env, true, w, e, path, d).entry != e
    ensures var step := PublishDigest(env, true, w, e, path, d);
            && step.entry.sha256 == d.sha
            && (Resolves(env.backend, env.sha, step.world.objects, step.entry.uri, d.sha) <==> env.sha(w.files[path]) == d.sha)
  {
    PutResolves(env.backend, env.sha, w.objects, w.files[path], MintedUri(e.uri, d.sha).value);
  }

  /** One changed entry adds one pin, and perhaps drops the old one. */
  lemma PinsAfterStep(entries: seq<Entry>, i: nat, f: Entry)
    requires i < |entries|
    ensures Pins(entries[i := f]) <= Pins(entries) + {(f.uri, f.sha256)}
    ensures (f.uri, f.sha256) in Pins(entries[i := f])
  {
    var after := entries[i := f];
    assert after[i] == f;
    forall q | q in Pins(after) ensures q in Pins(entries) + {(f.uri, f.sha256)} {
      var g :| g in after && q == (g.uri, g.sha256);
      assert g == f || g in entries;
    }
  }

  /** What a round leaves safe: the store, the old pins and the new pin of the round, if there is one. */
  lemma StepSafe(env: Env, s: State, step: PublishSnapshot.Step)
    requires Safe(env, s) && InLoop(s)
    requires AppendOnly(s.world.objects, step.world.objects) && Truthful(env.backend, env.sha, step.world.objects)
    ensures Safe(env, Stepped(s, step)) <==>
            (step.outcome.Ok? && step.entry != Current(s) ==>
               Resolves(env.backend, env.sha, step.world.objects, step.entry.uri, step.entry.sha256))
  {
    var p := s.run.value;
    var changed := p.entries[p.next := step.entry];
    GrowthKeepsPins(env, s.world.objects, step.world.objects, s.committed);
    GrowthKeepsPins(env, s.world.objects, step.world.objects, Pins(p.entries));
    PinsAfterStep(p.entries, p.next, step.entry);
    if step.entry == Current(s) { assert changed == p.entries; }
    var pin := (step.entry.uri, step.entry.sha256);
    assert AllResolve(env, step.world.objects, Pins(changed)) ==>
             Resolves(env.backend, env.sha, step.world.objects, pin.0, pin.1) by { assert pin in Pins(changed); }
  }

  lemma AdvanceKeepsSafe(env: Env, s: State, t: State)
    requires Advance(env, s, t) && Safe(env, s)
    ensures Safe(env, t)
  {
    if Selected(s.run.value.only, Current(s)) {
      var step := PublishEntry(env, true, s.world, Current(s));
      EntryUploads(env, s.world, Current(s));
      StepSafe(env, s, step);
    }
  }

  /** A rewrite inside a round keeps the state safe exactly if it is harmless. */
  lemma InterruptedSafeIff(env: Env, s: State, t: State, files: map<string, Bytes>)
    requires Interrupted(env, s, t, files) && Safe(env, s)
    ensures Safe(env, t) <==> Harmless(env, s, t, files)
  {
    var e, path, d := Current(s), LocalFile(env, Current(s)), CurrentDigest(env, s);
    var w, step := World(files, s.world.objects), RoundOn(env, s, files);
    InterruptedAppends(env, s, t, files);
    DigestStaysTruthful(env, w, e, path, d);
    StepSafe(env, s, step);
    ChangedInPlace(s.run.value.entries, s.run.value.next, step.entry);
    if step.outcome.Ok? && step.entry != e { RewriteBeforeUpload(env, w, e, path, d); }
  }

  /** A rewrite between the store's hash and its copy keeps the state safe exactly if the copy is faithful. */
  lemma CopiedSafeIff(env: Env, s: State, t: State, copied: Bytes)
    requires Copied(env, s, t, copied) && Safe(env, s)
    ensures Safe(env, t) <==> CopyIsFaithful(env, s, copied)
  {
    var hashed, uri := Uploading(env, s), PublishEntry(env, true, s.world, Current(s)).entry.uri;
    UploadedContent(env, s.world, Current(s));
    RewriteDuringPut(env.backend, env.sha, s.world.objects, hashed, copied, uri);
    CopiedSafe(env, s, CopiedStep(env, s, copied));
  }

  /** What a changed entry uploads, and that the put is not refused. */
  lemma UploadedContent(env: Env, w: World, e: Entry)
    requires PublishEntry(env, true, w, e).entry != e
    ensures var step := PublishEntry(env, true, w, e); var path := LocalFile(env, e);
            && step.outcome.Ok? && path in step.world.files && env.sha(step.world.files[path]) == step.entry.sha256
            && PutResult(env.backend, env.sha, w.objects, step.world.files[path], step.entry.uri, false).Ok?
  {
    var reached, v, path, d := EntryReaches(env, true, w, e);
    ReachedEntry(env, true, w, v, e, path, d);
    DigestDoes(env, true, v, e, path, d);
    UpdatedKeepsName(env, e, MintedUri(e.uri, d.sha).value, d);
    DigestKeepsFiles(env, v, e, path, d);
  }

  lemma DigestKeepsFiles(env: Env, w: World, e: Entry, path: string, d: Digest)
    requires path in w.files
    ensures PublishDigest(env, true, w, e, path, d).world.files == w.files
  {
  }

  /** A step that may leave an untruthful store is safe exactly if the store is truthful and the new pin good. */
  lemma CopiedSafe(env: Env, s: State, step: PublishSnapshot.Step)
    requires Safe(env, s) && InLoop(s) && AppendOnly(s.world.objects, step.world.objects)
    requires step.outcome.Ok? && step.entry != Current(s)
    ensures Safe(env, Stepped(s, step)) <==>
            && Truthful(env.backend, env.sha, step.world.objects)
            && Resolves(env.backend, env.sha, step.world.objects, step.entry.uri, step.entry.sha256)
  {
    if Truthful(env.backend, env.sha, step.world.objects) { StepSafe(env, s, step); }
  }

  lemma ChangedInPlace(entries: seq<Entry>, i: nat, f: Entry)
    requires i < |entries|
    ensures entries[i := f] == entries <==> f == entries[i]
  {
    assert entries[i := f][i] == f;
  }

  lemma CrashInsideKeepsSafe(env: Env, s: State, t: State)
    requires CrashInside(env, s, t) && Safe(env, s)
    ensures Safe(env, t)
  {
    var u, files :| Interrupted(env, s, u, files) && t == u.(run := None);
    InterruptedAppends(env, s, u, files);
    DigestStaysTruthful(env, World(files, s.world.objects), Current(s), LocalFile(env, Current(s)), CurrentDigest(env, s));
    GrowthKeepsPins(env, s.world.objects, t.world.objects, s.committed);
  }

  lemma CrashKeepsSafe(env: Env, s: State, t: State)
    requires Crash(env, s, t) && Safe(env, s)
    ensures Safe(env, t)
  {
    CrashAppends(env, s, t);
    CrashStaysTruthful(env, s, t);
    GrowthKeepsPins(env, s.world.objects, t.world.objects, s.committed);
  }

  lemma NextKeepsSafe(env: Env, s: State, t: State)
    requires Next(env, s, t) && Safe(env, s)
    ensures Safe(env, t)
  {
    if Advance(env, s, t) {
      AdvanceKeepsSafe(env, s, t);
    } else if QuietRewrite(env, s, t) {
      var files :| Interrupted(env, s, t, files) && Harmless(env, s, t, files);
      InterruptedSafeIff(env, s, t, files);
    } else if QuietCopy(env, s, t) {
      var copied :| Copied(env, s, t, copied) && CopyIsFaithful(env, s, copied);
      CopiedSafeIff(env, s, t, copied);
    } else if Crash(env, s, t) {
      CrashKeepsSafe(env, s, t);
    } else if CrashInside(env, s, t) {
      CrashInsideKeepsSafe(env, s, t);
    }
  }

  lemma AlwaysSafe(env: Env, trace: seq<State>, i: nat)
    requires Behavior(env, trace) && Init(env, trace[0]) && i < |trace|
    ensures Safe(env, trace[i])
  {
    forall s, t | Next(env, s, t) && Safe(env, s) ensures Safe(env, t) { NextKeepsSafe(env, s, t); }
    Onward(env, trace, 0, i, s => Safe(env, s));
  }

  lemma CommittedStep(env: Env, s: State, t: State)
    requires Next(env, s, t)
    ensures s.committed <= t.committed
  {
  }

  lemma CommittedOnlyGrows(env: Env, trace: seq<State>, i: nat, j: nat)
    requires Behavior(env, trace) && i <= j < |trace|
    ensures trace[i].committed <= trace[j].committed
  {
    var first := trace[i].committed;
    forall s, t | Next(env, s, t) && first <= s.committed ensures first <= t.committed { CommittedStep(env, s, t); }
    Onward(env, trace, i, j, (s: State) => first <= s.committed);
  }

  /**
   Pin durability: over any sequence of rewrites between artifacts and harmless ones inside them, publishes, exceptions,
   crashes, torn copies and commits, every pin that the manifest on disk carries now or carried at any earlier moment
   resolves to bytes with its sha.
   */
  lemma PinDurability(env: Env, trace: seq<State>, i: nat, j: nat)
    requires Behavior(env, trace) && Init(env, trace[0]) && i <= j < |trace|
    ensures forall e :: e in trace[i].disk ==> Resolves(env.backend, env.sha, trace[j].world.objects, e.uri, e.sha256)
  {
    AlwaysSafe(env, trace, i);
    AlwaysSafe(env, trace, j);
    CommittedOnlyGrows(env, trace, i, j);
    forall e | e in trace[i].disk ensures Resolves(env.backend, env.sha, trace[j].world.objects, e.uri, e.sha256) {
      assert (e.uri, e.sha256) in Pins(trace[i].disk);
    }
  }

  // ---------------------------------------------------------------------------
  // The manifest stays valid

  /** A valid manifest with pairwise distinct logical keys. */
  predicate Orderly(entries: seq<Entry>) {
    ValidManifest(entries) && AllStable(entries) && DistinctKeys(entries)
  }

  /** Name, path, logical key and validity survive the update of an entry. */
  predicate KeepsPlace(e: Entry, f: Entry) {
    SameNames(e, f) && SameKey(e, f) && StaysValid(e, f)
  }

  lemma ValidKept(entries: seq<Entry>, i: nat, f: Entry)
    requires ValidManifest(entries) && i < |entries| && SameNames(entries[i], f) && StaysValid(entries[i], f)
    requires Distinct(Uris(entries[i := f]))
    ensures ValidManifest(entries[i := f])
  {
    assert Names(entries[i := f]) == Names(entries) && LocalPaths(entries[i := f]) == LocalPaths(entries);
  }

  lemma KeysKept(entries: seq<Entry>, i: nat, f: Entry)
    requires AllStable(entries) && DistinctKeys(entries) && i < |entries| && SameKey(entries[i], f)
    ensures AllStable(entries[i := f]) && DistinctKeys(entries[i := f])
  {
    KeysCarryOver(entries, entries[i := f]);
  }

  lemma PlaceKept(entries: seq<Entry>, i: nat, f: Entry)
    requires Orderly(entries) && i < |entries| && KeepsPlace(entries[i], f)
    ensures Orderly(entries[i := f])
  {
    KeysKept(entries, i, f);
    DistinctKeysDistinctUris(entries[i := f]);
    ValidKept(entries, i, f);
  }

  lemma EntryKeepsPlace(env: Env, w: World, e: Entry)
    requires HexDigest(env.sha)
    ensures KeepsPlace(e, PublishEntry(env, true, w, e).entry)
  {
    EntryKeepsName(env, true, w, e);
    EntryStaysValid(env, true, w, e);
    if StableUri(e.uri) { EntryKeepsKey(env, true, w, e); }
  }

  lemma UpdateKeepsPlace(env: Env, e: Entry, uri: string, d: Digest)
    requires HexDigits64(d.sha) && (StableUri(e.uri) ==> StableUri(uri) && LogicalKey(uri) == LogicalKey(e.uri))
    ensures KeepsPlace(e, UpdatedEntry(env, e, uri, d))
  {
  }

  lemma DigestEntry(env: Env, w: World, e: Entry, path: string, d: Digest)
    requires path in w.files
    ensures var f := PublishDigest(env, true, w, e, path, d).entry;
            f == e || (MintedUri(e.uri, d.sha).Ok? && f == UpdatedEntry(env, e, MintedUri(e.uri, d.sha).value, d))
  {
  }

  lemma DigestKeepsPlace(env: Env, w: World, e: Entry, path: string, d: Digest)
    requires path in w.files && HexDigits64(d.sha)
    ensures KeepsPlace(e, PublishDigest(env, true, w, e, path, d).entry)
  {
    DigestEntry(env, w, e, path, d);
    if PublishDigest(env, true, w, e, path, d).entry != e {
      if StableUri(e.uri) { MintedIsStable(e.uri, d.sha); }
      UpdateKeepsPlace(env, e, MintedUri(e.uri, d.sha).value, d);
    }
  }

  lemma DigestIsHex(env: Env, path: string, content: Bytes)
    requires HexDigest(env.sha) && DigestAt(env, path, content).Ok?
    ensures HexDigits64(DigestAt(env, path, content).value.sha)
  {
  }

  predicate OrderlyState(s: State) {
    Orderly(s.disk) && (s.run.Some? ==> Orderly(s.run.value.entries))
  }

  lemma NextKeepsOrderly(env: Env, s: State, t: State)
    requires HexDigest(env.sha) && Next(env, s, t) && OrderlyState(s)
    ensures OrderlyState(t)
  {
    if Advance(env, s, t) {
      EntryKeepsPlace(env, s.world, Current(s));
      PlaceKept(s.run.value.entries, s.run.value.next, PublishEntry(env, true, s.world, Current(s)).entry);
    } else if QuietRewrite(env, s, t) {
      var files :| Interrupted(env, s, t, files) && Harmless(env, s, t, files);
      InterruptedKeepsOrderly(env, s, t, files);
    } else if QuietCopy(env, s, t) {
      EntryKeepsPlace(env, s.world, Current(s));
      PlaceKept(s.run.value.entries, s.run.value.next, PublishEntry(env, true, s.world, Current(s)).entry);
    }
  }

  lemma InterruptedKeepsOrderly(env: Env, s: State, t: State, files: map<string, Bytes>)
    requires HexDigest(env.sha) && Interrupted(env, s, t, files) && OrderlyState(s)
    ensures OrderlyState(t)
  {
    var path := LocalFile(env, Current(s));
    DigestIsHex(env, path, s.world.files[path]);
    DigestKeepsPlace(env, World(files, s.world.objects), Current(s), path, CurrentDigest(env, s));
    PlaceKept(s.run.value.entries, s.run.value.next, RoundOn(env, s, files).entry);
  }

  /** Over any run, a valid manifest with distinct logical keys stays one: no minted key ever collides with another uri. */
  lemma ManifestStaysValid(env: Env, trace: seq<State>, i: nat)
    requires HexDigest(env.sha) && Behavior(env, trace) && i < |trace|
    requires trace[0].run.None? && Orderly(trace[0].disk)
    ensures OrderlyState(trace[i])
  {
    forall s, t | Next(env, s, t) && OrderlyState(s) ensures OrderlyState(t) { NextKeepsOrderly(env, s, t); }
    Onward(env, trace, 0, i, OrderlyState);
  }

  // ---------------------------------------------------------------------------
  // Where durability ends

  /** The pin that a harmful rewrite leaves behind resolves neither now nor at any later moment, whatever happens. */
  lemma HarmfulRewriteNeverHeals(env: Env, s: State, files: map<string, Bytes>, trace: seq<State>, j: nat)
    requires Behavior(env, trace) && j < |trace| && Truthful(env.backend, env.sha, s.world.objects)
    requires Interrupted(env, s, trace[0], files) && !Harmless(env, s, trace[0], files)
    ensures var pin := RoundOn(env, s, files).entry;
            && pin in trace[0].run.value.entries
            && !Resolves(env.backend, env.sha, trace[j].world.objects, pin.uri, pin.sha256)
  {
    var e, path, d := Current(s), LocalFile(env, Current(s)), CurrentDigest(env, s);
    var w, step := World(files, s.world.objects), RoundOn(env, s, files);
    ChangedInPlace(s.run.value.entries, s.run.value.next, step.entry);
    assert trace[0].run.value.entries[s.run.value.next] == step.entry;
    RewriteBeforeUpload(env, w, e, path, d);
    PutResolves(env.backend, env.sha, w.objects, w.files[path], step.entry.uri);
    StoreGrowsOverRuns(env, trace, 0, j);
    StaysBroken(env, step.world.objects, trace[j].world.objects, step.entry.uri, step.entry.sha256, env.sha(files[path]));
  }

  lemma StaysBroken(env: Env, before: Objects, after: Objects, uri: string, pinned: string, held: string)
    requires AppendOnly(before, after) && Resolves(env.backend, env.sha, before, uri, held) && held != pinned
    ensures !Resolves(env.backend, env.sha, after, uri, pinned)
  {
  }

  /** What holds when publishing changed an entry. */
  lemma ChangedEntry(env: Env, upload: bool, w: World, e: Entry)
    requires PublishEntry(env, upload, w, e).entry != e
    ensures var path := LocalFile(env, e); var step := PublishEntry(env, upload, w, e);
            && path in w.files && DigestAt(env, path, w.files[path]).Ok?
            && var d := DigestAt(env, path, w.files[path]).value;
               && (d.canonical.Some? ==> env.contract(e.name, d.canonical.value))
               && d.sha != e.sha256 && MintedUri(e.uri, d.sha) == Ok(step.entry.uri) && step.entry.sha256 == d.sha
  {
  }

  /** Without the upload a changed entry pins a key nothing was stored under. */
  lemma SkippedUploadDangles(env: Env, w: World, e: Entry)
    requires PublishEntry(env, false, w, e).entry != e
    requires var uri := PublishEntry(env, false, w, e).entry.uri;
             env.backend.Locate(uri).Ok? ==> env.backend.Locate(uri).value !in w.objects
    ensures var step := PublishEntry(env, false, w, e);
            && step.outcome.Ok? && step.outcome.value.status == StatusUpdated
            && !Resolves(env.backend, env.sha, step.world.objects, step.entry.uri, step.entry.sha256)
  {
    ChangedEntry(env, false, w, e);
  }

  /** After a torn copy, publishing the same content fails until the object is removed by hand. */
  lemma TornCopyBlocksPublish(env: Env, w: World, e: Entry, torn: Bytes)
    requires env.backend.LocalBackend? && PublishEntry(env, true, w, e).entry != e
    requires env.backend.Locate(PublishEntry(env, true, w, e).entry.uri).Ok?
    requires env.sha(torn) != PublishEntry(env, true, w, e).entry.sha256
    ensures var location := env.backend.Locate(PublishEntry(env, true, w, e).entry.uri).value;
            PublishEntry(env, true, w.(objects := w.objects[location := StoredObject(torn, None)]), e).outcome
            == Err(UploadFailed(OverwriteRefused))
  {
    ChangedEntry(env, true, w, e);
    var path, uri := LocalFile(env, e), PublishEntry(env, true, w, e).entry.uri;
    var d := DigestAt(env, path, w.files[path]).value;
    RefreshedDigest(env, path, w.files[path]);
    var content := Refreshed(env, w.files[path], d);
    var wedged := w.objects[env.backend.Locate(uri).value := StoredObject(torn, None)];
    TornObjectWedgesKey(env.backend, env.sha, w.objects, env.backend.Locate(uri).value, torn, content, uri);
    WedgedUpload(env, World(w.files[path := content], wedged), e, path, d, uri);
  }

  lemma WedgedUpload(env: Env, w: World, e: Entry, path: string, d: Digest, uri: string)
    requires path in w.files && d.sha != e.sha256 && MintedUri(e.uri, d.sha) == Ok(uri)
    requires PutResult(env.backend, env.sha, w.objects, w.files[path], uri, false) == Err(OverwriteRefused)
    ensures PublishDigest(env, true, w, e, path, d).outcome == Err(UploadFailed(OverwriteRefused))
  {
  }
}
