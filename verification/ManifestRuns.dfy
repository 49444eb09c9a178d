/** The runs of the publish protocol with the manifest as the text it is: what a reader of the file can rely on. */
module ManifestRuns {
  import opened Wrappers
  import opened CanonicalParquet
  import opened ArtifactStore
  import opened ArtifactManifest
  import opened PublishSnapshot
  import opened PublishRuns
  import opened ManifestLines
  import opened ManifestPatch
  import opened ManifestScalars
  import opened ManifestTexts
  import opened ManifestAgreement

  /** The manifest file holds `text`, and `state.disk` is the payload a loader makes of it. */
  datatype TextState = TextState(state: State, text: string)

  /** The finished run patches the file. */
  predicate CommitText(s: TextState, t: TextState) {
    && Commit(s.state, t.state)
    && var patches := PatchesOf(s.state.run.value.reports);
       Patchable(YamlLines(), SplitLines(s.text), patches) && t.text == PatchedText(s.text, patches)
  }

  /** Everything else leaves the file alone; a patch that does not apply ends the run as a crash after its last artifact does. */
  ghost predicate KeepText(env: Env, s: TextState, t: TextState) {
    && Next(env, s.state, t.state) && t.text == s.text
    && t.state.disk == s.state.disk && t.state.committed == s.state.committed
  }

  ghost predicate TextNext(env: Env, s: TextState, t: TextState) {
    CommitText(s, t) || KeepText(env, s, t)
  }

  ghost predicate TextStepAt(env: Env, trace: seq<TextState>, i: int)
    requires 0 <= i < |trace| - 1
  {
    TextNext(env, trace[i], trace[i + 1])
  }

  ghost predicate TextBehavior(env: Env, trace: seq<TextState>) {
    trace != [] && forall i :: 0 <= i < |trace| - 1 ==> TextStepAt(env, trace, i)
  }

  function States(trace: seq<TextState>): (states: seq<State>)
    ensures |states| == |trace|
  {
    seq(|trace|, i requires 0 <= i < |trace| => trace[i].state)
  }

  /** Forgetting the text leaves a run of the protocol. */
  lemma StatesBehave(env: Env, trace: seq<TextState>)
    requires TextBehavior(env, trace)
    ensures Behavior(env, States(trace))
  {
    forall i | 0 <= i < |trace| - 1 ensures StepAt(env, States(trace), i) {
      assert TextStepAt(env, trace, i);
    }
  }

  // ---------------------------------------------------------------------------
  // The reports of a run tell how the payload in memory differs from the file

  predicate Untouched(disk: seq<Entry>, entries: seq<Entry>, patches: Patches, i: nat)
    requires i < |disk| == |entries|
  {
    entries[i] == disk[i] && disk[i].name !in patches
  }

  predicate Explained(disk: seq<Entry>, entries: seq<Entry>, patches: Patches, i: nat)
    requires i < |disk| == |entries|
  {
    Explains(UpdatesFor(patches, disk[i].name), disk[i], entries[i])
  }

  predicate Accounted(disk: seq<Entry>, entries: seq<Entry>, next: nat, patches: Patches) {
    && |entries| == |disk| && next <= |disk| && WordUris(entries) && SafePatches(patches)
    && (forall i :: next <= i < |disk| ==> Untouched(disk, entries, patches, i))
    && (forall i :: 0 <= i < |disk| ==> Explained(disk, entries, patches, i))
  }

  lemma AccountedAtStart(disk: seq<Entry>)
    requires WordUris(disk)
    ensures Accounted(disk, disk, 0, PatchesOf([]))
  {
    forall i | 0 <= i < |disk| ensures Explained(disk, disk, map[], i) { NoUpdates(disk[i]); }
  }

  lemma AccountedRound(disk: seq<Entry>, entries: seq<Entry>, next: nat, patches: Patches, step: PublishSnapshot.Step)
    requires Accounted(disk, entries, next, patches) && next < |disk| && Distinct(Names(disk))
    requires step.outcome.Ok? && Tells(entries[next], step) && SafelyTold(step)
    ensures Accounted(disk, entries[next := step.entry], next + 1, patches + PatchOf(step.outcome.value))
  {
    var after, report := entries[next := step.entry], step.outcome.value;
    var patched := patches + PatchOf(report);
    assert Untouched(disk, entries, patches, next);
    PatchOfName(report);
    forall name | name in patched ensures SafeUpdates(patched[name]) {
      assert name in patches || name == report.name;
    }
    forall i | 0 <= i < |disk|
      ensures Explained(disk, after, patched, i) && (next < i ==> Untouched(disk, after, patched, i))
    {
      UpdatesForUnion(patches, PatchOf(report), disk[i].name);
      assert Explained(disk, entries, patches, i);
      if i != next {
        assert Names(disk)[i] != Names(disk)[next];
        assert next < i ==> Untouched(disk, entries, patches, i);
      }
    }
  }

  lemma AccountedSkip(disk: seq<Entry>, entries: seq<Entry>, next: nat, patches: Patches)
    requires Accounted(disk, entries, next, patches) && next < |disk|
    ensures Accounted(disk, entries, next + 1, patches)
  {
  }

  lemma Regroup(a: Patches, b: Patches, c: Patches)
    ensures a + (b + c) == (a + b) + c
  {
  }

  lemma {:induction false} PatchesOfSnoc(reports: seq<Report>, report: Report)
    ensures PatchesOf(reports + [report]) == PatchesOf(reports) + PatchOf(report)
  {
    if reports == [] {
      PatchesOfCons(report, []);
      assert reports + [report] == [report] + reports && PatchOf(report) + map[] == PatchOf(report) == map[] + PatchOf(report);
    } else {
      var tail := reports[1..];
      PatchesOfSnoc(tail, report);
      PatchesOfCons(reports[0], tail + [report]);
      assert reports + [report] == [reports[0]] + (tail + [report]);
      Regroup(PatchOf(reports[0]), PatchesOf(tail), PatchOf(report));
    }
  }

  // ---------------------------------------------------------------------------
  // The file always says what the payload says

  predicate AllRepresented(text: string, entries: seq<Entry>) {
    forall i :: 0 <= i < |entries| ==> Represents(text, entries[i])
  }

  /** The artifacts have these distinct names, and the file says what the payload on disk says. */
  predicate Consistent(names: seq<string>, disk: seq<Entry>, text: string) {
    && Names(disk) == names && Distinct(names) && WordUris(disk) && PlainText(text) && AllRepresented(text, disk)
  }

  predicate RunAccounted(s: State) {
    s.run.Some? ==> Accounted(s.disk, s.run.value.entries, s.run.value.next, PatchesOf(s.run.value.reports))
  }

  predicate Good(names: seq<string>, s: TextState) {
    Consistent(names, s.state.disk, s.text) && RunAccounted(s.state)
  }

  lemma SteppedAccounted(s: State, step: PublishSnapshot.Step)
    requires InLoop(s) && RunAccounted(s) && Distinct(Names(s.disk)) && Tells(Current(s), step) && SafelyTold(step)
    ensures RunAccounted(Stepped(s, step))
  {
    var p := s.run.value;
    if step.outcome.Ok? {
      AccountedRound(s.disk, p.entries, p.next, PatchesOf(p.reports), step);
      PatchesOfSnoc(p.reports, step.outcome.value);
    }
  }

  lemma AdvanceAccounted(env: Env, s: State, t: State)
    requires PlainEnv(env) && Advance(env, s, t) && RunAccounted(s) && Distinct(Names(s.disk))
    ensures RunAccounted(t)
  {
    var p := s.run.value;
    if Selected(p.only, Current(s)) {
      EntryExplained(env, true, s.world, Current(s));
      EntryIsSafe(env, true, s.world, Current(s));
      SteppedAccounted(s, PublishEntry(env, true, s.world, Current(s)));
    } else {
      AccountedSkip(s.disk, p.entries, p.next, PatchesOf(p.reports));
    }
  }

  lemma InterruptedAccounted(env: Env, s: State, t: State, files: map<string, Bytes>)
    requires PlainEnv(env) && Interrupted(env, s, t, files) && RunAccounted(s) && Distinct(Names(s.disk))
    ensures RunAccounted(t)
  {
    var path := LocalFile(env, Current(s));
    DigestIsHex(env, path, s.world.files[path]);
    DigestExplained(env, true, World(files, s.world.objects), Current(s), path, CurrentDigest(env, s));
    DigestIsSafe(env, true, World(files, s.world.objects), Current(s), path, CurrentDigest(env, s));
    SteppedAccounted(s, RoundOn(env, s, files));
  }

  lemma NextAccounted(env: Env, s: State, t: State)
    requires PlainEnv(env) && Next(env, s, t) && t.disk == s.disk && RunAccounted(s) && Distinct(Names(s.disk)) && WordUris(s.disk)
    ensures RunAccounted(t)
  {
    if Start(s, t) {
      AccountedAtStart(s.disk);
    } else if Advance(env, s, t) {
      AdvanceAccounted(env, s, t);
    } else if QuietRewrite(env, s, t) {
      var files :| Interrupted(env, s, t, files) && Harmless(env, s, t, files);
      InterruptedAccounted(env, s, t, files);
    } else if QuietCopy(env, s, t) {
      var copied :| Copied(env, s, t, copied);
      CopiedAccounted(env, s, t, copied);
    }
  }

  lemma CopiedAccounted(env: Env, s: State, t: State, copied: Bytes)
    requires PlainEnv(env) && Copied(env, s, t, copied) && RunAccounted(s) && Distinct(Names(s.disk))
    ensures RunAccounted(t)
  {
    EntryExplained(env, true, s.world, Current(s));
    EntryIsSafe(env, true, s.world, Current(s));
    SteppedAccounted(s, CopiedStep(env, s, copied));
  }

  /** Patching the file carries it from the old payload to the new one. */
  lemma PatchCarries(names: seq<string>, disk: seq<Entry>, entries: seq<Entry>, patches: Patches, text: string)
    requires Consistent(names, disk, text) && Accounted(disk, entries, |disk|, patches)
    requires Patchable(YamlLines(), SplitLines(text), patches)
    ensures Consistent(names, entries, PatchedText(text, patches))
  {
    SafeIsFields(patches);
    PatchedTextIsPlain(text, patches);
    forall i | 0 <= i < |entries|
      ensures Names(entries)[i] == names[i] && Represents(PatchedText(text, patches), entries[i])
    {
      assert Explained(disk, entries, patches, i) && Names(disk)[i] == names[i];
      EntryAgrees(text, patches, disk[i], entries[i]);
    }
  }

  lemma TextNextKeepsGood(env: Env, names: seq<string>, s: TextState, t: TextState)
    requires PlainEnv(env) && TextNext(env, s, t) && Good(names, s)
    ensures Good(names, t)
  {
    if CommitText(s, t) {
      PatchCarries(names, s.state.disk, s.state.run.value.entries, PatchesOf(s.state.run.value.reports), s.text);
    } else {
      NextAccounted(env, s.state, t.state);
    }
  }

  /** Over any run the file says what the payload on disk says: a loader that trusts the text gets that payload. */
  lemma {:induction false} TextStaysConsistent(env: Env, trace: seq<TextState>, i: nat)
    requires PlainEnv(env) && TextBehavior(env, trace) && i < |trace| && trace[0].state.run.None?
    requires Consistent(Names(trace[0].state.disk), trace[0].state.disk, trace[0].text)
    ensures Good(Names(trace[0].state.disk), trace[i])
  {
    if i > 0 {
      TextStaysConsistent(env, trace, i - 1);
      assert TextStepAt(env, trace, i - 1);
      TextNextKeepsGood(env, Names(trace[0].state.disk), trace[i - 1], trace[i]);
    }
  }

  // ---------------------------------------------------------------------------
  // Pins in the file

  /** A string field of an artifact, as a reader of the text gets it. */
  function ReadText(text: string, name: string, key: string): Option<string> {
    var raw := FieldOf(text, name, key);
    if raw.None? then None else Unquoted(raw.value)
  }

  function ReadPin(text: string, name: string): Option<Pin> {
    var uri, sha := ReadText(text, name, "uri"), ReadText(text, name, "sha256");
    if uri.Some? && sha.Some? then Some((uri.value, sha.value)) else None
  }

  lemma PinOfEntry(text: string, e: Entry)
    requires Represents(text, e)
    ensures ReadPin(text, e.name) == Some((e.uri, e.sha256))
  {
    assert FieldAgrees(FieldOf(text, e.name, "uri"), FieldValue(e, "uri"));
    assert FieldAgrees(FieldOf(text, e.name, "sha256"), FieldValue(e, "sha256"));
  }

  /**
   Pin durability for readers of the file: whatever text the manifest has at some moment of a run, each of its artifacts has
   a pin there, and the pin resolves to bytes with its sha then and at every later moment.
   */
  lemma TextPinDurability(env: Env, trace: seq<TextState>, i: nat, j: nat, name: string)
    requires PlainEnv(env) && TextBehavior(env, trace) && Init(env, trace[0].state) && i <= j < |trace|
    requires Consistent(Names(trace[0].state.disk), trace[0].state.disk, trace[0].text) && name in Names(trace[0].state.disk)
    ensures var pin := ReadPin(trace[i].text, name);
            pin.Some? && Resolves(env.backend, env.sha, trace[j].state.world.objects, pin.value.0, pin.value.1)
  {
    TextStaysConsistent(env, trace, i);
    var e := EntryNamed(trace[i].state.disk, name);
    PinOfEntry(trace[i].text, e);
    DiskResolves(env, trace, i, j, e);
  }

  lemma EntryNamed(entries: seq<Entry>, name: string) returns (e: Entry)
    requires name in Names(entries)
    ensures e in entries && e.name == name
  {
    var k :| 0 <= k < |entries| && Names(entries)[k] == name;
    e := entries[k];
  }

  lemma DiskResolves(env: Env, trace: seq<TextState>, i: nat, j: nat, e: Entry)
    requires TextBehavior(env, trace) && Init(env, trace[0].state) && i <= j < |trace| && e in trace[i].state.disk
    ensures Resolves(env.backend, env.sha, trace[j].state.world.objects, e.uri, e.sha256)
  {
    StatesBehave(env, trace);
    PinDurability(env, States(trace), i, j);
    assert e in States(trace)[i].disk;
  }
}
