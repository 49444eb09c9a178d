/** After a publish the patched manifest text says what the payload in memory says. */
module ManifestAgreement {
  import opened Wrappers
  import opened Strings
  import opened ArtifactManifest
  import ArtifactKeys
  import CanonicalParquet
  import opened PublishSnapshot
  import opened PublishLoop
  import opened PublishProperties
  import opened ManifestLines
  import opened ManifestBlocks
  import opened ManifestPatch
  import opened ManifestLineLaws
  import opened ManifestScalars
  import opened ManifestWords
  import opened ManifestPatchProperties
  import opened ManifestTexts

  // ---------------------------------------------------------------------------
  // Entries and the text

  const FIELDS := {"sha256", "uri", "rows", "min_date", "max_date"}

  function TextOrNull(text: Option<string>): Scalar {
    if text.Some? then StrScalar(text.value) else NullScalar
  }

  /** The fields of an entry that publishing updates. */
  function FieldValue(e: Entry, key: string): Scalar {
    if key == "sha256" then StrScalar(e.sha256)
    else if key == "uri" then StrScalar(e.uri)
    else if key == "rows" then (if e.rows.Some? then IntScalar(e.rows.value) else NullScalar)
    else if key == "min_date" then TextOrNull(e.minDate)
    else TextOrNull(e.maxDate)
  }

  predicate FieldAgrees(raw: Option<string>, value: Scalar) {
    if raw.Some? then Denotes(raw.value, value) else value == NullScalar
  }

  /** The entry's block in the text says what the entry says. */
  predicate Represents(text: string, e: Entry) {
    forall key :: key in FIELDS ==> FieldAgrees(FieldOf(text, e.name, key), FieldValue(e, key))
  }

  predicate Changed(report: Report) {
    report.status == StatusUpdated || report.status == StatusUploaded
  }

  function PatchOf(report: Report): Patches {
    if Changed(report) then map[report.name := report.updates] else map[]
  }

  /** `updates_by_name` of the command line's publish mode. */
  function PatchesOf(reports: seq<Report>): Patches {
    if reports == [] then map[] else PatchOf(reports[0]) + PatchesOf(reports[1..])
  }

  function UpdatesFor(patches: Patches, name: string): map<string, Scalar> {
    if name in patches then patches[name] else map[]
  }

  /** The updates turn the old entry into the new one. */
  predicate Explains(updates: map<string, Scalar>, e: Entry, f: Entry) {
    && f.name == e.name && updates.Keys <= FIELDS
    && forall key :: key in FIELDS ==> FieldValue(f, key) == if key in updates then updates[key] else FieldValue(e, key)
  }

  lemma NoUpdates(e: Entry)
    ensures Explains(map[], e, e)
  {
  }

  lemma UpdatesExplain(env: Env, e: Entry, uri: string, d: CanonicalParquet.Digest)
    ensures Explains(Updates(env, uri, d), e, UpdatedEntry(env, e, uri, d))
  {
    var updates, f := Updates(env, uri, d), UpdatedEntry(env, e, uri, d);
    if d.canonical.Some? {
      var range := env.dateRange(d.canonical.value);
      assert "min_date" in updates <==> range.0.Some?;
      assert "max_date" in updates <==> range.1.Some?;
    }
    assert updates.Keys <= FIELDS;
  }

  /** The updates that reach the manifest. */
  function Told(report: Report): map<string, Scalar> {
    if Changed(report) then report.updates else map[]
  }

  /** The report tells how the entry changed. */
  predicate Tells(e: Entry, step: PublishSnapshot.Step) {
    step.outcome.Ok? ==> step.outcome.value.name == e.name && Explains(Told(step.outcome.value), e, step.entry)
  }

  lemma DigestExplained(env: Env, upload: bool, w: World, e: Entry, path: string, d: CanonicalParquet.Digest)
    requires path in w.files
    ensures Tells(e, PublishDigest(env, upload, w, e, path, d))
  {
    NoUpdates(e);
    if MintedUri(e.uri, d.sha).Ok? { UpdatesExplain(env, e, MintedUri(e.uri, d.sha).value, d); }
  }

  lemma EntryExplained(env: Env, upload: bool, w: World, e: Entry)
    ensures Tells(e, PublishEntry(env, upload, w, e))
  {
    NoUpdates(e);
    var path := LocalFile(env, e);
    if path in w.files && DigestAt(env, path, w.files[path]).Ok? {
      var d := DigestAt(env, path, w.files[path]).value;
      DigestExplained(env, upload, w.(files := w.files[path := Refreshed(env, w.files[path], d)]), e, path, d);
    }
  }

  // ---------------------------------------------------------------------------
  // What publishing writes needs no quotes

  /** The dates read from a parquet file need no quotes, as ISO dates do not, and the digest is one. */
  ghost predicate PlainEnv(env: Env) {
    && HexDigest(env.sha)
    && forall content :: var range := env.dateRange(content);
                         (range.0.Some? ==> Word(range.0.value)) && (range.1.Some? ==> Word(range.1.value))
  }

  predicate SafeUpdates(updates: map<string, Scalar>) {
    FieldUpdates(updates) && forall key :: key in updates ==> Readable(updates[key])
  }

  predicate WordScalar(value: Scalar) {
    value.StrScalar? ==> Word(value.text)
  }

  lemma WordsAreSafe(updates: map<string, Scalar>)
    requires updates.Keys <= FIELDS && forall key :: key in updates ==> WordScalar(updates[key])
    ensures SafeUpdates(updates)
  {
    forall key | key in updates ensures FieldKey(key) && OneLine(updates[key]) && Readable(updates[key]) {
      assert WordScalar(updates[key]);
      if updates[key].StrScalar? { WordIsReadable(updates[key].text); }
    }
  }

  lemma UpdatesAreSafe(env: Env, uri: string, d: CanonicalParquet.Digest)
    requires PlainEnv(env) && Word(uri) && Word(d.sha)
    ensures SafeUpdates(Updates(env, uri, d))
  {
    var updates := Updates(env, uri, d);
    if d.canonical.Some? {
      var range := env.dateRange(d.canonical.value);
      assert (range.0.Some? ==> Word(range.0.value)) && (range.1.Some? ==> Word(range.1.value));
      forall key | key in updates ensures WordScalar(updates[key]) && key in FIELDS {
        UpdateValue(env, uri, d, key);
      }
    }
    WordsAreSafe(updates);
  }

  lemma UpdateValue(env: Env, uri: string, d: CanonicalParquet.Digest, key: string)
    requires d.canonical.Some? && key in Updates(env, uri, d)
    ensures key in FIELDS
    ensures var value, range := Updates(env, uri, d)[key], env.dateRange(d.canonical.value);
            || value == StrScalar(d.sha) || value == StrScalar(uri) || value.IntScalar?
            || (range.0.Some? && value == StrScalar(range.0.value)) || (range.1.Some? && value == StrScalar(range.1.value))
  {
  }

  /** The uri still needs no quotes, and the updates can be written in every style. */
  predicate SafelyTold(step: PublishSnapshot.Step) {
    Word(step.entry.uri) && (step.outcome.Ok? ==> SafeUpdates(Told(step.outcome.value)))
  }

  lemma DigestIsSafe(env: Env, upload: bool, w: World, e: Entry, path: string, d: CanonicalParquet.Digest)
    requires PlainEnv(env) && path in w.files && Word(e.uri) && ArtifactKeys.HexDigits64(d.sha)
    ensures SafelyTold(PublishDigest(env, upload, w, e, path, d))
  {
    if MintedUri(e.uri, d.sha).Ok? {
      MintedUriWord(e.uri, d.sha);
      HexIsWord(d.sha);
      UpdatesAreSafe(env, MintedUri(e.uri, d.sha).value, d);
    }
  }

  lemma EntryIsSafe(env: Env, upload: bool, w: World, e: Entry)
    requires PlainEnv(env) && Word(e.uri)
    ensures SafelyTold(PublishEntry(env, upload, w, e))
  {
    var path := LocalFile(env, e);
    if path in w.files && DigestAt(env, path, w.files[path]).Ok? {
      var d := DigestAt(env, path, w.files[path]).value;
      DigestIsSafe(env, upload, w.(files := w.files[path := Refreshed(env, w.files[path], d)]), e, path, d);
    }
  }

  // ---------------------------------------------------------------------------
  // A whole publish

  /** The patches that the first entry of a loop contributes. */
  function HeadPatches(round: Round, only: set<string>, w: World, e: Entry): Patches {
    if Selected(only, e) && round(w, e).outcome.Ok? then PatchOf(round(w, e).outcome.value) else map[]
  }

  lemma HeadExplained(round: Round, only: set<string>, w: World, e: Entry)
    requires !TurnFails(round, only, w, e) && Tells(e, round(w, e))
    ensures HeadPatches(round, only, w, e).Keys <= {e.name}
    ensures Explains(UpdatesFor(HeadPatches(round, only, w, e), e.name), e, TurnEntry(round, only, w, e))
  {
    if Selected(only, e) {
      PatchOfName(round(w, e).outcome.value);
    } else {
      NoUpdates(e);
    }
  }

  lemma PatchOfName(report: Report)
    ensures PatchOf(report).Keys <= {report.name}
    ensures UpdatesFor(PatchOf(report), report.name) == Told(report)
  {
  }

  lemma PatchesOfCons(report: Report, reports: seq<Report>)
    ensures PatchesOf([report] + reports) == PatchOf(report) + PatchesOf(reports)
  {
    assert ([report] + reports)[1..] == reports;
  }

  lemma PatchesUnfold(round: Round, only: set<string>, w: World, entries: seq<Entry>)
    requires entries != [] && !TurnFails(round, only, w, entries[0])
    ensures PatchesOf(LoopFrom(round, only, w, entries).reports) ==
            HeadPatches(round, only, w, entries[0])
            + PatchesOf(LoopFrom(round, only, TurnWorld(round, only, w, entries[0]), entries[1..]).reports)
  {
    LoopUnfolds(round, only, w, entries);
    if Selected(only, entries[0]) {
      PatchesOfCons(round(w, entries[0]).outcome.value,
                    LoopFrom(round, only, TurnWorld(round, only, w, entries[0]), entries[1..]).reports);
    }
  }

  lemma {:induction false} PatchedNames(round: Round, only: set<string>, w: World, entries: seq<Entry>, name: string)
    requires forall v, e :: Tells(e, round(v, e))
    requires name in PatchesOf(LoopFrom(round, only, w, entries).reports)
    ensures name in Names(entries)
    decreases |entries|
  {
    LoopUnfolds(round, only, w, entries);
    if !TurnFails(round, only, w, entries[0]) {
      PatchesUnfold(round, only, w, entries);
      HeadExplained(round, only, w, entries[0]);
      if name == entries[0].name {
        assert Names(entries)[0] == name;
      } else {
        PatchedNames(round, only, TurnWorld(round, only, w, entries[0]), entries[1..], name);
        NamesTail(entries, name);
      }
    }
  }

  lemma NamesTail(entries: seq<Entry>, name: string)
    requires entries != [] && name in Names(entries[1..])
    ensures name in Names(entries)
  {
    var i :| 0 <= i < |entries[1..]| && Names(entries[1..])[i] == name;
    assert Names(entries)[i + 1] == name;
  }

  lemma DistinctTail(entries: seq<Entry>)
    requires entries != [] && Distinct(Names(entries))
    ensures Distinct(Names(entries[1..])) && entries[0].name !in Names(entries[1..])
  {
    assert Names(entries[1..]) == Names(entries)[1..];
    assert forall i :: 0 <= i < |Names(entries[1..])| ==> Names(entries[1..])[i] == Names(entries)[i + 1] != Names(entries)[0];
  }

  lemma UpdatesForUnion(head: Patches, tail: Patches, name: string)
    ensures UpdatesFor(head + tail, name) == if name in tail then UpdatesFor(tail, name) else UpdatesFor(head, name)
  {
  }

  /** If every report tells how its entry changed, the reports of a loop explain every entry it leaves in memory. */
  lemma {:induction false} LoopExplained(round: Round, only: set<string>, w: World, entries: seq<Entry>, i: nat)
    requires forall v, e :: Tells(e, round(v, e))
    requires Distinct(Names(entries)) && i < |entries| && LoopFrom(round, only, w, entries).error.None?
    ensures var o := LoopFrom(round, only, w, entries);
            |o.entries| == |entries| && Explains(UpdatesFor(PatchesOf(o.reports), entries[i].name), entries[i], o.entries[i])
    decreases |entries|
  {
    var next, tail := TurnWorld(round, only, w, entries[0]), entries[1..];
    EntryUnfolds(round, only, w, entries, i);
    PatchesUnfold(round, only, w, entries);
    HeadExplained(round, only, w, entries[0]);
    DistinctTail(entries);
    var rest := PatchesOf(LoopFrom(round, only, next, tail).reports);
    UpdatesForUnion(HeadPatches(round, only, w, entries[0]), rest, entries[i].name);
    if i == 0 {
      if entries[0].name in rest { PatchedNames(round, only, next, tail, entries[0].name); }
    } else {
      assert tail[i - 1] == entries[i] && Names(tail)[i - 1] == entries[i].name;
      LoopExplained(round, only, next, tail, i - 1);
    }
  }

  /** The updates reported by a publish explain every entry it leaves in memory. */
  lemma PublishExplained(env: Env, upload: bool, only: set<string>, w: World, entries: seq<Entry>, i: nat)
    requires Distinct(Names(entries)) && i < |entries| && PublishFrom(env, upload, only, w, entries).error.None?
    ensures var outcome := PublishFrom(env, upload, only, w, entries);
            && |outcome.entries| == |entries|
            && Explains(UpdatesFor(PatchesOf(outcome.reports), entries[i].name), entries[i], outcome.entries[i])
  {
    forall v, e ensures Tells(e, Rounds(env, upload)(v, e)) { EntryExplained(env, upload, v, e); }
    LoopExplained(Rounds(env, upload), only, w, entries, i);
  }

  /** Every patch names fields and writes values that can be written in every style. */
  predicate SafePatches(patches: Patches) {
    forall name :: name in patches ==> SafeUpdates(patches[name])
  }

  predicate WordUris(entries: seq<Entry>) {
    forall i :: 0 <= i < |entries| ==> Word(entries[i].uri)
  }

  lemma {:induction false} LoopIsSafe(round: Round, only: set<string>, w: World, entries: seq<Entry>)
    requires WordUris(entries) && forall v, e: Entry :: Word(e.uri) ==> SafelyTold(round(v, e))
    ensures SafePatches(PatchesOf(LoopFrom(round, only, w, entries).reports))
    decreases |entries|
  {
    if entries != [] {
      LoopUnfolds(round, only, w, entries);
      if !TurnFails(round, only, w, entries[0]) {
        PatchesUnfold(round, only, w, entries);
        assert SafelyTold(round(w, entries[0]));
        LoopIsSafe(round, only, TurnWorld(round, only, w, entries[0]), entries[1..]);
      }
    }
  }

  lemma PublishIsSafe(env: Env, upload: bool, only: set<string>, w: World, entries: seq<Entry>)
    requires PlainEnv(env) && WordUris(entries)
    ensures SafePatches(PatchesOf(PublishFrom(env, upload, only, w, entries).reports))
  {
    forall v, e: Entry | Word(e.uri) ensures SafelyTold(Rounds(env, upload)(v, e)) { EntryIsSafe(env, upload, v, e); }
    LoopIsSafe(Rounds(env, upload), only, w, entries);
  }

  // ---------------------------------------------------------------------------
  // When a patch applies

  /** The artifact has a block with these fields. */
  predicate HasFields(text: string, name: string, keys: set<string>) {
    BlockOf(MarksOf(YamlLines(), SplitLines(text)), name).Some? && forall key :: key in keys ==> FieldOf(text, name, key).Some?
  }

  lemma FieldsPresentIff(marks: Marks, keys: Keys, name: string, updates: map<string, Scalar>)
    requires |marks| == |keys|
    ensures FieldsPresent(marks, keys, name, updates) <==>
            BlockOf(marks, name).Some? && forall key :: key in updates ==> FieldLine(marks, keys, name, key).Some?
  {
    if BlockOf(marks, name).Some? {
      var span := BlockOf(marks, name).value;
      forall key | key in updates
        ensures key in MissingFields(keys, span, updates) <==> FieldLine(marks, keys, name, key).None?
      {
        FirstFieldIsFirst(keys, span.0, span.0 + 1, span.1, key);
      }
    }
  }

  /** A patch applies to a text exactly if each artifact to patch has a block there with every field to patch. */
  lemma PatchableIff(text: string, patches: Patches)
    ensures Patchable(YamlLines(), SplitLines(text), patches) <==>
            forall name :: name in patches ==> HasFields(text, name, patches[name].Keys)
  {
    var marks, keys := MarksOf(YamlLines(), SplitLines(text)), KeysOf(YamlLines(), SplitLines(text));
    forall name | name in patches
      ensures FieldsPresent(marks, keys, name, patches[name]) <==> HasFields(text, name, patches[name].Keys)
    {
      FieldsPresentIff(marks, keys, name, patches[name]);
    }
  }

  lemma PatchedFieldAgrees(text: string, patches: Patches, name: string, key: string)
    requires PlainText(text) && FieldPatches(patches) && name in patches && key in patches[name]
    requires FieldOf(text, name, key).Some? && Readable(patches[name][key])
    ensures FieldAgrees(FieldOf(PatchedText(text, patches), name, key), patches[name][key])
  {
    PatchedTextReads(text, patches, name, key);
    RenderedDenotesIff(patches[name][key], FieldOf(text, name, key).value);
  }

  lemma EntryAgrees(text: string, patches: Patches, e: Entry, f: Entry)
    requires PlainText(text) && SafePatches(patches) && Patchable(YamlLines(), SplitLines(text), patches)
    requires Represents(text, e) && Explains(UpdatesFor(patches, e.name), e, f)
    ensures Represents(PatchedText(text, patches), f)
  {
    PatchableIff(text, patches);
    SafeIsFields(patches);
    forall key | key in FIELDS ensures FieldAgrees(FieldOf(PatchedText(text, patches), f.name, key), FieldValue(f, key)) {
      if e.name in patches && key in patches[e.name] {
        assert HasFields(text, e.name, patches[e.name].Keys) && SafeUpdates(patches[e.name]);
        PatchedFieldAgrees(text, patches, e.name, key);
      } else {
        PatchedTextReads(text, patches, e.name, key);
        assert FieldAgrees(FieldOf(text, e.name, key), FieldValue(e, key));
      }
    }
  }

  lemma SafeIsFields(patches: Patches)
    requires SafePatches(patches)
    ensures FieldPatches(patches)
  {
    forall name | name in patches ensures FieldUpdates(patches[name]) { assert SafeUpdates(patches[name]); }
  }

  /**
   A manifest text that represented the payload before a publish represents it afterwards, if the publish ended without an
   exception and the patch applied. Of the values, only those that were there before are asked to need no quotes.
   */
  lemma PatchAgreesWithPayload(env: Env, upload: bool, only: set<string>, w: World, entries: seq<Entry>, text: string, i: nat)
    requires PlainEnv(env) && PlainText(text) && Distinct(Names(entries)) && WordUris(entries)
    requires forall j :: 0 <= j < |entries| ==> Represents(text, entries[j])
    requires PublishFrom(env, upload, only, w, entries).error.None? && i < |entries|
    requires Patchable(YamlLines(), SplitLines(text), PatchesOf(PublishFrom(env, upload, only, w, entries).reports))
    ensures var outcome := PublishFrom(env, upload, only, w, entries);
            |outcome.entries| == |entries| && Represents(PatchedText(text, PatchesOf(outcome.reports)), outcome.entries[i])
  {
    PublishExplained(env, upload, only, w, entries, i);
    PublishIsSafe(env, upload, only, w, entries);
    var outcome := PublishFrom(env, upload, only, w, entries);
    EntryAgrees(text, PatchesOf(outcome.reports), entries[i], outcome.entries[i]);
  }
}
