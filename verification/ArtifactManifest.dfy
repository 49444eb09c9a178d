/** The manifest's artifact entries and their validation (src/regime_data_fetch/artifact_manifest.py). */
module ArtifactManifest {
  import opened Wrappers
  import opened Strings
  import opened ArtifactKeys

  /** The fields of an entry that publishing and validation read or write. */
  datatype Entry = Entry(
    name: string,
    stage: string,
    uri: string,
    localPath: string,
    sha256: string,
    rows: Option<int>,
    minDate: Option<string>,
    maxDate: Option<string>)

  datatype ManifestError =
    | NoArtifacts
    | UnknownStage(name: string)
    | BadSha256(name: string)
    | BadLocalPath(name: string)
    | NegativeRows(name: string)
    | DuplicateLocalPath(path: string)
    | DuplicateName(name: string)
    | DuplicateUri(uri: string)

  const VALID_STAGES := {"raw_capture", "normalized", "canonical", "run_inputs"}

  /** `ManifestArtifact.validate`. */
  function ValidateEntry(e: Entry): Option<ManifestError> {
    if e.stage !in VALID_STAGES then Some(UnknownStage(e.name))
    else if !HexDigits64(e.sha256) then Some(BadSha256(e.name))
    else if IsAbsolute(e.localPath) || ".." in PathParts(e.localPath) then Some(BadLocalPath(e.name))
    else if e.rows.Some? && e.rows.value < 0 then Some(NegativeRows(e.name))
    else None
  }

  predicate Distinct(s: seq<string>) {
    forall i, j :: 0 <= i < j < |s| ==> s[i] != s[j]
  }

  function Names(entries: seq<Entry>): seq<string> {
    seq(|entries|, i requires 0 <= i < |entries| => entries[i].name)
  }

  function LocalPaths(entries: seq<Entry>): seq<string> {
    seq(|entries|, i requires 0 <= i < |entries| => entries[i].localPath)
  }

  function Uris(entries: seq<Entry>): seq<string> {
    seq(|entries|, i requires 0 <= i < |entries| => entries[i].uri)
  }

  predicate ValidManifest(entries: seq<Entry>) {
    && entries != []
    && (forall i :: 0 <= i < |entries| ==> ValidateEntry(entries[i]).None?)
    && Distinct(Names(entries)) && Distinct(LocalPaths(entries)) && Distinct(Uris(entries))
  }

  /** What is wrong with entry `i`, given the entries before it. */
  function ProblemAt(entries: seq<Entry>, i: nat): Option<ManifestError>
    requires i < |entries|
  {
    var e := entries[i];
    if ValidateEntry(e).Some? then ValidateEntry(e)
    else if e.localPath in LocalPaths(entries)[..i] then Some(DuplicateLocalPath(e.localPath))
    else if e.name in Names(entries)[..i] then Some(DuplicateName(e.name))
    else if e.uri in Uris(entries)[..i] then Some(DuplicateUri(e.uri))
    else None
  }

  ghost predicate NoProblemBefore(entries: seq<Entry>, n: nat)
    requires n <= |entries|
  {
    forall i: nat :: i < n ==> ProblemAt(entries, i).None?
  }

  lemma DistinctIff(s: seq<string>)
    ensures Distinct(s) <==> forall i: nat :: i < |s| ==> IsNew(s, i)
  {
    if forall i: nat :: i < |s| ==> IsNew(s, i) {
      forall i, j | 0 <= i < j < |s| ensures s[i] != s[j] {
        assert IsNew(s, j) && s[..j][i] == s[i];
      }
    }
  }

  /** A manifest is valid exactly if it has entries and no entry has a problem. */
  lemma ValidIff(entries: seq<Entry>)
    ensures ValidManifest(entries) <==> entries != [] && NoProblemBefore(entries, |entries|)
  {
    DistinctIff(Names(entries));
    DistinctIff(LocalPaths(entries));
    DistinctIff(Uris(entries));
    forall i: nat | i < |entries|
      ensures ProblemAt(entries, i).None? <==>
              && ValidateEntry(entries[i]).None?
              && IsNew(Names(entries), i) && IsNew(LocalPaths(entries), i) && IsNew(Uris(entries), i)
    {
      assert Names(entries)[i] == entries[i].name && LocalPaths(entries)[i] == entries[i].localPath && Uris(entries)[i] == entries[i].uri;
    }
  }

  predicate IsNew(s: seq<string>, i: nat)
    requires i < |s|
  {
    s[i] !in s[..i]
  }

  /** The fields already seen. */
  ghost predicate Seen(values: set<string>, fields: seq<string>) {
    forall x :: x in values <==> x in fields
  }

  lemma SeenStep(values: set<string>, fields: seq<string>, i: nat)
    requires i < |fields| && Seen(values, fields[..i])
    ensures Seen(values + {fields[i]}, fields[..i + 1])
  {
    assert fields[..i + 1] == fields[..i] + [fields[i]];
  }

  /**
   `ArtifactManifest.validate`: it accepts exactly the manifests whose entries are valid and pairwise distinct, and
   reports the first problem otherwise.
   */
  method Validate(entries: seq<Entry>) returns (result: Result<(), ManifestError>)
    ensures result.Ok? <==> ValidManifest(entries)
    ensures entries == [] ==> result == Err(NoArtifacts)
    ensures entries != [] && result.Err? ==>
      exists i: nat :: i < |entries| && NoProblemBefore(entries, i) && ProblemAt(entries, i) == Some(result.error)
  {
    ValidIff(entries);
    if entries == [] {
      return Err(NoArtifacts);
    }
    var localPaths: set<string>, names: set<string>, uris: set<string> := {}, {}, {};
    for i := 0 to |entries|
      invariant NoProblemBefore(entries, i)
      invariant Seen(localPaths, LocalPaths(entries)[..i])
      invariant Seen(names, Names(entries)[..i])
      invariant Seen(uris, Uris(entries)[..i])
    {
      var e := entries[i];
      var problem := ValidateEntry(e);
      if problem.None? {
        if e.localPath in localPaths {
          problem := Some(DuplicateLocalPath(e.localPath));
        } else if e.name in names {
          problem := Some(DuplicateName(e.name));
        } else if e.uri in uris {
          problem := Some(DuplicateUri(e.uri));
        }
      }
      assert problem == ProblemAt(entries, i);
      if problem.Some? {
        return Err(problem.value);
      }
      SeenStep(localPaths, LocalPaths(entries), i);
      SeenStep(names, Names(entries), i);
      SeenStep(uris, Uris(entries), i);
      localPaths, names, uris := localPaths + {e.localPath}, names + {e.name}, uris + {e.uri};
    }
    return Ok(());
  }

  // ---------------------------------------------------------------------------
  // Validity without the checks

  predicate GoodSha(sha: string) {
    |sha| == 64 && forall i :: 0 <= i < 64 ==> sha[i] in "0123456789abcdef"
  }

  /** A relative path that no ".." between slashes leads out of its root. */
  predicate GoodPath(path: string) {
    !StartsWith(path, "/") && ".." !in Split(path, '/')
  }

  predicate GoodEntry(e: Entry) {
    && e.stage in {"raw_capture", "normalized", "canonical", "run_inputs"}
    && GoodSha(e.sha256) && GoodPath(e.localPath) && (e.rows.Some? ==> e.rows.value >= 0)
  }

  predicate Clash(e: Entry, f: Entry) {
    e.name == f.name || e.localPath == f.localPath || e.uri == f.uri
  }

  lemma HexIff(c: char)
    ensures LowerHex(c) <==> c in "0123456789abcdef"
  {
    var hex := "0123456789abcdef";
    if '0' <= c <= '9' { assert hex[c as int - 48] == c; }
    if 'a' <= c <= 'f' { assert hex[c as int - 87] == c; }
  }

  lemma {:induction false} DotsAreKept(pieces: seq<string>)
    requires forall i :: 0 <= i < |pieces| ==> Lacks(pieces[i], '/')
    ensures ".." in KeepClean(pieces) <==> ".." in pieces
  {
    if pieces != [] {
      DotsAreKept(pieces[1..]);
      assert pieces == [pieces[0]] + pieces[1..];
    }
  }

  lemma GoodPathIff(path: string)
    ensures GoodPath(path) <==> !(IsAbsolute(path) || ".." in PathParts(path))
  {
    JoinOfSplit(path, '/');
    DotsAreKept(Split(path, '/'));
    if path != "" { assert path[..1] == [path[0]]; }
  }

  lemma GoodShaIff(sha: string)
    ensures GoodSha(sha) <==> HexDigits64(sha)
  {
    forall i | 0 <= i < |sha| { HexIff(sha[i]); }
  }

  /** The checks of an entry, each made only if the ones before it pass. */
  lemma EntryChecks(e: Entry)
    ensures ValidateEntry(e) ==
            if e.stage !in {"raw_capture", "normalized", "canonical", "run_inputs"} then Some(UnknownStage(e.name))
            else if !GoodSha(e.sha256) then Some(BadSha256(e.name))
            else if !GoodPath(e.localPath) then Some(BadLocalPath(e.name))
            else if !GoodEntry(e) then Some(NegativeRows(e.name))
            else None
  {
    GoodShaIff(e.sha256);
    GoodPathIff(e.localPath);
  }

  /** A valid manifest has entries, all good and no two with a name, path or uri in common. */
  lemma ValidManifestIff(entries: seq<Entry>)
    ensures ValidManifest(entries) <==>
            && entries != []
            && (forall i :: 0 <= i < |entries| ==> GoodEntry(entries[i]))
            && (forall i, j :: 0 <= i < j < |entries| ==> !Clash(entries[i], entries[j]))
  {
    forall i | 0 <= i < |entries| ensures ValidateEntry(entries[i]).None? <==> GoodEntry(entries[i]) { EntryChecks(entries[i]); }
    if forall i, j :: 0 <= i < j < |entries| ==> !Clash(entries[i], entries[j]) {
      assert Distinct(Names(entries)) && Distinct(LocalPaths(entries)) && Distinct(Uris(entries)) by {
        forall i, j | 0 <= i < j < |entries| ensures
            entries[i].name != entries[j].name && entries[i].localPath != entries[j].localPath && entries[i].uri != entries[j].uri
        {
          assert !Clash(entries[i], entries[j]);
        }
      }
    }
    if ValidManifest(entries) {
      forall i, j | 0 <= i < j < |entries| ensures !Clash(entries[i], entries[j]) {
        assert Names(entries)[i] != Names(entries)[j] && LocalPaths(entries)[i] != LocalPaths(entries)[j];
        assert Uris(entries)[i] != Uris(entries)[j];
      }
    }
  }
}
