/**
 The artifact stores (src/regime_data_fetch/artifact_store.py). The two store classes differ in how they address
 objects and in whose word they take for an object's sha, so they are one class over a backend.
 */
module ArtifactStore {
  import opened Wrappers
  import opened Strings
  import opened ArtifactKeys
  import opened StoreUris
  import opened LocalUris
  import opened CanonicalParquet

  /** An object; `recordedSha` is the user metadata an S3 upload carries, unused by the local store. */
  datatype StoredObject = StoredObject(bytes: Bytes, recordedSha: Option<string>)

  type Objects = map<string, StoredObject>

  datatype Backend = LocalBackend(local: LocalAddress) | S3Backend(s3: S3Address) {
    /** `_relative_key`. */
    function RelativeKey(text: string): Result<string, KeyError> {
      match this
      case LocalBackend(local) => local.RelativeKey(text)
      case S3Backend(s3) => s3.RelativeKey(text)
    }

    /** `_uri_for_key`. */
    function UriForKey(key: string): string {
      match this
      case LocalBackend(local) => local.UriForKey(key)
      case S3Backend(s3) => s3.UriForKey(key)
    }

    /** Where an object with a relative key lives: a file path, or an object key of the bucket. */
    function Location(key: string): string {
      match this
      case LocalBackend(local) => Render(Collapse(local.root + PathParts(key)))
      case S3Backend(s3) => s3.ObjectKey(key)
    }

    /** The location an URI or key leads to. */
    function Locate(text: string): Result<string, KeyError> {
      match RelativeKey(text)
      case Err(e) => Err(e)
      case Ok(key) => Ok(Location(key))
    }

    /** The sha the store reports for an object: computed from the file, or read from the metadata. */
    function ReportedSha(sha: Bytes -> string, o: StoredObject): Option<string> {
      if LocalBackend? then Some(sha(o.bytes)) else o.recordedSha
    }

    /** The object counts as holding the same content as the one to be put. */
    predicate SameContent(sha: Bytes -> string, o: StoredObject, payload: Bytes) {
      ReportedSha(sha, o) == Some(sha(payload)) && (S3Backend? ==> |o.bytes| == |payload|)
    }
  }

  datatype StoreError = BadKey(reason: KeyError) | OverwriteRefused | NotFound | HashMismatch | NoSuchSource

  /** What a put returns. */
  datatype Stored = Stored(uri: string, sha256: string, size: nat)

  datatype CheckStatus = Match | Drift | Missing | Unverifiable

  datatype CheckResult = CheckResult(status: CheckStatus, observedSha: Option<string>)

  /** What a put answers. */
  function PutResult(backend: Backend, sha: Bytes -> string, objects: Objects, payload: Bytes, key: string, overwrite: bool)
    : Result<Stored, StoreError>
  {
    match backend.RelativeKey(key)
    case Err(e) => Err(BadKey(e))
    case Ok(relative) =>
      var location := backend.Location(relative);
      if location in objects && !backend.SameContent(sha, objects[location], payload) && !overwrite then Err(OverwriteRefused)
      else Ok(Stored(backend.UriForKey(relative), sha(payload),
                     if location in objects && backend.SameContent(sha, objects[location], payload)
                     then |objects[location].bytes| else |payload|))
  }

  /** What a put leaves behind. */
  function PutObjects(backend: Backend, sha: Bytes -> string, objects: Objects, payload: Bytes, key: string, overwrite: bool): Objects {
    match backend.Locate(key)
    case Err(_) => objects
    case Ok(location) =>
      if location in objects && (backend.SameContent(sha, objects[location], payload) || !overwrite) then objects
      else objects[location := StoredObject(payload, Some(sha(payload)))]
  }

  /** The pin (uri, sha) resolves: fetching it yields bytes with that sha. */
  predicate Resolves(backend: Backend, sha: Bytes -> string, objects: Objects, uri: string, expected: string) {
    match backend.Locate(uri)
    case Err(_) => false
    case Ok(location) => location in objects && sha(objects[location].bytes) == expected
  }

  /** A file that the caller has hashed already, with the sha it found. */
  datatype Hint = Hint(path: string, sha: string)

  /** The local store takes the caller's word for an object that is the very file the caller hashed. */
  predicate IsHinted(backend: Backend, location: string, hint: Option<Hint>) {
    backend.LocalBackend? && hint.Some? && hint.value.path == "/" + location
  }

  /** What `check_file` answers. */
  function CheckHinted(backend: Backend, sha: Bytes -> string, objects: Objects, uri: string, expected: string, hint: Option<Hint>)
    : Result<CheckResult, StoreError>
  {
    match backend.Locate(uri)
    case Err(e) => Err(BadKey(e))
    case Ok(location) =>
      if location !in objects then Ok(CheckResult(Missing, None))
      else
        match if IsHinted(backend, location, hint) then Some(hint.value.sha) else backend.ReportedSha(sha, objects[location])
        case None => Ok(CheckResult(Unverifiable, None))
        case Some(observed) => Ok(CheckResult(if observed == expected then Match else Drift, Some(observed)))
  }

  /** The same without a hint. */
  function Check(backend: Backend, sha: Bytes -> string, objects: Objects, uri: string, expected: string): Result<CheckResult, StoreError> {
    CheckHinted(backend, sha, objects, uri, expected, None)
  }

  /** Local files, which fetchers and the publisher rewrite. */
  class Workspace {
    var files: map<string, Bytes>

    constructor (files: map<string, Bytes>)
      ensures this.files == files
    {
      this.files := files;
    }
  }

  class Store {
    const backend: Backend
    const sha: Bytes -> string
    var objects: Objects

    constructor (backend: Backend, sha: Bytes -> string)
      ensures this.backend == backend && this.sha == sha && objects == map[]
    {
      this.backend, this.sha := backend, sha;
      objects := map[];
    }

    /**
     `_existing_or_raise`. What is reused is described as if it had just been put, and in a truthful store its bytes have
     the payload's sha; the put is refused exactly if going on would change an object without leave to overwrite.
     */
    method ExistingOrRaise(location: string, relative: string, payload: Bytes, overwrite: bool)
      returns (result: Result<Option<Stored>, StoreError>)
      ensures result.Ok? && result.value.Some? ==>
        && result.value.value.uri == backend.UriForKey(relative) && result.value.value.sha256 == sha(payload)
        && location in objects && result.value.value.size == |objects[location].bytes|
        && (Truthful(backend, sha, objects) ==> sha(objects[location].bytes) == sha(payload))
      ensures result.Err? <==> !overwrite && location in objects && !backend.SameContent(sha, objects[location], payload)
      ensures result.Err? ==> result.error == OverwriteRefused
      ensures result == Ok(None) ==> AppendOnly(objects, objects[location := StoredObject(payload, Some(sha(payload)))]) || overwrite
      ensures result.Ok? ==> (result.value.Some? <==> location in objects && backend.SameContent(sha, objects[location], payload))
    {
      if location !in objects {
        return Ok(None);
      }
      var existing := objects[location];
      if backend.SameContent(sha, existing, payload) {
        return Ok(Some(Stored(backend.UriForKey(relative), sha(payload), |existing.bytes|)));
      }
      if !overwrite {
        return Err(OverwriteRefused);
      }
      return Ok(None);
    }

    /** `put_bytes`, and `put_file` once the source has been read. */
    method PutBytes(payload: Bytes, key: string, overwrite: bool) returns (result: Result<Stored, StoreError>)
      modifies this
      ensures result == PutResult(backend, sha, old(objects), payload, key, overwrite)
      ensures objects == PutObjects(backend, sha, old(objects), payload, key, overwrite)
    {
      var relative := backend.RelativeKey(key);
      if relative.Err? {
        return Err(BadKey(relative.error));
      }
      var location := backend.Location(relative.value);
      var existing := ExistingOrRaise(location, relative.value, payload, overwrite);
      if existing.Err? {
        return Err(existing.error);
      }
      if existing.value.Some? {
        return Ok(existing.value.value);
      }
      objects := objects[location := StoredObject(payload, Some(sha(payload)))];
      return Ok(Stored(backend.UriForKey(relative.value), sha(payload), |payload|));
    }

    /** `put_file`. */
    method PutFile(workspace: Workspace, source: string, key: string, overwrite: bool) returns (result: Result<Stored, StoreError>)
      modifies this
      ensures source !in workspace.files ==> result == Err(NoSuchSource) && objects == old(objects)
      ensures source in workspace.files ==>
        && result == PutResult(backend, sha, old(objects), workspace.files[source], key, overwrite)
        && objects == PutObjects(backend, sha, old(objects), workspace.files[source], key, overwrite)
    {
      if source !in workspace.files {
        return Err(NoSuchSource);
      }
      result := PutBytes(workspace.files[source], key, overwrite);
    }

    /** `get_file`: the destination changes only once the bytes are known to have the expected sha. */
    method GetFile(workspace: Workspace, uri: string, destination: string, expected: string) returns (result: Result<(), StoreError>)
      modifies workspace
      ensures result.Ok? <==> Resolves(backend, sha, objects, uri, expected)
      ensures result.Err? ==> workspace.files == old(workspace.files)
      ensures result.Ok? ==>
        workspace.files == old(workspace.files)[destination := objects[backend.Locate(uri).value].bytes]
      ensures result.Ok? ==> sha(workspace.files[destination]) == expected
    {
      var relative := backend.RelativeKey(uri);
      if relative.Err? {
        return Err(BadKey(relative.error));
      }
      var location := backend.Location(relative.value);
      if location !in objects {
        return Err(NotFound);
      }
      var copied := objects[location].bytes;
      if sha(copied) != expected {
        return Err(HashMismatch);
      }
      workspace.files := workspace.files[destination := copied];
      return Ok(());
    }

    /** `check_file`. */
    method CheckFile(uri: string, expected: string, hint: Option<Hint>) returns (result: Result<CheckResult, StoreError>)
      ensures result == CheckHinted(backend, sha, objects, uri, expected, hint)
      ensures Truthful(backend, sha, objects) && TrueHint(backend, sha, objects, uri, hint) && result.Ok? ==>
        && (result.value.status == Match ==> Resolves(backend, sha, objects, uri, expected))
        && (result.value.status == Drift || result.value.status == Missing ==> !Resolves(backend, sha, objects, uri, expected))
    {
      var relative := backend.RelativeKey(uri);
      if relative.Err? {
        return Err(BadKey(relative.error));
      }
      var location := backend.Location(relative.value);
      if location !in objects {
        return Ok(CheckResult(Missing, None));
      }
      var digest: Option<string>;
      if IsHinted(backend, location, hint) {
        digest := Some(hint.value.sha);
      } else {
        digest := backend.ReportedSha(sha, objects[location]);
      }
      if digest.None? {
        return Ok(CheckResult(Unverifiable, None));
      }
      return Ok(CheckResult(if digest.value == expected then Match else Drift, digest));
    }
  }

  /** A hint about the file of a local store that is the object itself tells its sha. */
  predicate TrueHint(backend: Backend, sha: Bytes -> string, objects: Objects, uri: string, hint: Option<Hint>) {
    backend.LocalBackend? && hint.Some? && backend.Locate(uri).Ok? && backend.Locate(uri).value in objects
    && hint.value.path == "/" + backend.Locate(uri).value ==>
      hint.value.sha == sha(objects[backend.Locate(uri).value].bytes)
  }

  /** A hint that tells the truth about the object, or that is about anything else, does not change the answer. */
  lemma TrueHintAgrees(backend: Backend, sha: Bytes -> string, objects: Objects, uri: string, expected: string, hint: Option<Hint>)
    requires TrueHint(backend, sha, objects, uri, hint)
    ensures CheckHinted(backend, sha, objects, uri, expected, hint) == Check(backend, sha, objects, uri, expected)
  {
  }

  // ---------------------------------------------------------------------------
  // Properties of puts

  /** Without `overwrite`, a put never changes an object that is there. */
  predicate AppendOnly(before: Objects, after: Objects) {
    forall location :: location in before ==> location in after && after[location] == before[location]
  }

  lemma PutIsAppendOnly(backend: Backend, sha: Bytes -> string, objects: Objects, payload: Bytes, key: string)
    ensures AppendOnly(objects, PutObjects(backend, sha, objects, payload, key, false))
  {
  }

  lemma AppendKeepsPins(backend: Backend, sha: Bytes -> string, before: Objects, after: Objects, uri: string, expected: string)
    requires AppendOnly(before, after) && Resolves(backend, sha, before, uri, expected)
    ensures Resolves(backend, sha, after, uri, expected)
  {
  }

  /** Every object the S3 store will vouch for was recorded with its true sha. */
  predicate Truthful(backend: Backend, sha: Bytes -> string, objects: Objects) {
    backend.S3Backend? ==>
      forall location :: location in objects && objects[location].recordedSha.Some? ==>
        objects[location].recordedSha == Some(sha(objects[location].bytes))
  }

  /** A successful put makes the key resolve to the put bytes' sha, and the store then reports a match. */
  lemma PutResolves(backend: Backend, sha: Bytes -> string, objects: Objects, payload: Bytes, key: string)
    requires Truthful(backend, sha, objects)
    requires PutResult(backend, sha, objects, payload, key, false).Ok?
    ensures var after := PutObjects(backend, sha, objects, payload, key, false);
            && Truthful(backend, sha, after)
            && Resolves(backend, sha, after, key, sha(payload))
            && Check(backend, sha, after, key, sha(payload)) == Ok(CheckResult(Match, Some(sha(payload))))
  {
  }

  /**
   After a put that returned, with or without overwriting, the object at the key's place has the payload's sha and the reported
   size, and is the payload unless one of that sha was there; no other object has changed.
   */
  lemma PutPlaces(backend: Backend, sha: Bytes -> string, objects: Objects, payload: Bytes, key: string, overwrite: bool)
    requires Truthful(backend, sha, objects) && PutResult(backend, sha, objects, payload, key, overwrite).Ok?
    ensures backend.Locate(key).Ok?
    ensures var put, place := PutResult(backend, sha, objects, payload, key, overwrite).value, backend.Locate(key).value;
            var after := PutObjects(backend, sha, objects, payload, key, overwrite);
            && place in after && sha(after[place].bytes) == sha(payload) == put.sha256 && put.size == |after[place].bytes|
            && (backend.S3Backend? ==> put.size == |payload|)
            && (after[place].bytes == payload || (place in objects && after[place] == objects[place]))
            && (place in objects && sha(objects[place].bytes) != sha(payload) ==> overwrite && after[place].bytes == payload)
            && forall other :: other != place ==>
                 (other in after <==> other in objects) && (other in objects ==> after[other] == objects[other])
  {
  }

  predicate ValidBackend(backend: Backend) {
    match backend
    case LocalBackend(local) => local.Valid()
    case S3Backend(s3) => s3.Valid()
  }

  /** A normalised key that is no URI, and that does not climb in a local store. */
  predicate PlainKey(backend: Backend, key: string) {
    Normalized(key) && Lacks(key, ':') && (backend.LocalBackend? ==> ".." !in PathParts(key))
  }

  lemma {:induction false} CleanedLacks(s: string, c: char)
    requires Lacks(s, c)
    ensures Lacks(Cleaned(s), c)
  {
    if s != "" { CleanedLacks(s[1..], c); }
  }

  lemma {:induction false} SkippedLacks(s: string, c: char)
    requires Lacks(s, c)
    ensures Lacks(SkipBlanks(s), c)
  {
    if s != "" { SkippedLacks(s[1..], c); }
  }

  lemma PlainHasNoScheme(text: string)
    requires Lacks(text, ':')
    ensures UrlParse(text).scheme == ""
  {
    SkippedLacks(text, ':');
    CleanedLacks(SkipBlanks(text), ':');
  }

  /** The place of a plain key: below the prefix, or below the root. */
  lemma PlainPlace(backend: Backend, key: string)
    requires ValidBackend(backend) && PlainKey(backend, key)
    ensures backend.Locate(key) == Ok(backend.Location(key))
    ensures backend.S3Backend? ==> backend.Location(key) == (if backend.s3.prefix == "" then key else backend.s3.prefix + "/" + key)
    ensures backend.LocalBackend? ==> backend.Location(key) == Render(backend.local.root + PathParts(key))
  {
    PlainHasNoScheme(key);
    if backend.S3Backend? { S3Object(backend.s3, key); }
  }

  lemma PartsBelow(root: seq<string>, k1: string, k2: string)
    requires CleanParts(root) && Render(root + PathParts(k1)) == Render(root + PathParts(k2))
    ensures PathParts(k1) == PathParts(k2)
  {
    RenderInjective(root + PathParts(k1), root + PathParts(k2));
    assert PathParts(k1) == (root + PathParts(k1))[|root|..] == PathParts(k2);
  }

  lemma TextBelow(head: string, k1: string, k2: string)
    requires head + k1 == head + k2
    ensures k1 == k2
  {
    assert k1 == (head + k1)[|head|..] && k2 == (head + k2)[|head|..];
  }

  lemma SamePlaceSameKey(backend: Backend, k1: string, k2: string)
    requires ValidBackend(backend) && PlainKey(backend, k1) && PlainKey(backend, k2)
    requires backend.Location(k1) == backend.Location(k2)
    ensures k1 == k2
  {
    PlainPlace(backend, k1);
    PlainPlace(backend, k2);
    if backend.LocalBackend? {
      PartsBelow(backend.local.root, k1, k2);
      NormalizedIff(k1);
      NormalizedIff(k2);
    } else if backend.s3.prefix != "" {
      TextBelow(backend.s3.prefix + "/", k1, k2);
    }
  }

  /** Different plain keys lead to different places. */
  lemma PlacesDistinct(backend: Backend, k1: string, k2: string)
    requires ValidBackend(backend) && PlainKey(backend, k1) && PlainKey(backend, k2)
    ensures backend.Locate(k1).Ok? && backend.Locate(k2).Ok?
    ensures backend.Locate(k1) == backend.Locate(k2) <==> k1 == k2
  {
    PlainPlace(backend, k1);
    PlainPlace(backend, k2);
    if backend.Location(k1) == backend.Location(k2) { SamePlaceSameKey(backend, k1, k2); }
  }

  /** A store refuses the URIs of the other one, and the S3 store those of other buckets. */
  lemma ForeignUriRefused(backend: Backend, netloc: string, tail: string)
    requires forall i :: 0 <= i < |netloc| ==> PlainBucketChar(netloc[i])
    ensures backend.S3Backend? ==> backend.Locate("file" + "://" + netloc + "/" + tail) == Err(UnsupportedScheme)
    ensures backend.LocalBackend? ==> backend.Locate("s3" + "://" + netloc + "/" + tail) == Err(UnsupportedScheme)
    ensures backend.S3Backend? && netloc != backend.s3.bucket ==>
              backend.Locate("s3" + "://" + netloc + "/" + tail) == Err(WrongBucket)
  {
    ParseHierarchical("file", netloc, tail);
    ParseHierarchical("s3", netloc, tail);
  }

  /** A torn copy under a fresh key wedges it: from then on every put of other content is refused. */
  lemma TornObjectWedgesKey(backend: Backend, sha: Bytes -> string, objects: Objects, location: string, torn: Bytes,
                            payload: Bytes, key: string)
    requires backend.LocalBackend? && backend.Locate(key) == Ok(location)
    requires sha(torn) != sha(payload)
    ensures var wedged := objects[location := StoredObject(torn, None)];
            && PutResult(backend, sha, wedged, payload, key, false) == Err(OverwriteRefused)
            && PutObjects(backend, sha, wedged, payload, key, false) == wedged
  {
  }

  // ---------------------------------------------------------------------------
  // A source that is rewritten while it is put

  /** What `put_file` leaves behind without `overwrite` if the source held other bytes by the time it was copied or uploaded. */
  function CopyObjects(backend: Backend, sha: Bytes -> string, objects: Objects, hashed: Bytes, copied: Bytes, key: string): Objects {
    match backend.Locate(key)
    case Err(_) => objects
    case Ok(location) =>
      if location in objects then objects else objects[location := StoredObject(copied, Some(sha(hashed)))]
  }

  /** The copy did no harm: nothing was copied, or bytes with the sha that had been taken. */
  predicate FaithfulCopy(backend: Backend, sha: Bytes -> string, objects: Objects, hashed: Bytes, copied: Bytes, key: string) {
    match backend.Locate(key)
    case Err(_) => true
    case Ok(location) => location in objects || sha(copied) == sha(hashed)
  }

  /**
   A rewrite between hashing and copying leaves a pin that resolves exactly if the copy is faithful. Otherwise the local
   store reports the drift, while the S3 store reports a match all the same: it vouches for bytes it never saw.
   */
  lemma RewriteDuringPut(backend: Backend, sha: Bytes -> string, objects: Objects, hashed: Bytes, copied: Bytes, key: string)
    requires Truthful(backend, sha, objects) && PutResult(backend, sha, objects, hashed, key, false).Ok?
    ensures var after := CopyObjects(backend, sha, objects, hashed, copied, key);
            var faithful := FaithfulCopy(backend, sha, objects, hashed, copied, key);
            && AppendOnly(objects, after)
            && (copied == hashed ==> after == PutObjects(backend, sha, objects, hashed, key, false))
            && (Resolves(backend, sha, after, key, sha(hashed)) <==> faithful)
            && (Truthful(backend, sha, after) <==> backend.LocalBackend? || faithful)
            && (Check(backend, sha, after, key, sha(hashed)) == Ok(CheckResult(Match, Some(sha(hashed)))) <==>
                backend.S3Backend? || faithful)
  {
    var after := CopyObjects(backend, sha, objects, hashed, copied, key);
    var location := backend.Locate(key).value;
    assert location in after;
  }
}
