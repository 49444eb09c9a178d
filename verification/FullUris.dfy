/** Manifest entries whose `uri` is a full "s3://" URI instead of a key: publishing cannot upload them once they change. */
module FullUris {
  import opened Wrappers
  import opened Strings
  import opened ArtifactKeys
  import opened StoreUris
  import opened ArtifactStore
  import opened ArtifactManifest
  import opened CanonicalParquet
  import opened PublishSnapshot
  import opened PublishProperties

  /** A URI of an object, with a bucket name as S3 allows them. */
  predicate FullUri(uri: string, bucket: string, key: string) {
    && uri == "s3:" + "/" + ("" + "/" + (bucket + "/" + key)) && PathParts(key) != []
    && bucket != "" && bucket != "." && forall i :: 0 <= i < |bucket| ==> PlainBucketChar(bucket[i])
  }

  /** What stands before a slash is one component, unless parsing drops it. */
  lemma PathCons(head: string, tail: string)
    requires Lacks(head, '/')
    ensures PathParts(head + "/" + tail) == if head == "" || head == "." then PathParts(tail) else [head] + PathParts(tail)
  {
    SplitCons(head, tail);
    KeepCons(head, Split(tail, '/'));
  }

  lemma SplitCons(head: string, tail: string)
    requires Lacks(head, '/')
    ensures Split(head + "/" + tail, '/') == [head] + Split(tail, '/')
    ensures forall i :: 0 <= i < |Split(tail, '/')| ==> Lacks(Split(tail, '/')[i], '/')
  {
    var s := head + "/" + tail;
    FirstIndexIs(s, '/', |head|);
    assert s[..|head|] == head && s[|head| + 1..] == tail;
    JoinOfSplit(tail, '/');
  }

  lemma KeepCons(head: string, rest: seq<string>)
    requires Lacks(head, '/') && forall i :: 0 <= i < |rest| ==> Lacks(rest[i], '/')
    ensures KeepClean([head] + rest) == if head == "" || head == "." then KeepClean(rest) else [head] + KeepClean(rest)
  {
    assert ([head] + rest)[1..] == rest;
  }

  lemma FullUriParts(uri: string, bucket: string, key: string)
    requires FullUri(uri, bucket, key)
    ensures PathParts(uri) == ["s3:"] + ([bucket] + PathParts(key))
  {
    PathOfThree("s3:", bucket, key);
  }

  lemma PathOfThree(first: string, second: string, key: string)
    requires CleanPart(first) && CleanPart(second)
    ensures PathParts(first + "/" + ("" + "/" + (second + "/" + key))) == [first] + ([second] + PathParts(key))
  {
    var inner := second + "/" + key;
    var middle := "" + "/" + inner;
    assert PathParts(inner) == [second] + PathParts(key) by { PathCons(second, key); }
    assert PathParts(middle) == PathParts(inner) by { PathCons("", inner); }
    PathCons(first, middle);
  }

  /** The components of a mangled URI: "s3:" first, and then a component that starts like a bucket name. */
  predicate Mangled(parts: seq<string>) {
    CleanParts(parts) && |parts| >= 2 && parts[0] == "s3:" && PlainBucketChar(parts[1][0])
  }

  lemma FullUriIsMangled(uri: string, bucket: string, key: string)
    requires FullUri(uri, bucket, key)
    ensures Mangled(PathParts(uri)) && |PathParts(uri)| >= 3
  {
    FullUriParts(uri, bucket, key);
  }

  /** Parsing may read any number of components from the last piece, but keeps those before it. */
  lemma {:induction false} PathOfJoin(front: seq<string>, last: string)
    requires CleanParts(front)
    ensures PathParts(Join(front + [last], '/')) == front + PathParts(last)
  {
    if front == [] {
      assert front + [last] == [last];
    } else {
      PathOfJoin(front[1..], last);
      JoinFront(front, last);
      PathCons(front[0], Join(front[1..] + [last], '/'));
      FrontAgain(front, PathParts(last));
    }
  }

  lemma JoinFront(front: seq<string>, last: string)
    requires front != []
    ensures Join(front + [last], '/') == front[0] + "/" + Join(front[1..] + [last], '/')
  {
    assert (front + [last])[1..] == front[1..] + [last];
  }

  lemma FrontAgain(front: seq<string>, tail: seq<string>)
    requires front != []
    ensures [front[0]] + (front[1..] + tail) == front + tail
  {
  }

  lemma StillMangled(parts: seq<string>, last: string)
    requires Mangled(parts) && |parts| >= 3
    ensures Mangled(PathParts(Render(Replaced(parts, last))))
  {
    PathOfJoin(parts[..|parts| - 1], last);
  }

  lemma MintMangled(parts: seq<string>, sha: string)
    requires Mangled(parts) && ShaMatch(sha)
    ensures Mangled(Replaced(parts, MintName(FileName(parts), sha)))
  {
    var name := FileName(parts);
    MintedNameClean(name, sha);
    MintKeepsFirst(name, sha);
  }

  lemma MintKeepsFirst(name: string, sha: string)
    requires name != ""
    ensures MintName(name, sha)[0] == name[0]
  {
    assert Stem(name) != "" && Stem(name)[0] == name[0];
  }

  /** What the publisher makes of a full URI. */
  lemma MintedFullUri(uri: string, bucket: string, key: string, sha: string) returns (parts: seq<string>)
    requires FullUri(uri, bucket, key) && MintedUri(uri, sha).Ok?
    ensures Mangled(parts) && MintedUri(uri, sha) == Ok(Render(parts))
  {
    var found := PathParts(uri);
    FullUriIsMangled(uri, bucket, key);
    var logical := Render(Replaced(found, StripName(FileName(found))));
    assert StripContentAddress(uri) == Ok(logical) by { StripReads(uri); }
    StillMangled(found, StripName(FileName(found)));
    parts := Replaced(PathParts(logical), MintName(FileName(PathParts(logical)), sha));
    MintedKey(logical, sha);
    MintMangled(PathParts(logical), sha);
  }

  lemma StripReads(uri: string)
    requires StripContentAddress(uri).Ok? && PathParts(uri) != []
    ensures StripContentAddress(uri).value == Render(Replaced(PathParts(uri), StripName(FileName(PathParts(uri)))))
  {
    NormalizedIff(uri);
    PartsOfRender(PathParts(uri));
    StripPartsRenders(PathParts(uri));
  }

  lemma CleanedHead(c: char, rest: string)
    requires !Dropped(c)
    ensures Cleaned("s3" + ":" + ("/" + [c] + rest)) == "s3" + ":" + ("/" + [c] + Cleaned(rest))
  {
    var head := "s3:/" + [c];
    assert "s3" + ":" + ("/" + [c] + rest) == head + rest;
    CleanedPrefix(head, rest);
    assert "s3" + ":" + ("/" + [c] + Cleaned(rest)) == head + Cleaned(rest);
  }

  /** One slash after the scheme opens no authority. */
  lemma NoAuthority(c: char, rest: string)
    requires c != '/'
    ensures UrlAfterScheme("s3", "/" + [c] + rest).scheme == "s3" && UrlAfterScheme("s3", "/" + [c] + rest).netloc == ""
  {
    assert ("/" + [c] + rest)[1] == c;
  }

  lemma OneSlashUrl(c: char, rest: string)
    requires PlainBucketChar(c)
    ensures var text := "s3" + ":" + ("/" + [c] + rest); UrlParse(text).scheme == "s3" && UrlParse(text).netloc == ""
  {
    var text := "s3" + ":" + ("/" + [c] + rest);
    assert text[0] == 's';
    assert SkipBlanks(text) == text;
    CleanedHead(c, rest);
    ParseScheme("s3", "/" + [c] + Cleaned(rest));
    NoAuthority(c, Cleaned(rest));
  }

  lemma MangledText(parts: seq<string>) returns (rest: string)
    requires Mangled(parts)
    ensures Render(parts) == "s3" + ":" + ("/" + [parts[1][0]] + rest)
  {
    var tail := Join(parts[1..], '/');
    assert Render(parts) == "s3:" + "/" + tail;
    assert tail != "" && tail[0] == parts[1][0];
    rest := tail[1..];
    assert tail == [tail[0]] + rest;
  }

  /** A mangled URI has the scheme "s3" and no bucket. */
  lemma MangledIsRefused(backend: Backend, parts: seq<string>)
    requires Mangled(parts) && (backend.S3Backend? ==> backend.s3.bucket != "")
    ensures backend.RelativeKey(Render(parts)) == Err(if backend.S3Backend? then WrongBucket else UnsupportedScheme)
  {
    var rest := MangledText(parts);
    OneSlashUrl(parts[1][0], rest);
  }

  /**
   A publish with upload never changes an entry that carries a full URI, and puts nothing for it; if the content has changed,
   the publish ends there with an error. Neither store accepts what minting makes of such a URI.
   */
  lemma FullUriIsNeverUploaded(env: Env, w: World, e: Entry, bucket: string, key: string)
    requires FullUri(e.uri, bucket, key) && (env.backend.S3Backend? ==> env.backend.s3.bucket != "")
    ensures var step := PublishEntry(env, true, w, e);
            && step.entry == e && step.world.objects == w.objects
            && (LocalFile(env, e) in w.files ==>
                  var d := DigestAt(env, LocalFile(env, e), w.files[LocalFile(env, e)]);
                  step.outcome.Ok? ==> d.Ok? && d.value.sha == e.sha256)
  {
    var reached, v, path, d := EntryReaches(env, true, w, e);
    if reached {
      ReachedEntry(env, true, w, v, e, path, d);
      DigestRefused(env, v, e, path, d, bucket, key);
    }
  }

  lemma DigestRefused(env: Env, w: World, e: Entry, path: string, d: Digest, bucket: string, key: string)
    requires path in w.files && FullUri(e.uri, bucket, key) && (env.backend.S3Backend? ==> env.backend.s3.bucket != "")
    ensures var step := PublishDigest(env, true, w, e, path, d);
            step.entry == e && step.world.objects == w.objects && (step.outcome.Ok? ==> d.sha == e.sha256)
  {
    if MintedUri(e.uri, d.sha).Ok? {
      var parts := MintedFullUri(e.uri, bucket, key, d.sha);
      MangledIsRefused(env.backend, parts);
    }
    RefusedRound(env, w, e, path, d);
  }

  lemma RefusedRound(env: Env, w: World, e: Entry, path: string, d: Digest)
    requires path in w.files && (MintedUri(e.uri, d.sha).Ok? ==> env.backend.RelativeKey(MintedUri(e.uri, d.sha).value).Err?)
    ensures var step := PublishDigest(env, true, w, e, path, d);
            step.entry == e && step.world.objects == w.objects && (step.outcome.Ok? ==> d.sha == e.sha256)
  {
  }
}
