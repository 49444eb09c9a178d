/**
 How the local and the S3 store turn keys into URIs and back (src/regime_data_fetch/artifact_store.py:
 `_uri_for_key`, `_relative_key` and the helpers below them), with `urllib.parse` and `Path.as_uri` written out.
 */
module StoreUris {
  import opened Wrappers
  import opened Strings
  import opened ArtifactKeys

  // ---------------------------------------------------------------------------
  // urllib.parse

  predicate SchemeChar(c: char) {
    'a' <= c <= 'z' || 'A' <= c <= 'Z' || '0' <= c <= '9' || c == '+' || c == '-' || c == '.'
  }

  /** `urlsplit` drops tabs and line ends wherever they stand. */
  predicate Dropped(c: char) {
    c == '\t' || c == '\r' || c == '\n'
  }

  function Cleaned(s: string): string {
    if s == "" then "" else (if Dropped(s[0]) then "" else [s[0]]) + Cleaned(s[1..])
  }

  /** It also ignores leading blanks and control characters. */
  function SkipBlanks(s: string): string {
    if s != "" && s[0] <= ' ' then SkipBlanks(s[1..]) else s
  }

  datatype Url = Url(scheme: string, netloc: string, path: string)

  predicate EndsNetloc(c: char) {
    c == '/' || c == '?' || c == '#'
  }

  function NetlocLength(s: string): (n: nat)
    ensures n <= |s|
  {
    if s == "" || EndsNetloc(s[0]) then 0 else NetlocLength(s[1..]) + 1
  }

  function PathLength(s: string): (n: nat)
    ensures n <= |s|
  {
    if s == "" || s[0] == '?' || s[0] == '#' then 0 else PathLength(s[1..]) + 1
  }

  function UrlAfterScheme(scheme: string, rest: string): Url {
    if StartsWith(rest, "//") then
      var n := NetlocLength(rest[2..]);
      var tail := rest[2 + n..];
      Url(scheme, rest[2..2 + n], tail[..PathLength(tail)])
    else Url(scheme, "", rest[..PathLength(rest)])
  }

  predicate HasScheme(url: string) {
    var colon := FirstIndex(url, ':');
    && 0 < colon < |url|
    && ('a' <= url[0] <= 'z' || 'A' <= url[0] <= 'Z')
    && forall i :: 0 <= i < colon ==> SchemeChar(url[i])
  }

  function UrlParse(text: string): Url {
    var url := Cleaned(SkipBlanks(text));
    if HasScheme(url) then UrlAfterScheme(LowerText(url[..FirstIndex(url, ':')]), url[FirstIndex(url, ':') + 1..])
    else UrlAfterScheme("", url)
  }

  // ---------------------------------------------------------------------------
  // S3

  /** An S3 store: bucket names are plain, and the prefix came out of a URL path with its slashes stripped. */
  datatype S3Address = S3Address(bucket: string, prefix: string) {
    predicate Valid() {
      && bucket != "" && (forall i :: 0 <= i < |bucket| ==> PlainBucketChar(bucket[i]))
      && (forall i :: 0 <= i < |prefix| ==> UrlSafe(prefix[i]))
      && StripBoth(prefix, '/') == prefix
    }

    /** `_join_s3_key` of the prefix and a key. */
    function ObjectKey(key: string): string {
      var p, k := StripBoth(prefix, '/'), StripBoth(key, '/');
      if p == "" then k else if k == "" then p else p + "/" + k
    }

    /** `_uri_for_key`. */
    function UriForKey(key: string): string {
      "s3://" + bucket + "/" + ObjectKey(key)
    }

    /** `_normalize_s3_key`. */
    function RelativeKey(text: string): Result<string, KeyError> {
      var url := UrlParse(text);
      if url.scheme == "s3" then
        if url.netloc != bucket then Err(WrongBucket)
        else
          var found := StripBoth(url.path, '/');
          if prefix == "" then NormalizeRelativeKey(found)
          else if found == prefix then Err(OutsideStore)
          else if !StartsWith(found, prefix + "/") then Err(OutsideStore)
          else NormalizeRelativeKey(found[|prefix| + 1..])
      else if url.scheme != "" then Err(UnsupportedScheme)
      else NormalizeRelativeKey(text)
    }
  }

  predicate PlainBucketChar(c: char) {
    'a' <= c <= 'z' || '0' <= c <= '9' || c == '.' || c == '-' || c == '_'
  }

  /** A character a URL path keeps: not cut off as query or fragment, not dropped. */
  predicate UrlSafe(c: char) {
    c != '?' && c != '#' && !Dropped(c)
  }

  predicate AllUrlSafe(s: string) {
    forall i :: 0 <= i < |s| ==> UrlSafe(s[i])
  }

  lemma {:induction false} CleanedIdentityIff(s: string)
    ensures |Cleaned(s)| <= |s|
    ensures Cleaned(s) == s <==> forall i :: 0 <= i < |s| ==> !Dropped(s[i])
    ensures |Cleaned(s)| == |s| ==> Cleaned(s) == s
  {
    if s != "" {
      CleanedIdentityIff(s[1..]);
      assert s == [s[0]] + s[1..];
      if forall i :: 0 <= i < |s[1..]| ==> !Dropped(s[1..][i]) {
        assert !Dropped(s[0]) ==> forall i :: 0 <= i < |s| ==> !Dropped(s[i]);
      }
    }
  }

  lemma {:induction false} CleanedPrefix(a: string, b: string)
    requires forall i :: 0 <= i < |a| ==> !Dropped(a[i])
    ensures Cleaned(a + b) == a + Cleaned(b)
  {
    if a == "" {
      assert a + b == b;
    } else {
      assert (a + b)[1..] == a[1..] + b;
      CleanedPrefix(a[1..], b);
    }
  }

  lemma {:induction false} PathLengthPrefix(a: string, b: string)
    requires forall i :: 0 <= i < |a| ==> a[i] != '?' && a[i] != '#'
    ensures PathLength(a + b) == |a| + PathLength(b)
  {
    if a == "" {
      assert a + b == b;
    } else {
      assert (a + b)[1..] == a[1..] + b;
      PathLengthPrefix(a[1..], b);
    }
  }

  lemma {:induction false} PathLengthFullIff(s: string)
    ensures PathLength(s) == |s| <==> forall i :: 0 <= i < |s| ==> s[i] != '?' && s[i] != '#'
  {
    if s != "" {
      PathLengthFullIff(s[1..]);
      assert s == [s[0]] + s[1..];
    }
  }

  lemma {:induction false} NetlocLengthIs(a: string, b: string)
    requires (forall i :: 0 <= i < |a| ==> !EndsNetloc(a[i])) && b != "" && EndsNetloc(b[0])
    ensures NetlocLength(a + b) == |a|
  {
    if a == "" {
      assert a + b == b;
    } else {
      assert (a + b)[1..] == a[1..] + b;
      NetlocLengthIs(a[1..], b);
    }
  }

  /** What survives of a text in the path of a URL. */
  function Surviving(s: string): string {
    Cleaned(s)[..PathLength(Cleaned(s))]
  }

  lemma SurvivesIff(s: string)
    ensures |Surviving(s)| <= |s|
    ensures Surviving(s) == s <==> AllUrlSafe(s)
    ensures |Surviving(s)| == |s| ==> Surviving(s) == s
  {
    CleanedIdentityIff(s);
    PathLengthFullIff(Cleaned(s));
    if AllUrlSafe(s) {
      assert forall i :: 0 <= i < |s| ==> !Dropped(s[i]);
    }
    if Surviving(s) == s {
      assert |Cleaned(s)| == |s|;
    }
  }

  lemma ParseAuthority(scheme: string, netloc: string, tail: string)
    requires forall i :: 0 <= i < |netloc| ==> PlainBucketChar(netloc[i])
    ensures UrlAfterScheme(scheme, "//" + netloc + "/" + tail) == Url(scheme, netloc, "/" + tail[..PathLength(tail)])
  {
    var rest, after := "//" + netloc + "/" + tail, "/" + tail;
    assert rest[2..] == netloc + after;
    assert rest[2..2 + |netloc|] == netloc && rest[2 + |netloc|..] == after;
    NetlocLengthIs(netloc, after);
    PathLengthPrefix("/", tail);
  }

  lemma ParseScheme(scheme: string, rest: string)
    requires scheme == "s3" || scheme == "file"
    ensures var url := scheme + ":" + rest;
            HasScheme(url) && LowerText(url[..FirstIndex(url, ':')]) == scheme && url[FirstIndex(url, ':') + 1..] == rest
  {
    var url := scheme + ":" + rest;
    FirstIndexIs(url, ':', |scheme|);
    assert url[..|scheme|] == scheme && url[|scheme| + 1..] == rest;
    assert forall i :: 0 <= i < |scheme| ==> url[i] == scheme[i] && SchemeChar(scheme[i]) && !('A' <= scheme[i] <= 'Z');
    assert LowerText(scheme) == scheme;
  }

  lemma CleanedUrl(scheme: string, netloc: string, tail: string)
    requires scheme == "s3" || scheme == "file"
    requires forall i :: 0 <= i < |netloc| ==> PlainBucketChar(netloc[i])
    ensures Cleaned(scheme + "://" + netloc + "/" + tail) == scheme + ":" + ("//" + netloc + "/" + Cleaned(tail))
  {
    var head := scheme + "://" + netloc + "/";
    assert scheme + "://" + netloc + "/" + tail == head + tail;
    assert forall i :: 0 <= i < |head| ==> !Dropped(head[i]);
    CleanedPrefix(head, tail);
    assert head + Cleaned(tail) == scheme + ":" + ("//" + netloc + "/" + Cleaned(tail));
  }

  /** A URL of the form scheme, "://", authority, "/" and a tail parses into those parts. */
  lemma ParseHierarchical(scheme: string, netloc: string, tail: string)
    requires scheme == "s3" || scheme == "file"
    requires forall i :: 0 <= i < |netloc| ==> PlainBucketChar(netloc[i])
    ensures UrlParse(scheme + "://" + netloc + "/" + tail) == Url(scheme, netloc, "/" + Surviving(tail))
  {
    var text := scheme + "://" + netloc + "/" + tail;
    var rest := "//" + netloc + "/" + Cleaned(tail);
    assert text[0] == scheme[0];
    assert SkipBlanks(text) == text;
    CleanedUrl(scheme, netloc, tail);
    ParseScheme(scheme, rest);
    ParseAuthority(scheme, netloc, Cleaned(tail));
  }

  lemma {:induction false} StripIdentity(s: string)
    requires s == "" || (s[0] != '/' && s[|s| - 1] != '/')
    ensures StripBoth(s, '/') == s
  {
  }

  lemma RenderedEnds(parts: seq<string>)
    requires CleanParts(parts)
    ensures Render(parts) != "" && Render(parts)[0] != '/' && Render(parts)[|Render(parts)| - 1] != '/'
  {
    JoinEnds(parts);
  }

  lemma {:induction false} JoinEnds(parts: seq<string>)
    requires CleanParts(parts)
    ensures parts != [] ==> Join(parts, '/') != "" && Join(parts, '/')[0] == parts[0][0]
    ensures parts != [] ==> Join(parts, '/')[|Join(parts, '/')| - 1] == parts[|parts| - 1][|parts[|parts| - 1]| - 1]
  {
    if |parts| > 1 { JoinEnds(parts[1..]); }
  }

  // Lengths: normalising and stripping never make a key longer

  lemma {:induction false} StripShortens(s: string)
    ensures |RightStrip(s, '/')| <= |s| && |LeftStrip(s, '/')| <= |s|
  {
    if s != "" {
      StripShortens(s[1..]);
      StripShortens(s[..|s| - 1]);
    }
  }

  lemma StripBothShortens(s: string)
    ensures |StripBoth("/" + s, '/')| <= |s|
  {
    assert ("/" + s)[1..] == s;
    StripShortens(s);
    StripShortens(LeftStrip(s, '/'));
  }

  lemma {:induction false} KeepCleanShortens(pieces: seq<string>)
    requires forall i :: 0 <= i < |pieces| ==> Lacks(pieces[i], '/')
    ensures |Join(KeepClean(pieces), '/')| <= |Join(pieces, '/')|
  {
    if pieces != [] {
      KeepCleanShortens(pieces[1..]);
      var rest := KeepClean(pieces[1..]);
      if |pieces| == 1 { assert rest == []; }
      if pieces[0] != "" && pieces[0] != "." {
        assert KeepClean(pieces) == [pieces[0]] + rest;
        assert ([pieces[0]] + rest)[1..] == rest;
      } else {
        assert KeepClean(pieces) == rest;
      }
    }
  }

  lemma NormalizeShortens(key: string)
    requires NormalizeRelativeKey(key).Ok? && NormalizeRelativeKey(key).value != "."
    ensures |NormalizeRelativeKey(key).value| <= |key|
  {
    JoinOfSplit(key, '/');
    KeepCleanShortens(Split(key, '/'));
  }

  // ---------------------------------------------------------------------------
  // The S3 round trip

  function Head(store: S3Address): string {
    if store.prefix == "" then "" else store.prefix + "/"
  }

  lemma S3Object(store: S3Address, key: string)
    requires store.Valid() && Normalized(key)
    ensures store.ObjectKey(key) == Head(store) + key
  {
    NormalizedIff(key);
    RenderedEnds(PathParts(key));
    StripIdentity(key);
  }

  lemma S3Parse(store: S3Address, key: string)
    requires store.Valid() && Normalized(key)
    ensures UrlParse(store.UriForKey(key)) == Url("s3", store.bucket, "/" + Head(store) + Surviving(key))
  {
    assert store.UriForKey(key) == "s3" + "://" + store.bucket + "/" + (Head(store) + key) by { S3Object(store, key); }
    assert AllUrlSafe(Head(store));
    ParseS3(store.bucket, Head(store), key);
  }

  lemma ParseS3(bucket: string, head: string, key: string)
    requires AllUrlSafe(head) && forall i :: 0 <= i < |bucket| ==> PlainBucketChar(bucket[i])
    ensures UrlParse("s3" + "://" + bucket + "/" + (head + key)) == Url("s3", bucket, "/" + head + Surviving(key))
  {
    ParseHierarchical("s3", bucket, head + key);
    SurvivingPrefix(head, key);
    Associate("/", head, Surviving(key));
  }

  lemma Associate(a: string, b: string, c: string)
    ensures a + (b + c) == a + b + c
  {
  }

  lemma SurvivingPrefix(head: string, tail: string)
    requires AllUrlSafe(head)
    ensures Surviving(head + tail) == head + Surviving(tail)
  {
    CleanedPrefix(head, tail);
    PathLengthPrefix(head, Cleaned(tail));
  }

  /** The text the S3 store normalises when it reads back its own URI; None where it raises before that. */
  function S3Rest(store: S3Address, key: string): Option<string> {
    var found := StripBoth("/" + Head(store) + Surviving(key), '/');
    if store.prefix == "" then Some(found)
    else if found == store.prefix || !StartsWith(found, store.prefix + "/") then None
    else Some(found[|store.prefix| + 1..])
  }

  lemma S3RelativeOfUri(store: S3Address, key: string)
    requires store.Valid() && Normalized(key)
    ensures var rest := S3Rest(store, key);
            store.RelativeKey(store.UriForKey(key)) == if rest.None? then Err(OutsideStore) else NormalizeRelativeKey(rest.value)
  {
    S3Parse(store, key);
  }

  lemma S3RestShort(store: S3Address, key: string)
    ensures S3Rest(store, key).Some? ==> |S3Rest(store, key).value| <= |Surviving(key)|
  {
    StripBothShortens(Head(store) + Surviving(key));
    assert "/" + (Head(store) + Surviving(key)) == "/" + Head(store) + Surviving(key);
  }

  lemma S3RestSafe(store: S3Address, key: string)
    requires store.Valid() && Normalized(key) && AllUrlSafe(key)
    ensures S3Rest(store, key) == Some(key)
  {
    SurvivesIff(key);
    assert key != "" && key[0] != '/' && key[|key| - 1] != '/' by {
      NormalizedIff(key);
      RenderedEnds(PathParts(key));
    }
    if store.prefix != "" {
      PrefixEnds(store.prefix);
      AfterPrefix(store.prefix, key);
      SlashedBody(store.prefix + "/", key);
    } else {
      SlashedBody("", key);
      assert "" + key == key;
    }
  }

  lemma SlashedBody(head: string, key: string)
    requires key != "" && key[0] != '/' && key[|key| - 1] != '/' && (head != "" ==> head[0] != '/')
    ensures StripBoth("/" + head + key, '/') == head + key
  {
    var body := head + key;
    var text := "/" + head + key;
    assert text[1..] == body && body[0] != '/' && body[|body| - 1] == key[|key| - 1];
    StripIdentity(body);
  }

  lemma AfterPrefix(prefix: string, key: string)
    requires key != ""
    ensures var found := prefix + "/" + key;
            found != prefix && StartsWith(found, prefix + "/") && found[|prefix| + 1..] == key
  {
  }

  lemma PrefixEnds(prefix: string)
    requires prefix != "" && StripBoth(prefix, '/') == prefix
    ensures prefix[0] != '/' && prefix[|prefix| - 1] != '/'
  {
    StripShortens(prefix);
    if prefix[0] == '/' {
      StripShortens(prefix[1..]);
      StripShortens(LeftStrip(prefix[1..], '/'));
    } else {
      StripShortens(prefix[..|prefix| - 1]);
    }
  }

  /** `_relative_key(_uri_for_key(k)) == k` on the S3 store, exactly for the keys a URL path carries unharmed. */
  lemma S3RoundTripIff(store: S3Address, key: string)
    requires store.Valid() && Normalized(key)
    ensures store.RelativeKey(store.UriForKey(key)) == Ok(key) <==> AllUrlSafe(key)
  {
    S3RelativeOfUri(store, key);
    SurvivesIff(key);
    S3RestShort(store, key);
    if AllUrlSafe(key) {
      S3RestSafe(store, key);
    } else if S3Rest(store, key).Some? && NormalizeRelativeKey(S3Rest(store, key).value) == Ok(key) {
      assert key != ".";
      NormalizeShortens(S3Rest(store, key).value);
    }
  }
}
