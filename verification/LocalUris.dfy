/**
 The local store's URIs (src/regime_data_fetch/artifact_store.py, `_uri_for_key` and `_normalize_local_key`).
 `Path.as_uri` percent-encodes; `urlparse` does not decode. Symbolic links are not modelled: resolving a path
 only collapses "..".
 */
module LocalUris {
  import opened Wrappers
  import opened Strings
  import opened ArtifactKeys
  import opened StoreUris

  // ---------------------------------------------------------------------------
  // Percent-encoding

  predicate QuoteSafe(c: char) {
    'a' <= c <= 'z' || 'A' <= c <= 'Z' || '0' <= c <= '9' || c == '_' || c == '.' || c == '-' || c == '~' || c == '/'
  }

  predicate AllQuoteSafe(s: string) {
    forall i :: 0 <= i < |s| ==> QuoteSafe(s[i])
  }

  function HexDigit(n: nat): (c: char)
    requires n < 16
    ensures '0' <= c <= '9' || 'A' <= c <= 'F'
  {
    if n < 10 then (n + 48) as char else (n + 55) as char
  }

  function Percent(byte: nat): (s: string)
    requires byte < 256
    ensures |s| == 3 && forall i :: 0 <= i < |s| ==> UrlSafe(s[i]) && s[i] != '/'
  {
    ['%', HexDigit(byte / 16), HexDigit(byte % 16)]
  }

  /** The bytes of a character in UTF-8, percent-encoded. */
  function Encode(c: char): (s: string)
    ensures |s| >= 3 && forall i :: 0 <= i < |s| ==> UrlSafe(s[i]) && s[i] != '/'
  {
    var n := c as int;
    if n < 0x80 then Percent(n)
    else if n < 0x800 then Percent(0xC0 + n / 0x40) + Percent(0x80 + n % 0x40)
    else if n < 0x10000 then Percent(0xE0 + n / 0x1000) + Percent(0x80 + n / 0x40 % 0x40) + Percent(0x80 + n % 0x40)
    else Percent(0xF0 + n / 0x40000 % 8) + Percent(0x80 + n / 0x1000 % 0x40) + Percent(0x80 + n / 0x40 % 0x40) + Percent(0x80 + n % 0x40)
  }

  function QuoteChar(c: char): (q: string)
    ensures q != "" && AllUrlSafe(q)
  {
    if QuoteSafe(c) then [c] else Encode(c)
  }

  function Quote(s: string): (q: string)
    ensures |q| >= |s|
    ensures AllUrlSafe(q)
  {
    if s == "" then "" else QuoteChar(s[0]) + Quote(s[1..])
  }

  lemma {:induction false} QuoteConcat(a: string, b: string)
    ensures Quote(a + b) == Quote(a) + Quote(b)
  {
    if a == "" {
      assert a + b == b;
    } else {
      QuoteConcat(a[1..], b);
      QuoteCons(a, b);
      Reassociate(QuoteChar(a[0]), Quote(a[1..]), Quote(b));
    }
  }

  lemma QuoteCons(a: string, b: string)
    requires a != ""
    ensures Quote(a) == QuoteChar(a[0]) + Quote(a[1..]) && Quote(a + b) == QuoteChar(a[0]) + Quote(a[1..] + b)
  {
    assert (a + b)[1..] == a[1..] + b && (a + b)[0] == a[0];
  }

  lemma Reassociate(a: string, b: string, c: string)
    ensures (a + b) + c == a + (b + c)
  {
  }

  lemma {:induction false} QuoteIdentityIff(s: string)
    ensures Quote(s) == s <==> AllQuoteSafe(s)
    ensures Quote(s) == s || |Quote(s)| >= |s| + 2
  {
    if s != "" {
      QuoteIdentityIff(s[1..]);
      assert s == [s[0]] + s[1..];
      if QuoteSafe(s[0]) {
        assert AllQuoteSafe(s) <==> AllQuoteSafe(s[1..]);
      }
    }
  }

  lemma {:induction false} QuoteKeepsSlashes(s: string)
    ensures Lacks(s, '/') ==> Lacks(Quote(s), '/')
  {
    if s != "" { QuoteKeepsSlashes(s[1..]); }
  }

  function QuoteParts(parts: seq<string>): (q: seq<string>)
    ensures |q| == |parts|
    ensures forall i :: 0 <= i < |parts| ==> q[i] == Quote(parts[i])
  {
    seq(|parts|, i requires 0 <= i < |parts| => Quote(parts[i]))
  }

  lemma QuotePart(part: string)
    requires CleanPart(part)
    ensures CleanPart(Quote(part))
    ensures Quote(part) == ".." <==> part == ".."
  {
    QuoteKeepsSlashes(part);
    QuoteIdentityIff(part);
  }

  lemma QuotePartsClean(parts: seq<string>)
    requires CleanParts(parts)
    ensures CleanParts(QuoteParts(parts))
    ensures ".." in QuoteParts(parts) <==> ".." in parts
  {
    forall i | 0 <= i < |parts| { QuotePart(parts[i]); }
  }

  lemma QuotePartsIdentityIff(parts: seq<string>)
    ensures QuoteParts(parts) == parts <==> AllSafeParts(parts)
  {
    forall i | 0 <= i < |parts| { QuoteIdentityIff(parts[i]); }
  }

  predicate AllSafeParts(parts: seq<string>) {
    forall i :: 0 <= i < |parts| ==> AllQuoteSafe(parts[i])
  }

  lemma {:induction false} QuoteJoin(parts: seq<string>)
    ensures Quote(Join(parts, '/')) == Join(QuoteParts(parts), '/')
  {
    if |parts| > 1 {
      QuoteJoin(parts[1..]);
      QuoteConcat(parts[0] + ['/'], Join(parts[1..], '/'));
      QuoteConcat(parts[0], ['/']);
      assert Quote(['/']) == ['/'] + Quote([]);
      assert QuoteParts(parts)[1..] == QuoteParts(parts[1..]);
    }
  }

  // ---------------------------------------------------------------------------
  // Resolving paths

  /** One component further; ".." leads back by one, and nowhere at the root. */
  function Into(resolved: seq<string>, part: string): seq<string> {
    if part != ".." then resolved + [part] else if resolved == [] then [] else resolved[..|resolved| - 1]
  }

  /** `Path.resolve` without symbolic links: ".." removes the component before it, and nothing at the root. */
  function Collapse(parts: seq<string>): (resolved: seq<string>)
    ensures ".." !in resolved
    ensures CleanParts(parts) ==> CleanParts(resolved)
    ensures ".." !in parts ==> resolved == parts
  {
    if parts == [] then []
    else
      var front, last := parts[..|parts| - 1], parts[|parts| - 1];
      assert parts == front + [last];
      Into(Collapse(front), last)
  }

  lemma CollapseSnoc(parts: seq<string>, last: string)
    ensures Collapse(parts + [last]) == Into(Collapse(parts), last)
  {
    assert (parts + [last])[..|parts|] == parts;
  }

  lemma InitOfSum(a: seq<string>, tail: seq<string>)
    requires tail != []
    ensures a + tail == (a + tail[..|tail| - 1]) + [tail[|tail| - 1]]
  {
  }

  lemma {:induction false} SameEnd(a: seq<string>, b: seq<string>, tail: seq<string>)
    requires Collapse(a) == Collapse(b)
    ensures Collapse(a + tail) == Collapse(b + tail)
    decreases |tail|
  {
    if tail == [] {
      assert a + tail == a && b + tail == b;
    } else {
      var init, last := tail[..|tail| - 1], tail[|tail| - 1];
      SameEnd(a, b, init);
      InitOfSum(a, tail);
      InitOfSum(b, tail);
      CollapseSnoc(a + init, last);
      CollapseSnoc(b + init, last);
    }
  }

  /** A name and the ".." after it cancel, and at the root ".." does nothing. */
  lemma CollapseClimbs(front: seq<string>, name: string, tail: seq<string>)
    requires name != ".."
    ensures Collapse(front + [name] + [".."] + tail) == Collapse(front + tail)
    ensures Collapse([".."] + tail) == Collapse([] + tail)
  {
    CollapseSnoc(front, name);
    CollapseSnoc(front + [name], "..");
    SameEnd(front + [name] + [".."], front, tail);
    CollapseSnoc([], "..");
    assert [] + [".."] == [".."];
    SameEnd([".."], [], tail);
  }

  /** Last position of a component, -1 if there is none. */
  function LastPart(parts: seq<string>, part: string): (i: int)
    ensures -1 <= i < |parts|
    ensures i >= 0 ==> parts[i] == part
    ensures forall j :: i < j < |parts| ==> parts[j] != part
  {
    if parts == [] then -1
    else if parts[|parts| - 1] == part then |parts| - 1
    else LastPart(parts[..|parts| - 1], part)
  }

  /** The components after the last occurrence of a name; none if it does not occur. */
  function AfterLast(parts: seq<string>, name: string): seq<string> {
    var i := LastPart(parts, name);
    if i >= 0 then parts[i + 1..] else []
  }

  /** A local store: its resolved root, and the directory against which relative `file:` paths resolve. */
  datatype LocalAddress = LocalAddress(root: seq<string>, workingDirectory: seq<string>) {
    predicate Valid() {
      CleanParts(root) && ".." !in root && CleanParts(workingDirectory)
    }

    /** `_uri_for_key`. */
    function UriForKey(key: string): string {
      "file://" + Quote("/" + Join(root + PathParts(key), '/'))
    }

    /** `_normalize_local_key`, with its fallback for manifests written under another checkout. */
    function RelativeKey(text: string): Result<string, KeyError> {
      var url := UrlParse(text);
      if url.scheme == "file" then
        FromPath(Collapse((if IsAbsolute(url.path) then [] else workingDirectory) + PathParts(url.path)))
      else if url.scheme != "" then Err(UnsupportedScheme)
      else NormalizeRelativeKey(text)
    }

    function FromPath(parts: seq<string>): Result<string, KeyError> {
      if root <= parts then Ok(Render(parts[|root|..]))
      else if root == [] then Err(OutsideStore)
      else FromTail(AfterLast(parts, root[|root| - 1]))
    }
  }

  /** The fallback: what follows the root's own name. */
  function FromTail(tail: seq<string>): Result<string, KeyError> {
    if tail == [] then Err(OutsideStore) else NormalizeRelativeKey(Render(tail))
  }

  lemma LocalUri(store: LocalAddress, key: string)
    ensures store.UriForKey(key) == "file" + "://" + "" + "/" + Quote(Join(store.root + PathParts(key), '/'))
  {
    var path := Join(store.root + PathParts(key), '/');
    QuoteConcat("/", path);
    assert Quote("/") == "/" + Quote("");
  }

  lemma FileUrlReads(store: LocalAddress, tail: string)
    requires AllUrlSafe(tail)
    ensures store.RelativeKey("file" + "://" + "" + "/" + tail) == store.FromPath(Collapse(PathParts("/" + tail)))
  {
    ParseHierarchical("file", "", tail);
    SurvivesIff(tail);
    assert [] + PathParts("/" + tail) == PathParts("/" + tail);
  }

  lemma QuotedComponents(parts: seq<string>)
    requires CleanParts(parts)
    ensures PathParts("/" + Quote(Join(parts, '/'))) == QuoteParts(parts)
  {
    QuoteJoin(parts);
    QuotePartsClean(parts);
    PartsOfAbsolute(QuoteParts(parts));
  }

  /** What the local store reads out of its own URI: the quoted components, resolved. */
  lemma LocalParse(store: LocalAddress, key: string)
    requires store.Valid() && Normalized(key)
    ensures store.RelativeKey(store.UriForKey(key)) == store.FromPath(Collapse(QuoteParts(store.root + PathParts(key))))
  {
    var parts := store.root + PathParts(key);
    LocalUri(store, key);
    FileUrlReads(store, Quote(Join(parts, '/')));
    QuotedComponents(parts);
  }

  /** Under a root of URL-safe names, exactly the keys of safe names without ".." round-trip. */
  lemma RoundTripSafeRoot(store: LocalAddress, key: string)
    requires store.Valid() && Normalized(key) && AllSafeParts(store.root)
    ensures store.RelativeKey(store.UriForKey(key)) == Ok(key) <==>
            AllSafeParts(PathParts(key)) && ".." !in PathParts(key)
  {
    LocalParse(store, key);
    NormalizedIff(key);
    SafeRootReads(store, PathParts(key));
  }

  lemma SafeRootReads(store: LocalAddress, p: seq<string>)
    requires store.Valid() && CleanParts(p) && AllSafeParts(store.root)
    ensures store.FromPath(Collapse(QuoteParts(store.root + p))) == Ok(Render(p)) <==> AllSafeParts(p) && ".." !in p
  {
    QuotedSplit(store.root, p);
    QuotePartsIdentityIff(store.root);
    QuotePartsIdentityIff(p);
    PrefixedReads(store, QuoteParts(p), p);
  }

  lemma PrefixedReads(store: LocalAddress, q: seq<string>, p: seq<string>)
    requires store.Valid() && CleanParts(q) && CleanParts(p) && (".." in q <==> ".." in p)
    ensures store.FromPath(Collapse(store.root + q)) == Ok(Render(p)) <==> q == p && ".." !in p
  {
    if ".." in p {
      NoDotsNoKey(store, Collapse(store.root + q), p);
    } else {
      RootReads(store, q);
      if Render(q) == Render(p) { RenderInjective(q, p); }
    }
  }

  lemma RootReads(store: LocalAddress, q: seq<string>)
    requires store.Valid() && ".." !in q
    ensures store.FromPath(Collapse(store.root + q)) == Ok(Render(q))
  {
    assert Collapse(store.root + q) == store.root + q;
    assert (store.root + q)[|store.root|..] == q;
  }

  lemma QuotedSplit(root: seq<string>, p: seq<string>)
    requires CleanParts(root) && CleanParts(p) && ".." !in root
    ensures QuoteParts(root + p) == QuoteParts(root) + QuoteParts(p)
    ensures CleanParts(QuoteParts(root)) && CleanParts(QuoteParts(p))
    ensures ".." !in QuoteParts(root) && (".." in QuoteParts(p) <==> ".." in p)
  {
    QuotePartsClean(root);
    QuotePartsClean(p);
  }

  /** Resolved components never give back a key that contains "..". */
  lemma NoDotsNoKey(store: LocalAddress, resolved: seq<string>, p: seq<string>)
    requires CleanParts(resolved) && ".." !in resolved && CleanParts(p) && ".." in p
    ensures store.FromPath(resolved) != Ok(Render(p))
  {
    forall from | 0 <= from <= |resolved| ensures Render(resolved[from..]) != Render(p) {
      if Render(resolved[from..]) == Render(p) { RenderInjective(resolved[from..], p); }
    }
    forall from | 0 <= from <= |resolved| ensures NormalizeRelativeKey(Render(resolved[from..])) != Ok(Render(p)) {
      NormalizeRendered(resolved[from..]);
    }
  }

  /**
   Under a root with other characters only the fallback applies: it finds the key again when the root's own name is
   safe and does not occur in the key.
   */
  lemma RoundTripUnsafeRoot(store: LocalAddress, key: string)
    requires store.Valid() && Normalized(key) && !AllSafeParts(store.root)
    ensures store.RelativeKey(store.UriForKey(key)) == Ok(key) <==> FallbackFinds(store.root, PathParts(key))
  {
    LocalParse(store, key);
    NormalizedIff(key);
    UnsafeRootReads(store, PathParts(key));
  }

  predicate FallbackFinds(root: seq<string>, p: seq<string>)
    requires root != []
  {
    AllSafeParts(p) && ".." !in p && AllQuoteSafe(root[|root| - 1]) && root[|root| - 1] !in p && p != []
  }

  lemma UnsafeRootReads(store: LocalAddress, p: seq<string>)
    requires store.Valid() && CleanParts(p) && !AllSafeParts(store.root)
    ensures store.FromPath(Collapse(QuoteParts(store.root + p))) == Ok(Render(p)) <==> FallbackFinds(store.root, p)
  {
    var q := QuoteParts(store.root + p);
    assert QuotedPath(store.root, q, p) by { QuotedFacts(store.root, p); }
    assert store.FromPath(Collapse(q)) == Ok(Render(p)) <==> QuotedFinds(store.root, q, p) by { ResolvedReads(store, q, p); }
    assert QuotedFinds(store.root, q, p) <==> FallbackFinds(store.root, p) by { QuotedFindsIff(store.root, p); }
  }

  /** The quoted path ends in the root's own name and then `p`, and `p` does not repeat the name. */
  predicate QuotedFinds(root: seq<string>, q: seq<string>, p: seq<string>)
    requires root != []
  {
    ".." !in p && p != [] && EndsIn(root, q, p) && root[|root| - 1] !in p
  }

  lemma QuotedFindsIff(root: seq<string>, p: seq<string>)
    requires root != []
    ensures QuotedFinds(root, QuoteParts(root + p), p) <==> FallbackFinds(root, p)
  {
    QuotedTail(root, p);
  }

  /** What reading back a quoted path relies on. */
  predicate QuotedPath(root: seq<string>, q: seq<string>, p: seq<string>) {
    && root != [] && !(root <= q) && |q| == |root| + |p|
    && CleanParts(q) && CleanParts(p) && (".." in q <==> ".." in p)
  }

  predicate EndsIn(root: seq<string>, q: seq<string>, p: seq<string>) {
    root != [] && |q| == |root| + |p| && q[|root| - 1] == root[|root| - 1] && q[|root|..] == p
  }

  lemma QuotedFacts(root: seq<string>, p: seq<string>)
    requires CleanParts(root) && ".." !in root && CleanParts(p) && !AllSafeParts(root)
    ensures QuotedPath(root, QuoteParts(root + p), p)
  {
    QuotePartsClean(root + p);
    assert ".." in root + p <==> ".." in root || ".." in p;
    NotUnderRoot(root, p);
  }

  lemma ResolvedReads(store: LocalAddress, q: seq<string>, p: seq<string>)
    requires QuotedPath(store.root, q, p)
    ensures store.FromPath(Collapse(q)) == Ok(Render(p)) <==> QuotedFinds(store.root, q, p)
  {
    QuotedReads(store, Collapse(q), q, p);
  }

  lemma QuotedReads(store: LocalAddress, resolved: seq<string>, q: seq<string>, p: seq<string>)
    requires QuotedPath(store.root, q, p)
    requires CleanParts(resolved) && ".." !in resolved && (".." !in p ==> resolved == q)
    ensures store.FromPath(resolved) == Ok(Render(p)) <==> QuotedFinds(store.root, q, p)
  {
    if ".." in p {
      NoDotsNoKey(store, resolved, p);
    } else {
      assert resolved == q;
      FallbackIff(store, resolved, p);
    }
  }

  lemma NotUnderRoot(root: seq<string>, p: seq<string>)
    requires !AllSafeParts(root)
    ensures !(root <= QuoteParts(root + p))
  {
    QuotePartsIdentityIff(root);
    assert QuoteParts(root + p)[..|root|] == QuoteParts(root);
  }

  /** The fallback finds `p` exactly when the components read are the root's, ending in its name, and then `p`, without that name. */
  lemma FallbackIff(store: LocalAddress, q: seq<string>, p: seq<string>)
    requires store.root != [] && !(store.root <= q) && |q| == |store.root| + |p|
    requires CleanParts(q) && CleanParts(p) && ".." !in p
    ensures store.FromPath(q) == Ok(Render(p)) <==> QuotedFinds(store.root, q, p)
  {
    var name := store.root[|store.root| - 1];
    assert store.FromPath(q) == FromTail(AfterLast(q, name));
    TailReads(store.root, name, AfterLast(q, name), q, p);
  }

  lemma TailReads(root: seq<string>, name: string, tail: seq<string>, q: seq<string>, p: seq<string>)
    requires root != [] && name == root[|root| - 1] && |q| == |root| + |p| && tail == AfterLast(q, name)
    requires CleanParts(q) && CleanParts(p) && ".." !in p
    ensures FromTail(tail) == Ok(Render(p)) <==> p != [] && EndsIn(root, q, p) && name !in p
  {
    FromTailIff(tail, p);
    if p != [] { AfterLastIff(q, |root|, name, p); }
  }

  lemma FromTailIff(tail: seq<string>, p: seq<string>)
    requires CleanParts(tail) && CleanParts(p) && ".." !in p
    ensures FromTail(tail) == Ok(Render(p)) <==> tail != [] && tail == p
  {
    NormalizedRenderIff(tail, p);
  }

  lemma AfterLastIff(q: seq<string>, n: nat, name: string, p: seq<string>)
    requires n > 0 && |q| == n + |p|
    ensures p != [] ==> (AfterLast(q, name) == p <==> q[n - 1] == name && q[n..] == p && name !in p)
  {
    if q[n - 1] == name && q[n..] == p && name !in p {
      assert forall j :: n <= j < |q| ==> q[j] == p[j - n];
      assert LastPart(q, name) == n - 1;
    }
    if AfterLast(q, name) == p && p != [] {
      var i := LastPart(q, name);
      assert i >= 0 && q[i + 1..] == p;
      assert i == n - 1;
      assert forall j :: 0 <= j < |p| ==> p[j] == q[n + j];
    }
  }

  lemma NormalizedRenderIff(parts: seq<string>, p: seq<string>)
    requires CleanParts(parts) && CleanParts(p) && ".." !in p
    ensures NormalizeRelativeKey(Render(parts)) == Ok(Render(p)) <==> parts == p
  {
    NormalizeRendered(parts);
    if Render(parts) == Render(p) { RenderInjective(parts, p); }
  }

  lemma QuotedTail(root: seq<string>, p: seq<string>)
    requires root != []
    ensures EndsIn(root, QuoteParts(root + p), p) <==> AllQuoteSafe(root[|root| - 1]) && AllSafeParts(p)
  {
    var q, name := QuoteParts(root + p), root[|root| - 1];
    assert q[|root| - 1] == Quote(name);
    QuoteIdentityIff(name);
    assert q[|root|..] == QuoteParts(p);
    QuotePartsIdentityIff(p);
  }
}
