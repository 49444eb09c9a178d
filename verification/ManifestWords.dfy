/** Words in keys and uris: what minting makes of text without white space, quotes and backslashes has none either. */
module ManifestWords {
  import opened Wrappers
  import opened Strings
  import opened ArtifactKeys
  import opened PublishSnapshot
  import opened ManifestScalars

  predicate Words(pieces: seq<string>) {
    forall i :: 0 <= i < |pieces| ==> Word(pieces[i])
  }

  lemma {:induction false} SplitWords(s: string, c: char)
    requires Word(s)
    ensures Words(Split(s, c))
    decreases |s|
  {
    var i := FirstIndex(s, c);
    if i < |s| { SplitWords(s[i + 1..], c); }
  }

  lemma {:induction false} KeepCleanWords(pieces: seq<string>)
    requires Words(pieces) && forall i :: 0 <= i < |pieces| ==> Lacks(pieces[i], '/')
    ensures Words(KeepClean(pieces))
  {
    if pieces != [] { KeepCleanWords(pieces[1..]); }
  }

  lemma {:induction false} JoinWords(pieces: seq<string>)
    requires Words(pieces)
    ensures Word(Join(pieces, '/'))
  {
    if |pieces| > 1 { JoinWords(pieces[1..]); }
  }

  lemma PathWords(s: string)
    requires Word(s)
    ensures Words(PathParts(s)) && Word(Render(PathParts(s)))
  {
    JoinOfSplit(s, '/');
    SplitWords(s, '/');
    KeepCleanWords(Split(s, '/'));
    JoinWords(PathParts(s));
  }

  lemma RenderWord(parts: seq<string>)
    requires Words(parts)
    ensures Word(Render(parts))
  {
    JoinWords(parts);
  }

  lemma ReplacedWords(parts: seq<string>, name: string)
    requires Words(parts) && Word(name) && parts != []
    ensures Words(Replaced(parts, name))
  {
  }

  lemma SliceWords(s: string, i: nat)
    requires Word(s) && i <= |s|
    ensures Word(s[..i]) && Word(s[i..])
  {
  }

  lemma ConcatWord(a: string, b: string)
    requires Word(a) && Word(b)
    ensures Word(a + b)
  {
  }

  lemma StemWord(name: string)
    requires Word(name)
    ensures Word(Stem(name)) && Word(Suffix(name))
  {
    if HasSuffix(name) { SliceWords(name, LastIndex(name, '.')); }
  }

  lemma StripFromWord(stem: string, suffix: string, name: string)
    requires Word(stem) && Word(suffix) && Word(name)
    ensures Word(StripFrom(stem, suffix, name))
  {
    var dot := LastIndex(stem, '.');
    if dot >= 0 {
      SliceWords(stem, dot);
      ConcatWord(stem[..dot], suffix);
    }
  }

  lemma NameWords(name: string)
    requires Word(name)
    ensures Word(Stem(name)) && Word(Suffix(name)) && Word(StripName(name))
  {
    StemWord(name);
    StripFromWord(Stem(name), Suffix(name), name);
  }

  lemma StripPartsWord(parts: seq<string>)
    requires Words(parts) && StripParts(parts).Ok?
    ensures Word(StripParts(parts).value)
  {
    var after := if parts == [] then parts else Replaced(parts, StripName(FileName(parts)));
    StripPartsRenders(parts);
    if parts != [] {
      NameWords(FileName(parts));
      ReplacedWords(parts, StripName(FileName(parts)));
    }
    RenderWord(after);
  }

  lemma StripWord(uri: string)
    requires Word(uri) && StripContentAddress(uri).Ok?
    ensures Word(StripContentAddress(uri).value)
  {
    PathWords(uri);
    PathWords(Render(PathParts(uri)));
    StripPartsWord(PathParts(Render(PathParts(uri))));
  }

  lemma DottedWord(stem: string, sha: string, suffix: string)
    requires Word(stem) && Word(sha) && Word(suffix)
    ensures Word(stem + "." + sha + suffix)
  {
  }

  lemma MintNameWord(name: string, sha: string)
    requires Word(name) && Word(sha)
    ensures Word(MintName(name, sha))
  {
    assert Word(Stem(name)) && Word(Suffix(name)) by { NameWords(name); }
    DottedWord(Stem(name), sha, Suffix(name));
  }

  lemma HexIsWord(sha: string)
    requires HexDigits64(sha)
    ensures Word(sha)
  {
  }

  lemma MintWord(key: string, sha: string)
    requires Word(key) && HexDigits64(sha) && ContentAddressedKey(key, sha).Ok?
    ensures Word(ContentAddressedKey(key, sha).value)
  {
    var parts := PathParts(key);
    assert parts != [] && ContentAddressedKey(key, sha).value == Render(Replaced(parts, MintName(FileName(parts), sha))) by {
      MintedKey(key, sha);
    }
    PathWords(key);
    HexIsWord(sha);
    MintNameWord(FileName(parts), sha);
    ReplacedWords(parts, MintName(FileName(parts), sha));
    RenderWord(Replaced(parts, MintName(FileName(parts), sha)));
  }

  /** Minting keeps a uri free of white space, quotes and backslashes. */
  lemma MintedUriWord(uri: string, sha: string)
    requires Word(uri) && HexDigits64(sha) && MintedUri(uri, sha).Ok?
    ensures Word(MintedUri(uri, sha).value)
  {
    StripWord(uri);
    MintWord(StripContentAddress(uri).value, sha);
  }
}
