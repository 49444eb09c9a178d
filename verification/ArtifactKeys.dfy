/** Store keys that carry the content's sha (src/regime_data_fetch/artifact_store.py). */
module ArtifactKeys {
  import opened Wrappers
  import opened Strings

  datatype KeyError =
    | BadSha
    | EscapesStore
    | InvalidName
    | UnsupportedScheme
    | OutsideStore
    | WrongBucket

  predicate LowerHex(c: char) {
    '0' <= c <= '9' || 'a' <= c <= 'f'
  }

  predicate HexDigits64(s: string) {
    |s| == 64 && forall i :: 0 <= i < |s| ==> LowerHex(s[i])
  }

  /** The regular expression for a sha: its `$` also matches before one final newline. */
  predicate ShaMatch(s: string) {
    HexDigits64(s) || (|s| == 65 && s[64] == '\n' && HexDigits64(s[..64]))
  }

  // ---------------------------------------------------------------------------
  // File names: `Path.stem` and `Path.suffix`

  predicate HasSuffix(name: string) {
    0 < LastIndex(name, '.') < |name| - 1
  }

  function Stem(name: string): string {
    if HasSuffix(name) then name[..LastIndex(name, '.')] else name
  }

  function Suffix(name: string): string {
    if HasSuffix(name) then name[LastIndex(name, '.')..] else ""
  }

  function MintName(name: string, sha: string): string {
    Stem(name) + "." + sha + Suffix(name)
  }

  /** The file name without an embedded sha, as `strip_content_address` computes it. */
  function StripName(name: string): string {
    StripFrom(Stem(name), Suffix(name), name)
  }

  function StripFrom(stem: string, suffix: string, name: string): string {
    var dot := LastIndex(stem, '.');
    if dot >= 0 && ShaMatch(stem[dot + 1..]) then stem[..dot] + suffix
    else if suffix != "" && ShaMatch(suffix[1..]) then stem
    else name
  }

  lemma LastIndexIs(s: string, c: char, i: int)
    requires -1 <= i < |s| && (i >= 0 ==> s[i] == c) && forall j :: i < j < |s| ==> s[j] != c
    ensures LastIndex(s, c) == i
  {
  }

  lemma ShaHasNoSeparator(sha: string)
    requires ShaMatch(sha)
    ensures sha != "" && Lacks(sha, '.') && Lacks(sha, '/')
  {
    if !HexDigits64(sha) {
      assert forall i :: 0 <= i < 64 ==> sha[i] == sha[..64][i];
    }
  }

  lemma LastDot(front: string, back: string)
    requires Lacks(back, '.')
    ensures var s := front + "." + back; LastIndex(s, '.') == |front| && s[..|front|] == front && s[|front| + 1..] == back
  {
    var s := front + "." + back;
    assert forall j :: |front| < j < |s| ==> s[j] == back[j - |front| - 1];
    LastIndexIs(s, '.', |front|);
  }

  lemma SuffixedName(stem: string, ext: string)
    requires stem != "" && ext != "" && Lacks(ext, '.')
    ensures var name := stem + "." + ext;
            HasSuffix(name) && Stem(name) == stem && Suffix(name) == "." + ext
  {
    LastDot(stem, ext);
  }

  /** A text and its last dot. */
  lemma DotSplits(s: string, dot: nat)
    requires dot < |s| - 1 && s[dot] == '.' && forall j :: dot < j < |s| ==> s[j] != '.'
    ensures s[dot..] == "." + s[dot + 1..] && s[dot..][1..] == s[dot + 1..] != "" && Lacks(s[dot + 1..], '.')
    ensures s == s[..dot] + "." + s[dot + 1..] && s == s[..dot] + s[dot..]
  {
  }

  lemma NameSplits(name: string)
    requires HasSuffix(name)
    ensures Stem(name) != "" && Suffix(name) == "." + Suffix(name)[1..] && Suffix(name)[1..] != "" && Lacks(Suffix(name)[1..], '.')
    ensures name == Stem(name) + "." + Suffix(name)[1..] && name == Stem(name) + Suffix(name)
  {
    DotSplits(name, LastIndex(name, '.'));
  }

  lemma MintedBefore(stem: string, sha: string, ext: string)
    requires stem != "" && ext != "" && Lacks(ext, '.')
    ensures var minted := stem + "." + sha + ("." + ext);
            HasSuffix(minted) && Stem(minted) == stem + "." + sha && Suffix(minted) == "." + ext
  {
    assert stem + "." + sha + ("." + ext) == (stem + "." + sha) + "." + ext;
    SuffixedName(stem + "." + sha, ext);
  }

  /** Where the parts of a name lie in the minted name. */
  lemma MintedParts(name: string, sha: string)
    requires ShaMatch(sha) && name != ""
    ensures var minted := MintName(name, sha);
            if HasSuffix(name) then Stem(minted) == Stem(name) + "." + sha && Suffix(minted) == Suffix(name)
            else Stem(minted) == name && Suffix(minted) == "." + sha
  {
    if HasSuffix(name) {
      NameSplits(name);
      MintedBefore(Stem(name), sha, Suffix(name)[1..]);
    } else {
      ShaHasNoSeparator(sha);
      SuffixedName(name, sha);
      assert MintName(name, sha) == name + "." + sha;
    }
  }

  /** Names like ".<sha>" hide a sha from `Path.suffix`. */
  predicate HiddenSha(name: string) {
    name != "" && name[0] == '.' && ShaMatch(name[1..])
  }

  lemma HiddenHasNoSuffix(name: string)
    requires HiddenSha(name)
    ensures LastIndex(name, '.') == 0
  {
    ShaHasNoSeparator(name[1..]);
    assert forall j :: 0 < j < |name| ==> name[j] == name[1..][j - 1];
    LastIndexIs(name, '.', 0);
  }

  lemma StripFromSha(stem: string, sha: string, suffix: string, name: string)
    requires ShaMatch(sha)
    ensures StripFrom(stem + "." + sha, suffix, name) == stem + suffix
  {
    ShaHasNoSeparator(sha);
    LastDot(stem, sha);
  }

  lemma HiddenIff(name: string)
    requires name != ""
    ensures HiddenSha(name) <==> LastIndex(name, '.') == 0 && ShaMatch(name[1..])
  {
    if HiddenSha(name) { HiddenHasNoSuffix(name); }
  }

  lemma DotBefore(sha: string)
    ensures ("." + sha)[1..] == sha
  {
  }

  /** Without a suffix, only a hidden sha follows the last dot. */
  lemma HiddenAtDot(stem: string)
    requires stem != "" && !HasSuffix(stem)
    ensures var dot := LastIndex(stem, '.'); dot >= 0 && ShaMatch(stem[dot + 1..]) <==> HiddenSha(stem)
    ensures HiddenSha(stem) ==> LastIndex(stem, '.') == 0
  {
    HiddenIff(stem);
    var dot := LastIndex(stem, '.');
    if dot > 0 {
      assert stem[dot + 1..] == "";
    }
  }

  lemma StripAtSuffix(stem: string, suffix: string, name: string)
    requires suffix != "" && ShaMatch(suffix[1..])
    ensures var dot := LastIndex(stem, '.');
            StripFrom(stem, suffix, name) == if dot >= 0 && ShaMatch(stem[dot + 1..]) then stem[..dot] + suffix else stem
  {
  }

  lemma StripFromSuffix(stem: string, sha: string, name: string)
    requires ShaMatch(sha) && stem != "" && !HasSuffix(stem)
    ensures StripFrom(stem, "." + sha, name) == if HiddenSha(stem) then "." + sha else stem
  {
    DotBefore(sha);
    HiddenAtDot(stem);
    StripAtSuffix(stem, "." + sha, name);
    assert stem[..0] + ("." + sha) == "." + sha;
  }

  /** Stripping undoes minting, but a name that is a dot and a sha comes back with the new sha. */
  lemma StripMinted(name: string, sha: string)
    requires ShaMatch(sha) && name != ""
    ensures StripName(MintName(name, sha)) == if HiddenSha(name) then "." + sha else name
  {
    MintedParts(name, sha);
    if HasSuffix(name) {
      NameSplits(name);
      StripFromSha(Stem(name), sha, Suffix(name), MintName(name, sha));
      if HiddenSha(name) { HiddenHasNoSuffix(name); }
    } else {
      StripFromSuffix(name, sha, MintName(name, sha));
    }
  }

  lemma DotThenSha(name: string, sha: string)
    requires name != "" && name[0] == '.'
    ensures "." + sha == name <==> name[1..] == sha
  {
    assert ("." + sha)[1..] == sha;
    assert name == "." + name[1..];
  }

  /** Stripping undoes minting exactly when the name is not a dot and another sha. */
  lemma StripMintedName(name: string, sha: string)
    requires ShaMatch(sha) && name != ""
    ensures StripName(MintName(name, sha)) == name <==> !(HiddenSha(name) && name[1..] != sha)
  {
    StripMinted(name, sha);
    if HiddenSha(name) { DotThenSha(name, sha); }
  }

  // ---------------------------------------------------------------------------
  // Keys

  /** `_normalize_relative_key`. */
  function NormalizeRelativeKey(key: string): Result<string, KeyError> {
    if IsAbsolute(key) then Err(EscapesStore)
    else
      var normalized := Render(PathParts(key));
      if StartsWith(normalized, "../") || normalized == ".." then Err(EscapesStore) else Ok(normalized)
  }

  predicate Normalized(key: string) {
    NormalizeRelativeKey(key) == Ok(key)
  }

  predicate Escapes(parts: seq<string>) {
    parts != [] && parts[0] == ".."
  }

  function Replaced(parts: seq<string>, last: string): seq<string>
    requires parts != []
  {
    parts[..|parts| - 1] + [last]
  }

  /** `Path.with_name` on a relative path. */
  function WithName(parts: seq<string>, name: string): Result<string, KeyError> {
    if parts == [] || name == "" || name == "." then Err(InvalidName)
    else Ok(Render(Replaced(parts, name)))
  }

  function FileName(parts: seq<string>): string {
    if parts == [] then "" else parts[|parts| - 1]
  }

  /** `content_addressed_key`. */
  function ContentAddressedKey(logicalKey: string, sha: string): Result<string, KeyError> {
    if !ShaMatch(sha) then Err(BadSha)
    else
      match NormalizeRelativeKey(logicalKey)
      case Err(e) => Err(e)
      case Ok(normalized) =>
        var parts := PathParts(normalized);
        WithName(parts, MintName(FileName(parts), sha))
  }

  /** `strip_content_address` on a parsed path. Where only the suffix is a sha, `with_suffix("")` puts the stem back unchecked. */
  function StripParts(parts: seq<string>): Result<string, KeyError> {
    var name := FileName(parts);
    var stem, suffix := Stem(name), Suffix(name);
    var dot := LastIndex(stem, '.');
    if dot >= 0 && ShaMatch(stem[dot + 1..]) then WithName(parts, stem[..dot] + suffix)
    else if parts != [] && suffix != "" && ShaMatch(suffix[1..]) then Ok(Render(Replaced(parts, stem)))
    else Ok(Render(parts))
  }

  /** `strip_content_address`. */
  function StripContentAddress(key: string): Result<string, KeyError> {
    match NormalizeRelativeKey(key)
    case Err(e) => Err(e)
    case Ok(normalized) => StripParts(PathParts(normalized))
  }

  lemma EscapeIff(parts: seq<string>)
    requires CleanParts(parts)
    ensures StartsWith(Render(parts), "../") || Render(parts) == ".." <==> Escapes(parts)
  {
    if parts != [] {
      var text, first := Render(parts), parts[0];
      assert text[..|first|] == first && (|first| < |text| ==> text[|first|] == '/');
      FirstIndexIs(text, '/', |first|);
      if StartsWith(text, "../") {
        assert text[..3][2] == '/' && text[..3][0] == '.' && text[..3][1] == '.';
        FirstIndexIs(text, '/', 2);
        assert first == text[..3][..2];
      } else if text == ".." {
        FirstIndexIs(text, '/', 2);
      }
    } else {
      assert Render(parts) == ".";
    }
  }

  /** A key of clean components is already normalised unless it starts with "..". */
  lemma NormalizeRendered(parts: seq<string>)
    requires CleanParts(parts)
    ensures NormalizeRelativeKey(Render(parts)) == if Escapes(parts) then Err(EscapesStore) else Ok(Render(parts))
  {
    PartsOfRender(parts);
    EscapeIff(parts);
  }

  lemma NormalizedIff(key: string)
    ensures NormalizeRelativeKey(key).Ok? ==> !Escapes(PathParts(key)) && NormalizeRelativeKey(key).value == Render(PathParts(key))
    ensures Normalized(key) ==> key == Render(PathParts(key))
  {
    EscapeIff(PathParts(key));
  }

  lemma MintedNameClean(name: string, sha: string)
    requires Lacks(name, '/') && ShaMatch(sha)
    ensures Lacks(MintName(name, sha), '/') && |MintName(name, sha)| > 64
  {
    ShaHasNoSeparator(sha);
  }

  /** What a minted key is made of. */
  lemma MintedKey(key: string, sha: string)
    requires ContentAddressedKey(key, sha).Ok?
    ensures PathParts(key) != [] && ShaMatch(sha)
    ensures var parts := PathParts(key); var minted := Replaced(parts, MintName(FileName(parts), sha));
            && CleanParts(minted) && !Escapes(minted)
            && ContentAddressedKey(key, sha).value == Render(minted)
  {
    var parts := PathParts(key);
    NormalizedIff(key);
    PartsOfRender(parts);
    MintedNameClean(FileName(parts), sha);
  }

  /** A name and its extension, which is the part from the last dot on, but for a dot in front or at the end. */
  predicate SplitName(stem: string, extension: string) {
    if extension == "" then stem != "" && (Lacks(stem[1..], '.') || stem[|stem| - 1] == '.')
    else stem != "" && |extension| > 1 && extension[0] == '.' && Lacks(extension[1..], '.')
  }

  lemma SplitNameIs(stem: string, extension: string)
    requires SplitName(stem, extension)
    ensures Stem(stem + extension) == stem && Suffix(stem + extension) == extension
  {
    if extension != "" {
      assert extension == "." + extension[1..] && stem + extension == stem + "." + extension[1..];
      SuffixedName(stem, extension[1..]);
    } else {
      assert stem + extension == stem;
      assert Lacks(stem[1..], '.') ==> forall i :: 0 < i < |stem| ==> stem[i] == stem[1..][i - 1] != '.';
    }
  }

  /** Minting puts the sha between the name and its extension and leaves the directory alone. */
  lemma MintedKeyIs(key: string, sha: string, directory: seq<string>, stem: string, extension: string)
    requires !IsAbsolute(key) && PathParts(key) == directory + [stem + extension] && !Escapes(PathParts(key))
    requires SplitName(stem, extension) && HexDigits64(sha)
    ensures ContentAddressedKey(key, sha) == Ok(Render(directory + [stem + "." + sha + extension]))
  {
    var parts := PathParts(key);
    EscapeIff(parts);
    PartsOfRender(parts);
    SplitNameIs(stem, extension);
    assert Replaced(parts, stem + "." + sha + extension) == directory + [stem + "." + sha + extension];
    assert CleanPart(parts[|parts| - 1]) && parts[|parts| - 1] == stem + extension;
    MintedNameClean(stem + extension, sha);
  }

  /** What stripping a minted key gives. */
  lemma StripOfMint(key: string, sha: string)
    requires ContentAddressedKey(key, sha).Ok?
    ensures var parts := PathParts(key);
            && parts != [] && CleanParts(Replaced(parts, StripName(MintName(FileName(parts), sha))))
            && StripContentAddress(ContentAddressedKey(key, sha).value)
               == Ok(Render(Replaced(parts, StripName(MintName(FileName(parts), sha)))))
  {
    MintedKey(key, sha);
    StripOfMinted(PathParts(key), sha);
  }

  lemma RenderedEquals(parts: seq<string>, back: seq<string>, key: string)
    requires CleanParts(back) && parts == PathParts(key) && NormalizeRelativeKey(key).Ok?
    ensures Render(back) == key <==> back == parts && Normalized(key)
  {
    NormalizedIff(key);
    NormalizeRendered(parts);
    PartsOfRender(back);
  }

  /**
   `strip_content_address` undoes `content_addressed_key` on exactly the normalised keys whose file name is not a dot
   followed by a different sha: names without extension, with several dots or with an embedded sha included.
   */
  lemma StripUndoesMint(key: string, sha: string)
    requires ContentAddressedKey(key, sha).Ok?
    ensures StripContentAddress(ContentAddressedKey(key, sha).value) == Ok(key) <==>
            Normalized(key) && !(HiddenSha(FileName(PathParts(key))) && FileName(PathParts(key))[1..] != sha)
  {
    var parts := PathParts(key);
    assert parts != [] && ShaMatch(sha) by { MintedKey(key, sha); }
    var name := FileName(parts);
    var stripped := StripName(MintName(name, sha));
    var back := Replaced(parts, stripped);
    var result := StripContentAddress(ContentAddressedKey(key, sha).value);
    assert result == Ok(Render(back)) && CleanParts(back) by { StripOfMint(key, sha); }
    assert Render(back) == key <==> back == parts && Normalized(key) by { RenderedEquals(parts, back, key); }
    assert back == parts <==> stripped == name by { ReplacesLast(parts, stripped); }
    assert stripped == name <==> !(HiddenSha(name) && name[1..] != sha) by { StripMintedName(name, sha); }
  }

  lemma ReplacesLast(parts: seq<string>, last: string)
    requires parts != []
    ensures Replaced(parts, last) == parts <==> last == FileName(parts)
  {
    assert Replaced(parts, last)[|parts| - 1] == last;
  }

  lemma StripNameClean(name: string, sha: string)
    requires ShaMatch(sha) && CleanPart(name)
    ensures CleanPart(StripName(MintName(name, sha)))
  {
    StripMinted(name, sha);
    DotShaClean(sha);
  }

  lemma DotShaClean(sha: string)
    requires ShaMatch(sha)
    ensures CleanPart("." + sha)
  {
    ShaHasNoSeparator(sha);
  }

  lemma StripOfMinted(parts: seq<string>, sha: string)
    requires parts != [] && CleanParts(parts) && ShaMatch(sha)
    requires var minted := Replaced(parts, MintName(FileName(parts), sha)); CleanParts(minted) && !Escapes(minted)
    ensures var back := Replaced(parts, StripName(MintName(FileName(parts), sha)));
            CleanParts(back) && StripContentAddress(Render(Replaced(parts, MintName(FileName(parts), sha)))) == Ok(Render(back))
  {
    var mintedName := MintName(FileName(parts), sha);
    var minted := Replaced(parts, mintedName);
    assert CleanPart(StripName(mintedName)) by { StripNameClean(FileName(parts), sha); }
    ReplacedTwice(parts, mintedName, StripName(mintedName));
    StripRendered(minted);
  }

  lemma ReplacedTwice(parts: seq<string>, first: string, second: string)
    requires parts != []
    ensures var once := Replaced(parts, first);
            once != [] && FileName(once) == first && Replaced(once, second) == Replaced(parts, second)
    ensures CleanParts(parts) && CleanPart(second) ==> CleanParts(Replaced(parts, second))
  {
  }

  /** Stripping a normalised key changes its file name only. */
  lemma StripRendered(parts: seq<string>)
    requires parts != [] && CleanParts(parts) && !Escapes(parts) && CleanPart(StripName(FileName(parts)))
    ensures StripContentAddress(Render(parts)) == Ok(Render(Replaced(parts, StripName(FileName(parts)))))
  {
    PartsOfRender(parts);
    NormalizeRendered(parts);
    StripPartsName(parts);
  }

  /** Stripping fails only where nothing is left of the file name. */
  lemma StripPartsRenders(parts: seq<string>)
    requires StripParts(parts).Ok?
    ensures StripParts(parts).value == Render(if parts == [] then parts else Replaced(parts, StripName(FileName(parts))))
  {
    if parts != [] { StripPartsName(parts); }
  }

  lemma StripPartsName(parts: seq<string>)
    requires parts != [] && (StripParts(parts).Ok? || CleanPart(StripName(FileName(parts))))
    ensures StripParts(parts) == Ok(Render(Replaced(parts, StripName(FileName(parts)))))
  {
    var name := FileName(parts);
    var stem, suffix := Stem(name), Suffix(name);
    var dot := LastIndex(stem, '.');
    if dot >= 0 && ShaMatch(stem[dot + 1..]) {
      assert StripName(name) == stem[..dot] + suffix;
      assert StripParts(parts) == WithName(parts, stem[..dot] + suffix);
    } else if suffix != "" && ShaMatch(suffix[1..]) {
      assert StripName(name) == stem;
      assert StripParts(parts) == Ok(Render(Replaced(parts, stem)));
    } else {
      assert StripName(name) == name && Replaced(parts, name) == parts;
    }
  }

  /** A dot between equal texts without further dots separates equal texts. */
  lemma DotSeparates(a: string, b: string, c: string, d: string)
    requires Lacks(b, '.') && Lacks(d, '.') && a + "." + b == c + "." + d
    ensures a == c && b == d
  {
    LastDot(a, b);
    LastDot(c, d);
  }

  /** The minted name shows the name and the sha it was made of. */
  lemma MintNameInjective(n1: string, s1: string, n2: string, s2: string)
    requires ShaMatch(s1) && ShaMatch(s2) && n1 != "" && n2 != "" && MintName(n1, s1) == MintName(n2, s2)
    ensures n1 == n2 && s1 == s2
  {
    assert Lacks(s1, '.') && s1 != "" && Lacks(s2, '.') && s2 != "" by { ShaHasNoSeparator(s1); ShaHasNoSeparator(s2); }
    MintedParts(n1, s1);
    MintedParts(n2, s2);
    if HasSuffix(n1) && HasSuffix(n2) {
      NameSplits(n1);
      NameSplits(n2);
      DotSeparates(Stem(n1), s1, Stem(n2), s2);
    } else if HasSuffix(n1) {
      NameSplits(n1);
      SuffixedName(Stem(n1), s1);
      assert false;
    } else if HasSuffix(n2) {
      NameSplits(n2);
      SuffixedName(Stem(n2), s2);
      assert false;
    } else {
      assert "." + s1 == "." + s2;
      assert s1 == ("." + s1)[1..] && s2 == ("." + s2)[1..];
    }
  }

  lemma ReplacedInjective(p1: seq<string>, n1: string, p2: seq<string>, n2: string)
    requires p1 != [] && p2 != [] && Replaced(p1, n1) == Replaced(p2, n2) && (n1 == n2 ==> FileName(p1) == FileName(p2))
    ensures p1 == p2 && n1 == n2
  {
    assert Replaced(p1, n1)[|p1| - 1] == n1 && Replaced(p2, n2)[|p2| - 1] == n2;
    assert p1 == Replaced(p1, n1)[..|p1| - 1] + [FileName(p1)];
    assert p2 == Replaced(p2, n2)[..|p2| - 1] + [FileName(p2)];
  }

  /** Different contents of one logical key, and keys that differ after normalisation, get different minted keys. */
  lemma MintInjective(k1: string, s1: string, k2: string, s2: string)
    requires ContentAddressedKey(k1, s1).Ok? && ContentAddressedKey(k2, s2).Ok?
    ensures ContentAddressedKey(k1, s1) == ContentAddressedKey(k2, s2)
            <==> NormalizeRelativeKey(k1) == NormalizeRelativeKey(k2) && s1 == s2
  {
    if ContentAddressedKey(k1, s1) == ContentAddressedKey(k2, s2) {
      MintedPartsEqual(k1, s1, k2, s2);
      NormalizedIff(k1);
      NormalizedIff(k2);
    }
  }

  lemma MintedPartsEqual(k1: string, s1: string, k2: string, s2: string)
    requires ContentAddressedKey(k1, s1).Ok? && ContentAddressedKey(k1, s1) == ContentAddressedKey(k2, s2)
    ensures PathParts(k1) == PathParts(k2) && s1 == s2
  {
    MintedKey(k1, s1);
    MintedKey(k2, s2);
    var p1, p2 := PathParts(k1), PathParts(k2);
    var m1, m2 := MintName(FileName(p1), s1), MintName(FileName(p2), s2);
    RenderInjective(Replaced(p1, m1), Replaced(p2, m2));
    assert m1 == m2 by { assert Replaced(p1, m1)[|p1| - 1] == m1 && Replaced(p2, m2)[|p2| - 1] == m2; }
    MintNameInjective(FileName(p1), s1, FileName(p2), s2);
    ReplacedInjective(p1, m1, p2, m2);
  }
}
