/** Strings as Python's `str` methods and posix paths see them. */
module Strings {

  predicate StartsWith(s: string, prefix: string) {
    |s| >= |prefix| && s[..|prefix|] == prefix
  }

  predicate EndsWith(s: string, suffix: string) {
    |s| >= |suffix| && s[|s| - |suffix|..] == suffix
  }

  /** `s.rfind(c)`. */
  function LastIndex(s: string, c: char): (i: int)
    ensures -1 <= i < |s|
    ensures i >= 0 ==> s[i] == c
    ensures forall j :: i < j < |s| ==> s[j] != c
  {
    if s == "" then -1
    else if s[|s| - 1] == c then |s| - 1
    else LastIndex(s[..|s| - 1], c)
  }

  /** `s.find(c)`, with the length in place of -1. */
  function FirstIndex(s: string, c: char): (i: nat)
    ensures i <= |s|
    ensures i < |s| ==> s[i] == c
    ensures forall j :: 0 <= j < i ==> s[j] != c
  {
    if s == "" then 0 else if s[0] == c then 0 else FirstIndex(s[1..], c) + 1
  }

  predicate Lacks(s: string, c: char) {
    forall i :: 0 <= i < |s| ==> s[i] != c
  }

  /** `s.split(c)`. */
  function Split(s: string, c: char): (pieces: seq<string>)
    ensures pieces != []
    decreases |s|
  {
    var i := FirstIndex(s, c);
    if i == |s| then [s] else [s[..i]] + Split(s[i + 1..], c)
  }

  /** `c.join(pieces)`. */
  function Join(pieces: seq<string>, c: char): string {
    if pieces == [] then ""
    else if |pieces| == 1 then pieces[0]
    else pieces[0] + [c] + Join(pieces[1..], c)
  }

  lemma FirstIndexIs(s: string, c: char, i: nat)
    requires i <= |s| && (i < |s| ==> s[i] == c) && forall j :: 0 <= j < i ==> s[j] != c
    ensures FirstIndex(s, c) == i
  {
  }

  lemma {:induction false} SplitOfJoin(pieces: seq<string>, c: char)
    requires pieces != [] && forall i :: 0 <= i < |pieces| ==> Lacks(pieces[i], c)
    ensures Split(Join(pieces, c), c) == pieces
  {
    var s := Join(pieces, c);
    FirstIndexIs(s, c, |pieces[0]|);
    if |pieces| > 1 {
      assert s[..|pieces[0]|] == pieces[0];
      assert s[|pieces[0]| + 1..] == Join(pieces[1..], c);
      SplitOfJoin(pieces[1..], c);
    }
  }

  lemma {:induction false} JoinOfSplit(s: string, c: char)
    ensures Join(Split(s, c), c) == s
    ensures forall i :: 0 <= i < |Split(s, c)| ==> Lacks(Split(s, c)[i], c)
    decreases |s|
  {
    var i := FirstIndex(s, c);
    if i < |s| {
      var tail := Split(s[i + 1..], c);
      JoinOfSplit(s[i + 1..], c);
      JoinCons(s[..i], tail, c);
      assert Split(s, c) == [s[..i]] + tail;
      assert s == s[..i] + [c] + s[i + 1..];
    }
  }

  lemma JoinCons(head: string, tail: seq<string>, c: char)
    requires tail != []
    ensures Join([head] + tail, c) == head + [c] + Join(tail, c)
  {
    assert ([head] + tail)[1..] == tail;
  }

  /** `s.lower()` on ASCII letters. */
  function LowerText(s: string): string {
    seq(|s|, i requires 0 <= i < |s| => if 'A' <= s[i] <= 'Z' then (s[i] as int + 32) as char else s[i])
  }

  /** `s.lstrip(c)` and `s.rstrip(c)`. */
  function LeftStrip(s: string, c: char): string {
    if s != "" && s[0] == c then LeftStrip(s[1..], c) else s
  }

  function RightStrip(s: string, c: char): string {
    if s != "" && s[|s| - 1] == c then RightStrip(s[..|s| - 1], c) else s
  }

  function StripBoth(s: string, c: char): string {
    RightStrip(LeftStrip(s, c), c)
  }

  // ---------------------------------------------------------------------------
  // Posix paths

  /** A path component that survives `pathlib`'s normalisation. */
  predicate CleanPart(part: string) {
    part != "" && part != "." && Lacks(part, '/')
  }

  predicate CleanParts(parts: seq<string>) {
    forall i :: 0 <= i < |parts| ==> CleanPart(parts[i])
  }

  function KeepClean(pieces: seq<string>): (parts: seq<string>)
    requires forall i :: 0 <= i < |pieces| ==> Lacks(pieces[i], '/')
    ensures CleanParts(parts)
  {
    if pieces == [] then []
    else if pieces[0] == "" || pieces[0] == "." then KeepClean(pieces[1..])
    else [pieces[0]] + KeepClean(pieces[1..])
  }

  /** The components of `Path(s)`, its root aside. */
  function PathParts(s: string): (parts: seq<string>)
    ensures CleanParts(parts)
  {
    JoinOfSplit(s, '/');
    KeepClean(Split(s, '/'))
  }

  predicate IsAbsolute(s: string) {
    s != "" && s[0] == '/'
  }

  /** `str` of a relative path. */
  function Render(parts: seq<string>): string {
    if parts == [] then "." else Join(parts, '/')
  }

  lemma {:induction false} KeepCleanIdentity(parts: seq<string>)
    requires CleanParts(parts)
    ensures KeepClean(parts) == parts
  {
    if parts != [] { KeepCleanIdentity(parts[1..]); }
  }

  /** Reading back a rendered path gives its components. */
  lemma PartsOfRender(parts: seq<string>)
    requires CleanParts(parts)
    ensures PathParts(Render(parts)) == parts && !IsAbsolute(Render(parts))
  {
    if parts == [] {
      assert Split(".", '/') == ["."];
      assert KeepClean(["."]) == [];
    } else {
      SplitOfJoin(parts, '/');
      KeepCleanIdentity(parts);
      assert Render(parts)[0] == parts[0][0];
    }
  }

  /** Reading back an absolute path gives its components. */
  lemma PartsOfAbsolute(parts: seq<string>)
    requires CleanParts(parts)
    ensures PathParts("/" + Join(parts, '/')) == parts
  {
    var text := "/" + Join(parts, '/');
    assert text[1..] == Join(parts, '/') && text[..0] == "";
    FirstIndexIs(text, '/', 0);
    if parts == [] {
      assert Split("", '/') == [""];
      assert Split(text, '/') == ["", ""];
      assert KeepClean(["", ""]) == KeepClean([""]) == [];
    } else {
      SplitOfJoin(parts, '/');
      assert Split(text, '/') == [""] + parts;
      assert ([""] + parts)[1..] == parts;
      KeepCleanIdentity(parts);
    }
  }

  lemma RenderInjective(a: seq<string>, b: seq<string>)
    requires CleanParts(a) && CleanParts(b) && Render(a) == Render(b)
    ensures a == b
  {
    PartsOfRender(a);
    PartsOfRender(b);
  }
}
