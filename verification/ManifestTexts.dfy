/** The manifest patcher on whole texts: the lines it writes are the lines the next reader finds. */
module ManifestTexts {
  import opened Wrappers
  import opened Strings
  import opened PublishSnapshot
  import opened ManifestLines
  import opened ManifestBlocks
  import opened ManifestPatch
  import opened ManifestLineLaws
  import opened ManifestPatchProperties

  predicate NoBreak(s: string) {
    forall i :: 0 <= i < |s| ==> !IsBreak(s[i])
  }

  /** A line as `splitlines` yields it where "\n" is the only line break; `last` allows the end of the file. */
  predicate PlainLine(line: string, last: bool) {
    line != "" && NoBreak(line[..|line| - 1])
    && if IsBreak(line[|line| - 1]) then line[|line| - 1] == '\n' else last
  }

  predicate PlainLines(lines: seq<string>) {
    forall i :: 0 <= i < |lines| ==> PlainLine(lines[i], i == |lines| - 1)
  }

  /** "\n" is the only line break in the text. */
  predicate PlainText(text: string) {
    forall i :: 0 <= i < |text| ==> IsBreak(text[i]) ==> text[i] == '\n'
  }

  lemma FirstBreakIs(s: string, i: nat)
    requires i <= |s| && NoBreak(s[..i]) && (i < |s| ==> IsBreak(s[i]))
    ensures FirstBreak(s) == i
  {
    assert forall k :: 0 <= k < i ==> s[..i][k] == s[k];
  }

  lemma PlainSuffix(text: string, i: nat)
    requires PlainText(text) && i <= |text|
    ensures PlainText(text[i..])
  {
    forall j | 0 <= j < |text[i..]| && IsBreak(text[i..][j]) ensures text[i..][j] == '\n' {
      assert text[i..][j] == text[i + j];
    }
  }

  lemma FirstLineIsPlain(text: string, i: nat)
    requires PlainText(text) && i < |text| && IsBreak(text[i]) && forall j :: 0 <= j < i ==> !IsBreak(text[j])
    ensures PlainLine(text[..i + 1], false)
  {
    var line := text[..i + 1];
    var front := line[..|line| - 1];
    assert line[|line| - 1] == text[i];
    forall j | 0 <= j < |front| ensures !IsBreak(front[j]) {
      assert front[j] == text[j];
    }
  }

  lemma SplitAtBreak(text: string, i: nat)
    requires i == FirstBreak(text) < |text|
    ensures SplitLines(text) == [text[..i + 1]] + SplitLines(text[i + 1..]) && text == text[..i + 1] + text[i + 1..]
  {
  }

  lemma {:induction false} SplitIsPlain(text: string)
    requires PlainText(text)
    ensures PlainLines(SplitLines(text)) && Concat(SplitLines(text)) == text
    decreases |text|
  {
    var i := FirstBreak(text);
    if i < |text| {
      FirstLineIsPlain(text, i);
      PlainSuffix(text, i + 1);
      SplitIsPlain(text[i + 1..]);
      SplitAtBreak(text, i);
      LinesCons(text[..i + 1], SplitLines(text[i + 1..]));
    } else if text != "" {
      OneLineIsPlain(text);
    }
  }

  lemma OneLineIsPlain(text: string)
    requires text != "" && FirstBreak(text) == |text|
    ensures SplitLines(text) == [text] && PlainLines([text]) && Concat([text]) == text
  {
    assert PlainLine(text, true) by { NoBreakBefore(text, |text| - 1); }
    ConcatOne(text);
  }

  lemma NoBreakBefore(text: string, i: nat)
    requires i < |text| && forall j :: 0 <= j < |text| ==> !IsBreak(text[j])
    ensures NoBreak(text[..i])
  {
  }

  lemma ConcatOne(text: string)
    ensures Concat([text]) == text
  {
    assert [text][1..] == [] && text + "" == text;
  }

  lemma LinesCons(line: string, rest: seq<string>)
    requires PlainLine(line, false) && PlainLines(rest)
    ensures PlainLines([line] + rest) && Concat([line] + rest) == line + Concat(rest)
  {
    assert ([line] + rest)[1..] == rest;
  }

  lemma SplitsOff(line: string, rest: string)
    requires PlainLine(line, false)
    ensures SplitLines(line + rest) == [line] + SplitLines(rest)
  {
    var text := line + rest;
    assert text[..|line| - 1] == line[..|line| - 1] && text[|line| - 1] == line[|line| - 1];
    FirstBreakIs(text, |line| - 1);
    assert text[..|line|] == line && text[|line|..] == rest;
  }

  lemma {:induction false} SplitOfConcat(lines: seq<string>)
    requires PlainLines(lines)
    ensures SplitLines(Concat(lines)) == lines
  {
    if lines != [] {
      var line := lines[0];
      PlainTail(lines);
      SplitOfConcat(lines[1..]);
      if IsBreak(line[|line| - 1]) {
        SplitsOff(line, Concat(lines[1..]));
      } else {
        assert lines == [line] && Concat(lines) == line;
        OneLineIsPlain(line) by { FirstBreakIs(line, |line|); }
      }
    }
  }

  lemma PlainTail(lines: seq<string>)
    requires PlainLines(lines) && lines != []
    ensures PlainLines(lines[1..]) && PlainLine(lines[0], |lines| == 1)
  {
    forall i | 0 <= i < |lines[1..]| ensures PlainLine(lines[1..][i], i == |lines[1..]| - 1) {
      assert PlainLine(lines[i + 1], i + 1 == |lines| - 1);
    }
  }

  // ---------------------------------------------------------------------------
  // Patched lines are plain

  lemma {:induction false} ReplaceAllNoBreak(s: string, c: char, replacement: string)
    requires NoBreak(s) && NoBreak(replacement)
    ensures NoBreak(ReplaceAll(s, c, replacement))
  {
    if s != "" { ReplaceAllNoBreak(s[1..], c, replacement); }
  }

  lemma InQuotesNoBreak(s: string, quote: string)
    requires NoBreak(s) && NoBreak(quote)
    ensures NoBreak(quote + s + quote)
  {
  }

  lemma RenderedNoBreak(value: Scalar, current: string)
    requires OneLine(value)
    ensures NoBreak(FormatScalar(value, current))
  {
    if value.StrScalar? {
      if QuotedBy(current, '\'') {
        ReplaceAllNoBreak(value.text, '\'', "\'\'");
        InQuotesNoBreak(ReplaceAll(value.text, '\'', "\'\'"), "'");
      } else if QuotedBy(current, '"') {
        ReplaceAllNoBreak(value.text, '"', "\\\"");
        InQuotesNoBreak(ReplaceAll(value.text, '"', "\\\""), "\"");
      }
    }
  }

  lemma PatchedIsPlain(line: string, value: Scalar, last: bool)
    requires PlainLine(line, last) && OneLine(value)
    ensures PlainLine(PatchedLine(line, value), last)
  {
    if SplitKeyValue(line).Some? {
      var prefix, tail := FieldShape(line);
      var rendered := FormatScalar(value, SplitKeyValue(line).value.value);
      RenderedNoBreak(value, SplitKeyValue(line).value.value);
      assert prefix == line[..|prefix|] && NoBreak(prefix) by {
        forall i | 0 <= i < |prefix| ensures !IsBreak(prefix[i]) { assert prefix[i] == line[..|line| - 1][i]; }
      }
      assert PatchedLine(line, value) == MakeLine(prefix, rendered, LineEnd(line));
      LineEndIs(line, last);
      MadeLineIsPlain(prefix, rendered, LineEnd(line), last);
    }
  }

  lemma LineEndIs(line: string, last: bool)
    requires PlainLine(line, last)
    ensures LineEnd(line) == "\n" || last
  {
    assert line[|line| - 1..] == [line[|line| - 1]];
  }

  lemma MadeLineIsPlain(prefix: string, rendered: string, lineEnd: string, last: bool)
    requires NoBreak(prefix) && NoBreak(rendered) && (lineEnd == "\n" || (lineEnd == "" && last))
    ensures PlainLine(MakeLine(prefix, rendered, lineEnd), last)
  {
    var line := MakeLine(prefix, rendered, lineEnd);
    forall i | 0 <= i < |line| - 1 ensures !IsBreak(line[i]) {
      if i < |prefix| { assert line[i] == prefix[i]; }
      else if |prefix| + 2 <= i < |prefix| + 2 + |rendered| { assert line[i] == rendered[i - |prefix| - 2]; }
    }
  }

  lemma PatchedLinesArePlain(lines: seq<string>, patches: Patches)
    requires PlainLines(lines) && FieldPatches(patches)
    ensures PlainLines(PatchedLines(YamlLines(), lines, patches))
  {
    forall i | 0 <= i < |lines| ensures PlainLine(PatchedLines(YamlLines(), lines, patches)[i], i == |lines| - 1) {
      assert PlainLine(lines[i], i == |lines| - 1);
      if PatchedLines(YamlLines(), lines, patches)[i] != lines[i] {
        var value := ChangedBy(YamlLines(), lines, patches, i);
        PatchedIsPlain(lines[i], value, i == |lines| - 1);
      }
    }
  }

  lemma ChangedBy(syntax: Syntax, lines: seq<string>, patches: Patches, i: nat) returns (value: Scalar)
    requires i < |lines| && PatchedLines(syntax, lines, patches)[i] != lines[i] && FieldPatches(patches)
    ensures OneLine(value) && PatchedLines(syntax, lines, patches)[i] == syntax.patched(lines[i], value)
  {
    OnlyFirstOccurrences(syntax, lines, patches, i);
    var updates := patches[OwnerOf(MarksOf(syntax, lines), i).value.name];
    assert FieldUpdates(updates);
    value := updates[KeysOf(syntax, lines)[i].value];
  }

  // ---------------------------------------------------------------------------
  // Texts

  /** The text that a successful patch writes. */
  function PatchedText(text: string, patches: Patches): string {
    if patches == map[] then text else Concat(PatchedLines(YamlLines(), SplitLines(text), patches))
  }

  /** The value of a field as read from a text. */
  function FieldOf(text: string, name: string, key: string): Option<string> {
    ReadField(YamlLines(), SplitLines(text), name, key)
  }

  lemma NoPatches(syntax: Syntax, lines: seq<string>)
    ensures PatchedLines(syntax, lines, map[]) == lines
  {
  }

  /** The next reader finds the very lines the patcher wrote. */
  lemma PatchedTextLines(text: string, patches: Patches)
    requires PlainText(text) && FieldPatches(patches)
    ensures SplitLines(PatchedText(text, patches)) == PatchedLines(YamlLines(), SplitLines(text), patches)
    ensures PlainLines(SplitLines(PatchedText(text, patches)))
  {
    SplitIsPlain(text);
    NoPatches(YamlLines(), SplitLines(text));
    PatchedLinesArePlain(SplitLines(text), patches);
    SplitOfConcat(PatchedLines(YamlLines(), SplitLines(text), patches));
  }

  lemma {:induction false} ConcatIsPlain(lines: seq<string>)
    requires PlainLines(lines)
    ensures PlainText(Concat(lines))
  {
    if lines != [] {
      var line, rest := lines[0], Concat(lines[1..]);
      PlainTail(lines);
      ConcatIsPlain(lines[1..]);
      assert forall i :: 0 <= i < |line| - 1 ==> line[..|line| - 1][i] == line[i];
      assert PlainText(line + rest);
    }
  }

  lemma PatchedTextIsPlain(text: string, patches: Patches)
    requires PlainText(text) && FieldPatches(patches)
    ensures PlainText(PatchedText(text, patches))
  {
    if patches != map[] {
      SplitIsPlain(text);
      PatchedLinesArePlain(SplitLines(text), patches);
      ConcatIsPlain(PatchedLines(YamlLines(), SplitLines(text), patches));
    }
  }

  /** Reading the new text gives the new value of every patched field and the old value of every other one. */
  lemma PatchedTextReads(text: string, patches: Patches, name: string, key: string)
    requires PlainText(text) && FieldPatches(patches)
    ensures FieldOf(PatchedText(text, patches), name, key) ==
            match FieldOf(text, name, key)
            case None => None
            case Some(current) =>
              Some(if name in patches && key in patches[name] then RenderedValue(patches[name][key], current) else current)
  {
    YamlIsLawful();
    PatchedTextLines(text, patches);
    ReadBack(YamlLines(), SplitLines(text), patches, name, key);
  }

  /** Every value the patch writes over a field of the text settles. */
  ghost predicate TextSettles(text: string, patches: Patches) {
    forall name, key :: Rewrites(YamlLines(), SplitLines(text), patches, name, key) ==>
      Settles(patches[name][key], FieldOf(text, name, key).value)
  }

  /** Patching the patched text again writes the same text exactly if no written text looks quoted where none was. */
  lemma RepatchTextIsNoop(text: string, patches: Patches)
    requires PlainText(text) && FieldPatches(patches)
    ensures PatchedText(PatchedText(text, patches), patches) == PatchedText(text, patches) <==> TextSettles(text, patches)
  {
    YamlIsLawful();
    PatchedTextLines(text, patches);
    var once := PatchedLines(YamlLines(), SplitLines(text), patches);
    PatchedLinesArePlain(once, patches);
    RepatchIsNoop(YamlLines(), SplitLines(text), patches);
    NoPatches(YamlLines(), once);
    SplitOfConcat(once);
    SplitOfConcat(PatchedLines(YamlLines(), once, patches));
  }
}
