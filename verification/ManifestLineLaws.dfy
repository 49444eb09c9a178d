/** What one patched line keeps, and how its value reads back. */
module ManifestLineLaws {
  import opened Wrappers
  import opened Strings
  import opened PublishSnapshot
  import opened ManifestLines

  /** A key that cannot be part of a name line. */
  predicate FieldKey(key: string) {
    key != "" && key[0] != '-'
  }

  /** The value stays on its line. */
  predicate OneLine(value: Scalar) {
    value.StrScalar? ==> forall i :: 0 <= i < |value.text| ==> !IsBreak(value.text[i])
  }

  /** What the walk over the lines relies on. */
  ghost predicate Lawful(syntax: Syntax) {
    forall line, value :: syntax.key(line).Some? && FieldKey(syntax.key(line).value) && OneLine(value) ==>
      && syntax.nameLine(syntax.patched(line, value)) == syntax.nameLine(line)
      && syntax.key(syntax.patched(line, value)) == syntax.key(line)
      && syntax.value(syntax.patched(line, value)) == syntax.rendered(value, syntax.value(line))
      && (syntax.patched(syntax.patched(line, value), value) == syntax.patched(line, value) <==> syntax.settles(value, syntax.value(line)))
  }

  // ---------------------------------------------------------------------------
  // Trimming

  predicate Blank(s: string) {
    forall i :: 0 <= i < |s| ==> Space(s[i])
  }

  predicate Tight(s: string) {
    s != "" ==> !Space(s[0]) && !Space(s[|s| - 1])
  }

  lemma {:induction false} TrimLeftIs(s: string, front: string, rest: string)
    requires s == front + rest && Blank(front) && (rest != "" ==> !Space(rest[0]))
    ensures TrimLeft(s) == rest
  {
    if front == "" {
      assert s == rest;
    } else {
      assert s[0] == front[0] && s[1..] == front[1..] + rest;
      TrimLeftIs(s[1..], front[1..], rest);
    }
  }

  lemma {:induction false} TrimRightIs(s: string, rest: string, back: string)
    requires s == rest + back && Blank(back) && (rest != "" ==> !Space(rest[|rest| - 1]))
    ensures TrimRight(s) == rest
  {
    if back == "" {
      assert s == rest;
    } else {
      assert s[|s| - 1] == back[|back| - 1] && s[..|s| - 1] == rest + back[..|back| - 1];
      TrimRightIs(s[..|s| - 1], rest, back[..|back| - 1]);
    }
  }

  lemma TrimIs(s: string, front: string, inner: string, back: string)
    requires s == front + inner + back && Blank(front) && Blank(back) && Tight(inner)
    ensures Trim(s) == inner
  {
    if inner == "" {
      assert s == (front + back) + "";
      TrimLeftIs(s, front + back, "");
    } else {
      assert s == front + (inner + back);
      TrimLeftIs(s, front, inner + back);
      TrimRightIs(inner + back, inner, back);
    }
  }

  lemma BlankCons(c: char, front: string, rest: string)
    requires Space(c) && Blank(front)
    ensures Blank([c] + front) && [c] + (front + rest) == ([c] + front) + rest
  {
  }

  lemma {:induction false} TrimLeftSplits(s: string) returns (front: string)
    ensures s == front + TrimLeft(s) && Blank(front) && (TrimLeft(s) != "" ==> !Space(TrimLeft(s)[0]))
  {
    if s != "" && Space(s[0]) {
      var rest := TrimLeftSplits(s[1..]);
      front := [s[0]] + rest;
      BlankCons(s[0], rest, TrimLeft(s[1..]));
      assert s == [s[0]] + s[1..];
    } else {
      front := "";
    }
  }

  lemma {:induction false} TrimRightSplits(s: string) returns (back: string)
    ensures s == TrimRight(s) + back && Blank(back) && (TrimRight(s) != "" ==> !Space(TrimRight(s)[|TrimRight(s)| - 1]))
  {
    if s != "" && Space(s[|s| - 1]) {
      var rest := TrimRightSplits(s[..|s| - 1]);
      back := rest + [s[|s| - 1]];
      assert s == s[..|s| - 1] + [s[|s| - 1]];
    } else {
      back := "";
    }
  }

  lemma TrimSplits(s: string) returns (front: string, back: string)
    ensures s == front + Trim(s) + back && Blank(front) && Blank(back) && Tight(Trim(s))
  {
    front := TrimLeftSplits(s);
    back := TrimRightSplits(TrimLeft(s));
  }

  lemma TrimTight(s: string)
    requires Tight(s)
    ensures Trim(s) == s
  {
    assert s == "" + s + "";
    TrimIs(s, "", s, "");
  }

  /** Surrounding white space does not count. */
  lemma TrimPadded(front: string, s: string, back: string)
    requires Blank(front) && Blank(back)
    ensures Trim(front + s + back) == Trim(s)
  {
    var a, b := TrimSplits(s);
    assert front + s + back == (front + a) + Trim(s) + (b + back);
    TrimIs(front + s + back, front + a, Trim(s), b + back);
  }

  lemma {:induction false} RightStripOf(front: string, tail: string)
    requires front != "" && front[|front| - 1] != '\n'
    ensures RightStrip(front + tail, '\n') == front + RightStrip(tail, '\n')
  {
    if tail == "" {
      assert front + tail == front;
    } else {
      assert (front + tail)[..|front + tail| - 1] == front + tail[..|tail| - 1];
      RightStripOf(front, tail[..|tail| - 1]);
    }
  }

  lemma {:induction false} TrimRightStrip(s: string)
    ensures Trim(RightStrip(s, '\n')) == Trim(s)
  {
    if s != "" && s[|s| - 1] == '\n' {
      TrimRightStrip(s[..|s| - 1]);
      assert s == "" + s[..|s| - 1] + "\n";
      TrimPadded("", s[..|s| - 1], "\n");
    }
  }

  // ---------------------------------------------------------------------------
  // Fields

  predicate ValidKey(key: string) {
    key != "" && !StartsWith(key, "- ")
  }

  lemma BodySplits(prefix: string, tail: string)
    requires Lacks(prefix, ':')
    ensures FirstIndex(prefix + ":" + tail, ':') == |prefix|
    ensures SplitAtColon(prefix + ":" + tail) == MakeField(Trim(prefix), Trim(tail))
  {
    var body := prefix + ":" + tail;
    FirstIndexIs(body, ':', |prefix|);
    assert body[..|prefix|] == prefix && body[|prefix| + 1..] == tail;
  }

  /** A line with a key is the text up to its first colon, the colon, and the rest. */
  lemma FieldFrom(prefix: string, tail: string)
    requires Lacks(prefix, ':') && ValidKey(Trim(prefix))
    ensures SplitKeyValue(prefix + ":" + tail) == Some(KeyValue(Trim(prefix), Trim(tail)))
    ensures FirstIndex(prefix + ":" + tail, ':') == |prefix|
  {
    RightStripOf(prefix + ":", tail);
    BodySplits(prefix, tail);
    BodySplits(prefix, RightStrip(tail, '\n'));
    TrimRightStrip(tail);
  }

  lemma {:induction false} RightStripPrefix(s: string)
    ensures |RightStrip(s, '\n')| <= |s| && RightStrip(s, '\n') == s[..|RightStrip(s, '\n')|]
  {
    if s != "" && s[|s| - 1] == '\n' { RightStripPrefix(s[..|s| - 1]); }
  }

  lemma AtColon(line: string, n: nat, colon: nat)
    requires colon < n <= |line| && line[..n][colon] == ':' && forall j :: 0 <= j < colon ==> line[..n][j] != ':'
    ensures line == line[..colon] + ":" + line[colon + 1..]
    ensures line[..n][..colon] == line[..colon] && Lacks(line[..colon], ':')
  {
    assert forall j :: 0 <= j < colon ==> line[..n][j] == line[j];
  }

  lemma FieldShape(line: string) returns (prefix: string, tail: string)
    requires SplitKeyValue(line).Some?
    ensures line == prefix + ":" + tail && Lacks(prefix, ':') && ValidKey(Trim(prefix))
    ensures SplitKeyValue(line) == Some(KeyValue(Trim(prefix), Trim(tail))) && FirstIndex(line, ':') == |prefix|
  {
    RightStripPrefix(line);
    var body := RightStrip(line, '\n');
    var colon := FirstIndex(body, ':');
    prefix, tail := line[..colon], line[colon + 1..];
    AtColon(line, |body|, colon);
    FieldFrom(prefix, tail);
  }

  lemma MakeLineShape(prefix: string, rendered: string, lineEnd: string)
    ensures MakeLine(prefix, rendered, lineEnd) == prefix + ":" + (" " + rendered + lineEnd)
  {
  }

  lemma MadeLineReads(prefix: string, rendered: string, lineEnd: string)
    requires Lacks(prefix, ':') && ValidKey(Trim(prefix)) && Blank(lineEnd)
    ensures SplitKeyValue(MakeLine(prefix, rendered, lineEnd)) == Some(KeyValue(Trim(prefix), Trim(rendered)))
    ensures FirstIndex(MakeLine(prefix, rendered, lineEnd), ':') == |prefix|
  {
    MakeLineShape(prefix, rendered, lineEnd);
    FieldFrom(prefix, " " + rendered + lineEnd);
    TrimPadded(" ", rendered, lineEnd);
  }

  /** A patched line has the key of the old one and the new value. */
  lemma PatchedFields(line: string, value: Scalar)
    requires SplitKeyValue(line).Some?
    ensures var current := SplitKeyValue(line).value;
            SplitKeyValue(PatchedLine(line, value)) == Some(KeyValue(current.key, RenderedValue(value, current.value)))
    ensures FirstIndex(PatchedLine(line, value), ':') == FirstIndex(line, ':')
  {
    var prefix, tail := FieldShape(line);
    assert line[..|prefix|] == prefix;
    MadeLineReads(prefix, FormatScalar(value, Trim(tail)), LineEnd(line));
  }

  lemma KeyOpensLine(front: string, key: string, rest: string)
    requires Blank(front) && key != "" && Tight(key)
    ensures TrimLeft(front + key + rest) != "" && TrimLeft(front + key + rest)[0] == key[0]
  {
    assert front + key + rest == front + (key + rest);
    TrimLeftIs(front + key + rest, front, key + rest);
  }

  lemma AroundKey(body: string, colon: nat) returns (front: string, rest: string)
    requires colon <= |body|
    ensures body == front + Trim(body[..colon]) + rest && Blank(front) && Tight(Trim(body[..colon]))
  {
    var back;
    front, back := TrimSplits(body[..colon]);
    rest := back + body[colon..];
    assert body == body[..colon] + body[colon..];
  }

  /** A line with a field key is no name line. */
  lemma FieldIsNoName(line: string)
    requires SplitKeyValue(line).Some? && FieldKey(SplitKeyValue(line).value.key)
    ensures MatchName(line).None?
  {
    var body := RightStrip(line, '\n');
    var colon := FirstIndex(body, ':');
    var front, rest := AroundKey(body, colon);
    KeyOpensLine(front, Trim(body[..colon]), rest);
  }

  /** A key and a value with white space around them, on both sides of the first colon. */
  predicate FieldText(body: string, f: KeyValue, a: string, b: string, c: string, d: string) {
    && body == a + f.key + b + ":" + c + f.value + d
    && Blank(a) && Blank(b) && Blank(c) && Blank(d) && Tight(f.key) && Tight(f.value)
    && Lacks(f.key, ':') && f.key != "" && !StartsWith(f.key, "- ")
  }

  ghost predicate IsFieldLine(body: string, f: KeyValue) {
    exists a, b, c, d :: FieldText(body, f, a, b, c, d)
  }

  lemma FieldPieces(body: string, prefix: string, tail: string,
                    a: string, key: string, b: string, c: string, value: string, d: string)
    requires prefix == a + key + b && tail == c + value + d
    ensures body == prefix + ":" + tail <==> body == a + key + b + ":" + c + value + d
  {
  }

  lemma ColonSplits(body: string, colon: nat)
    requires colon < |body| && body[colon] == ':' && forall j :: 0 <= j < colon ==> body[j] != ':'
    ensures body == body[..colon] + ":" + body[colon + 1..] && Lacks(body[..colon], ':')
  {
  }

  lemma InnerLacks(a: string, key: string, b: string)
    requires Lacks(a + key + b, ':')
    ensures Lacks(key, ':')
  {
    assert forall i :: 0 <= i < |key| ==> key[i] == (a + key + b)[|a| + i];
  }

  lemma FieldHasText(body: string, f: KeyValue)
    requires SplitAtColon(body) == Some(f)
    ensures IsFieldLine(body, f)
  {
    var colon := FirstIndex(body, ':');
    ColonSplits(body, colon);
    PartsHaveText(body, body[..colon], body[colon + 1..], f);
  }

  lemma PartsHaveText(body: string, prefix: string, tail: string, f: KeyValue)
    requires body == prefix + ":" + tail && Lacks(prefix, ':') && MakeField(Trim(prefix), Trim(tail)) == Some(f)
    ensures IsFieldLine(body, f)
  {
    var a, b := TrimSplits(prefix);
    var c, d := TrimSplits(tail);
    FieldPieces(body, prefix, tail, a, f.key, b, c, f.value, d);
    InnerLacks(a, f.key, b);
    assert FieldText(body, f, a, b, c, d);
  }

  lemma BlankLacksColon(a: string, key: string, b: string)
    requires Blank(a) && Blank(b) && Lacks(key, ':')
    ensures Lacks(a + key + b, ':')
  {
  }

  lemma TextIsField(body: string, f: KeyValue, a: string, b: string, c: string, d: string)
    requires FieldText(body, f, a, b, c, d)
    ensures SplitAtColon(body) == Some(f)
  {
    BlankLacksColon(a, f.key, b);
    FieldPieces(body, a + f.key + b, c + f.value + d, a, f.key, b, c, f.value, d);
    BodySplits(a + f.key + b, c + f.value + d);
    TrimIs(a + f.key + b, a, f.key, b);
    TrimIs(c + f.value + d, c, f.value, d);
  }

  /** Exactly which lines have a key, and which key and value that are. */
  lemma FieldLineIff(line: string, f: KeyValue)
    ensures SplitKeyValue(line) == Some(f) <==> IsFieldLine(RightStrip(line, '\n'), f)
  {
    var body := RightStrip(line, '\n');
    if SplitKeyValue(line) == Some(f) { FieldHasText(body, f); }
    if IsFieldLine(body, f) {
      var a, b, c, d :| FieldText(body, f, a, b, c, d);
      TextIsField(body, f, a, b, c, d);
    }
  }

  lemma LineEndIs(front: string, tail: string)
    requires front != "" && front[|front| - 1] != '\n'
    ensures LineEnd(front + tail) == if tail != "" && tail[|tail| - 1] == '\n' then "\n" else ""
  {
    var line := front + tail;
    assert line[|line| - 1..] == [line[|line| - 1]];
  }

  /** A patched line keeps what stands before the colon, indentation included, and its line end. */
  lemma PatchedLineKeeps(prefix: string, tail: string, value: Scalar)
    requires Lacks(prefix, ':') && ValidKey(Trim(prefix))
    ensures PatchedLine(prefix + ":" + tail, value) ==
            prefix + ": " + FormatScalar(value, Trim(tail)) + if tail != "" && tail[|tail| - 1] == '\n' then "\n" else ""
  {
    FieldFrom(prefix, tail);
    LineEndIs(prefix + ":", tail);
    assert (prefix + ":" + tail)[..|prefix|] == prefix;
  }

  /** A new text is quoted as the text it replaces was, and a missing value stays empty where it was. */
  lemma RenderedStyle(value: Scalar, current: string)
    ensures var text := FormatScalar(value, current);
            && (value.NullScalar? ==> text == if current == "" then "" else "null")
            && (value.StrScalar? && QuotedBy(current, '\'') ==> QuotedBy(text, '\'') && |text| >= 2)
            && (value.StrScalar? && QuotedBy(current, '"') ==> QuotedBy(text, '"') && |text| >= 2)
            && (value.StrScalar? && !Quoted(current) ==> text == value.text)
  {
  }

  // ---------------------------------------------------------------------------
  // Name lines

  /** The text within one pair of equal quotes, or the text itself where it has no such pair. */
  predicate SpellsName(text: string, name: string) {
    text == "'" + name + "'" || text == "\"" + name + "\"" || (text == name && !(|text| >= 2 && Quoted(text)))
  }

  /** Indentation, a dash, "name:" and a text, with white space at least on both sides of "name:". */
  predicate NameLineText(body: string, m: NameLine, gap: string, front: string, text: string, back: string) {
    && body == m.indent + "-" + gap + "name:" + front + text + back
    && Blank(m.indent) && Blank(gap) && Blank(front) && Blank(back) && Tight(text)
    && gap != "" && front != "" && |front + text + back| >= 2 && SpellsName(text, m.name)
  }

  lemma ParsedNames(text: string, name: string)
    requires Tight(text)
    ensures ParseScalar(text) == name <==> SpellsName(text, name)
  {
    TrimTight(text);
    if |text| >= 2 { assert text == [text[0]] + text[1..|text| - 1] + [text[|text| - 1]]; }
  }

  /** The value part of a name line. */
  lemma ValueParts(rest: string) returns (front: string, text: string, back: string)
    requires rest != "" && Space(rest[0])
    ensures rest == front + text + back && Blank(front) && Blank(back) && Tight(text) && front != "" && Trim(rest) == text
  {
    text := Trim(rest);
    front, back := TrimSplits(rest);
    if text == "" { front, back := rest, ""; }
  }

  /** A line of indentation, dash, white space, "name:" and a rest. */
  predicate NameParts(body: string, indent: string, gap: string, rest: string) {
    body == indent + "-" + gap + "name:" + rest && Blank(indent) && Blank(gap) && gap != ""
  }

  lemma WordMatches(indent: string, gap: string, rest: string)
    requires Blank(gap) && gap != ""
    ensures TrimLeft(gap + "name:" + rest) == "name:" + rest
    ensures MatchWord(indent, gap + "name:" + rest, "name:" + rest) == MatchValue(indent, rest)
  {
    assert gap + "name:" + rest == gap + ("name:" + rest);
    TrimLeftIs(gap + "name:" + rest, gap, "name:" + rest);
    assert ("name:" + rest)[..5] == "name:" && ("name:" + rest)[5..] == rest;
  }

  lemma DashMatches(indent: string, after: string)
    requires Blank(indent)
    ensures TrimLeft(indent + ("-" + after)) == "-" + after
    ensures MatchDash(indent + ("-" + after), "-" + after) == MatchWord(indent, after, TrimLeft(after))
  {
    TrimLeftIs(indent + ("-" + after), indent, "-" + after);
    assert ("-" + after)[1..] == after && (indent + ("-" + after))[..|indent|] == indent;
  }

  lemma PartsMatch(line: string, indent: string, gap: string, rest: string)
    requires NameParts(RightStrip(line, '\n'), indent, gap, rest)
    ensures MatchName(line) == MatchValue(indent, rest)
  {
    var after := gap + "name:" + rest;
    assert RightStrip(line, '\n') == indent + ("-" + after) by {
      Joined(RightStrip(line, '\n'), indent, after, gap, "name:" + rest, rest);
    }
    DashMatches(indent, after);
    WordMatches(indent, gap, rest);
  }

  lemma Joined(body: string, indent: string, after: string, gap: string, named: string, rest: string)
    requires after == gap + named && named == "name:" + rest
    ensures body == indent + ("-" + after) <==> body == indent + "-" + gap + "name:" + rest
  {
  }

  lemma NamedStart(word: string)
    requires StartsWith(word, "name:")
    ensures word == "name:" + word[5..]
  {
  }

  lemma Dashed(dashed: string)
    requires dashed != "" && dashed[0] == '-'
    ensures dashed == "-" + dashed[1..]
  {
  }

  lemma PartsAfterDash(indent: string, after: string) returns (gap: string)
    requires MatchWord(indent, after, TrimLeft(after)).Some?
    ensures after == gap + TrimLeft(after) && TrimLeft(after) == "name:" + TrimLeft(after)[5..] && Blank(gap) && gap != ""
  {
    gap := TrimLeftSplits(after);
    NamedStart(TrimLeft(after));
  }

  lemma MatchHasParts(line: string) returns (indent: string, gap: string, rest: string)
    requires MatchName(line).Some?
    ensures NameParts(RightStrip(line, '\n'), indent, gap, rest)
  {
    var body := RightStrip(line, '\n');
    var dashed := TrimLeft(body);
    assert MatchDash(body, dashed).Some?;
    Dashed(dashed);
    indent := TrimLeftSplits(body);
    gap := PartsAfterDash(body[..|body| - |dashed|], dashed[1..]);
    rest := TrimLeft(dashed[1..])[5..];
    Joined(body, indent, dashed[1..], gap, TrimLeft(dashed[1..]), rest);
  }

  lemma NameLineJoins(body: string, m: NameLine, gap: string, rest: string)
    requires NameParts(body, m.indent, gap, rest) && ValuePart(rest) && m.name == ParseScalar(Trim(rest))
    ensures IsNameLine(body, m)
  {
    var front, text, back := ValueParts(rest);
    ParsedNames(text, m.name);
    TrimTight(text);
    assert body == m.indent + "-" + gap + "name:" + front + text + back by {
      SplitRest(m.indent + "-" + gap + "name:", front, text, back);
    }
    assert NameLineText(body, m, gap, front, text, back);
  }

  lemma SplitRest(start: string, front: string, text: string, back: string)
    ensures start + (front + text + back) == start + front + text + back
  {
  }

  ghost predicate IsNameLine(body: string, m: NameLine) {
    exists gap, front, text, back :: NameLineText(body, m, gap, front, text, back)
  }

  lemma ValueReads(front: string, text: string, back: string)
    requires Blank(front) && Blank(back) && Tight(text) && front != "" && |front + text + back| >= 2
    ensures ValuePart(front + text + back) && Trim(front + text + back) == text
  {
    TrimIs(front + text + back, front, text, back);
  }

  lemma NameLineReads(line: string, m: NameLine, gap: string, front: string, text: string, back: string)
    requires NameLineText(RightStrip(line, '\n'), m, gap, front, text, back)
    ensures MatchName(line) == Some(m)
  {
    ValueReads(front, text, back);
    SplitRest(m.indent + "-" + gap + "name:", front, text, back);
    ParsedNames(text, m.name);
    PartsMatch(line, m.indent, gap, front + text + back);
  }

  /** Exactly which lines are name lines, with what indentation, and which names they carry. */
  lemma NameLineIff(line: string, m: NameLine)
    ensures MatchName(line) == Some(m) <==> IsNameLine(RightStrip(line, '\n'), m)
  {
    if MatchName(line) == Some(m) {
      var indent, gap, rest := MatchHasParts(line);
      PartsMatch(line, indent, gap, rest);
      NameLineJoins(RightStrip(line, '\n'), m, gap, rest);
    }
    if IsNameLine(RightStrip(line, '\n'), m) {
      var gap, front, text, back :| NameLineText(RightStrip(line, '\n'), m, gap, front, text, back);
      NameLineReads(line, m, gap, front, text, back);
    }
  }

  // ---------------------------------------------------------------------------
  // Writing a value twice

  lemma {:induction false} ReplaceAllGrows(s: string, c: char, replacement: string)
    requires replacement != ""
    ensures |ReplaceAll(s, c, replacement)| >= |s|
  {
    if s != "" { ReplaceAllGrows(s[1..], c, replacement); }
  }

  lemma FormatTwice(value: Scalar, current: string)
    ensures FormatScalar(value, RenderedValue(value, current)) == FormatScalar(value, current) <==> Settles(value, current)
  {
    var once := FormatScalar(value, current);
    if value.NullScalar? {
      TrimTight(once);
    } else if value.StrScalar? {
      if Quoted(current) {
        TrimTight(once);
      } else {
        ReplaceAllGrows(value.text, '\'', "''");
        ReplaceAllGrows(value.text, '"', "\\\"");
      }
    }
  }

  /** The last character of a one-line rendering is no line end. */
  lemma RenderedOneLine(value: Scalar, current: string)
    requires OneLine(value)
    ensures var text := FormatScalar(value, current); text != "" ==> text[|text| - 1] != '\n'
  {
  }

  lemma PatchedTwice(line: string, value: Scalar)
    requires SplitKeyValue(line).Some? && OneLine(value)
    ensures PatchedLine(PatchedLine(line, value), value) == PatchedLine(line, value) <==> Settles(value, SplitKeyValue(line).value.value)
  {
    var current := SplitKeyValue(line).value.value;
    var once := PatchedLine(line, value);
    PatchedFields(line, value);
    FormatTwice(value, current);
    RenderedOneLine(value, current);
    var i := FirstIndex(line, ':');
    var first, second := FormatScalar(value, current), FormatScalar(value, RenderedValue(value, current));
    assert once == MakeLine(line[..i], first, LineEnd(line));
    EndOfMadeLine(line[..i], first, LineEnd(line));
    assert PatchedLine(once, value) == MakeLine(line[..i], second, LineEnd(line));
    Cancel(line[..i] + ": ", first, second, LineEnd(line));
  }

  lemma EndOfMadeLine(prefix: string, rendered: string, lineEnd: string)
    requires (rendered != "" ==> rendered[|rendered| - 1] != '\n') && (lineEnd == "" || lineEnd == "\n")
    ensures LineEnd(MakeLine(prefix, rendered, lineEnd)) == lineEnd
    ensures MakeLine(prefix, rendered, lineEnd)[..|prefix|] == prefix
  {
    var line := MakeLine(prefix, rendered, lineEnd);
    assert EndsWith(line, "\n") <==> line[|line| - 1] == '\n' by {
      assert line[|line| - 1..] == [line[|line| - 1]];
    }
  }

  lemma Cancel(front: string, a: string, b: string, back: string)
    ensures front + a + back == front + b + back <==> a == b
  {
    if front + a + back == front + b + back {
      assert a == (front + a + back)[|front|..|front + a|];
      assert b == (front + b + back)[|front|..|front + b|];
    }
  }

  /** The patcher's own line syntax keeps name lines and keys, and its values read back. */
  lemma YamlIsLawful()
    ensures Lawful(YamlLines())
  {
    forall line, value | KeyOf(line).Some? && FieldKey(KeyOf(line).value) && OneLine(value)
      ensures MatchName(PatchedLine(line, value)) == MatchName(line)
      ensures KeyOf(PatchedLine(line, value)) == KeyOf(line)
      ensures ValueOf(PatchedLine(line, value)) == RenderedValue(value, ValueOf(line))
      ensures PatchedLine(PatchedLine(line, value), value) == PatchedLine(line, value) <==> Settles(value, ValueOf(line))
    {
      PatchedFields(line, value);
      FieldIsNoName(line);
      FieldIsNoName(PatchedLine(line, value));
      PatchedTwice(line, value);
    }
  }
}
