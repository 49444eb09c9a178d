/**
 One line of a manifest and one scalar in it, as the patcher of scripts/publish_canonical_snapshot.py reads and writes
 them. Text is what `read_text` yields, where "\r\n" and "\r" have become "\n".
 */
module ManifestLines {
  import opened Wrappers
  import opened Strings
  import opened PublishSnapshot

  // ---------------------------------------------------------------------------
  // Whitespace, as `str.strip` and `\s` see it

  predicate Space(c: char) {
    c == ' ' || '\t' <= c <= '\r' || '\U{1c}' <= c <= '\U{1f}' || c == '\U{85}' || c == '\U{a0}' || c == '\U{1680}'
    || '\U{2000}' <= c <= '\U{200a}' || c == '\U{2028}' || c == '\U{2029}' || c == '\U{202f}' || c == '\U{205f}' || c == '\U{3000}'
  }

  function TrimLeft(s: string): (t: string)
    ensures |t| <= |s|
  {
    if s != "" && Space(s[0]) then TrimLeft(s[1..]) else s
  }

  function TrimRight(s: string): string
  {
    if s != "" && Space(s[|s| - 1]) then TrimRight(s[..|s| - 1]) else s
  }

  function Trim(s: string): string {
    TrimRight(TrimLeft(s))
  }

  // ---------------------------------------------------------------------------
  // Scalars

  predicate QuotedBy(s: string, quote: char) {
    s != "" && s[0] == quote && s[|s| - 1] == quote
  }

  /** `_parse_yaml_scalar`. */
  function ParseScalar(raw: string): string {
    var value := Trim(raw);
    if |value| >= 2 && (QuotedBy(value, '\'') || QuotedBy(value, '"')) then value[1..|value| - 1] else value
  }

  /** `s.replace(c, replacement)` for one character. */
  function ReplaceAll(s: string, c: char, replacement: string): string {
    if s == "" then "" else (if s[0] == c then replacement else [s[0]]) + ReplaceAll(s[1..], c, replacement)
  }

  function Digits(n: nat): (s: string)
    ensures s != "" && forall i :: 0 <= i < |s| ==> '0' <= s[i] <= '9'
  {
    (if n < 10 then "" else Digits(n / 10)) + [(n % 10 + 48) as char]
  }

  function IntText(n: int): string {
    if n < 0 then "-" + Digits(-n) else Digits(n)
  }

  /** `_format_yaml_scalar`: the new text keeps the quoting style of the value it replaces. */
  function FormatScalar(value: Scalar, current: string): string {
    match value
    case NullScalar => if current == "" then "" else "null"
    case IntScalar(number) => IntText(number)
    case StrScalar(text) =>
      if QuotedBy(current, '\'') then "'" + ReplaceAll(text, '\'', "''") + "'"
      else if QuotedBy(current, '"') then "\"" + ReplaceAll(text, '"', "\\\"") + "\""
      else text
  }

  /** The new value as the next reader sees it. */
  function RenderedValue(value: Scalar, current: string): string {
    Trim(FormatScalar(value, current))
  }

  predicate Quoted(s: string) {
    QuotedBy(s, '\'') || QuotedBy(s, '"')
  }

  /** Writing the value again over itself changes nothing: text that looks quoted does not replace unquoted text. */
  predicate Settles(value: Scalar, current: string) {
    value.StrScalar? && !Quoted(current) ==> !Quoted(Trim(value.text))
  }

  // ---------------------------------------------------------------------------
  // Lines

  datatype KeyValue = KeyValue(key: string, value: string)

  /** `_split_yaml_key_value`. */
  function SplitKeyValue(line: string): Option<KeyValue> {
    SplitAtColon(RightStrip(line, '\n'))
  }

  function SplitAtColon(body: string): Option<KeyValue> {
    var colon := FirstIndex(body, ':');
    if colon == |body| then None else MakeField(Trim(body[..colon]), Trim(body[colon + 1..]))
  }

  function MakeField(key: string, value: string): Option<KeyValue> {
    if key == "" || StartsWith(key, "- ") then None else Some(KeyValue(key, value))
  }

  datatype NameLine = NameLine(indent: string, name: string)

  /** The match of an artifact's name line: indentation, dash, "name:" and the name as parsed. */
  function MatchName(line: string): Option<NameLine> {
    var body := RightStrip(line, '\n');
    MatchDash(body, TrimLeft(body))
  }

  /** From the dash on: `dashed` is the body without its indentation. */
  function MatchDash(body: string, dashed: string): Option<NameLine>
    requires |dashed| <= |body|
  {
    if dashed == "" || dashed[0] != '-' then None
    else MatchWord(body[..|body| - |dashed|], dashed[1..], TrimLeft(dashed[1..]))
  }

  /** After the dash there has to be white space before `word`, and "name:" at its start. */
  function MatchWord(indent: string, after: string, word: string): Option<NameLine> {
    if |word| == |after| || !StartsWith(word, "name:") then None else MatchValue(indent, word[5..])
  }

  /** White space, and something more, which is white space at worst. */
  predicate ValuePart(rest: string) {
    rest != "" && Space(rest[0]) && !(Trim(rest) == "" && |rest| == 1)
  }

  function MatchValue(indent: string, rest: string): Option<NameLine> {
    if ValuePart(rest) then Some(NameLine(indent, ParseScalar(Trim(rest)))) else None
  }

  /** The line with a new value: the text before the first colon and the line end stay, as does a line without a key. */
  function PatchedLine(line: string, value: Scalar): string {
    match SplitKeyValue(line)
    case None => line
    case Some(field) => MakeLine(line[..FirstIndex(line, ':')], FormatScalar(value, field.value), LineEnd(line))
  }

  function LineEnd(line: string): string {
    if EndsWith(line, "\n") then "\n" else ""
  }

  function MakeLine(prefix: string, rendered: string, lineEnd: string): string {
    prefix + ": " + rendered + lineEnd
  }

  /** What `splitlines` breaks at, "\r" aside. */
  predicate IsBreak(c: char) {
    c == '\n' || c == '\U{0b}' || c == '\U{0c}' || '\U{1c}' <= c <= '\U{1e}' || c == '\U{85}' || c == '\U{2028}' || c == '\U{2029}'
  }

  function FirstBreak(s: string): (i: nat)
    ensures i <= |s| && (i < |s| ==> IsBreak(s[i])) && forall j :: 0 <= j < i ==> !IsBreak(s[j])
  {
    if s == "" || IsBreak(s[0]) then 0 else FirstBreak(s[1..]) + 1
  }

  /** `text.splitlines(keepends=True)`. */
  function SplitLines(text: string): seq<string>
    decreases |text|
  {
    if text == "" then []
    else
      var i := FirstBreak(text);
      if i == |text| then [text] else [text[..i + 1]] + SplitLines(text[i + 1..])
  }

  /** `"".join(lines)`. */
  function Concat(lines: seq<string>): string {
    if lines == [] then "" else lines[0] + Concat(lines[1..])
  }

  function KeyOf(line: string): Option<string> {
    var field := SplitKeyValue(line);
    if field.Some? then Some(field.value.key) else None
  }

  function ValueOf(line: string): string {
    var field := SplitKeyValue(line);
    if field.Some? then field.value.value else ""
  }

  // ---------------------------------------------------------------------------
  // How single lines are read and written, kept apart from how the patcher walks over them

  datatype Syntax = Syntax(
    nameLine: string -> Option<NameLine>,
    key: string -> Option<string>,
    value: string -> string,
    patched: (string, Scalar) -> string,
    rendered: (Scalar, string) -> string,
    settles: (Scalar, string) -> bool)

  /** The patcher's own line syntax. */
  function YamlLines(): Syntax {
    Syntax(MatchName, KeyOf, ValueOf, PatchedLine, RenderedValue, Settles)
  }

  type Marks = seq<Option<NameLine>>

  type Keys = seq<Option<string>>

  /** The name lines of a manifest, and the keys of its lines. */
  function MarksOf(syntax: Syntax, lines: seq<string>): (marks: Marks)
    ensures |marks| == |lines|
  {
    seq(|lines|, i requires 0 <= i < |lines| => syntax.nameLine(lines[i]))
  }

  function KeysOf(syntax: Syntax, lines: seq<string>): (keys: Keys)
    ensures |keys| == |lines|
  {
    seq(|lines|, i requires 0 <= i < |lines| => syntax.key(lines[i]))
  }
}
