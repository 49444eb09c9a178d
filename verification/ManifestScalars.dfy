/** What the text of a scalar in a manifest stands for, and when a rendered value stands for what was rendered. */
module ManifestScalars {
  import opened Wrappers
  import opened Strings
  import opened PublishSnapshot
  import opened ManifestLines
  import opened ManifestLineLaws

  // ---------------------------------------------------------------------------
  // Escapes (section 5.7 of the YAML specification, version 1.2)

  predicate HexDigit(c: char) {
    '0' <= c <= '9' || 'a' <= c <= 'f' || 'A' <= c <= 'F'
  }

  function HexDigitValue(c: char): nat
    requires HexDigit(c)
  {
    if '0' <= c <= '9' then c as nat - 48 else if 'a' <= c <= 'f' then c as nat - 87 else c as nat - 55
  }

  function HexValue(s: string): nat
    requires forall i :: 0 <= i < |s| ==> HexDigit(s[i])
  {
    if s == "" then 0 else 16 * HexValue(s[..|s| - 1]) + HexDigitValue(s[|s| - 1])
  }

  /** A character given by so many hexadecimal digits. */
  function HexEscape(digits: string, count: nat): Option<char> {
    if |digits| < count || exists i :: 0 <= i < count && !HexDigit(digits[i]) then None
    else
      var code := HexValue(digits[..count]);
      if code < 0xD800 || 0xE000 <= code < 0x110000 then Some(code as char) else None
  }

  function OneEscape(c: char): Option<char> {
    match c
    case '0' => Some('\U{0}') case 'a' => Some('\U{7}') case 'b' => Some('\U{8}') case 't' => Some('\t')
    case 'n' => Some('\n') case 'v' => Some('\U{b}') case 'f' => Some('\U{c}') case 'r' => Some('\r')
    case 'e' => Some('\U{1b}') case 'N' => Some('\U{85}') case '_' => Some('\U{a0}')
    case 'L' => Some('\U{2028}') case 'P' => Some('\U{2029}')
    case _ => if c == '\t' || c == ' ' || c == '"' || c == '/' || c == '\\' then Some(c) else None
  }

  /** How many hexadecimal digits follow the character after a backslash. */
  function EscapeDigits(c: char): nat {
    if c == 'x' then 2 else if c == 'u' then 4 else if c == 'U' then 8 else 0
  }

  function EscapeAt(c: char, rest: string): Option<char> {
    if EscapeDigits(c) > 0 then HexEscape(rest, EscapeDigits(c)) else OneEscape(c)
  }

  // ---------------------------------------------------------------------------
  // Reading a scalar

  function Prepend(c: char, rest: Option<string>): Option<string> {
    if rest.Some? then Some([c] + rest.value) else None
  }

  /** The inside of a single-quoted scalar; a lone quote would end it. */
  function ReadSingle(s: string): Option<string> {
    if s == "" then Some("")
    else if s[0] != '\'' then Prepend(s[0], ReadSingle(s[1..]))
    else if |s| >= 2 && s[1] == '\'' then Prepend('\'', ReadSingle(s[2..]))
    else None
  }

  /** The inside of a double-quoted scalar; a quote without a backslash would end it. */
  function ReadDouble(s: string): Option<string> {
    if s == "" then Some("")
    else if s[0] == '"' then None
    else if s[0] != '\\' then Prepend(s[0], ReadDouble(s[1..]))
    else if |s| == 1 then None
    else
      match EscapeAt(s[1], s[2..])
      case None => None
      case Some(c) => Prepend(c, ReadDouble(s[2 + EscapeDigits(s[1])..]))
  }

  predicate InQuotes(raw: string) {
    |raw| >= 2 && Quoted(raw)
  }

  function Unquoted(raw: string): Option<string> {
    if !InQuotes(raw) then Some(raw)
    else if QuotedBy(raw, '\'') then ReadSingle(raw[1..|raw| - 1])
    else ReadDouble(raw[1..|raw| - 1])
  }

  predicate IsDigit(c: char) {
    '0' <= c <= '9'
  }

  function DigitValue(c: char): Option<int> {
    if IsDigit(c) then Some(c as int - 48) else None
  }

  /** A number with one more digit behind it; nothing follows a zero. */
  function Extended(front: Option<int>, last: Option<int>): Option<int> {
    if front.None? || front.value == 0 || last.None? then None else Some(10 * front.value + last.value)
  }

  /** The number that decimal digits stand for. */
  function ReadDecimal(s: string): Option<int> {
    if s == "" then None
    else if |s| == 1 then DigitValue(s[0])
    else Extended(ReadDecimal(s[..|s| - 1]), DigitValue(s[|s| - 1]))
  }

  /** A number after an optional minus sign, given a reader for the number. */
  function ReadSigned(read: string -> Option<int>, s: string): Option<int> {
    if s == "" || s[0] != '-' then read(s)
    else
      match read(s[1..])
      case None => None
      case Some(n) => Some(-n)
  }

  function ReadInt(s: string): Option<int> {
    ReadSigned(ReadDecimal, s)
  }

  predicate Denotes(raw: string, value: Scalar) {
    match value
    case NullScalar => raw == "" || raw == "null"
    case IntScalar(number) => ReadInt(raw) == Some(number)
    case StrScalar(text) => Unquoted(raw) == Some(text)
  }

  // ---------------------------------------------------------------------------
  // Reading what was rendered

  lemma DecimalSnoc(front: string, last: char)
    requires front != ""
    ensures ReadDecimal(front + [last]) == Extended(ReadDecimal(front), DigitValue(last))
  {
    assert (front + [last])[..|front|] == front;
  }

  lemma LastDigit(d: nat)
    requires d < 10
    ensures DigitValue((d + 48) as char) == Some(d) == ReadDecimal([(d + 48) as char])
  {
  }

  lemma {:induction false} DigitsRead(n: nat)
    ensures ReadDecimal(Digits(n)) == Some(n)
  {
    var front, last := n / 10, n % 10;
    LastDigit(last);
    if n >= 10 {
      DigitsRead(front);
      DecimalSnoc(Digits(front), (last + 48) as char);
    }
  }

  lemma SignReads(read: string -> Option<int>, digits: string, n: int)
    requires read(digits) == Some(n) && digits != "" && digits[0] != '-'
    ensures ReadSigned(read, digits) == Some(n) && ReadSigned(read, "-" + digits) == Some(-n)
  {
    assert ("-" + digits)[1..] == digits;
  }

  /** Every integer is read back from the text that is written for it. */
  lemma IntTextReads(n: int)
    ensures ReadInt(IntText(n)) == Some(n)
  {
    var size := if n < 0 then -n else n;
    DigitsRead(size);
    SignReads(ReadDecimal, Digits(size), size);
  }

  lemma {:induction false} ReadSingleOfEscaped(s: string)
    ensures ReadSingle(ReplaceAll(s, '\'', "\'\'")) == Some(s)
  {
    if s != "" {
      ReadSingleOfEscaped(s[1..]);
      var rest := ReplaceAll(s[1..], '\'', "\'\'");
      if s[0] == '\'' {
        var text := ['\'', '\''] + rest;
        assert text == "\'\'" + rest && text[2..] == rest;
        assert ReadSingle(text) == Prepend('\'', ReadSingle(rest));
      } else {
        var text := [s[0]] + rest;
        assert text[1..] == rest;
        assert ReadSingle(text) == Prepend(s[0], ReadSingle(rest));
      }
      assert s == [s[0]] + s[1..];
    }
  }

  lemma {:induction false} ReadSingleShrinks(s: string)
    ensures ReadSingle(s).Some? ==> |ReadSingle(s).value| <= |s|
    decreases |s|
  {
    if s != "" {
      ReadSingleShrinks(s[1..]);
      if |s| >= 2 { ReadSingleShrinks(s[2..]); }
    }
  }

  lemma {:induction false} ReadDoubleShrinks(s: string)
    ensures ReadDouble(s).Some? ==> |ReadDouble(s).value| <= |s|
    decreases |s|
  {
    if s != "" {
      ReadDoubleShrinks(s[1..]);
      if |s| >= 2 && EscapeAt(s[1], s[2..]).Some? { ReadDoubleShrinks(s[2 + EscapeDigits(s[1])..]); }
    }
  }

  function Escaped(s: string): string {
    ReplaceAll(s, '"', "\\\"")
  }

  /** Characters that need no escape are copied. */
  lemma {:induction false} EscapedFrom(s: string, n: nat)
    requires n <= |s| && forall i :: 0 <= i < n ==> s[i] != '"'
    ensures Escaped(s) == s[..n] + Escaped(s[n..])
  {
    if n > 0 {
      EscapedFrom(s[1..], n - 1);
      assert s[1..][n - 1..] == s[n..] && s[..n] == [s[0]] + s[1..][..n - 1];
    } else {
      assert s[0..] == s;
    }
  }

  /** The digits after a backslash are characters of the text, so the escape swallows them and nothing else. */
  lemma HexSwallows(s: string, count: nat)
    ensures HexEscape(Escaped(s), count).Some? ==>
              count <= |s| && count <= |Escaped(s)| && Escaped(s)[count..] == Escaped(s[count..])
  {
    var n := if FirstIndex(s, '"') < count then FirstIndex(s, '"') else if |s| < count then |s| else count;
    EscapedFrom(s, n);
    if n < count {
      assert Escaped(s[n..]) == "" || Escaped(s[n..])[0] == '\\';
      assert |Escaped(s)| <= n || !HexDigit(Escaped(s)[n]);
    }
  }

  lemma EscapedCons(s: string)
    requires s != ""
    ensures if s[0] == '"' then Escaped(s) == ['\\', '"'] + Escaped(s[1..]) else Escaped(s) == [s[0]] + Escaped(s[1..])
  {
  }

  lemma PlainReads(s: string)
    requires s != "" && s[0] != '\\'
    ensures ReadDouble(Escaped(s)) == Prepend(s[0], ReadDouble(Escaped(s[1..])))
  {
    var e, tail := Escaped(s), Escaped(s[1..]);
    EscapedCons(s);
    if s[0] == '"' {
      assert e[0] == '\\' && e[1] == '"' && e[2..] == tail;
      assert EscapeAt('"', tail) == Some('"');
    } else {
      assert e[0] == s[0] && e[1..] == tail;
    }
  }

  /** A backslash takes the quote of a following escape, or a character of the text. */
  lemma BackslashReads(s: string)
    requires s != "" && s[0] == '\\' && ReadDouble(Escaped(s)).Some?
    ensures var n := 2 + EscapeDigits(if |s| == 1 then ' ' else s[1]);
            n <= |s| && ReadDouble(Escaped(s[n..])).Some?
            && |ReadDouble(Escaped(s)).value| == 1 + |ReadDouble(Escaped(s[n..])).value|
  {
    var e := Escaped(s);
    EscapedCons(s);
    if |s| > 1 {
      EscapedCons(s[1..]);
      assert s[1..][1..] == s[2..];
      var tail := Escaped(s[2..]);
      if s[1] == '"' {
        assert false;
      } else {
        assert e[0] == '\\' && e[1] == s[1] && e[2..] == tail;
        var n := EscapeDigits(s[1]);
        if n > 0 { HexSwallows(s[2..], n); }
        assert s[2..][n..] == s[2 + n..] && e[2 + n..] == tail[n..];
      }
    }
  }

  /** A double-quoted rendering reads back exactly if the text has no backslash; otherwise it is refused or reads shorter. */
  lemma {:induction false} ReadDoubleOfEscaped(s: string)
    ensures Lacks(s, '\\') ==> ReadDouble(Escaped(s)) == Some(s)
    ensures !Lacks(s, '\\') && ReadDouble(Escaped(s)).Some? ==> |ReadDouble(Escaped(s)).value| < |s|
    decreases |s|
  {
    if s != "" {
      if s[0] == '\\' {
        if ReadDouble(Escaped(s)).Some? {
          BackslashReads(s);
          var n := 2 + EscapeDigits(if |s| == 1 then ' ' else s[1]);
          ReadDoubleOfEscaped(s[n..]);
        }
      } else {
        ReadDoubleOfEscaped(s[1..]);
        PlainReads(s);
        assert s == [s[0]] + s[1..];
        assert Lacks(s, '\\') <==> Lacks(s[1..], '\\');
      }
    }
  }

  /** When the text written over `current` stands for the value written. */
  predicate Faithful(value: Scalar, current: string) {
    value.StrScalar? && !QuotedBy(current, '\'') ==>
      if QuotedBy(current, '"') then Lacks(value.text, '\\') else Tight(value.text) && !InQuotes(value.text)
  }

  /**
   The rendered text stands for its value in three cases: between single quotes always, between double quotes if the text
   has no backslash, and bare if it has neither white space nor quotes around it.
   */
  lemma RenderedDenotesIff(value: Scalar, current: string)
    ensures Denotes(RenderedValue(value, current), value) <==> Faithful(value, current)
  {
    var once := FormatScalar(value, current);
    if value.StrScalar? {
      if Quoted(current) {
        TrimTight(once);
        QuotedDenotes(value.text, current);
      } else {
        BareDenotes(value.text);
      }
    } else {
      TrimTight(once);
      if value.IntScalar? { IntTextReads(value.number); }
    }
  }

  lemma QuotedDenotes(text: string, current: string)
    requires Quoted(current)
    ensures Denotes(FormatScalar(StrScalar(text), current), StrScalar(text)) <==> Faithful(StrScalar(text), current)
  {
    var once := FormatScalar(StrScalar(text), current);
    var inner := once[1..|once| - 1];
    if QuotedBy(current, '\'') {
      assert inner == ReplaceAll(text, '\'', "\'\'");
      ReadSingleOfEscaped(text);
    } else {
      assert inner == Escaped(text);
      ReadDoubleOfEscaped(text);
    }
  }

  lemma QuotedIsLonger(raw: string)
    requires InQuotes(raw)
    ensures Unquoted(raw).Some? ==> |Unquoted(raw).value| < |raw|
  {
    var inner := raw[1..|raw| - 1];
    ReadSingleShrinks(inner);
    ReadDoubleShrinks(inner);
  }

  lemma BareDenotes(text: string)
    ensures Unquoted(Trim(text)) == Some(text) <==> Tight(text) && !InQuotes(text)
  {
    var front, back := TrimSplits(text);
    if Tight(text) { TrimTight(text); }
    if InQuotes(Trim(text)) { QuotedIsLonger(Trim(text)); }
  }

  /** Text that every quoting style renders faithfully. */
  predicate Readable(value: Scalar) {
    value.StrScalar? ==> Tight(value.text) && !InQuotes(value.text) && Lacks(value.text, '\\')
  }

  lemma ReadableIff(value: Scalar)
    ensures Readable(value) <==> forall current :: Denotes(RenderedValue(value, current), value)
  {
    forall current ensures Denotes(RenderedValue(value, current), value) <==> Faithful(value, current) {
      RenderedDenotesIff(value, current);
    }
    if !Readable(value) {
      assert !Faithful(value, "") || !Faithful(value, "\"\"");
    }
  }

  // ---------------------------------------------------------------------------
  // Words

  /** A character that needs no quotes, no escape and no second line. */
  predicate WordChar(c: char) {
    !Space(c) && c != '\'' && c != '"' && c != '\\'
  }

  predicate Word(s: string) {
    forall i :: 0 <= i < |s| ==> WordChar(s[i])
  }

  lemma WordIsReadable(s: string)
    requires Word(s)
    ensures Readable(StrScalar(s)) && OneLine(StrScalar(s))
  {
  }
}
