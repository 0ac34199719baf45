/**
 The JSON line printer of src/log/log_json_formatter.cpp, with a reader that undoes it.  Characters stand for bytes.
 */
module JsonLine {
  import opened Numerals
  import opened Shared

  newtype int64 = n: int | -0x8000_0000_0000_0000 <= n < 0x8000_0000_0000_0000

  datatype FieldValue = StringValue(text: string) | IntValue(n: int64) | BoolValue(b: bool)

  datatype Field = Field(key: string, value: FieldValue)

  const BACKSPACE := '\U{8}'
  const FORM_FEED := '\U{c}'

  // Printing

  function EscapeChar(c: char): string {
    if c == '"' then "\\\""
    else if c == '\\' then "\\\\"
    else if c == BACKSPACE then "\\b"
    else if c == FORM_FEED then "\\f"
    else if c == '\n' then "\\n"
    else if c == '\r' then "\\r"
    else if c == '\t' then "\\t"
    else if c < ' ' then "\\u00" + [HEX_DIGITS[c as nat / 16], HEX_DIGITS[c as nat % 16]]
    else [c]
  }

  function Escape(s: string): string {
    if s == "" then "" else EscapeChar(s[0]) + Escape(s[1..])
  }

  function Quote(s: string): string { "\"" + Escape(s) + "\"" }

  /** std::to_string of a signed number. */
  function Integer(n: int): string {
    if n < 0 then "-" + Decimal(-n) else Decimal(n)
  }

  function ValueText(value: FieldValue): string {
    match value
    case StringValue(text) => Quote(text)
    case IntValue(n) => Integer(n as int)
    case BoolValue(b) => if b then "true" else "false"
  }

  function Member(field: Field): string { Quote(field.key) + ":" + ValueText(field.value) }

  /** Members that follow others. */
  function MoreMembers(fields: seq<Field>): string {
    if fields == [] then "" else "," + Member(fields[0]) + MoreMembers(fields[1..])
  }

  function Members(fields: seq<Field>): string {
    if fields == [] then "" else Member(fields[0]) + MoreMembers(fields[1..])
  }

  function Line(fields: seq<Field>): string { "{" + Members(fields) + "}" }

  /** Every character below 0x20 that has no short escape becomes four hexadecimal digits. */
  lemma EscapesWrittenOut(c: char)
    ensures EscapeChar('"') == "\\\"" && EscapeChar('\\') == "\\\\"
    ensures EscapeChar('\U{8}') == "\\b" && EscapeChar('\U{c}') == "\\f" && EscapeChar('\n') == "\\n"
    ensures EscapeChar('\r') == "\\r" && EscapeChar('\t') == "\\t"
    ensures EscapeChar('\U{0}') == "\\u0000" && EscapeChar('\U{1f}') == "\\u001f" && EscapeChar('\U{b}') == "\\u000b"
    ensures c >= ' ' && c != '"' && c != '\\' ==> EscapeChar(c) == [c]
  {
  }

  lemma ValuesWrittenOut()
    ensures ValueText(StringValue("x")) == "\"x\"" && ValueText(IntValue(-12)) == "-12"
    ensures ValueText(BoolValue(true)) == "true" && ValueText(BoolValue(false)) == "false"
  {
    assert Decimal(12) == Decimal(1) + "2";
    assert Escape("x") == "x";
  }

  lemma MembersByExample()
    ensures Member(Field("a", StringValue("x"))) == "\"a\":\"x\"" && Member(Field("b", IntValue(-12))) == "\"b\":-12"
  {
    ValuesWrittenOut();
    assert Escape("a") == "a" && Escape("b") == "b";
    hide ValueText, Escape;
  }

  lemma TwoMembers(a: Field, b: Field)
    ensures Line([a, b]) == "{" + Member(a) + "," + Member(b) + "}"
  {
    hide Member;
    assert [a, b][1..] == [b];
    assert MoreMembers([b]) == "," + Member(b);
  }

  /** For instance. */
  lemma LineByExample()
    ensures Line([]) == "{}"
    ensures Line([Field("a", StringValue("x")), Field("b", IntValue(-12))]) ==
            "{" + "\"a\":\"x\"" + "," + "\"b\":-12" + "}"
  {
    MembersByExample();
    TwoMembers(Field("a", StringValue("x")), Field("b", IntValue(-12)));
    hide Member, MoreMembers;
  }

  // Reading: JSON of RFC 8259 without white space, with the value kinds above

  datatype Parse<T> = Parsed(value: T, rest: string) | Failed

  /** The character that a two-character escape of section 7 stands for. */
  function Unescape(c: char): Option<char> {
    match c
    case '"' => Some('"')
    case '\\' => Some('\\')
    case '/' => Some('/')
    case 'b' => Some(BACKSPACE)
    case 'f' => Some(FORM_FEED)
    case 'n' => Some('\n')
    case 'r' => Some('\r')
    case 't' => Some('\t')
    case _ => None
  }

  /** One character of a string: unescaped = %x20-21 / %x23-5B / %x5D and up, or an escape. */
  function ReadChar(s: string): (r: Parse<char>)
    requires s != ""
    ensures r.Parsed? ==> |r.rest| < |s|
  {
    if s[0] != '\\' then
      if s[0] < ' ' || s[0] == '"' then Failed else Parsed(s[0], s[1..])
    else if |s| < 2 then Failed
    else if s[1] != 'u' then
      match Unescape(s[1])
      case Some(c) => Parsed(c, s[2..])
      case None => Failed
    else if |s| < 6 || !(IsHex(s[2]) && IsHex(s[3]) && IsHex(s[4]) && IsHex(s[5])) then Failed
    else
      var code := 0x1000 * HexValue(s[2]) + 0x100 * HexValue(s[3]) + 0x10 * HexValue(s[4]) + HexValue(s[5]);
      if 0xd800 <= code < 0xe000 then Failed else Parsed(code as char, s[6..])
  }

  /** A string after its opening quotation mark, up to and including the closing one. */
  function ReadString(s: string): (r: Parse<string>)
    ensures r.Parsed? ==> |r.rest| < |s|
    decreases |s|
  {
    if s == "" then Failed
    else if s[0] == '"' then Parsed("", s[1..])
    else
      match ReadChar(s)
      case Failed => Failed
      case Parsed(c, rest) =>
        match ReadString(rest)
        case Failed => Failed
        case Parsed(text, end) => Parsed([c] + text, end)
  }

  function DigitsAhead(s: string): (n: nat)
    ensures n <= |s| && AllDigits(s[..n]) && (n < |s| ==> !IsDigit(s[n]))
  {
    if s == "" || !IsDigit(s[0]) then 0 else 1 + DigitsAhead(s[1..])
  }

  /** Digits without a leading zero. */
  function ReadNatural(s: string): (r: Parse<int>)
    ensures r.Parsed? ==> |r.rest| < |s|
  {
    var n := DigitsAhead(s);
    if n == 0 || (n > 1 && s[0] == '0') then Failed else Parsed(ParseDecimal(s[..n]), s[n..])
  }

  function ReadInteger(s: string): (r: Parse<int>)
    ensures r.Parsed? ==> |r.rest| < |s|
  {
    if "-" <= s then
      match ReadNatural(s[1..])
      case Parsed(n, rest) => Parsed(-n, rest)
      case Failed => Failed
    else
      match ReadNatural(s)
      case Parsed(n, rest) => Parsed(n, rest)
      case Failed => Failed
  }

  function ReadValue(s: string): (r: Parse<FieldValue>)
    ensures r.Parsed? ==> |r.rest| < |s|
  {
    if "\"" <= s then
      match ReadString(s[1..])
      case Parsed(text, rest) => Parsed(StringValue(text), rest)
      case Failed => Failed
    else if "true" <= s then Parsed(BoolValue(true), s[4..])
    else if "false" <= s then Parsed(BoolValue(false), s[5..])
    else
      match ReadInteger(s)
      case Parsed(n, rest) =>
        if -0x8000_0000_0000_0000 <= n < 0x8000_0000_0000_0000 then Parsed(IntValue(n as int64), rest) else Failed
      case Failed => Failed
  }

  function ReadMember(s: string): (r: Parse<Field>)
    ensures r.Parsed? ==> |r.rest| < |s|
  {
    if !("\"" <= s) then Failed
    else
      match ReadString(s[1..])
      case Failed => Failed
      case Parsed(key, rest) =>
        if !(":" <= rest) then Failed
        else
          match ReadValue(rest[1..])
          case Failed => Failed
          case Parsed(value, end) => Parsed(Field(key, value), end)
  }

  /** One or more members, then the closing brace and nothing after it. */
  function ReadMembers(s: string): Option<seq<Field>>
    decreases |s|
  {
    match ReadMember(s)
    case Failed => None
    case Parsed(field, rest) =>
      if rest == "}" then Some([field])
      else if !("," <= rest) then None
      else
        match ReadMembers(rest[1..])
        case None => None
        case Some(fields) => Some([field] + fields)
  }

  function ReadLine(line: string): Option<seq<Field>> {
    if line == "{}" then Some([])
    else if "{" <= line then ReadMembers(line[1..])
    else None
  }

  // Reading undoes printing

  predicate Printable(s: string) { forall i | 0 <= i < |s| :: s[i] >= ' ' }

  lemma ShortEscapeReads(letter: char, rest: string)
    requires letter != 'u' && Unescape(letter).Some?
    ensures ReadChar("\\" + [letter] + rest) == Parsed(Unescape(letter).value, rest)
  {
    hide Unescape;
    assert ("\\" + [letter] + rest)[2..] == rest;
  }

  lemma HexEscapeReads(c: char, rest: string)
    requires c < ' '
    ensures ReadChar("\\u00" + [HEX_DIGITS[c as nat / 16], HEX_DIGITS[c as nat % 16]] + rest) == Parsed(c, rest)
  {
    hide Unescape, HexValue;
    var high, low := HEX_DIGITS[c as nat / 16], HEX_DIGITS[c as nat % 16];
    HexDigitValue(c as nat / 16);
    HexDigitValue(c as nat % 16);
    HexDigitValue(0);
    var s := "\\u00" + [high, low] + rest;
    assert s[0] == '\\' && s[1] == 'u' && s[2] == s[3] == HEX_DIGITS[0];
    assert s[4] == high && s[5] == low && s[6..] == rest;
  }

  lemma EscapedCharReads(c: char, rest: string)
    ensures ReadChar(EscapeChar(c) + rest) == Parsed(c, rest)
  {
    hide ReadChar;
    if c < ' ' && c !in [BACKSPACE, FORM_FEED, '\n', '\r', '\t'] {
      HexEscapeReads(c, rest);
    } else if |EscapeChar(c)| == 2 {
      assert EscapeChar(c) == "\\" + [EscapeChar(c)[1]];
      ShortEscapeReads(EscapeChar(c)[1], rest);
    } else {
      PlainCharReads(c, rest);
    }
  }

  lemma PlainCharReads(c: char, rest: string)
    requires c >= ' ' && c != '"' && c != '\\'
    ensures ReadChar([c] + rest) == Parsed(c, rest)
  {
    assert ([c] + rest)[1..] == rest;
  }

  lemma EscapedCharPrints(c: char)
    ensures EscapeChar(c) != "" && EscapeChar(c)[0] != '"' && Printable(EscapeChar(c))
  {
    if c < ' ' {
      HexDigitValue(c as nat / 16);
      HexDigitValue(c as nat % 16);
    }
  }

  lemma {:induction false} QuotedReads(s: string, rest: string)
    ensures ReadString(Escape(s) + "\"" + rest) == Parsed(s, rest)
    ensures Printable(Escape(s))
  {
    hide EscapeChar, ReadChar;
    var text := Escape(s) + "\"" + rest;
    if s == "" {
      assert text == "\"" + rest && text[1..] == rest;
    } else {
      var tail := Escape(s[1..]) + "\"" + rest;
      EscapedCharReads(s[0], tail);
      EscapedCharPrints(s[0]);
      assert text == EscapeChar(s[0]) + tail && text[0] == EscapeChar(s[0])[0];
      QuotedReads(s[1..], rest);
      assert [s[0]] + s[1..] == s;
    }
  }

  /** What may follow a value. */
  predicate Delimited(rest: string) { rest != "" && (rest[0] == ',' || rest[0] == '}') }

  lemma {:induction false} DigitsAheadOf(digits: string, rest: string)
    requires AllDigits(digits) && Delimited(rest)
    ensures DigitsAhead(digits + rest) == |digits|
  {
    if digits == "" {
      assert digits + rest == rest;
    } else {
      assert (digits + rest)[1..] == digits[1..] + rest;
      DigitsAheadOf(digits[1..], rest);
    }
  }

  lemma NaturalReads(n: nat, rest: string)
    requires Delimited(rest)
    ensures ReadNatural(Decimal(n) + rest) == Parsed(n, rest)
  {
    hide Decimal;
    DigitsAheadOf(Decimal(n), rest);
    NoLeadingZero(n);
    ParseOfDecimal(n);
    var text := Decimal(n) + rest;
    assert text[..|Decimal(n)|] == Decimal(n) && text[|Decimal(n)|..] == rest && text[0] == Decimal(n)[0];
  }

  lemma IntegerReads(n: int, rest: string)
    requires Delimited(rest)
    ensures ReadInteger(Integer(n) + rest) == Parsed(n, rest)
    ensures Printable(Integer(n)) && (Integer(n)[0] == '-' || IsDigit(Integer(n)[0]))
  {
    hide Decimal, ReadInteger;
    if n < 0 {
      NaturalReads(-n, rest);
      SignReads(Decimal(-n), rest);
    } else {
      NaturalReads(n, rest);
      NoSignReads(Decimal(n), rest);
    }
  }

  lemma SignReads(digits: string, rest: string)
    requires ReadNatural(digits + rest).Parsed?
    ensures ReadInteger("-" + digits + rest) ==
            Parsed(-ReadNatural(digits + rest).value, ReadNatural(digits + rest).rest)
  {
    hide ReadNatural;
    assert ("-" + digits + rest)[1..] == digits + rest;
  }

  lemma NoSignReads(digits: string, rest: string)
    requires digits != "" && IsDigit(digits[0])
    ensures ReadInteger(digits + rest) == ReadNatural(digits + rest)
  {
    hide ReadNatural;
    assert (digits + rest)[0] == digits[0];
  }

  lemma StringReads(text: string, rest: string)
    ensures ReadValue(Quote(text) + rest) == Parsed(StringValue(text), rest)
    ensures Printable(Quote(text))
  {
    hide Escape, ReadString, ReadInteger;
    QuotedReads(text, rest);
    var s := Quote(text) + rest;
    assert s == "\"" + (Escape(text) + "\"" + rest);
    assert s[0] == '"' && s[1..] == Escape(text) + "\"" + rest;
  }

  lemma ValueReads(value: FieldValue, rest: string)
    requires Delimited(rest)
    ensures ReadValue(ValueText(value) + rest) == Parsed(value, rest)
    ensures Printable(ValueText(value))
  {
    hide Quote, ReadString, Integer, ReadInteger;
    var s := ValueText(value) + rest;
    match value {
      case StringValue(text) => StringReads(text, rest);
      case IntValue(n) =>
        IntegerReads(n as int, rest);
        assert s[0] == Integer(n as int)[0];
      case BoolValue(b) =>
        assert s[|ValueText(value)|..] == rest;
        assert !b ==> s[0] == 'f';
    }
  }

  lemma MemberReads(field: Field, rest: string)
    requires Delimited(rest)
    ensures ReadMember(Member(field) + rest) == Parsed(field, rest)
    ensures Printable(Member(field))
  {
    hide Escape, ReadString, ValueText, ReadValue;
    ValueReads(field.value, rest);
    var tail := ":" + ValueText(field.value) + rest;
    QuotedReads(field.key, tail);
    assert (Member(field) + rest)[1..] == Escape(field.key) + "\"" + tail;
    assert tail[1..] == ValueText(field.value) + rest;
  }

  lemma {:induction false} MembersRead(fields: seq<Field>)
    requires fields != []
    ensures ReadMembers(Members(fields) + "}") == Some(fields)
  {
    hide Member, ReadMember, Members, MoreMembers, Printable;
    var rest := fields[1..];
    if rest == [] {
      MembersSplit(fields, "}");
      MemberReads(fields[0], "}");
      assert fields == [fields[0]];
    } else {
      var tail := "," + (Members(rest) + "}");
      MembersSplit(fields, tail);
      MemberReads(fields[0], tail);
      assert tail[1..] == Members(rest) + "}";
      MembersRead(rest);
      assert [fields[0]] + rest == fields;
    }
  }

  lemma MembersSplit(fields: seq<Field>, tail: string)
    requires fields != []
    requires tail == if |fields| == 1 then "}" else "," + (Members(fields[1..]) + "}")
    ensures Members(fields) + "}" == Member(fields[0]) + tail
  {
    hide Member;
    if |fields| > 1 {
      assert MoreMembers(fields[1..]) == "," + Members(fields[1..]);
    } else {
      assert Members(fields) == Member(fields[0]);
    }
  }

  lemma {:induction false} MembersPrint(fields: seq<Field>)
    ensures Printable(MoreMembers(fields)) && Printable(Members(fields))
  {
    hide Member;
    if fields != [] {
      MemberReads(fields[0], "}");
      MembersPrint(fields[1..]);
    }
  }

  /** The reader recovers the same keys, kinds and values in the same order, from one printable line. */
  lemma LineReads(fields: seq<Field>)
    ensures ReadLine(Line(fields)) == Some(fields)
    ensures Printable(Line(fields))
  {
    hide Members, MoreMembers, ReadMembers, ReadLine, Printable;
    MembersPrint(fields);
    BracesPrint(Members(fields));
    if fields == [] {
      assert Members(fields) == "" by { NoMembers(); }
      assert Line(fields) == "{}";
      EmptyLine();
    } else {
      MembersRead(fields);
      StartsWithQuote(fields);
      BracesRead(Members(fields));
    }
  }

  lemma NoMembers()
    ensures Members([]) == ""
  {
  }

  lemma EmptyLine()
    ensures ReadLine("{}") == Some([])
  {
  }

  lemma BracesPrint(text: string)
    requires Printable(text)
    ensures Printable("{" + text + "}")
  {
  }

  lemma BracesRead(text: string)
    requires text != "" && text[0] == '"'
    ensures ReadLine("{" + text + "}") == ReadMembers(text + "}")
  {
    hide ReadMembers;
    var line := "{" + text + "}";
    assert line[1] == text[0] && line[1..] == text + "}";
  }

  lemma StartsWithQuote(fields: seq<Field>)
    requires fields != []
    ensures Members(fields) != "" && Members(fields)[0] == '"'
  {
    assert Member(fields[0])[0] == '"';
  }

  /** Different lists of fields give different lines. */
  lemma LinesAreUnambiguous(left: seq<Field>, right: seq<Field>)
    requires Line(left) == Line(right)
    ensures left == right
  {
    LineReads(left);
    LineReads(right);
  }

  // The loops

  method EscapeString(s: string) returns (result: string)
    ensures result == Escape(s)
  {
    hide EscapeChar;
    result := "";
    for i := 0 to |s|
      invariant result + Escape(s[i..]) == Escape(s)
    {
      assert s[i..][0] == s[i] && s[i..][1..] == s[i + 1..];
      result := AppendEscaped(result, s[i]);
    }
  }

  /** The switch of the loop. */
  method AppendEscaped(prefix: string, c: char) returns (result: string)
    ensures result == prefix + EscapeChar(c)
  {
    match c {
      case '"' => result := prefix + "\\\"";
      case '\\' => result := prefix + "\\\\";
      case '\U{8}' => result := prefix + "\\b";
      case '\U{c}' => result := prefix + "\\f";
      case '\n' => result := prefix + "\\n";
      case '\r' => result := prefix + "\\r";
      case '\t' => result := prefix + "\\t";
      case _ =>
        if c < ' ' {
          result := prefix + ("\\u00" + [HEX_DIGITS[c as nat / 16], HEX_DIGITS[c as nat % 16]]);
        } else {
          result := prefix + [c];
        }
    }
  }

  /** What is still to be printed before the i-th field. */
  function MembersFrom(fields: seq<Field>, i: nat): string
    requires i <= |fields|
  {
    if i == 0 then Members(fields) else MoreMembers(fields[i..])
  }

  lemma NextMember(fields: seq<Field>, i: nat)
    requires i < |fields|
    ensures MembersFrom(fields, i) == (if i > 0 then "," else "") + Member(fields[i]) + MembersFrom(fields, i + 1)
  {
    hide Member;
    assert fields[i..][0] == fields[i] && fields[i..][1..] == fields[i + 1..];
  }

  lemma AllMembers(fields: seq<Field>)
    ensures MembersFrom(fields, 0) == Members(fields) && MembersFrom(fields, |fields|) == ""
  {
  }

  lemma MemberText(field: Field)
    ensures "\"" + Escape(field.key) + "\":" + ValueText(field.value) == Member(field)
  {
    hide Escape, ValueText;
    assert "\":" == "\"" + ":";
  }

  method FormatValue(value: FieldValue) returns (text: string)
    ensures text == ValueText(value)
  {
    match value {
      case StringValue(s) =>
        var escaped := EscapeString(s);
        text := "\"" + escaped + "\"";
      case IntValue(n) => text := Integer(n as int);
      case BoolValue(b) => text := if b then "true" else "false";
    }
  }

  /** One line for a list of fields, read back exactly. */
  method Format(fields: seq<Field>) returns (line: string)
    ensures line == Line(fields)
    ensures ReadLine(line) == Some(fields) && Printable(line)
  {
    hide Member, Members, MembersFrom, Escape, ValueText, ReadLine;
    AllMembers(fields);
    line := "{";
    for i := 0 to |fields|
      invariant line + MembersFrom(fields, i) == "{" + Members(fields)
    {
      NextMember(fields, i);
      if i > 0 {
        line := line + ",";
      }
      var key := EscapeString(fields[i].key);
      var text := FormatValue(fields[i].value);
      MemberText(fields[i]);
      line := line + ("\"" + key + "\":" + text);
    }
    line := line + "}";
    LineReads(fields);
  }
}
