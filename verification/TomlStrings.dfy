/** The quoting of values into TOML basic strings, against a reader of such strings (TOML 1.0.0, section String). */
module TomlStrings {
  import opened Options

  function HexDigit(n: nat): char
    requires n < 16
  {
    if n < 10 then ('0' as int + n) as char else ('A' as int + n - 10) as char
  }

  /** How one character is written. */
  function Escape(c: char): string {
    if c == '"' then "\\\""
    else if c == '\\' then "\\\\"
    else if c as int == 8 then "\\b"
    else if c == '\t' then "\\t"
    else if c == '\n' then "\\n"
    else if c as int == 12 then "\\f"
    else if c == '\r' then "\\r"
    else if c as int < 0x20 then "\\u00" + [HexDigit(c as int / 16), HexDigit(c as int % 16)]
    else [c]
  }

  function EscapeAll(value: string): string {
    if value == "" then "" else Escape(value[0]) + EscapeAll(value[1..])
  }

  function Quote(value: string): string {
    "\"" + EscapeAll(value) + "\""
  }

  // ----- Reading

  function HexValue(c: char): Option<nat> {
    if '0' <= c <= '9' then Some(c as int - '0' as int)
    else if 'A' <= c <= 'F' then Some(c as int - 'A' as int + 10)
    else if 'a' <= c <= 'f' then Some(c as int - 'a' as int + 10)
    else None
  }

  /** The code point of four hex digits, if it is a character. */
  function Hex4(s: string): Option<char>
    requires |s| == 4
  {
    var a, b, c, d := HexValue(s[0]), HexValue(s[1]), HexValue(s[2]), HexValue(s[3]);
    if a == None || b == None || c == None || d == None then None
    else
      var n := ((a.value * 16 + b.value) * 16 + c.value) * 16 + d.value;
      if n < 0xD800 then Some(n as char) else None
  }

  datatype Read = Read(value: string, rest: string)

  function Prepend(c: char, r: Option<Read>): Option<Read> {
    if r == None then None else Some(Read([c] + r.value.value, r.value.rest))
  }

  /** Characters that may not stand for themselves in a basic string. */
  predicate IsBareControl(c: char) {
    (c as int < 0x20 && c != '\t') || c as int == 0x7F
  }

  /** What a backslash and this character stand for. */
  function Unescaped(code: char): Option<char> {
    match code
    case '"' => Some('"')
    case '\\' => Some('\\')
    case 'b' => Some(8 as char)
    case 't' => Some('\t')
    case 'n' => Some('\n')
    case 'f' => Some(12 as char)
    case 'r' => Some('\r')
    case _ => None
  }

  /** Reads a basic string behind its opening quote: its value and what follows the closing quote. */
  function ReadChars(s: string): Option<Read>
    decreases |s|
  {
    if s == "" then None
    else if s[0] == '"' then Some(Read("", s[1..]))
    else if s[0] == '\\' then
      if |s| < 2 then None
      else if Unescaped(s[1]).Some? then Prepend(Unescaped(s[1]).value, ReadChars(s[2..]))
      else if s[1] != 'u' || |s| < 6 || Hex4(s[2..6]) == None then None
      else Prepend(Hex4(s[2..6]).value, ReadChars(s[6..]))
    else if IsBareControl(s[0]) then None
    else Prepend(s[0], ReadChars(s[1..]))
  }

  function ReadQuoted(s: string): Option<Read> {
    if s == "" || s[0] != '"' then None else ReadChars(s[1..])
  }

  lemma HexReads(n: nat)
    requires n < 0x20
    ensures Hex4(("\\u00" + [HexDigit(n / 16), HexDigit(n % 16)])[2..6]) == Some(n as char)
  {
    var s := ("\\u00" + [HexDigit(n / 16), HexDigit(n % 16)])[2..6];
    assert s == ['0', '0', HexDigit(n / 16), HexDigit(n % 16)];
    assert HexValue(HexDigit(n / 16)) == Some(n / 16) && HexValue(HexDigit(n % 16)) == Some(n % 16);
  }

  lemma ShortReads(e: string, c: char, tail: string)
    requires |e| == 2 && e[0] == '\\' && Unescaped(e[1]) == Some(c)
    ensures ReadChars(e + tail) == Prepend(c, ReadChars(tail))
  {
    var s := e + tail;
    assert s[0] == '\\' && s[1] == e[1] && s[2..] == tail;
  }

  lemma LongReads(e: string, c: char, tail: string)
    requires |e| == 6 && e[0] == '\\' && e[1] == 'u' && Hex4(e[2..6]) == Some(c)
    ensures ReadChars(e + tail) == Prepend(c, ReadChars(tail))
  {
    var s := e + tail;
    assert s[0] == '\\' && s[1] == 'u' && s[2..6] == e[2..6] && s[6..] == tail;
  }

  lemma PlainReads(c: char, tail: string)
    requires c != '"' && c != '\\'
    ensures ReadChars([c] + tail) == if IsBareControl(c) then None else Prepend(c, ReadChars(tail))
  {
    var s := [c] + tail;
    assert s[0] == c && s[1..] == tail;
  }

  lemma EscapedCharReads(c: char, tail: string)
    ensures ReadChars(Escape(c) + tail) == if c as int == 0x7F then None else Prepend(c, ReadChars(tail))
  {
    var e := Escape(c);
    if |e| == 2 {
      ShortReads(e, c, tail);
    } else if |e| == 6 {
      HexReads(c as int);
      LongReads(e, c, tail);
    } else {
      PlainReads(c, tail);
    }
  }

  lemma QuoteBehind(a: string, rest: string, tail: string)
    ensures a + rest + "\"" + tail == a + (rest + "\"" + tail)
  {
  }

  lemma EndReads(tail: string)
    ensures ReadChars("" + "\"" + tail) == Some(Read("", tail))
  {
    var s := "" + "\"" + tail;
    assert s[0] == '"' && s[1..] == tail;
  }

  lemma HeadAndTail(value: string, c: char)
    requires value != ""
    ensures value == [value[0]] + value[1..] && (c in value <==> c == value[0] || c in value[1..])
  {
  }

  lemma {:induction false} EscapedReads(value: string, tail: string)
    ensures ReadChars(EscapeAll(value) + "\"" + tail) ==
      if 0x7F as char in value then None else Some(Read(value, tail))
  {
    if value == "" {
      EndReads(tail);
    } else {
      EscapedReads(value[1..], tail);
      EscapedCharReads(value[0], EscapeAll(value[1..]) + "\"" + tail);
      QuoteBehind(Escape(value[0]), EscapeAll(value[1..]), tail);
      HeadAndTail(value, 0x7F as char);
    }
  }

  /** A quoted value reads back as itself, with nothing of it left over, exactly when it does not contain the
      character U+007F, which is written as it is although TOML wants it escaped. */
  lemma QuotedReadsBackExactly(value: string, tail: string)
    ensures ReadQuoted(Quote(value) + tail) == Some(Read(value, tail)) <==> 0x7F as char !in value
  {
    assert (Quote(value) + tail)[1..] == EscapeAll(value) + "\"" + tail;
    EscapedReads(value, tail);
  }

  /** A quoted value stays on its line. */
  lemma {:induction false} QuotedHasNoNewline(value: string)
    ensures '\n' !in EscapeAll(value)
  {
    if value == "" {
    } else {
      QuotedHasNoNewline(value[1..]);
      assert '\n' !in Escape(value[0]);
    }
  }

  /** The quoting as it is done, pushing character by character. */
  method TomlBasicString(value: string) returns (quoted: string)
    ensures quoted == Quote(value)
  {
    quoted := "\"";
    for i := 0 to |value|
      invariant quoted + EscapeAll(value[i..]) == "\"" + EscapeAll(value)
    {
      assert value[i..][1..] == value[i + 1..];
      quoted := quoted + Escape(value[i]);
    }
    quoted := quoted + "\"";
  }
}
