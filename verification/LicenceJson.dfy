/** The licence record and its compact JSON text: the printer follows serde_json's
    compact form (escapes of section 7 of RFC 8259), and a small reader accepts
    exactly the shape the printer writes. */
module LicenceJson {
  import opened Common

  datatype CustomServer = CustomServer(key: string, host: string, api: string, relay: string)

  predicate AsciiString(s: string) {
    forall i :: 0 <= i < |s| ==> s[i] < 128 as char
  }

  predicate Ascii(lic: CustomServer) {
    AsciiString(lic.key) && AsciiString(lic.host) && AsciiString(lic.api) && AsciiString(lic.relay)
  }

  const QUOTE: byte := 34
  const BACKSLASH: byte := 92

  // The literal pieces, as ASCII bytes.
  const KEY_OPEN: bytes := [123, 34, 107, 101, 121, 34, 58, 34]             // {"key":"
  const HOST_OPEN: bytes := [44, 34, 104, 111, 115, 116, 34, 58, 34]        // ,"host":"
  const API_OPEN: bytes := [44, 34, 97, 112, 105, 34, 58, 34]               // ,"api":"
  const RELAY_OPEN: bytes := [44, 34, 114, 101, 108, 97, 121, 34, 58, 34]   // ,"relay":"
  const CLOSE: bytes := [125]                                               // }

  function HexDigit(n: nat): byte
    requires n < 16
  {
    if n < 10 then 48 + n else 87 + n
  }

  function HexValue(b: byte): Option<nat>
  {
    if 48 <= b <= 57 then Some(b - 48) else if 97 <= b <= 102 then Some(b - 87) else None
  }

  /** UTF-8 (section 3 of RFC 3629). */
  function Utf8(c: char): bytes
  {
    var n := c as int;
    if n < 0x80 then [n]
    else if n < 0x800 then [0xC0 + n / 0x40, 0x80 + n % 0x40]
    else if n < 0x10000 then [0xE0 + n / 0x1000, 0x80 + n / 0x40 % 0x40, 0x80 + n % 0x40]
    else [0xF0 + n / 0x40000, 0x80 + n / 0x1000 % 0x40, 0x80 + n / 0x40 % 0x40, 0x80 + n % 0x40]
  }

  function EscapeChar(c: char): bytes
  {
    var n := c as int;
    if n == 34 || n == 92 then [BACKSLASH, n]
    else if n == 8 then [BACKSLASH, 98]
    else if n == 9 then [BACKSLASH, 116]
    else if n == 10 then [BACKSLASH, 110]
    else if n == 12 then [BACKSLASH, 102]
    else if n == 13 then [BACKSLASH, 114]
    else if n < 32 then [BACKSLASH, 117, 48, 48, HexDigit(n / 16), HexDigit(n % 16)]
    else Utf8(c)
  }

  function Escape(s: string): bytes
  {
    if s == "" then [] else EscapeChar(s[0]) + Escape(s[1..])
  }

  /** A field's text with its closing quote. */
  function Field(s: string): bytes
  {
    Escape(s) + [QUOTE]
  }

  function Print(lic: CustomServer): bytes
  {
    KEY_OPEN + (Field(lic.key) + (HOST_OPEN + (Field(lic.host) + (API_OPEN + (Field(lic.api)
    + (RELAY_OPEN + (Field(lic.relay) + CLOSE)))))))
  }

  // The reader.

  /** One character of a string literal and the bytes after it. */
  function ReadChar(d: bytes): (r: Option<(char, bytes)>)
    ensures r.Some? ==> |r.value.1| < |d|
  {
    if d == [] || d[0] < 32 || d[0] >= 128 || d[0] == QUOTE then None
    else if d[0] != BACKSLASH then Some((d[0] as char, d[1..]))
    else if |d| < 2 then None
    else if d[1] == 34 || d[1] == 92 then Some((d[1] as char, d[2..]))
    else if d[1] == 98 then Some((8 as char, d[2..]))
    else if d[1] == 116 then Some((9 as char, d[2..]))
    else if d[1] == 110 then Some((10 as char, d[2..]))
    else if d[1] == 102 then Some((12 as char, d[2..]))
    else if d[1] == 114 then Some((13 as char, d[2..]))
    else if |d| >= 6 && d[1] == 117 && d[2] == 48 && d[3] == 48
            && HexValue(d[4]).Some? && HexValue(d[5]).Some? then
      Some(((HexValue(d[4]).value * 16 + HexValue(d[5]).value) as char, d[6..]))
    else None
  }

  /** The rest of a string literal up to its closing quote, and the bytes after it. */
  function ReadField(d: bytes): Option<(string, bytes)>
    decreases |d|
  {
    if d == [] then None
    else if d[0] == QUOTE then Some(("", d[1..]))
    else match ReadChar(d)
      case None => None
      case Some((c, rest)) =>
        match ReadField(rest)
        case None => None
        case Some((s, rest')) => Some(([c] + s, rest'))
  }

  function Expect(lit: bytes, d: bytes): Option<bytes>
  {
    if lit <= d then Some(d[|lit|..]) else None
  }

  /** A literal opening followed by a string literal. */
  function ReadMember(open: bytes, d: bytes): Option<(string, bytes)>
  {
    match Expect(open, d)
    case None => None
    case Some(rest) => ReadField(rest)
  }

  function Read(d: bytes): Option<CustomServer>
  {
    match ReadMember(KEY_OPEN, d) case None => None case Some((key, d1)) =>
    match ReadMember(HOST_OPEN, d1) case None => None case Some((host, d2)) =>
    match ReadMember(API_OPEN, d2) case None => None case Some((api, d3)) =>
    match ReadMember(RELAY_OPEN, d3) case None => None case Some((relay, d4)) =>
    if d4 == CLOSE then Some(CustomServer(key, host, api, relay)) else None
  }

  // The round trip.

  lemma ReadEscapedChar(c: char, rest: bytes)
    requires c < 128 as char
    ensures EscapeChar(c) != [] && EscapeChar(c)[0] != QUOTE
    ensures ReadChar(EscapeChar(c) + rest) == Some((c, rest))
  {
    var e := EscapeChar(c);
    assert (e + rest)[|e|..] == rest;
    var n := c as int;
    if n < 32 && |e| == 6 {
      assert HexValue(HexDigit(n / 16)) == Some(n / 16) && HexValue(HexDigit(n % 16)) == Some(n % 16);
    }
  }

  lemma {:induction false} ReadPrintedField(s: string, rest: bytes)
    requires AsciiString(s)
    ensures ReadField(Field(s) + rest) == Some((s, rest))
  {
    if s == "" {
      assert Field(s) + rest == [QUOTE] + rest;
    } else {
      var tail := Field(s[1..]) + rest;
      assert Field(s) + rest == EscapeChar(s[0]) + tail;
      ReadEscapedChar(s[0], tail);
      ReadPrintedField(s[1..], rest);
      assert (Field(s) + rest)[0] == EscapeChar(s[0])[0];
      assert [s[0]] + s[1..] == s;
    }
  }

  lemma ReadPrintedMember(open: bytes, s: string, rest: bytes)
    requires AsciiString(s)
    ensures ReadMember(open, open + (Field(s) + rest)) == Some((s, rest))
  {
    var d := open + (Field(s) + rest);
    assert d[|open|..] == Field(s) + rest;
    ReadPrintedField(s, rest);
  }

  /** Printing a record and reading it back gives the record: quotes, backslashes and
      control characters in the fields included. */
  lemma ReadPrinted(lic: CustomServer)
    requires Ascii(lic)
    ensures Read(Print(lic)) == Some(lic)
  {
    var d4 := CLOSE;
    var d3 := RELAY_OPEN + (Field(lic.relay) + d4);
    var d2 := API_OPEN + (Field(lic.api) + d3);
    var d1 := HOST_OPEN + (Field(lic.host) + d2);
    ReadPrintedMember(KEY_OPEN, lic.key, d1);
    ReadPrintedMember(HOST_OPEN, lic.host, d2);
    ReadPrintedMember(API_OPEN, lic.api, d3);
    ReadPrintedMember(RELAY_OPEN, lic.relay, d4);
  }

  // A record is read up to its end only.

  lemma ReadCharMore(d: bytes, g: bytes)
    requires ReadChar(d).Some?
    ensures ReadChar(d + g) == Some((ReadChar(d).value.0, ReadChar(d).value.1 + g))
  {
    var n := |d| - |ReadChar(d).value.1|;
    assert d[n..] + g == (d + g)[n..];
  }

  lemma {:induction false} ReadFieldMore(d: bytes, g: bytes)
    requires ReadField(d).Some?
    ensures ReadField(d + g) == Some((ReadField(d).value.0, ReadField(d).value.1 + g))
    decreases |d|
  {
    assert (d + g)[0] == d[0];
    if d[0] == QUOTE {
      assert (d + g)[1..] == d[1..] + g;
    } else {
      ReadCharMore(d, g);
      ReadFieldMore(ReadChar(d).value.1, g);
    }
  }

  lemma ReadMemberMore(open: bytes, d: bytes, g: bytes)
    requires ReadMember(open, d).Some?
    ensures ReadMember(open, d + g) == Some((ReadMember(open, d).value.0, ReadMember(open, d).value.1 + g))
  {
    assert (d + g)[|open|..] == d[|open|..] + g;
    ReadFieldMore(d[|open|..], g);
  }

  /** Nothing that continues a record is a record. */
  lemma NothingBehindRecord(d: bytes, g: bytes)
    requires Read(d).Some? && g != []
    ensures Read(d + g).None?
  {
    var d1 := ReadMember(KEY_OPEN, d).value.1;
    var d2 := ReadMember(HOST_OPEN, d1).value.1;
    var d3 := ReadMember(API_OPEN, d2).value.1;
    var d4 := ReadMember(RELAY_OPEN, d3).value.1;
    ReadMemberMore(KEY_OPEN, d, g);
    ReadMemberMore(HOST_OPEN, d1, g);
    ReadMemberMore(API_OPEN, d2, g);
    ReadMemberMore(RELAY_OPEN, d3, g);
    assert |d4 + g| > |CLOSE|;
  }

  predicate AsciiBytes(d: bytes) {
    forall i :: 0 <= i < |d| ==> d[i] < 128
  }

  lemma {:induction false} EscapeIsAscii(s: string)
    requires AsciiString(s)
    ensures AsciiBytes(Escape(s))
  {
    if s != "" {
      EscapeIsAscii(s[1..]);
    }
  }

  lemma MemberIsAscii(open: bytes, s: string, rest: bytes)
    requires AsciiString(s) && AsciiBytes(open) && AsciiBytes(rest)
    ensures AsciiBytes(open + (Field(s) + rest))
    ensures rest != [] ==> var d := open + (Field(s) + rest); d[|d| - 1] == rest[|rest| - 1]
  {
    EscapeIsAscii(s);
  }

  lemma LiteralsAreAscii()
    ensures AsciiBytes(KEY_OPEN) && AsciiBytes(HOST_OPEN) && AsciiBytes(API_OPEN) && AsciiBytes(RELAY_OPEN)
    ensures AsciiBytes(CLOSE)
  {
  }

  lemma PrintedHead(lic: CustomServer)
    ensures |Print(lic)| >= 3 && Print(lic)[..3] == [123, 34, 107]
  {
    assert Print(lic)[..3] == KEY_OPEN[..3];
  }

  /** The printed record of ASCII fields is ASCII and is framed by `{"k` and `}`. */
  lemma PrintedShape(lic: CustomServer)
    requires Ascii(lic)
    ensures var d := Print(lic);
            AsciiBytes(d) && |d| >= 3 && d[..3] == [123, 34, 107] && d[|d| - 1] == 125
  {
    PrintedHead(lic);
    LiteralsAreAscii();
    var keyOpen, hostOpen, apiOpen, relayOpen, close := KEY_OPEN, HOST_OPEN, API_OPEN, RELAY_OPEN, CLOSE;
    assert close != [] && close[|close| - 1] == 125;
    var d3 := relayOpen + (Field(lic.relay) + close);
    var d2 := apiOpen + (Field(lic.api) + d3);
    var d1 := hostOpen + (Field(lic.host) + d2);
    MemberIsAscii(relayOpen, lic.relay, close);
    MemberIsAscii(apiOpen, lic.api, d3);
    MemberIsAscii(hostOpen, lic.host, d2);
    MemberIsAscii(keyOpen, lic.key, d1);
  }

  // The printed bytes, as text.

  /** The ASCII codes of a text. */
  function Codes(t: string): (d: bytes)
    requires AsciiString(t)
    ensures |d| == |t| && forall i :: 0 <= i < |t| ==> d[i] == t[i] as int
  {
    seq(|t|, i requires 0 <= i < |t| => t[i] as int)
  }

  lemma CodesConcat(a: string, b: string)
    requires AsciiString(a) && AsciiString(b)
    ensures AsciiString(a + b) && Codes(a + b) == Codes(a) + Codes(b)
  {
  }

  /** A character inside a JSON string (section 7 of RFC 8259), in its short form. */
  function CharText(c: char): (t: string)
    requires c < 128 as char
    ensures AsciiString(t)
  {
    if c == '\"' then "\\\"" else if c == '\\' then "\\\\"
    else if c == '\n' then "\\n" else if c == '\r' then "\\r" else if c == '\t' then "\\t"
    else if c == 8 as char then "\\b" else if c == 12 as char then "\\f"
    else if c < ' ' then "\\u00" + ["0123456789abcdef"[c as int / 16], "0123456789abcdef"[c as int % 16]]
    else [c]
  }

  function StringText(s: string): (t: string)
    requires AsciiString(s)
    ensures AsciiString(t)
  {
    if s == "" then "" else CharText(s[0]) + StringText(s[1..])
  }

  const KEY_TEXT := "{\"key\":\""
  const HOST_TEXT := "\",\"host\":\""
  const API_TEXT := "\",\"api\":\""
  const RELAY_TEXT := "\",\"relay\":\""
  const CLOSE_TEXT := "\"}"

  function MemberText(name: string, s: string, rest: string): (t: string)
    requires AsciiString(name) && AsciiString(s) && AsciiString(rest)
    ensures AsciiString(t)
  {
    name + StringText(s) + rest
  }

  lemma TextsAreAscii()
    ensures AsciiString(KEY_TEXT) && AsciiString(HOST_TEXT) && AsciiString(API_TEXT) && AsciiString(RELAY_TEXT)
    ensures AsciiString(CLOSE_TEXT)
  {
  }

  /** The record as compact JSON text. */
  function JsonText(lic: CustomServer): (t: string)
    requires Ascii(lic)
    ensures AsciiString(t)
  {
    TextsAreAscii();
    MemberText(KEY_TEXT, lic.key, MemberText(HOST_TEXT, lic.host,
      MemberText(API_TEXT, lic.api, MemberText(RELAY_TEXT, lic.relay, CLOSE_TEXT))))
  }

  lemma CharIsText(c: char)
    requires c < 128 as char
    ensures EscapeChar(c) == Codes(CharText(c))
  {
    var n := c as int;
    if n < 32 && |CharText(c)| == 6 {
      HexText(n / 16);
      HexText(n % 16);
    }
  }

  lemma HexText(n: nat)
    requires n < 16
    ensures HexDigit(n) == "0123456789abcdef"[n] as int
  {
  }

  lemma {:induction false} StringIsText(s: string)
    requires AsciiString(s)
    ensures Escape(s) == Codes(StringText(s))
  {
    if s != "" {
      CharIsText(s[0]);
      StringIsText(s[1..]);
      CodesConcat(CharText(s[0]), StringText(s[1..]));
    }
  }

  lemma MemberIsText(open: bytes, name: string, s: string, rest: bytes, t: string)
    requires AsciiString(name) && AsciiString(s) && AsciiString(t) && open == Codes(name)
    requires [QUOTE] + rest == Codes(t)
    ensures open + (Field(s) + rest) == Codes(MemberText(name, s, t))
  {
    StringIsText(s);
    CodesConcat(name, StringText(s));
    CodesConcat(name + StringText(s), t);
    assert Field(s) + rest == Escape(s) + ([QUOTE] + rest);
  }

  lemma QuotedMember(open: bytes, name: string, s: string, rest: bytes, t: string)
    requires AsciiString(name) && AsciiString(s) && AsciiString(t) && [QUOTE] + open == Codes(name)
    requires [QUOTE] + rest == Codes(t)
    ensures [QUOTE] + (open + (Field(s) + rest)) == Codes(MemberText(name, s, t))
  {
    MemberIsText([QUOTE] + open, name, s, rest, t);
    assert [QUOTE] + (open + (Field(s) + rest)) == [QUOTE] + open + (Field(s) + rest);
  }

  lemma OpeningsAreText()
    ensures AsciiString(KEY_TEXT) && KEY_OPEN == Codes(KEY_TEXT)
    ensures AsciiString(HOST_TEXT) && [QUOTE] + HOST_OPEN == Codes(HOST_TEXT)
    ensures AsciiString(API_TEXT) && [QUOTE] + API_OPEN == Codes(API_TEXT)
    ensures AsciiString(RELAY_TEXT) && [QUOTE] + RELAY_OPEN == Codes(RELAY_TEXT)
    ensures AsciiString(CLOSE_TEXT) && [QUOTE] + CLOSE == Codes(CLOSE_TEXT)
  {
    TextsAreAscii();
  }

  /** The bytes printed are those of the JSON text with the four field names in order. */
  lemma PrintedIsJson(lic: CustomServer)
    requires Ascii(lic)
    ensures Print(lic) == Codes(JsonText(lic))
  {
    OpeningsAreText();
    var keyOpen, hostOpen, apiOpen, relayOpen, close := KEY_OPEN, HOST_OPEN, API_OPEN, RELAY_OPEN, CLOSE;
    var keyText, hostText, apiText, relayText, closeText := KEY_TEXT, HOST_TEXT, API_TEXT, RELAY_TEXT, CLOSE_TEXT;
    var d3, t3 := relayOpen + (Field(lic.relay) + close), MemberText(relayText, lic.relay, closeText);
    var d2, t2 := apiOpen + (Field(lic.api) + d3), MemberText(apiText, lic.api, t3);
    var d1, t1 := hostOpen + (Field(lic.host) + d2), MemberText(hostText, lic.host, t2);
    QuotedMember(relayOpen, relayText, lic.relay, close, closeText);
    QuotedMember(apiOpen, apiText, lic.api, d3, t3);
    QuotedMember(hostOpen, hostText, lic.host, d2, t2);
    MemberIsText(keyOpen, keyText, lic.key, d1, t1);
  }
}
