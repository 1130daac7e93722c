/**
 A reader for JSON text, written from RFC 8259 alone: section 2 for structure and white space,
 sections 4 and 5 for objects and arrays, section 6 for numbers and section 7 for strings.  It
 is the reference the canonical writer is held against.

 Numbers with a fraction or an exponent, and escapes of lone surrogates, have no value here.
 A repeated object key keeps its last value.
 */
module JsonReader {
  import opened Wrappers
  import opened JsonValues
  import opened CanonicalJson

  // ----- characters

  predicate IsSpace(c: char) {
    c == ' ' || c == '\t' || c == '\n' || c == '\r'
  }

  predicate IsDigit(c: char) {
    '0' <= c <= '9'
  }

  function HexValue(c: char): Option<nat> {
    if '0' <= c <= '9' then Some(c as nat - '0' as nat)
    else if 'a' <= c <= 'f' then Some(c as nat - 'a' as nat + 10)
    else if 'A' <= c <= 'F' then Some(c as nat - 'A' as nat + 10)
    else None
  }

  function SkipSpace(s: string): (rest: string)
    ensures |rest| <= |s|
  {
    if s != "" && IsSpace(s[0]) then SkipSpace(s[1..]) else s
  }

  function Expect(s: string, c: char): (rest: Option<string>)
    ensures rest.Some? ==> |rest.value| < |s|
  {
    if s != "" && s[0] == c then Some(s[1..]) else None
  }

  // ----- strings (section 7)

  function ReadHex4(s: string): (r: Option<(nat, string)>)
    ensures r.Some? ==> |r.value.1| < |s| && r.value.0 < 0x10000
  {
    if |s| < 4 then None
    else
      var a :- HexValue(s[0]);
      var b :- HexValue(s[1]);
      var c :- HexValue(s[2]);
      var d :- HexValue(s[3]);
      Some((a * 4096 + b * 256 + c * 16 + d, s[4..]))
  }

  /** What follows a backslash; a pair of surrogate escapes makes one character. */
  function ReadEscape(s: string): (r: Option<(char, string)>)
    ensures r.Some? ==> |r.value.1| < |s|
  {
    if s == "" then None
    else if s[0] == QUOTE || s[0] == BACKSLASH || s[0] == '/' then Some((s[0], s[1..]))
    else if s[0] == 'b' then Some((BACKSPACE, s[1..]))
    else if s[0] == 'f' then Some((FORM_FEED, s[1..]))
    else if s[0] == 'n' then Some(('\n', s[1..]))
    else if s[0] == 'r' then Some(('\r', s[1..]))
    else if s[0] == 't' then Some(('\t', s[1..]))
    else if s[0] != 'u' then None
    else
      var (high, rest) :- ReadHex4(s[1..]);
      if high < 0xD800 || 0xE000 <= high then Some((high as char, rest))
      else if 0xDC00 <= high then None
      else
        var rest :- Expect(rest, BACKSLASH);
        var rest :- Expect(rest, 'u');
        var (low, rest) :- ReadHex4(rest);
        if low < 0xDC00 || 0xE000 <= low then None
        else Some(((0x10000 + (high - 0xD800) * 0x400 + (low - 0xDC00)) as char, rest))
  }

  /** The characters up to the closing quotation mark. */
  function ReadBody(s: string): (r: Option<(string, string)>)
    ensures r.Some? ==> |r.value.1| < |s|
    decreases |s|
  {
    if s == "" || s[0] < ' ' then None
    else if s[0] == QUOTE then Some(("", s[1..]))
    else
      var (c, rest) :- if s[0] == BACKSLASH then ReadEscape(s[1..]) else Some((s[0], s[1..]));
      var (more, rest) :- ReadBody(rest);
      Some(([c] + more, rest))
  }

  // ----- numbers (section 6)

  function DigitRun(s: string): (k: nat)
    ensures k <= |s| && forall i | 0 <= i < k :: IsDigit(s[i])
  {
    if s != "" && IsDigit(s[0]) then 1 + DigitRun(s[1..]) else 0
  }

  function DecimalValue(digits: string): nat
    requires forall i | 0 <= i < |digits| :: IsDigit(digits[i])
  {
    if digits == "" then 0
    else
      assert IsDigit(digits[|digits| - 1]);
      DecimalValue(digits[..|digits| - 1]) * 10 + (digits[|digits| - 1] as nat - '0' as nat)
  }

  /** No leading zeros; nothing after the integer part. */
  function ReadNatural(s: string): (r: Option<(nat, string)>)
    ensures r.Some? ==> |r.value.1| < |s|
  {
    var k := if s != "" && s[0] == '0' then 1 else DigitRun(s);
    if k == 0 then None
    else if k < |s| && (s[k] == '.' || s[k] == 'e' || s[k] == 'E') then None
    else Some((DecimalValue(s[..k]), s[k..]))
  }

  function ReadNumber(s: string): (r: Option<(int, string)>)
    ensures r.Some? ==> |r.value.1| < |s|
  {
    if s != "" && s[0] == '-' then
      var (n, rest) :- ReadNatural(s[1..]);
      Some((0 - n, rest))
    else
      ReadNatural(s)
  }

  // ----- values

  function ReadLiteral(s: string, literal: string, v: Json): (r: Option<(Json, string)>)
    requires literal != ""
    ensures r.Some? ==> |r.value.1| < |s|
  {
    if |literal| <= |s| && s[..|literal|] == literal then Some((v, s[|literal|..])) else None
  }

  function ReadValue(s: string): (r: Option<(Json, string)>)
    ensures r.Some? ==> |r.value.1| < |s|
    decreases |s|, 1
  {
    if s == "" then None
    else if s[0] == '-' || IsDigit(s[0]) then
      var (n, rest) :- ReadNumber(s);
      Some((Number(n), rest))
    else if s[0] == 'n' then ReadLiteral(s, "null", Null)
    else if s[0] == 't' then ReadLiteral(s, "true", Bool(true))
    else if s[0] == 'f' then ReadLiteral(s, "false", Bool(false))
    else if s[0] == QUOTE then
      var (text, rest) :- ReadBody(s[1..]);
      Some((String(text), rest))
    else if s[0] == '[' then ReadArray(SkipSpace(s[1..]))
    else if s[0] == '{' then ReadObject(SkipSpace(s[1..]))
    else None
  }

  /** What follows an opening bracket (section 5). */
  function ReadArray(s: string): (r: Option<(Json, string)>)
    ensures r.Some? ==> |r.value.1| < |s|
    decreases |s|, 4
  {
    if s != "" && s[0] == ']' then Some((Array([]), s[1..]))
    else
      var (items, rest) :- ReadItems(s);
      Some((Array(items), rest))
  }

  /** What follows an opening brace (section 4). */
  function ReadObject(s: string): (r: Option<(Json, string)>)
    ensures r.Some? ==> |r.value.1| < |s|
    decreases |s|, 4
  {
    if s != "" && s[0] == '}' then Some((Object(map[]), s[1..]))
    else
      var (members, rest) :- ReadMembers(s);
      Some((Object(members), rest))
  }

  /** At least one value, up to the closing bracket (section 5). */
  function ReadItems(s: string): (r: Option<(seq<Json>, string)>)
    ensures r.Some? ==> |r.value.1| < |s|
    decreases |s|, 2
  {
    var (first, rest) :- ReadValue(s);
    var rest := SkipSpace(rest);
    if rest != "" && rest[0] == ']' then Some(([first], rest[1..]))
    else
      var rest :- Expect(rest, ',');
      var (more, rest) :- ReadItems(SkipSpace(rest));
      Some(([first] + more, rest))
  }

  /** At least one member, up to the closing brace (section 4). */
  function ReadMembers(s: string): (r: Option<(Fields, string)>)
    ensures r.Some? ==> |r.value.1| < |s|
    decreases |s|, 3
  {
    var (key, v, rest) :- ReadMember(s);
    var rest := SkipSpace(rest);
    if rest != "" && rest[0] == '}' then Some((map[key := v], rest[1..]))
    else
      var rest :- Expect(rest, ',');
      var (more, rest) :- ReadMembers(SkipSpace(rest));
      Some((map[key := v] + more, rest))
  }

  function ReadMember(s: string): (r: Option<(string, Json, string)>)
    ensures r.Some? ==> |r.value.2| < |s|
    decreases |s|, 2
  {
    var rest :- Expect(s, QUOTE);
    var (key, rest) :- ReadBody(rest);
    var rest :- Expect(SkipSpace(rest), ':');
    var (v, rest) :- ReadValue(SkipSpace(rest));
    Some((key, v, rest))
  }

  /** A whole text: one value with white space around it (section 2). */
  function ReadText(s: string): Option<Json> {
    var (v, rest) :- ReadValue(SkipSpace(s));
    if SkipSpace(rest) == "" then Some(v) else None
  }
}
