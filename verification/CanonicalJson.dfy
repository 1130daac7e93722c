/** The canonical writer: object keys in order, no spaces, integers in the safe range, and the
    shortest escape for every character that needs one. */
module CanonicalJson {
  import opened Wrappers
  import opened JsonValues
  import Sorting
  import Text

  const MAX_SAFE_INTEGER := 9007199254740991

  datatype WriteError = IntegerRange

  const QUOTE := '\"'
  const BACKSLASH := '\\'
  const BACKSPACE := '\U{0008}'
  const FORM_FEED := '\U{000C}'

  // ----- the canonical text of a value

  predicate IsSafe(n: int) {
    -MAX_SAFE_INTEGER <= n <= MAX_SAFE_INTEGER
  }

  /** Every number in the value is a safe integer. */
  predicate Writable(v: Json) {
    match v
    case Number(n) => IsSafe(n)
    case Array(items) => forall i | 0 <= i < |items| :: Writable(items[i])
    case Object(m) => forall key | key in m :: Writable(m[key])
    case _ => true
  }

  lemma KeysHaveAnOrder()
    ensures Sorting.IsTotalOrder(Text.Less)
  {
    forall a, b
      ensures Text.Less(a, b) ==> !Text.Less(b, a)
      ensures Text.Less(a, b) || a == b || Text.Less(b, a)
    {
      if Text.Less(a, b) {
        Text.LessIsAsymmetric(a, b);
      }
      Text.LessIsTotal(a, b);
    }
    forall a, b, c | !Text.Less(a, b) && !Text.Less(b, c)
      ensures !Text.Less(a, c)
    {
      Text.LessIsTotal(a, b);
      Text.LessIsTotal(b, c);
      if Text.Less(a, c) {
        if a != b && b != c {
          Text.LessIsTransitive(c, b, a);
          Text.LessIsAsymmetric(a, c);
        }
      }
    }
  }

  ghost function SortedKeys(m: Fields): (keys: seq<string>)
    ensures Sorting.Lists(Text.Less, m.Keys, keys)
  {
    KeysHaveAnOrder();
    Sorting.InOrderOf(Text.Less, m.Keys)
  }

  ghost function TextOf(v: Json): string
    decreases v, 2
  {
    match v
    case Null => "null"
    case Bool(b) => if b then "true" else "false"
    case Number(n) => Integer(n)
    case String(s) => Quote(s)
    case Array(items) => "[" + ItemsText(items) + "]"
    case Object(m) => "{" + MembersText(m, SortedKeys(m)) + "}"
  }

  ghost function ItemsText(items: seq<Json>): string
    decreases items, 0
  {
    if items == [] then ""
    else if |items| == 1 then TextOf(items[0])
    else TextOf(items[0]) + "," + ItemsText(items[1..])
  }

  ghost function MembersText(m: Fields, keys: seq<string>): string
    requires forall key | key in keys :: key in m
    decreases Object(m), 1, |keys|
  {
    if keys == [] then ""
    else if |keys| == 1 then MemberText(m, keys[0])
    else MemberText(m, keys[0]) + "," + MembersText(m, keys[1..])
  }

  ghost function MemberText(m: Fields, key: string): string
    requires key in m
    decreases Object(m), 0
  {
    Quote(key) + ":" + TextOf(m[key])
  }

  function Digit(n: nat): char
    requires n < 10
  {
    '0' + n as char
  }

  function Decimal(n: nat): string {
    if n < 10 then [Digit(n)] else Decimal(n / 10) + [Digit(n % 10)]
  }

  function Integer(n: int): string {
    if n < 0 then "-" + Decimal(-n) else Decimal(n)
  }

  function HexDigit(n: nat): char
    requires n < 16
  {
    if n < 10 then '0' + n as char else 'a' + (n - 10) as char
  }

  function Escape(c: char): string {
    if c == QUOTE then [BACKSLASH, QUOTE]
    else if c == BACKSLASH then [BACKSLASH, BACKSLASH]
    else if c == BACKSPACE then [BACKSLASH, 'b']
    else if c == FORM_FEED then [BACKSLASH, 'f']
    else if c == '\n' then [BACKSLASH, 'n']
    else if c == '\r' then [BACKSLASH, 'r']
    else if c == '\t' then [BACKSLASH, 't']
    else if c < ' ' then [BACKSLASH, 'u', '0', '0', HexDigit(c as nat / 16), HexDigit(c as nat % 16)]
    else [c]
  }

  function EscapeAll(s: string): string {
    if s == [] then "" else Escape(s[0]) + EscapeAll(s[1..])
  }

  function Quote(s: string): string {
    [QUOTE] + EscapeAll(s) + [QUOTE]
  }

  // ----- the writer

  /** Go's bytes.Buffer, as far as the writer uses it. */
  class Buffer {
    var contents: string

    constructor ()
      ensures contents == ""
    {
      contents := "";
    }

    method WriteString(s: string)
      modifies this
      ensures contents == old(contents) + s
    {
      contents := contents + s;
    }
  }

  method WriteQuoted(buf: Buffer, s: string)
    modifies buf
    ensures buf.contents == old(buf.contents) + Quote(s)
  {
    buf.WriteString([QUOTE]);
    for i := 0 to |s|
      invariant buf.contents == old(buf.contents) + [QUOTE] + EscapeAll(s[..i])
    {
      EscapeOneMore(s, i);
      buf.WriteString(Escape(s[i]));
    }
    assert s[..|s|] == s;
    buf.WriteString([QUOTE]);
  }

  lemma EscapeOneMore(s: string, i: nat)
    requires i < |s|
    ensures EscapeAll(s[..i + 1]) == EscapeAll(s[..i]) + Escape(s[i])
  {
    if i == 0 {
      assert s[..1][1..] == "";
    } else {
      EscapeOneMore(s[1..], i - 1);
      assert s[..i + 1][1..] == s[1..][..i] && s[..i][1..] == s[1..][..i - 1];
      Regroup(Escape(s[0]), EscapeAll(s[1..][..i - 1]), Escape(s[i]), "");
    }
  }

  method WriteNumber(buf: Buffer, n: int) returns (result: Option<WriteError>)
    modifies buf
    ensures result.None? <==> -9007199254740991 <= n <= 9007199254740991
    ensures result.None? ==> buf.contents == old(buf.contents) + Integer(n)
  {
    if n < -MAX_SAFE_INTEGER || n > MAX_SAFE_INTEGER {
      return Some(IntegerRange);
    }
    buf.WriteString(Integer(n));
    return None;
  }

  /** Appends the canonical text of a writable value; for any other value it reports the error
      and what it left in the buffer is not used. */
  method Write(buf: Buffer, v: Json) returns (result: Option<WriteError>)
    modifies buf
    ensures result.None? <==> Writable(v)
    ensures result.None? ==> buf.contents == old(buf.contents) + TextOf(v)
    decreases v, 2
  {
    match v
    case Null =>
      buf.WriteString("null");
      return None;
    case Bool(b) =>
      buf.WriteString(if b then "true" else "false");
      return None;
    case Number(n) =>
      result := WriteNumber(buf, n);
    case String(s) =>
      WriteQuoted(buf, s);
      return None;
    case Array(items) =>
      result := WriteArray(buf, items);
    case Object(m) =>
      result := WriteObject(buf, m);
  }

  method WriteArray(buf: Buffer, items: seq<Json>) returns (result: Option<WriteError>)
    modifies buf
    ensures result.None? <==> Writable(Array(items))
    ensures result.None? ==> buf.contents == old(buf.contents) + TextOf(Array(items))
    decreases Array(items), 0
  {
    buf.WriteString("[");
    for i := 0 to |items|
      invariant forall k | 0 <= k < i :: Writable(items[k])
      invariant buf.contents == old(buf.contents) + "[" + ItemsText(items[..i])
    {
      ghost var sep := if i > 0 then "," else "";
      ItemsTextOneMore(items, i);
      Regroup(old(buf.contents) + "[", ItemsText(items[..i]), sep, TextOf(items[i]));
      if i > 0 {
        buf.WriteString(",");
      }
      result := Write(buf, items[i]);
      if result.Some? {
        return;
      }
    }
    assert items[..|items|] == items;
    Regroup(old(buf.contents), "[", ItemsText(items), "]");
    buf.WriteString("]");
    return None;
  }

  method WriteObject(buf: Buffer, m: Fields) returns (result: Option<WriteError>)
    modifies buf
    ensures result.None? <==> Writable(Object(m))
    ensures result.None? ==> buf.contents == old(buf.contents) + TextOf(Object(m))
    decreases Object(m), 1
  {
    var keys := ListKeys(m);
    buf.WriteString("{");
    for i := 0 to |keys|
      invariant forall k | 0 <= k < i :: Writable(m[keys[k]])
      invariant buf.contents == old(buf.contents) + "{" + MembersText(m, keys[..i])
    {
      ghost var sep := if i > 0 then "," else "";
      MembersTextOneMore(m, keys, i);
      Regroup(old(buf.contents) + "{", MembersText(m, keys[..i]), sep, MemberText(m, keys[i]));
      if i > 0 {
        buf.WriteString(",");
      }
      result := WriteMember(buf, m, keys[i]);
      if result.Some? {
        return;
      }
    }
    assert keys[..|keys|] == keys;
    Regroup(old(buf.contents), "{", MembersText(m, keys), "}");
    buf.WriteString("}");
    forall key | key in m
      ensures Writable(m[key])
    {
      assert key in keys;
    }
    return None;
  }

  method WriteMember(buf: Buffer, m: Fields, key: string) returns (result: Option<WriteError>)
    requires key in m
    modifies buf
    ensures result.None? <==> Writable(m[key])
    ensures result.None? ==> buf.contents == old(buf.contents) + MemberText(m, key)
    decreases Object(m), 0
  {
    WriteQuoted(buf, key);
    buf.WriteString(":");
    result := Write(buf, m[key]);
    Regroup(old(buf.contents), Quote(key), ":", TextOf(m[key]));
  }

  lemma Regroup(a: string, b: string, c: string, d: string)
    ensures a + (b + c + d) == a + b + c + d
  {
  }

  lemma MembersTextStarts(m: Fields, keys: seq<string>)
    requires keys != [] && forall key | key in keys :: key in m
    ensures MembersText(m, keys) != "" && MembersText(m, keys)[0] == QUOTE
  {
  }

  lemma ListRegroups(first: string, middle: string, last: string)
    ensures first + "," + (middle + "," + last) == (first + "," + middle) + "," + last
  {
  }

  /** Collects the keys in whatever order the map gives them, then sorts them. */
  method ListKeys(m: Fields) returns (keys: seq<string>)
    ensures keys == SortedKeys(m)
    ensures forall key :: key in keys <==> key in m
  {
    var found: seq<string> := [];
    var rest := m.Keys;
    while rest != {}
      invariant rest <= m.Keys
      invariant forall key :: key in found <==> key in m && key !in rest
      invariant Sorting.Distinct(found)
      decreases rest
    {
      var key :| key in rest;
      found := found + [key];
      rest := rest - {key};
    }
    KeysHaveAnOrder();
    keys := Sorting.Sort(found, Text.Less);
    Sorting.SortingASetListsIt(Text.Less, m.Keys, found, keys);
  }

  lemma {:induction false} ItemsTextOneMore(items: seq<Json>, i: nat)
    requires i < |items|
    ensures ItemsText(items[..i + 1]) == ItemsText(items[..i]) + (if i > 0 then "," else "") + TextOf(items[i])
    decreases i
  {
    if i > 0 {
      ItemsTextOneMore(items[1..], i - 1);
      assert items[..i + 1][1..] == items[1..][..i] && items[..i][1..] == items[1..][..i - 1];
      if i > 1 {
        ListRegroups(TextOf(items[0]), ItemsText(items[1..][..i - 1]), TextOf(items[i]));
      }
    }
  }

  lemma {:induction false} MembersTextOneMore(m: Fields, keys: seq<string>, i: nat)
    requires i < |keys| && forall key | key in keys :: key in m
    ensures MembersText(m, keys[..i + 1])
         == MembersText(m, keys[..i]) + (if i > 0 then "," else "") + MemberText(m, keys[i])
    decreases i
  {
    if i > 0 {
      MembersTextOneMore(m, keys[1..], i - 1);
      assert keys[..i + 1][1..] == keys[1..][..i] && keys[..i][1..] == keys[1..][..i - 1];
      if i > 1 {
        ListRegroups(MemberText(m, keys[0]), MembersText(m, keys[1..][..i - 1]), MemberText(m, keys[i]));
      }
    }
  }

  method Canonical(v: Json) returns (result: Result<string, WriteError>)
    ensures result.Ok? <==> Writable(v)
    ensures result.Ok? ==> result.value == TextOf(v)
  {
    var buf := new Buffer();
    var error := Write(buf, v);
    if error.Some? {
      return Err(error.value);
    }
    return Ok(buf.contents);
  }
}
