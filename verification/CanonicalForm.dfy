/** The canonical writer's output is a canonical form: the RFC 8259 reader gets back exactly the
    value that was written. */
module CanonicalForm {
  import opened Wrappers
  import opened JsonValues
  import opened CanonicalJson
  import opened JsonReader
  import ByteOrder
  import Sorting
  import Text
  import Utf8

  // ----- strings

  lemma EscapeIsUndone(c: char, tail: string)
    requires |Escape(c)| > 1
    ensures Escape(c)[0] == BACKSLASH
    ensures ReadEscape(Escape(c)[1..] + tail) == Some((c, tail))
  {
  }

  lemma EscapeReads(c: char, tail: string)
    requires ReadBody(tail).Some?
    ensures ReadBody(Escape(c) + tail) == Some(([c] + ReadBody(tail).value.0, ReadBody(tail).value.1))
  {
    PlainOrEscaped(c);
    if |Escape(c)| == 1 {
      PlainStep(c, Escape(c), tail);
    } else {
      EscapeIsUndone(c, tail);
      EscapedStep(c, Escape(c), Escape(c)[1..], tail);
    }
  }

  lemma PlainOrEscaped(c: char)
    ensures |Escape(c)| == 1 ==> Escape(c) == [c] && c != QUOTE && c != BACKSLASH && c >= ' '
    ensures |Escape(c)| > 1 ==> Escape(c) == [BACKSLASH] + Escape(c)[1..]
    ensures |Escape(c)| >= 1
  {
  }

  lemma PlainStep(c: char, text: string, tail: string)
    requires ReadBody(tail).Some? && text == [c] && c != QUOTE && c != BACKSLASH && c >= ' '
    ensures ReadBody(text + tail) == Some(([c] + ReadBody(tail).value.0, ReadBody(tail).value.1))
  {
    assert (text + tail)[1..] == tail;
  }

  lemma EscapedStep(c: char, text: string, escape: string, tail: string)
    requires ReadBody(tail).Some? && text == [BACKSLASH] + escape && ReadEscape(escape + tail) == Some((c, tail))
    ensures ReadBody(text + tail) == Some(([c] + ReadBody(tail).value.0, ReadBody(tail).value.1))
  {
    assert (text + tail)[1..] == escape + tail;
  }

  lemma {:induction false} BodyReads(s: string, rest: string)
    ensures ReadBody(EscapeAll(s) + [QUOTE] + rest) == Some((s, rest))
  {
    if s == "" {
      assert ([QUOTE] + rest)[1..] == rest;
      assert EscapeAll(s) + [QUOTE] + rest == [QUOTE] + rest;
    } else {
      var tail := EscapeAll(s[1..]) + [QUOTE] + rest;
      BodyReads(s[1..], rest);
      EscapeReads(s[0], tail);
      Regroup(Escape(s[0]), EscapeAll(s[1..]), [QUOTE], rest);
      assert s == [s[0]] + s[1..];
    }
  }

  /** No text of a character that the reader accepts is shorter than the one written, and a
      numeric escape is written with small letters. */
  lemma EscapesAreShortest(c: char, text: string)
    requires ReadBody(text + [QUOTE]) == Some(([c], ""))
    ensures |Escape(c)| <= |text|
    ensures |Escape(c)| > 2 ==> IsNumericEscape(Escape(c))
  {
    var s := text + [QUOTE];
    SomethingIsRead(c, text, s);
    NumericEscapesAreSmall(c);
    if text[0] != BACKSLASH {
      RawReads(c, text, s);
    } else {
      EscapesTakeTwo(c, text, s);
      if |Escape(c)| > 2 {
        NumericEscapesAreLong(c, text, s);
      }
    }
  }

  lemma NumericEscapesAreSmall(c: char)
    ensures |Escape(c)| > 2 ==> IsNumericEscape(Escape(c))
  {
  }

  lemma SomethingIsRead(c: char, text: string, s: string)
    requires s == text + [QUOTE] && ReadBody(s) == Some(([c], ""))
    ensures text != "" && text[0] != QUOTE
  {
  }

  lemma EscapesTakeTwo(c: char, text: string, s: string)
    requires s == text + [QUOTE] && ReadBody(s) == Some(([c], "")) && text != "" && text[0] == BACKSLASH
    ensures |text| >= 2
  {
    assert ReadEscape(s[1..]).Some? && ReadBody(ReadEscape(s[1..]).value.1).Some?;
    assert |ReadEscape(s[1..]).value.1| >= 1;
  }

  ghost predicate IsNumericEscape(s: string) {
    |s| == 6 && s[..4] == ['\\', 'u', '0', '0'] && IsSmallHex(s[4]) && IsSmallHex(s[5])
  }

  predicate IsSmallHex(c: char) {
    '0' <= c <= '9' || 'a' <= c <= 'f'
  }

  lemma RawReads(c: char, text: string, s: string)
    requires s == text + [QUOTE] && ReadBody(s) == Some(([c], ""))
    requires text != "" && text[0] != BACKSLASH && text[0] != QUOTE
    ensures Escape(c) == [c]
  {
    assert ReadBody(s).value.0[0] == s[0];
  }

  lemma NumericEscapesAreLong(c: char, text: string, s: string)
    requires s == text + [QUOTE] && ReadBody(s) == Some(([c], ""))
    requires text != "" && text[0] == BACKSLASH && |Escape(c)| > 2
    ensures |text| >= 6
  {
    var escape := s[1..];
    assert ReadEscape(escape).Some? && ReadBody(s).value.0[0] == ReadEscape(escape).value.0;
    assert c == ReadEscape(escape).value.0;
    assert escape[0] == 'u';
    var digits := escape[1..];
    assert ReadHex4(digits).Some? && digits[3] != QUOTE;
    assert digits[3] == s[5] && s[|text|] == QUOTE;
  }

  // ----- numbers

  /** Text after which a number has certainly ended. */
  ghost predicate Delimited(rest: string) {
    rest == "" || rest[0] == ',' || rest[0] == ']' || rest[0] == '}'
  }

  lemma {:induction false} DecimalReads(n: nat)
    ensures Decimal(n) != "" && forall i | 0 <= i < |Decimal(n)| :: IsDigit(Decimal(n)[i])
    ensures DecimalValue(Decimal(n)) == n
    ensures Decimal(n)[0] == '0' ==> n == 0
  {
    if n >= 10 {
      DecimalReads(n / 10);
      var front := Decimal(n / 10);
      assert Decimal(n) == front + [Digit(n % 10)];
      assert Decimal(n)[..|Decimal(n)| - 1] == front;
    } else {
      assert [Digit(n)][..0] == "";
    }
  }

  lemma {:induction false} RunStops(digits: string, rest: string)
    requires forall i | 0 <= i < |digits| :: IsDigit(digits[i])
    requires rest == "" || !IsDigit(rest[0])
    ensures DigitRun(digits + rest) == |digits|
  {
    if digits == "" {
      assert digits + rest == rest;
    } else {
      assert (digits + rest)[1..] == digits[1..] + rest;
      RunStops(digits[1..], rest);
    }
  }

  lemma NaturalReads(n: nat, rest: string)
    requires Delimited(rest)
    ensures ReadNatural(Decimal(n) + rest) == Some((n, rest))
  {
    DecimalReads(n);
    RunStops(Decimal(n), rest);
    var s, k := Decimal(n) + rest, |Decimal(n)|;
    assert s[..k] == Decimal(n) && s[k..] == rest;
    assert k < |s| ==> s[k] == rest[0];
  }

  lemma NumberReads(n: int, rest: string)
    requires Delimited(rest)
    ensures ReadNumber(Integer(n) + rest) == Some((n, rest))
  {
    if n < 0 {
      NegativeReads(-n, rest);
    } else {
      NaturalReads(n, rest);
      DecimalReads(n);
      var s := Decimal(n) + rest;
      assert s[0] == Decimal(n)[0];
    }
  }

  lemma NegativeReads(n: nat, rest: string)
    requires Delimited(rest)
    ensures ReadNumber("-" + Decimal(n) + rest) == Some((0 - n, rest))
  {
    NaturalReads(n, rest);
    MinusStep(Decimal(n) + rest, n, rest);
    assert "-" + Decimal(n) + rest == "-" + (Decimal(n) + rest);
  }

  lemma MinusStep(tail: string, n: nat, rest: string)
    requires ReadNatural(tail) == Some((n, rest))
    ensures ReadNumber("-" + tail) == Some((0 - n, rest))
  {
    assert ("-" + tail)[1..] == tail;
  }

  // ----- values

  /** A value's text is not empty and starts with neither white space nor a closing bracket. */
  lemma TextStarts(v: Json)
    ensures TextOf(v) != ""
    ensures !IsSpace(TextOf(v)[0]) && TextOf(v)[0] != ']' && TextOf(v)[0] != '}'
  {
    if v.Number? {
      DecimalReads(if v.n < 0 then -v.n else v.n);
    }
  }

  ghost function Restrict(m: Fields, keys: seq<string>): Fields
    requires forall key | key in keys :: key in m
  {
    map key | key in keys :: m[key]
  }

  lemma {:induction false} ValueReads(v: Json, rest: string)
    requires Delimited(rest)
    ensures ReadValue(TextOf(v) + rest) == Some((v, rest))
    decreases v, 2
  {
    match v
    case Array(items) => ArrayReads(items, rest);
    case Object(m) => ObjectReads(m, rest);
    case _ => SimpleValueReads(v, rest);
  }

  lemma SimpleValueReads(v: Json, rest: string)
    requires Delimited(rest) && !v.Array? && !v.Object?
    ensures ReadValue(TextOf(v) + rest) == Some((v, rest))
  {
    match v
    case Null =>
      LiteralReads("null", v, rest);
    case Bool(b) =>
      LiteralReads(if b then "true" else "false", v, rest);
    case Number(n) =>
      NumberValueReads(n, rest);
    case String(text) =>
      StringValueReads(text, rest);
  }

  lemma NumberValueReads(n: int, rest: string)
    requires Delimited(rest)
    ensures ReadValue(Integer(n) + rest) == Some((Number(n), rest))
  {
    NumberReads(n, rest);
    DecimalReads(if n < 0 then -n else n);
    assert (Integer(n) + rest)[0] == Integer(n)[0];
    NumberStep(Integer(n) + rest);
  }

  lemma StringValueReads(text: string, rest: string)
    ensures ReadValue(Quote(text) + rest) == Some((String(text), rest))
  {
    BodyReads(text, rest);
    StringStep(EscapeAll(text) + [QUOTE] + rest);
    assert Quote(text) + rest == [QUOTE] + (EscapeAll(text) + [QUOTE] + rest);
  }

  lemma LiteralReads(literal: string, v: Json, rest: string)
    requires || (literal == "null" && v == Null)
             || (literal == "true" && v == Bool(true)) || (literal == "false" && v == Bool(false))
    ensures ReadValue(literal + rest) == Some((v, rest))
  {
  }

  lemma NumberStep(s: string)
    requires s != "" && (s[0] == '-' || IsDigit(s[0])) && ReadNumber(s).Some?
    ensures ReadValue(s) == Some((Number(ReadNumber(s).value.0), ReadNumber(s).value.1))
  {
  }

  lemma StringStep(inner: string)
    requires ReadBody(inner).Some?
    ensures ReadValue([QUOTE] + inner) == Some((String(ReadBody(inner).value.0), ReadBody(inner).value.1))
  {
  }

  /** A bracket hands over to the reader of what follows it. */
  lemma Dispatch(s: string, inner: string)
    requires s != "" && s[1..] == inner && SkipSpace(inner) == inner
    ensures s[0] == '[' ==> ReadValue(s) == ReadArray(inner)
    ensures s[0] == '{' ==> ReadValue(s) == ReadObject(inner)
  {
  }

  lemma ArrayStep(inner: string)
    requires inner != "" && !IsSpace(inner[0])
    ensures ReadValue("[" + inner) == ReadArray(inner)
  {
    assert ("[" + inner)[1..] == inner;
    Dispatch("[" + inner, inner);
  }

  lemma ObjectStep(inner: string)
    requires inner != "" && !IsSpace(inner[0])
    ensures ReadValue("{" + inner) == ReadObject(inner)
  {
    assert ("{" + inner)[1..] == inner;
    Dispatch("{" + inner, inner);
  }

  lemma {:induction false} ArrayReads(items: seq<Json>, rest: string)
    ensures ReadValue(TextOf(Array(items)) + rest) == Some((Array(items), rest))
    decreases Array(items), 0
  {
    var inner := ItemsText(items) + ("]" + rest);
    assert TextOf(Array(items)) + rest == "[" + inner;
    if items == [] {
      assert inner == "]" + rest && inner[0] == ']' && inner[1..] == rest;
    } else {
      TextStarts(items[0]);
      assert inner[0] == ItemsText(items)[0] == TextOf(items[0])[0];
      ItemsRead(items, rest);
    }
    ArrayStep(inner);
  }

  /** The reader's steps from one item to the end and to the next. */
  lemma LastItem(text: string, v: Json, more: string)
    requires ReadValue(text + ("]" + more)) == Some((v, "]" + more))
    ensures ReadItems(text + ("]" + more)) == Some(([v], more))
  {
  }

  lemma NextItem(text: string, v: Json, more: string)
    requires ReadValue(text + ("," + more)) == Some((v, "," + more))
    requires more != "" && !IsSpace(more[0]) && ReadItems(more).Some?
    ensures ReadItems(text + ("," + more)) == Some(([v] + ReadItems(more).value.0, ReadItems(more).value.1))
  {
  }

  lemma Shift(first: string, others: string, tail: string)
    ensures (first + "," + others) + tail == first + ("," + (others + tail))
  {
  }

  lemma {:induction false} ItemsRead(items: seq<Json>, rest: string)
    requires items != []
    ensures ReadItems(ItemsText(items) + ("]" + rest)) == Some((items, rest))
    decreases items, 0
  {
    var text := TextOf(items[0]);
    if |items| == 1 {
      ValueReads(items[0], "]" + rest);
      LastItem(text, items[0], rest);
      assert items == [items[0]];
    } else {
      var more := ItemsText(items[1..]) + ("]" + rest);
      ValueReads(items[0], "," + more);
      TextStarts(items[1]);
      assert more[0] == TextOf(items[1])[0];
      ItemsRead(items[1..], rest);
      NextItem(text, items[0], more);
      Shift(text, ItemsText(items[1..]), "]" + rest);
      assert items == [items[0]] + items[1..];
    }
  }

  lemma {:induction false} ObjectReads(m: Fields, rest: string)
    ensures ReadValue(TextOf(Object(m)) + rest) == Some((Object(m), rest))
    decreases Object(m), 1
  {
    var keys := SortedKeys(m);
    forall i, j | 0 <= i < j < |keys|
      ensures keys[i] != keys[j]
    {
      Text.LessIsAsymmetric(keys[i], keys[j]);
    }
    ObjectReadsInAnyOrder(m, keys, rest);
  }

  lemma {:induction false} ObjectReadsInAnyOrder(m: Fields, keys: seq<string>, rest: string)
    requires Sorting.Distinct(keys) && forall key :: key in keys <==> key in m
    ensures ReadValue("{" + MembersText(m, keys) + "}" + rest) == Some((Object(m), rest))
    decreases Object(m), 0, |keys| + 1
  {
    var inner := MembersText(m, keys) + ("}" + rest);
    assert "{" + MembersText(m, keys) + "}" + rest == "{" + inner;
    assert Restrict(m, keys) == m;
    if keys == [] {
      assert m == map[];
      assert inner == "}" + rest && inner[0] == '}' && inner[1..] == rest;
    } else {
      MembersRead(m, keys, rest);
      MembersTextStarts(m, keys);
      assert inner[0] == MembersText(m, keys)[0];
    }
    ObjectStep(inner);
  }

  /** The reader's steps through one member: key, colon, value. */
  lemma MemberReads(key: string, text: string, v: Json, after: string)
    requires text != "" && !IsSpace(text[0]) && ReadValue(text + after) == Some((v, after))
    ensures ReadMember(Quote(key) + ":" + text + after) == Some((key, v, after))
  {
    var colon := ":" + (text + after);
    var body := EscapeAll(key) + [QUOTE] + colon;
    BodyReads(key, colon);
    FlattenMember(EscapeAll(key), text, after);
    assert colon[1..] == text + after;
    ColonStep(key, body, colon, text + after, v, after);
  }

  lemma FlattenMember(escaped: string, text: string, after: string)
    ensures [QUOTE] + escaped + [QUOTE] + ":" + text + after == [QUOTE] + (escaped + [QUOTE] + (":" + (text + after)))
  {
  }

  lemma ColonStep(key: string, body: string, colon: string, value: string, v: Json, after: string)
    requires ReadBody(body) == Some((key, colon)) && colon == ":" + value && colon[1..] == value
    requires value != "" && !IsSpace(value[0]) && ReadValue(value) == Some((v, after))
    ensures ReadMember([QUOTE] + body) == Some((key, v, after))
  {
  }

  lemma LastMember(member: string, key: string, v: Json, more: string)
    requires ReadMember(member + ("}" + more)) == Some((key, v, "}" + more))
    ensures ReadMembers(member + ("}" + more)) == Some((map[key := v], more))
  {
  }

  lemma NextMember(member: string, key: string, v: Json, more: string)
    requires ReadMember(member + ("," + more)) == Some((key, v, "," + more))
    requires more != "" && !IsSpace(more[0]) && ReadMembers(more).Some?
    ensures ReadMembers(member + ("," + more))
         == Some((map[key := v] + ReadMembers(more).value.0, ReadMembers(more).value.1))
  {
  }

  lemma MemberThenMore(member: string, key: string, v: Json, others: string, fields: Fields, rest: string)
    requires ReadMember(member + ("," + (others + ("}" + rest)))) == Some((key, v, "," + (others + ("}" + rest))))
    requires others != "" && !IsSpace(others[0]) && ReadMembers(others + ("}" + rest)) == Some((fields, rest))
    ensures ReadMembers(member + "," + others + ("}" + rest)) == Some((map[key := v] + fields, rest))
  {
    var more := others + ("}" + rest);
    assert more[0] == others[0];
    NextMember(member, key, v, more);
    Shift(member, others, "}" + rest);
  }

  lemma FirstMemberReads(m: Fields, key: string, after: string)
    requires key in m && ReadValue(TextOf(m[key]) + after) == Some((m[key], after))
    ensures ReadMember(MemberText(m, key) + after) == Some((key, m[key], after))
  {
    TextStarts(m[key]);
    MemberReads(key, TextOf(m[key]), m[key], after);
  }

  lemma LastMemberReads(m: Fields, key: string, rest: string)
    requires key in m && ReadValue(TextOf(m[key]) + ("}" + rest)) == Some((m[key], "}" + rest))
    ensures ReadMembers(MemberText(m, key) + ("}" + rest)) == Some((map[key := m[key]], rest))
  {
    FirstMemberReads(m, key, "}" + rest);
    LastMember(MemberText(m, key), key, m[key], rest);
  }

  lemma MoreMembersRead(m: Fields, key: string, others: string, fields: Fields, rest: string)
    requires key in m && others != "" && others[0] == QUOTE
    requires ReadValue(TextOf(m[key]) + ("," + (others + ("}" + rest))))
          == Some((m[key], "," + (others + ("}" + rest))))
    requires ReadMembers(others + ("}" + rest)) == Some((fields, rest))
    ensures ReadMembers(MemberText(m, key) + "," + others + ("}" + rest)) == Some((map[key := m[key]] + fields, rest))
  {
    FirstMemberReads(m, key, "," + (others + ("}" + rest)));
    MemberThenMore(MemberText(m, key), key, m[key], others, fields, rest);
  }

  lemma {:induction false} MembersRead(m: Fields, keys: seq<string>, rest: string)
    requires keys != [] && forall key | key in keys :: key in m
    requires Sorting.Distinct(keys)
    ensures ReadMembers(MembersText(m, keys) + ("}" + rest)) == Some((Restrict(m, keys), rest))
    decreases Object(m), 0, |keys|
  {
    if |keys| == 1 {
      ValueReads(m[keys[0]], "}" + rest);
      LastMemberReads(m, keys[0], rest);
      assert Restrict(m, keys) == map[keys[0] := m[keys[0]]];
    } else {
      var others := MembersText(m, keys[1..]);
      ValueReads(m[keys[0]], "," + (others + ("}" + rest)));
      MembersRead(m, keys[1..], rest);
      MembersTextStarts(m, keys[1..]);
      MoreMembersRead(m, keys[0], others, Restrict(m, keys[1..]), rest);
      RestrictSplits(m, keys);
    }
  }

  lemma RestrictSplits(m: Fields, keys: seq<string>)
    requires keys != [] && forall key | key in keys :: key in m
    requires Sorting.Distinct(keys)
    ensures Restrict(m, keys) == map[keys[0] := m[keys[0]]] + Restrict(m, keys[1..])
  {
  }

  // ----- the canonical form

  /** Reading back what was written gives the value again. */
  lemma ReadingBackTheCanonicalText(v: Json)
    ensures ReadText(TextOf(v)) == Some(v)
  {
    ValueReads(v, "");
    assert TextOf(v) + "" == TextOf(v);
    TextStarts(v);
  }

  /** Values have the same canonical text only when they are the same value. */
  lemma CanonicalTextIsInjective(v: Json, w: Json)
    requires TextOf(v) == TextOf(w)
    ensures v == w
  {
    ReadingBackTheCanonicalText(v);
    ReadingBackTheCanonicalText(w);
  }

  /** CanonicalJSONFrom: decode, then write. */
  ghost function Canonicalise(text: string): Option<string> {
    var v :- ReadText(text);
    if Writable(v) then Some(TextOf(v)) else None
  }

  /** Two texts have the same canonical form exactly when they denote the same value, whatever
      their white space, escapes and member order; and a canonical form is its own. */
  lemma CanonicalFormIsCanonical(text: string, other: string)
    requires Canonicalise(text).Some? && Canonicalise(other).Some?
    ensures Canonicalise(text) == Canonicalise(other) <==> ReadText(text) == ReadText(other)
    ensures Canonicalise(Canonicalise(text).value) == Canonicalise(text)
  {
    var v, w := ReadText(text).value, ReadText(other).value;
    ReadingBackTheCanonicalText(v);
    ReadingBackTheCanonicalText(w);
  }

  /** What can be written: whole numbers a double holds exactly, wherever they are in the value. */
  lemma WritableInWords(v: Json)
    ensures Writable(v) <==>
              && (v.Number? ==> -9007199254740991 <= v.n <= 9007199254740991)
              && (v.Array? ==> forall item | item in v.items :: Writable(item))
              && (v.Object? ==> forall key | key in v.fields :: Writable(v.fields[key]))
  {
    match v
    case Array(items) =>
      assert forall i | 0 <= i < |items| :: items[i] in items;
    case _ =>
  }

  /** Zero is written without a sign, no other number starts with a zero, and a negative one is its
      opposite behind a sign. */
  lemma {:induction false} NumbersAreShortest(n: int)
    ensures Integer(0) == "0"
    ensures n > 0 ==> '1' <= Integer(n)[0] <= '9' && Integer(-n) == "-" + Integer(n)
    decreases n
  {
    if n >= 10 {
      NumbersAreShortest(n / 10);
    }
  }

  /** The writer lists each key of an object once, in increasing order of its UTF-8 bytes. */
  lemma KeysAreWrittenInByteOrder(m: Fields)
    ensures forall key :: key in SortedKeys(m) <==> key in m
    ensures forall i, j | 0 <= i < j < |SortedKeys(m)| ::
              ByteOrder.Precedes(Utf8.Encode(SortedKeys(m)[i]), Utf8.Encode(SortedKeys(m)[j]))
  {
    forall i, j | 0 <= i < j < |SortedKeys(m)|
      ensures ByteOrder.Precedes(Utf8.Encode(SortedKeys(m)[i]), Utf8.Encode(SortedKeys(m)[j]))
    {
      ByteOrder.LessIsByteOrder(SortedKeys(m)[i], SortedKeys(m)[j]);
    }
  }

  /** So two members come in the order of their keys, with nothing but a comma between them. */
  lemma TwoMembersInOrder(a: string, b: string, v: Json, w: Json)
    requires ByteOrder.Precedes(Utf8.Encode(a), Utf8.Encode(b))
    ensures TextOf(Object(map[a := v, b := w]))
         == "{" + Quote(a) + ":" + TextOf(v) + "," + Quote(b) + ":" + TextOf(w) + "}"
  {
    var m := map[a := v, b := w];
    ByteOrder.LessIsByteOrder(a, b);
    KeysHaveAnOrder();
    Text.LessIsAsymmetric(a, b);
    Sorting.ListingIsUnique(Text.Less, m.Keys, SortedKeys(m), [a, b]);
    TwoMembers(m, a, b);
    FlattenTwo(Quote(a), TextOf(v), Quote(b), TextOf(w));
  }

  lemma TwoMembers(m: Fields, a: string, b: string)
    requires a in m && b in m
    ensures MembersText(m, [a, b]) == Quote(a) + ":" + TextOf(m[a]) + "," + (Quote(b) + ":" + TextOf(m[b]))
  {
    assert [a, b][1..] == [b];
    assert MembersText(m, [b]) == MemberText(m, b);
  }

  lemma FlattenTwo(a: string, v: string, b: string, w: string)
    ensures "{" + (a + ":" + v + "," + (b + ":" + w)) + "}" == "{" + a + ":" + v + "," + b + ":" + w + "}"
  {
  }

  /** An object's canonical form does not depend on the order its members were written in. */
  lemma MemberOrderDoesNotMatter(m: Fields, keys: seq<string>)
    requires Writable(Object(m))
    requires Sorting.Distinct(keys) && forall key :: key in keys <==> key in m
    ensures Canonicalise("{" + MembersText(m, keys) + "}") == Some(TextOf(Object(m)))
  {
    var s := "{" + MembersText(m, keys) + "}";
    ObjectReadsInAnyOrder(m, keys, "");
    assert s + "" == s;
    assert SkipSpace(s) == s;
  }
}
