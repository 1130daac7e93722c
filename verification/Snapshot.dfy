/** The byte stream a state snapshot is hashed from: sorted keys, and a length before every
    string. */
module Snapshot {
  import opened Utf8
  import opened RoomState
  import ByteOrder
  import Sorting
  import Text

  // ----- the order of state keys

  predicate KeyBefore(a: StateKey, b: StateKey) {
    if a.eventType != b.eventType then Text.Less(a.eventType, b.eventType)
    else Text.Less(a.stateKey, b.stateKey)
  }

  lemma KeysHaveAnOrder()
    ensures Sorting.IsTotalOrder(KeyBefore)
  {
    forall a: StateKey, b: StateKey
      ensures KeyBefore(a, b) ==> !KeyBefore(b, a)
      ensures KeyBefore(a, b) || a == b || KeyBefore(b, a)
    {
      Compare(a.eventType, b.eventType);
      Compare(a.stateKey, b.stateKey);
    }
    forall a: StateKey, b: StateKey, c: StateKey | !KeyBefore(a, b) && !KeyBefore(b, c)
      ensures !KeyBefore(a, c)
    {
      NotLessIsTransitive(a.eventType, b.eventType, c.eventType);
      NotLessIsTransitive(a.stateKey, b.stateKey, c.stateKey);
    }
  }

  lemma Compare(a: string, b: string)
    ensures Text.Less(a, b) ==> a != b && !Text.Less(b, a)
    ensures Text.Less(b, a) ==> a != b
    ensures Text.Less(a, b) || a == b || Text.Less(b, a)
  {
    if Text.Less(a, b) {
      Text.LessIsAsymmetric(a, b);
    }
    if Text.Less(b, a) {
      Text.LessIsAsymmetric(b, a);
    }
    Text.LessIsTotal(a, b);
  }

  lemma NotLessIsTransitive(a: string, b: string, c: string)
    ensures !Text.Less(a, b) && !Text.Less(b, c) ==> !Text.Less(a, c) && (a == c ==> b == a)
  {
    Compare(a, b);
    Compare(b, c);
    Compare(a, c);
    if Text.Less(c, b) && Text.Less(b, a) {
      Text.LessIsTransitive(c, b, a);
    }
  }

  // ----- the stream

  /** Eight bytes, most significant first; Go converts the length to uint64. */
  function BigEndian(n: nat, width: nat): seq<byte> {
    if width == 0 then [] else BigEndian(n / 256, width - 1) + [(n % 256) as byte]
  }

  function LengthBytes(n: nat): (bytes: seq<byte>)
    ensures |bytes| == 8
  {
    BigEndianHasItsWidth(n % 0x1_0000_0000_0000_0000, 8);
    BigEndian(n % 0x1_0000_0000_0000_0000, 8)
  }

  /** The number these digits in base 256 spell, most significant first. */
  function FromBytes(bytes: seq<byte>): nat {
    if bytes == [] then 0 else FromBytes(bytes[..|bytes| - 1]) * 256 + bytes[|bytes| - 1] as int
  }

  lemma {:induction false} BigEndianSpells(n: nat, width: nat)
    requires n < Power256(width)
    ensures FromBytes(BigEndian(n, width)) == n
  {
    if width > 0 {
      BigEndianSpells(n / 256, width - 1);
      assert BigEndian(n, width)[..|BigEndian(n, width)| - 1] == BigEndian(n / 256, width - 1);
    }
  }

  /** The eight bytes spell the length. */
  lemma LengthBytesSpellTheLength(n: nat)
    requires n < 0x1_0000_0000_0000_0000
    ensures |LengthBytes(n)| == 8 && FromBytes(LengthBytes(n)) == n
  {
    assert Power256(8) == 0x1_0000_0000_0000_0000;
    assert n % 0x1_0000_0000_0000_0000 == n;
    BigEndianSpells(n, 8);
  }

  function Part(s: string): seq<byte> {
    LengthBytes(Size(s)) + Encode(s)
  }

  function Record(key: StateKey, id: string): seq<byte> {
    Part(key.eventType) + Part(key.stateKey) + Part(id)
  }

  function Records(keys: seq<StateKey>, s: StateMap): seq<byte>
    requires forall key | key in keys :: key in s
  {
    if keys == [] then [] else Record(keys[0], s[keys[0]].id) + Records(keys[1..], s)
  }

  ghost function Keys(s: StateMap): (keys: seq<StateKey>)
    ensures Sorting.Lists(KeyBefore, s.Keys, keys)
  {
    KeysHaveAnOrder();
    Sorting.InOrderOf(KeyBefore, s.Keys)
  }

  /** The keys hashed are each of the state's once, in the order of their types' bytes and, within
      a type, of their state keys' bytes. */
  lemma KeysAreHashedInByteOrder(s: StateMap, i: nat, j: nat)
    requires i < j < |Keys(s)|
    ensures forall key :: key in Keys(s) <==> key in s
    ensures var a, b := Keys(s)[i], Keys(s)[j];
            || ByteOrder.Precedes(Encode(a.eventType), Encode(b.eventType))
            || (a.eventType == b.eventType && ByteOrder.Precedes(Encode(a.stateKey), Encode(b.stateKey)))
  {
    var a, b := Keys(s)[i], Keys(s)[j];
    assert KeyBefore(a, b);
    ByteOrder.LessIsByteOrder(a.eventType, b.eventType);
    ByteOrder.LessIsByteOrder(a.stateKey, b.stateKey);
  }

  ghost function Stream(s: StateMap): seq<byte> {
    Records(Keys(s), s)
  }

  method ListKeys(s: StateMap) returns (keys: seq<StateKey>)
    ensures keys == Keys(s)
  {
    var found: seq<StateKey> := [];
    var rest := s.Keys;
    while rest != {}
      invariant rest <= s.Keys
      invariant forall key :: key in found <==> key in s && key !in rest
      invariant Sorting.Distinct(found)
      decreases rest
    {
      var key :| key in rest;
      found := found + [key];
      rest := rest - {key};
    }
    KeysHaveAnOrder();
    keys := Sorting.Sort(found, KeyBefore);
    Sorting.SortingASetListsIt(KeyBefore, s.Keys, found, keys);
  }

  /** Writes the snapshot's bytes into the hasher, part by part. */
  method WriteSnapshot(s: StateMap) returns (written: seq<byte>)
    ensures written == Stream(s)
  {
    var keys := ListKeys(s);
    written := WriteRecords(keys, s);
  }

  method WriteRecords(keys: seq<StateKey>, s: StateMap) returns (written: seq<byte>)
    requires forall key | key in keys :: key in s
    ensures written == Records(keys, s)
  {
    written := [];
    for i := 0 to |keys|
      invariant written + Records(keys[i..], s) == Records(keys, s)
    {
      RecordsFrom(keys, s, i, written);
      written := WriteParts(written, [keys[i].eventType, keys[i].stateKey, s[keys[i]].id]);
      ThreePartsMakeARecord(keys[i], s[keys[i]].id);
    }
  }

  lemma RecordsFrom(keys: seq<StateKey>, s: StateMap, i: nat, start: seq<byte>)
    requires i < |keys| && forall key | key in keys :: key in s
    ensures start + Records(keys[i..], s) == start + Record(keys[i], s[keys[i]].id) + Records(keys[i + 1..], s)
  {
  }

  method WriteParts(start: seq<byte>, parts: seq<string>) returns (written: seq<byte>)
    ensures written == start + Joined(parts)
  {
    written := start;
    for k := 0 to |parts|
      invariant written + Joined(parts[k..]) == start + Joined(parts)
    {
      JoinedFrom(parts, k, written);
      PartInTwoWrites(written, parts[k]);
      written := written + LengthBytes(Size(parts[k]));
      written := written + Encode(parts[k]);
    }
  }

  lemma JoinedFrom(parts: seq<string>, k: nat, start: seq<byte>)
    requires k < |parts|
    ensures start + Joined(parts[k..]) == start + Part(parts[k]) + Joined(parts[k + 1..])
  {
  }

  lemma PartInTwoWrites(start: seq<byte>, s: string)
    ensures start + LengthBytes(Size(s)) + Encode(s) == start + Part(s)
  {
  }

  lemma AppendAssociates(a: seq<byte>, b: seq<byte>, c: seq<byte>)
    ensures a + b + c == a + (b + c)
  {
  }

  function Joined(parts: seq<string>): seq<byte> {
    if parts == [] then [] else Part(parts[0]) + Joined(parts[1..])
  }

  lemma ThreePartsMakeARecord(key: StateKey, id: string)
    ensures Joined([key.eventType, key.stateKey, id]) == Record(key, id)
  {
    var parts := [key.eventType, key.stateKey, id];
    assert parts[1..] == [key.stateKey, id] && [key.stateKey, id][1..] == [id] && [id][1..] == [];
    assert Joined([id]) == Part(id);
    assert Joined([key.stateKey, id]) == Part(key.stateKey) + Part(id);
  }

  // ----- injectivity

  function Power256(width: nat): nat {
    if width == 0 then 1 else 256 * Power256(width - 1)
  }

  lemma {:induction false} BigEndianIsInjective(m: nat, n: nat, width: nat)
    requires m < Power256(width) && n < Power256(width)
    requires BigEndian(m, width) == BigEndian(n, width)
    ensures m == n
  {
    if width > 0 {
      var p, q := BigEndian(m / 256, width - 1), BigEndian(n / 256, width - 1);
      var s, t := BigEndian(m, width), BigEndian(n, width);
      BigEndianHasItsWidth(m / 256, width - 1);
      BigEndianHasItsWidth(n / 256, width - 1);
      assert p == s[..width - 1] == t[..width - 1] == q;
      assert s[width - 1] == t[width - 1];
      BigEndianIsInjective(m / 256, n / 256, width - 1);
    }
  }

  lemma BigEndianHasItsWidth(n: nat, width: nat)
    ensures |BigEndian(n, width)| == width
  {
  }

  /** Go strings are at most 2^63 - 1 bytes long. */
  ghost predicate Addressable(s: string) {
    Size(s) < 0x8000_0000_0000_0000
  }

  ghost predicate AllAddressable(s: StateMap) {
    forall key | key in s :: Addressable(key.eventType) && Addressable(key.stateKey) && Addressable(s[key].id)
  }

  lemma EqualSplits(p: seq<byte>, x: seq<byte>, q: seq<byte>, y: seq<byte>)
    requires |p| == |q| && p + x == q + y
    ensures p == q && x == y
  {
    assert p == (p + x)[..|p|] && q == (q + y)[..|q|];
    assert x == (p + x)[|p|..] && y == (q + y)[|q|..];
  }

  lemma LengthBytesAreInjective(m: nat, n: nat)
    requires m < 0x8000_0000_0000_0000 && n < 0x8000_0000_0000_0000
    requires LengthBytes(m) == LengthBytes(n)
    ensures m == n
  {
    assert m % 0x1_0000_0000_0000_0000 == m && n % 0x1_0000_0000_0000_0000 == n;
    assert Power256(8) == 0x1_0000_0000_0000_0000;
    BigEndianIsInjective(m, n, 8);
  }

  lemma PartIsPrefixFree(a: string, b: string, restA: seq<byte>, restB: seq<byte>)
    requires Addressable(a) && Addressable(b)
    requires Part(a) + restA == Part(b) + restB
    ensures a == b && restA == restB
  {
    var m, n := LengthBytes(Size(a)), LengthBytes(Size(b));
    AppendAssociates(m, Encode(a), restA);
    AppendAssociates(n, Encode(b), restB);
    EqualSplits(m, Encode(a) + restA, n, Encode(b) + restB);
    LengthBytesAreInjective(Size(a), Size(b));
    EqualSplits(Encode(a), restA, Encode(b), restB);
    EncodeIsInjective(a, b);
  }

  lemma RecordIsPrefixFree(k: StateKey, i: string, l: StateKey, j: string, restK: seq<byte>, restL: seq<byte>)
    requires Addressable(k.eventType) && Addressable(k.stateKey) && Addressable(i)
    requires Addressable(l.eventType) && Addressable(l.stateKey) && Addressable(j)
    requires Record(k, i) + restK == Record(l, j) + restL
    ensures k == l && i == j && restK == restL
  {
    Regroup(Part(k.eventType), Part(k.stateKey), Part(i), restK);
    Regroup(Part(l.eventType), Part(l.stateKey), Part(j), restL);
    PartIsPrefixFree(k.eventType, l.eventType,
                     Part(k.stateKey) + (Part(i) + restK), Part(l.stateKey) + (Part(j) + restL));
    PartIsPrefixFree(k.stateKey, l.stateKey, Part(i) + restK, Part(j) + restL);
    PartIsPrefixFree(i, j, restK, restL);
  }

  lemma Regroup(a: seq<byte>, b: seq<byte>, c: seq<byte>, d: seq<byte>)
    ensures a + b + c + d == a + (b + (c + d))
  {
  }

  lemma {:induction false} RecordsAreInjective(keys: seq<StateKey>, s: StateMap, other: seq<StateKey>, t: StateMap)
    requires AllAddressable(s) && AllAddressable(t)
    requires (forall key | key in keys :: key in s) && (forall key | key in other :: key in t)
    requires Records(keys, s) == Records(other, t)
    ensures keys == other
    ensures forall key | key in keys :: s[key].id == t[key].id
  {
    if keys == [] || other == [] {
      RecordsAreEmptyTogether(keys, s);
      RecordsAreEmptyTogether(other, t);
    } else {
      var k, l := keys[0], other[0];
      RecordIsPrefixFree(k, s[k].id, l, t[l].id, Records(keys[1..], s), Records(other[1..], t));
      RecordsAreInjective(keys[1..], s, other[1..], t);
      assert keys == [k] + keys[1..] && other == [l] + other[1..];
    }
  }

  lemma RecordsAreEmptyTogether(keys: seq<StateKey>, s: StateMap)
    requires forall key | key in keys :: key in s
    ensures Records(keys, s) == [] <==> keys == []
  {
  }

  /** Two states feed the hash the same bytes exactly when they hold the same keys with the same
      event ids. */
  lemma StreamIsInjective(s: StateMap, t: StateMap)
    requires AllAddressable(s) && AllAddressable(t)
    ensures Stream(s) == Stream(t) <==> s.Keys == t.Keys && forall key | key in s :: s[key].id == t[key].id
  {
    if Stream(s) == Stream(t) {
      RecordsAreInjective(Keys(s), s, Keys(t), t);
      assert forall key :: key in s.Keys <==> key in Keys(s);
      assert forall key :: key in t.Keys <==> key in Keys(t);
    }
    if s.Keys == t.Keys && forall key | key in s :: s[key].id == t[key].id {
      KeysHaveAnOrder();
      Sorting.ListingIsUnique(KeyBefore, s.Keys, Keys(s), Keys(t));
      SameIdsSameRecords(Keys(s), s, t);
    }
  }

  lemma {:induction false} SameIdsSameRecords(keys: seq<StateKey>, s: StateMap, t: StateMap)
    requires forall key | key in keys :: key in s && key in t && s[key].id == t[key].id
    ensures Records(keys, s) == Records(keys, t)
  {
    if keys != [] {
      SameIdsSameRecords(keys[1..], s, t);
    }
  }
}
