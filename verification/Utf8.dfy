/** UTF-8, the bytes behind every Go string. */
module Utf8 {
  newtype byte = x: int | 0 <= x < 256

  function EncodeScalar(c: char): seq<byte> {
    var n := c as int;
    if n < 0x80 then [n as byte]
    else if n < 0x800 then [(0xC0 + n / 64) as byte, Tail(n)]
    else if n < 0x10000 then [(0xE0 + n / 4096) as byte, Tail(n / 64), Tail(n)]
    else [(0xF0 + n / 262144) as byte, Tail(n / 4096), Tail(n / 64), Tail(n)]
  }

  function Tail(n: nat): byte {
    (0x80 + n % 64) as byte
  }

  /** The table of section 3 of RFC 3629: how many bytes a scalar takes, the bits that mark each of
      them, and the bits of the scalar they carry. */
  lemma ScalarsAreEncodedByTheTable(c: char)
    ensures var n, s := c as int, EncodeScalar(c);
            && (n <= 0x7F ==> |s| == 1 && s[0] as int == n)
            && (0x80 <= n <= 0x7FF ==>
                  |s| == 2 && 0xC2 <= s[0] <= 0xDF && IsTail(s[1])
                  && n == (s[0] as int - 0xC0) * 0x40 + (s[1] as int - 0x80))
            && (0x800 <= n <= 0xFFFF ==>
                  |s| == 3 && 0xE0 <= s[0] <= 0xEF && IsTail(s[1]) && IsTail(s[2])
                  && n == (s[0] as int - 0xE0) * 0x1000 + (s[1] as int - 0x80) * 0x40 + (s[2] as int - 0x80))
            && (0x10000 <= n ==>
                  |s| == 4 && 0xF0 <= s[0] <= 0xF4 && IsTail(s[1]) && IsTail(s[2]) && IsTail(s[3])
                  && n == (s[0] as int - 0xF0) * 0x40000 + (s[1] as int - 0x80) * 0x1000
                          + (s[2] as int - 0x80) * 0x40 + (s[3] as int - 0x80))
  {
    var n := c as int;
    assert n == n / 64 * 64 + n % 64;
    assert n / 64 == n / 4096 * 64 + n / 64 % 64;
    assert n / 4096 == n / 262144 * 64 + n / 4096 % 64;
  }

  predicate IsTail(b: byte) {
    0x80 <= b <= 0xBF
  }

  function Encode(s: string): seq<byte> {
    if s == [] then [] else EncodeScalar(s[0]) + Encode(s[1..])
  }

  /** What Go's len reports for a string. */
  function Size(s: string): nat {
    |Encode(s)|
  }

  lemma {:induction false} SizeIsBounded(s: string)
    ensures Size(s) <= 4 * |s|
  {
    if s != [] {
      SizeIsBounded(s[1..]);
    }
  }

  /** How many bytes the scalar starting with this byte takes. */
  function Width(lead: byte): nat {
    if lead < 0xC0 then 1 else if lead < 0xE0 then 2 else if lead < 0xF0 then 3 else 4
  }

  lemma ScalarIsPrefixFree(a: char, b: char, restA: seq<byte>, restB: seq<byte>)
    requires EncodeScalar(a) + restA == EncodeScalar(b) + restB
    ensures a == b && restA == restB
  {
    var s, t := EncodeScalar(a) + restA, EncodeScalar(b) + restB;
    assert |EncodeScalar(a)| == Width(s[0]) && |EncodeScalar(b)| == Width(t[0]);
    assert EncodeScalar(a) == s[..|EncodeScalar(a)|] == EncodeScalar(b);
    assert restA == s[|EncodeScalar(a)|..] == restB;
    DecodeOfEncode(a);
    DecodeOfEncode(b);
  }

  /** The scalar that a complete encoding stands for. */
  function Decode(s: seq<byte>): int
    requires 1 <= |s| <= 4
  {
    match |s|
    case 1 => s[0] as int
    case 2 => (s[0] as int - 0xC0) * 64 + (s[1] as int - 0x80)
    case 3 => (s[0] as int - 0xE0) * 4096 + (s[1] as int - 0x80) * 64 + (s[2] as int - 0x80)
    case _ => (s[0] as int - 0xF0) * 262144 + (s[1] as int - 0x80) * 4096
              + (s[2] as int - 0x80) * 64 + (s[3] as int - 0x80)
  }

  lemma DecodeOfEncode(c: char)
    ensures Decode(EncodeScalar(c)) == c as int
  {
    var n := c as int;
    assert n == n / 64 * 64 + n % 64;
    assert n / 64 == n / 4096 * 64 + n / 64 % 64;
    assert n / 4096 == n / 262144 * 64 + n / 4096 % 64;
  }

  /** Two strings with the same bytes are the same string. */
  lemma {:induction false} EncodeIsInjective(s: string, t: string)
    requires Encode(s) == Encode(t)
    ensures s == t
  {
    if s != [] && t != [] {
      ScalarIsPrefixFree(s[0], t[0], Encode(s[1..]), Encode(t[1..]));
      EncodeIsInjective(s[1..], t[1..]);
      assert s == [s[0]] + s[1..] && t == [t[0]] + t[1..];
    }
  }
}
