/** The order strings are compared in is that of their bytes. */
module ByteOrder {
  import opened Utf8
  import Text

  /** The first comes before the second: it is a proper prefix of it, or has the smaller byte at
      the first place where they differ. */
  ghost predicate Precedes(s: seq<byte>, t: seq<byte>) {
    exists k :: DiffersAt(s, t, k)
  }

  ghost predicate DiffersAt(s: seq<byte>, t: seq<byte>, k: nat) {
    && k <= |s| && k < |t|
    && (forall i | 0 <= i < k :: s[i] == t[i])
    && (k == |s| || s[k] < t[k])
  }

  /** Nothing comes before itself, and of two different sequences one comes first. */
  lemma PrecedesIsAnOrder(s: seq<byte>, t: seq<byte>)
    ensures !(Precedes(s, t) && Precedes(t, s))
    ensures Precedes(s, t) || s == t || Precedes(t, s)
  {
    if Precedes(s, t) && Precedes(t, s) {
      var k: nat :| DiffersAt(s, t, k);
      var l: nat :| DiffersAt(t, s, l);
      OneDifferenceDecides(s, t, k, l);
    }
    if s != t {
      SomethingDiffers(s, t);
    }
  }

  lemma OneDifferenceDecides(s: seq<byte>, t: seq<byte>, k: nat, l: nat)
    requires DiffersAt(s, t, k)
    ensures !DiffersAt(t, s, l)
  {
  }

  lemma {:induction false} SomethingDiffers(s: seq<byte>, t: seq<byte>)
    requires s != t
    ensures Precedes(s, t) || Precedes(t, s)
  {
    if s == [] {
      assert DiffersAt(s, t, 0);
    } else if t == [] {
      assert DiffersAt(t, s, 0);
    } else if s[0] != t[0] {
      assert DiffersAt(s, t, 0) || DiffersAt(t, s, 0);
    } else {
      assert s == [s[0]] + s[1..] && t == [t[0]] + t[1..];
      SomethingDiffers(s[1..], t[1..]);
      if Precedes(s[1..], t[1..]) {
        AfterTheSame([s[0]], s[1..], t[1..]);
      } else {
        AfterTheSame([s[0]], t[1..], s[1..]);
      }
    }
  }

  lemma AfterTheSame(front: seq<byte>, s: seq<byte>, t: seq<byte>)
    requires Precedes(s, t)
    ensures Precedes(front + s, front + t)
  {
    var k: nat :| DiffersAt(s, t, k);
    var longerS, longerT := front + s, front + t;
    forall i | 0 <= i < |front| + k
      ensures longerS[i] == longerT[i]
    {
      assert i >= |front| ==> longerS[i] == s[i - |front|] && longerT[i] == t[i - |front|];
    }
    assert DiffersAt(longerS, longerT, |front| + k);
  }

  /** Of two scalars the smaller has a smaller byte where their encodings first differ. */
  lemma ScalarsInByteOrder(c: char, d: char) returns (k: nat)
    requires c < d
    ensures k < |EncodeScalar(c)| && k < |EncodeScalar(d)|
    ensures DiffersAt(EncodeScalar(c), EncodeScalar(d), k)
  {
    var s, t := EncodeScalar(c), EncodeScalar(d);
    ScalarsAreEncodedByTheTable(c);
    ScalarsAreEncodedByTheTable(d);
    if s[0] != t[0] {
      k := 0;
    } else if s[1] != t[1] {
      k := 1;
    } else if s[2] != t[2] {
      k := 2;
    } else {
      k := 3;
    }
  }

  lemma EarlierDifferenceDecides(s: seq<byte>, t: seq<byte>, k: nat, restS: seq<byte>, restT: seq<byte>)
    requires k < |s| && k < |t| && DiffersAt(s, t, k)
    ensures Precedes(s + restS, t + restT)
  {
    assert DiffersAt(s + restS, t + restT, k);
  }

  /** Comparing strings scalar by scalar is comparing their UTF-8 bytes. */
  lemma {:induction false} LessIsByteOrder(a: string, b: string)
    ensures Text.Less(a, b) <==> Precedes(Encode(a), Encode(b))
  {
    if Text.Less(a, b) {
      LessPrecedes(a, b);
    } else if a == b {
      PrecedesIsAnOrder(Encode(a), Encode(a));
    } else {
      Text.LessIsTotal(a, b);
      LessPrecedes(b, a);
      PrecedesIsAnOrder(Encode(a), Encode(b));
    }
  }

  lemma {:induction false} LessPrecedes(a: string, b: string)
    requires Text.Less(a, b)
    ensures Precedes(Encode(a), Encode(b))
  {
    if a == "" {
      assert |EncodeScalar(b[0])| >= 1;
      assert DiffersAt(Encode(a), Encode(b), 0);
    } else if a[0] == b[0] {
      LessPrecedes(a[1..], b[1..]);
      AfterTheSame(EncodeScalar(a[0]), Encode(a[1..]), Encode(b[1..]));
    } else {
      var k := ScalarsInByteOrder(a[0], b[0]);
      EarlierDifferenceDecides(EncodeScalar(a[0]), EncodeScalar(b[0]), k, Encode(a[1..]), Encode(b[1..]));
    }
  }
}
