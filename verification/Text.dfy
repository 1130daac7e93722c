/**
 Strings as the server uses them: the order of Go's string comparison, splitting and
 joining at a separator, and leftmost search.  A string is a sequence of Unicode scalar
 values; UTF-8 keeps their order, so comparing scalar by scalar is comparing byte by byte.
 */
module Text {
  import opened Wrappers

  // ----- order

  predicate Less(a: string, b: string) {
    b != [] && (a == [] || a[0] < b[0] || (a[0] == b[0] && Less(a[1..], b[1..])))
  }

  lemma {:induction false} LessIsAsymmetric(a: string, b: string)
    requires Less(a, b)
    ensures a != b && !Less(b, a)
  {
    if a != [] && a[0] == b[0] {
      LessIsAsymmetric(a[1..], b[1..]);
    }
  }

  lemma {:induction false} LessIsTotal(a: string, b: string)
    ensures Less(a, b) || a == b || Less(b, a)
  {
    if a != [] && b != [] && a[0] == b[0] {
      LessIsTotal(a[1..], b[1..]);
      assert a == [a[0]] + a[1..] && b == [b[0]] + b[1..];
    }
  }

  lemma {:induction false} LessIsTransitive(a: string, b: string, c: string)
    requires Less(a, b) && Less(b, c)
    ensures Less(a, c)
  {
    if a != [] && a[0] == b[0] == c[0] {
      LessIsTransitive(a[1..], b[1..], c[1..]);
    }
  }

  // ----- prefixes, suffixes and search

  predicate HasPrefix(s: string, prefix: string) {
    |prefix| <= |s| && s[..|prefix|] == prefix
  }

  predicate HasSuffix(s: string, suffix: string) {
    |suffix| <= |s| && s[|s| - |suffix|..] == suffix
  }

  predicate OccursAt(s: string, part: string, i: nat) {
    i + |part| <= |s| && s[i..i + |part|] == part
  }

  /** The first position at which `part` occurs in `s`. */
  function Index(s: string, part: string): (r: Option<nat>)
    ensures r.Some? ==> OccursAt(s, part, r.value)
    ensures r.Some? ==> forall i: nat | i < r.value :: !OccursAt(s, part, i)
    ensures r.None? ==> forall i: nat :: !OccursAt(s, part, i)
  {
    IndexFrom(s, part, 0)
  }

  function IndexFrom(s: string, part: string, from: nat): (r: Option<nat>)
    requires forall i: nat | i < from :: !OccursAt(s, part, i)
    ensures r.Some? ==> OccursAt(s, part, r.value)
    ensures r.Some? ==> forall i: nat | i < r.value :: !OccursAt(s, part, i)
    ensures r.None? ==> forall i: nat :: !OccursAt(s, part, i)
    decreases |s| - from
  {
    if from + |part| > |s| then None
    else if OccursAt(s, part, from) then Some(from)
    else IndexFrom(s, part, from + 1)
  }

  // ----- splitting and joining

  /** Go's strings.Split at a one-character separator: never empty. */
  function Split(s: string, sep: char): (parts: seq<string>)
    ensures |parts| >= 1
    ensures forall i | 0 <= i < |parts| :: sep !in parts[i]
    ensures Join(parts, sep) == s
  {
    if s == [] then [""]
    else
      var rest := Split(s[1..], sep);
      if s[0] == sep then
        assert Join([""] + rest, sep) == [sep] + Join(rest, sep);
        [""] + rest
      else
        assert s == [s[0]] + s[1..];
        JoinExtendsHead([s[0]], rest, sep);
        [[s[0]] + rest[0]] + rest[1..]
  }

  function Join(parts: seq<string>, sep: char): string {
    if parts == [] then ""
    else if |parts| == 1 then parts[0]
    else parts[0] + [sep] + Join(parts[1..], sep)
  }

  lemma JoinExtendsHead(prefix: string, parts: seq<string>, sep: char)
    requires parts != []
    ensures Join([prefix + parts[0]] + parts[1..], sep) == prefix + Join(parts, sep)
  {
  }

  /** Splitting a joined list gives the list back, unless the list was empty or one of its
      entries held the separator. */
  lemma {:induction false} SplitOfJoin(parts: seq<string>, sep: char)
    ensures Split(Join(parts, sep), sep) == parts
       <==> parts != [] && forall i | 0 <= i < |parts| :: sep !in parts[i]
  {
    if parts != [] && forall i | 0 <= i < |parts| :: sep !in parts[i] {
      SplitOfCleanJoin(parts, sep);
    }
  }

  lemma {:induction false} SplitOfCleanJoin(parts: seq<string>, sep: char)
    requires parts != []
    requires forall i | 0 <= i < |parts| :: sep !in parts[i]
    ensures Split(Join(parts, sep), sep) == parts
    decreases |parts|
  {
    if |parts| == 1 {
      SplitOfWord(parts[0], sep);
      assert parts == [parts[0]];
    } else {
      SplitOfCleanJoin(parts[1..], sep);
      SplitAfterWord(parts[0], Join(parts[1..], sep), sep);
      assert parts == [parts[0]] + parts[1..];
    }
  }

  lemma SplitOfWord(word: string, sep: char)
    requires sep !in word
    ensures Split(word, sep) == [word]
  {
  }

  lemma {:induction false} SplitAfterWord(word: string, rest: string, sep: char)
    requires sep !in word
    ensures Split(word + [sep] + rest, sep) == [word] + Split(rest, sep)
  {
    var s := word + [sep] + rest;
    if word == [] {
      assert s[1..] == rest;
    } else {
      SplitAfterWord(word[1..], rest, sep);
      assert s[1..] == word[1..] + [sep] + rest;
      var tail := [word[1..]] + Split(rest, sep);
      assert [s[0]] + tail[0] == word;
      assert tail[1..] == Split(rest, sep);
    }
  }
}
