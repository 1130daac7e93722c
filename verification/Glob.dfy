/** Event type patterns: '*' stands for any substring, every other character for itself. */
module Glob {
  import Text

  const STAR := '*'

  // ----- what a pattern means

  function Stars(pattern: string): nat {
    if pattern == "" then 0 else (if pattern[0] == STAR then 1 else 0) + Stars(pattern[1..])
  }

  /** The pattern with its stars replaced, in order. */
  function Substitute(pattern: string, fills: seq<string>): string
    requires |fills| == Stars(pattern)
  {
    if pattern == "" then ""
    else if pattern[0] == STAR then fills[0] + Substitute(pattern[1..], fills[1..])
    else [pattern[0]] + Substitute(pattern[1..], fills)
  }

  ghost predicate Fits(pattern: string, fills: seq<string>, value: string) {
    |fills| == Stars(pattern) && Substitute(pattern, fills) == value
  }

  /** Some choice of a substring for each star turns the pattern into the value. */
  ghost predicate Matches(pattern: string, value: string) {
    exists fills :: Fits(pattern, fills, value)
  }

  // ----- patterns as the parts between stars

  /** Each fill followed by its part. */
  function Weave(fills: seq<string>, parts: seq<string>): string
    requires |fills| == |parts|
  {
    if parts == [] then "" else fills[0] + parts[0] + Weave(fills[1..], parts[1..])
  }

  ghost predicate FitsParts(fills: seq<string>, parts: seq<string>, value: string) {
    |fills| == |parts| && Weave(fills, parts) == value
  }

  ghost predicate MatchesParts(parts: seq<string>, value: string) {
    exists fills :: FitsParts(fills, parts, value)
  }

  lemma {:induction false} SubstituteIsWeave(pattern: string, fills: seq<string>)
    requires |fills| == Stars(pattern)
    ensures var parts := Text.Split(pattern, STAR);
            |parts| == |fills| + 1 && Substitute(pattern, fills) == parts[0] + Weave(fills, parts[1..])
  {
    var parts := Text.Split(pattern, STAR);
    if pattern == "" {
      assert parts[1..] == [];
    } else if pattern[0] == STAR {
      SubstituteIsWeave(pattern[1..], fills[1..]);
      var rest := Text.Split(pattern[1..], STAR);
      assert parts[1..] == rest;
      assert fills[0] + (rest[0] + Weave(fills[1..], rest[1..])) == fills[0] + rest[0] + Weave(fills[1..], rest[1..]);
    } else {
      SubstituteIsWeave(pattern[1..], fills);
      var rest := Text.Split(pattern[1..], STAR);
      assert parts[1..] == rest[1..];
    }
  }

  lemma {:induction false} SplitCountsStars(pattern: string)
    ensures |Text.Split(pattern, STAR)| == Stars(pattern) + 1
  {
    if pattern != "" {
      SplitCountsStars(pattern[1..]);
    }
  }

  /** A pattern matches when its first part is a prefix and the rest of the value can be woven
      from the other parts. */
  lemma MatchesByParts(pattern: string, value: string)
    ensures var parts := Text.Split(pattern, STAR);
            Matches(pattern, value) <==>
            Text.HasPrefix(value, parts[0]) && MatchesParts(parts[1..], value[|parts[0]|..])
  {
    var parts := Text.Split(pattern, STAR);
    SplitCountsStars(pattern);
    if Matches(pattern, value) {
      var fills :| Fits(pattern, fills, value);
      SubstituteIsWeave(pattern, fills);
      assert value[|parts[0]|..] == Weave(fills, parts[1..]);
      assert FitsParts(fills, parts[1..], value[|parts[0]|..]);
    }
    if Text.HasPrefix(value, parts[0]) && MatchesParts(parts[1..], value[|parts[0]|..]) {
      var fills :| FitsParts(fills, parts[1..], value[|parts[0]|..]);
      SubstituteIsWeave(pattern, fills);
      assert value == parts[0] + value[|parts[0]|..];
      assert Fits(pattern, fills, value);
    }
  }

  // ----- the greedy scan

  /** More text in front never hurts: the first fill takes it. */
  lemma FrontIsAbsorbed(front: string, parts: seq<string>, value: string)
    requires parts != [] && MatchesParts(parts, value)
    ensures MatchesParts(parts, front + value)
  {
    var fills :| FitsParts(fills, parts, value);
    var longer := [front + fills[0]] + fills[1..];
    assert longer[1..] == fills[1..];
    assert front + (fills[0] + parts[0] + Weave(fills[1..], parts[1..]))
        == front + fills[0] + parts[0] + Weave(fills[1..], parts[1..]);
    assert FitsParts(longer, parts, front + value);
  }

  lemma LastPartIsASuffix(last: string, value: string)
    ensures MatchesParts([last], value) <==> Text.HasSuffix(value, last)
  {
    if MatchesParts([last], value) {
      var fills :| FitsParts(fills, [last], value);
      assert Weave(fills[1..], [last][1..]) == "";
      assert value == fills[0] + last;
    }
    if Text.HasSuffix(value, last) {
      var fills := [value[..|value| - |last|]];
      assert [last][1..] == [] && fills[1..] == [];
      assert FitsParts(fills, [last], value);
    }
  }

  /** Taking the leftmost occurrence of the next part loses no match. */
  lemma LeftmostIsEnough(parts: seq<string>, value: string)
    requires |parts| >= 2
    ensures var at := Text.Index(value, parts[0]);
            MatchesParts(parts, value) <==> at.Some? && MatchesParts(parts[1..], value[at.value + |parts[0]|..])
  {
    var part, at := parts[0], Text.Index(value, parts[0]);
    if MatchesParts(parts, value) {
      var fills :| FitsParts(fills, parts, value);
      LeftmostLosesNothing(part, parts[1..], fills[0], Weave(fills[1..], parts[1..]), value);
      assert FitsParts(fills[1..], parts[1..], Weave(fills[1..], parts[1..]));
    }
    if at.Some? && MatchesParts(parts[1..], value[at.value + |part|..]) {
      var rest := value[at.value + |part|..];
      assert value == value[..at.value] + part + rest;
      PuttingAPartBack(parts, value[..at.value], rest, value);
    }
  }

  lemma LeftmostLosesNothing(part: string, others: seq<string>, fill: string, rest: string, value: string)
    requires value == fill + part + rest && others != []
    ensures var at := Text.Index(value, part);
            at.Some? && (MatchesParts(others, rest) ==> MatchesParts(others, value[at.value + |part|..]))
  {
    assert Text.OccursAt(value, part, |fill|);
    var end := Text.Index(value, part).value + |part|;
    assert value[end..] == value[end..|fill| + |part|] + rest;
    if MatchesParts(others, rest) {
      FrontIsAbsorbed(value[end..|fill| + |part|], others, rest);
    }
  }

  lemma PuttingAPartBack(parts: seq<string>, fill: string, rest: string, value: string)
    requires parts != [] && value == fill + parts[0] + rest && MatchesParts(parts[1..], rest)
    ensures MatchesParts(parts, value)
  {
    var fills :| FitsParts(fills, parts[1..], rest);
    var all := [fill] + fills;
    assert all[1..] == fills;
    assert FitsParts(all, parts, value);
  }

  /** A pattern without an asterisk matches itself only, and splits at its first one: what comes
      before it must begin the value, and what comes after must match some rest of it. */
  lemma PatternsInWords(front: string, back: string, value: string)
    requires '*' !in front
    ensures Matches(front, value) <==> value == front
    ensures Matches(front + "*" + back, value) <==>
              exists k: nat :: |front| <= k <= |value| && value[..|front|] == front && Matches(back, value[k..])
  {
    PlainPatterns(front, value);
    var pattern := front + "*" + back;
    if Matches(pattern, value) {
      var fills :| Fits(pattern, fills, value);
      SubstituteFront(front, back, fills);
      var rest := Substitute(back, fills[1..]);
      var k := |front| + |fills[0]|;
      assert value[k..] == rest && Fits(back, fills[1..], value[k..]);
    }
    if k: nat :| |front| <= k <= |value| && value[..|front|] == front && Matches(back, value[k..]) {
      var fills :| Fits(back, fills, value[k..]);
      var all := [value[|front|..k]] + fills;
      SubstituteFront(front, back, all);
      assert all[1..] == fills;
      assert value == front + value[|front|..k] + value[k..];
      assert Fits(pattern, all, value);
    }
  }

  lemma {:induction false} PlainPatterns(front: string, value: string)
    requires '*' !in front
    ensures Stars(front) == 0 && Substitute(front, []) == front
    ensures Matches(front, value) <==> value == front
  {
    if front != "" {
      PlainPatterns(front[1..], if value == "" then "" else value[1..]);
    }
    assert Fits(front, [], front);
  }

  lemma {:induction false} SubstituteFront(front: string, back: string, fills: seq<string>)
    requires '*' !in front
    ensures Stars(front + "*" + back) == Stars(back) + 1
    ensures |fills| == Stars(back) + 1 ==>
              Substitute(front + "*" + back, fills) == front + fills[0] + Substitute(back, fills[1..])
  {
    var pattern := front + "*" + back;
    if front == "" {
      assert pattern[1..] == back;
    } else {
      SubstituteFront(front[1..], back, fills);
      assert pattern[1..] == front[1..] + "*" + back;
    }
  }

  method GlobMatches(pattern: string, value: string) returns (matched: bool)
    ensures matched == Matches(pattern, value)
  {
    var parts := Text.Split(pattern, STAR);
    MatchesByParts(pattern, value);
    if |parts| == 1 {
      OnlyTheEmptyStringFitsNoParts(value[if |pattern| <= |value| then |pattern| else 0..]);
      return pattern == value;
    }
    if !Text.HasPrefix(value, parts[0]) {
      return false;
    }
    var rest := value[|parts[0]|..];
    var last := parts[|parts| - 1];
    for k := 1 to |parts| - 1
      invariant Matches(pattern, value) <==> MatchesParts(parts[k..], rest)
    {
      LeftmostIsEnough(parts[k..], rest);
      assert parts[k..][0] == parts[k] && parts[k..][1..] == parts[k + 1..];
      var at := Text.Index(rest, parts[k]);
      if at.None? {
        return false;
      }
      rest := rest[at.value + |parts[k]|..];
    }
    assert parts[|parts| - 1..] == [last];
    LastPartIsASuffix(last, rest);
    return Text.HasSuffix(rest, last) && |rest| >= |last|;
  }

  lemma OnlyTheEmptyStringFitsNoParts(value: string)
    ensures MatchesParts([], value) <==> value == ""
  {
    if value == "" {
      assert FitsParts([], [], value);
    }
  }

  method MatchesAny(patterns: seq<string>, value: string) returns (matched: bool)
    ensures matched <==> exists i | 0 <= i < |patterns| :: Matches(patterns[i], value)
  {
    for i := 0 to |patterns|
      invariant forall k | 0 <= k < i :: !Matches(patterns[k], value)
    {
      var hit := GlobMatches(patterns[i], value);
      if hit {
        return true;
      }
    }
    return false;
  }
}
