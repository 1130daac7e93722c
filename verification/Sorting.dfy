/**
 What the server relies on when it calls the standard sorts: the result is in order and
 holds the same elements.  `before` is the strict comparison the caller supplies.
 */
module Sorting {

  /** `before` never holds both ways, and "not before" is transitive. */
  ghost predicate IsWeakOrder<T(!new)>(before: (T, T) -> bool) {
    && (forall a, b :: before(a, b) ==> !before(b, a))
    && (forall a, b, c :: !before(a, b) && !before(b, c) ==> !before(a, c))
  }

  /** A weak order that tells any two elements apart. */
  ghost predicate IsTotalOrder<T(!new)>(before: (T, T) -> bool) {
    IsWeakOrder(before) && forall a, b :: before(a, b) || a == b || before(b, a)
  }

  ghost predicate InOrder<T>(before: (T, T) -> bool, s: seq<T>) {
    forall i, j | 0 <= i < j < |s| :: !before(s[j], s[i])
  }

  ghost predicate IsSortOf<T>(before: (T, T) -> bool, input: seq<T>, output: seq<T>) {
    multiset(input) == multiset(output) && InOrder(before, output)
  }

  /** Stands for slices.SortFunc and sort.Strings; callers may rely on `IsSortOf` only. */
  method Sort<T(!new)>(input: seq<T>, before: (T, T) -> bool) returns (output: seq<T>)
    requires IsWeakOrder(before)
    ensures IsSortOf(before, input, output)
  {
    output := [];
    for i := 0 to |input|
      invariant multiset(output) == multiset(input[..i])
      invariant InOrder(before, output)
    {
      assert input[..i + 1] == input[..i] + [input[i]];
      output := Insert(input[i], output, before);
    }
    assert input[..|input|] == input;
  }

  method Insert<T(!new)>(x: T, s: seq<T>, before: (T, T) -> bool) returns (output: seq<T>)
    requires IsWeakOrder(before) && InOrder(before, s)
    ensures multiset(output) == multiset(s) + multiset{x}
    ensures InOrder(before, output)
  {
    var k := |s|;
    while k > 0 && before(x, s[k - 1])
      invariant 0 <= k <= |s|
      invariant forall j | k <= j < |s| :: before(x, s[j])
    {
      k := k - 1;
    }
    output := s[..k] + [x] + s[k..];
    InsertKeepsOrder(before, s, k, x);
    assert s == s[..k] + s[k..];
  }

  lemma InsertKeepsOrder<T(!new)>(before: (T, T) -> bool, s: seq<T>, k: nat, x: T)
    requires IsWeakOrder(before) && InOrder(before, s) && k <= |s|
    requires k == 0 || !before(x, s[k - 1])
    requires forall j | k <= j < |s| :: before(x, s[j])
    ensures InOrder(before, s[..k] + [x] + s[k..])
  {
  }

  lemma SortKeepsElements<T>(before: (T, T) -> bool, input: seq<T>, output: seq<T>)
    requires IsSortOf(before, input, output)
    ensures |input| == |output|
    ensures forall x :: x in input <==> x in output
  {
    assert |multiset(input)| == |input| && |multiset(output)| == |output|;
    forall x
      ensures x in input <==> x in output
    {
      assert x in input <==> x in multiset(input);
      assert x in output <==> x in multiset(output);
    }
  }

  // ----- sets listed in order

  ghost predicate Distinct<T>(s: seq<T>) {
    forall i, j | 0 <= i < j < |s| :: s[i] != s[j]
  }

  ghost predicate Lists<T(!new)>(before: (T, T) -> bool, keys: set<T>, s: seq<T>) {
    && (forall x :: x in s <==> x in keys)
    && (forall i, j | 0 <= i < j < |s| :: before(s[i], s[j]))
  }

  /** The elements of a finite set in increasing order. */
  ghost function InOrderOf<T(!new)>(before: (T, T) -> bool, keys: set<T>): (s: seq<T>)
    requires IsTotalOrder(before)
    ensures Lists(before, keys, s)
    decreases |keys|
  {
    if keys == {} then []
    else
      HasLeast(before, keys);
      var least :| least in keys && forall x | x in keys && x != least :: before(least, x);
      [least] + InOrderOf(before, keys - {least})
  }

  lemma BeforeIsTransitive<T(!new)>(before: (T, T) -> bool, a: T, b: T, c: T)
    requires IsWeakOrder(before) && before(a, b) && before(b, c)
    ensures before(a, c)
  {
  }

  lemma HasLeast<T(!new)>(before: (T, T) -> bool, keys: set<T>)
    requires IsTotalOrder(before) && keys != {}
    ensures exists least :: least in keys && forall x | x in keys && x != least :: before(least, x)
    decreases |keys|
  {
    var y :| y in keys;
    var rest := keys - {y};
    if rest != {} {
      HasLeast(before, rest);
      var least :| least in rest && forall x | x in rest && x != least :: before(least, x);
      var low := if before(y, least) then y else least;
      forall x | x in keys && x != low
        ensures before(low, x)
      {
        if x != y && x != least {
          if low == y {
            BeforeIsTransitive(before, y, least, x);
          }
        }
      }
      assert low in keys;
    } else {
      assert keys == {y};
    }
  }

  /** There is one way to list a set in order. */
  lemma {:induction false} ListingIsUnique<T(!new)>(before: (T, T) -> bool, keys: set<T>, s: seq<T>, t: seq<T>)
    requires IsTotalOrder(before)
    requires Lists(before, keys, s) && Lists(before, keys, t)
    ensures s == t
    decreases |s|
  {
    EmptyListing(before, keys, s);
    EmptyListing(before, keys, t);
    if keys != {} {
      FirstIsLeast(before, keys, s);
      FirstIsLeast(before, keys, t);
      assert s[0] == t[0];
      RestLists(before, keys, s);
      RestLists(before, keys, t);
      ListingIsUnique(before, keys - {s[0]}, s[1..], t[1..]);
      assert s == [s[0]] + s[1..] && t == [t[0]] + t[1..];
    }
  }

  lemma EmptyListing<T(!new)>(before: (T, T) -> bool, keys: set<T>, s: seq<T>)
    requires Lists(before, keys, s)
    ensures s == [] <==> keys == {}
  {
    if s != [] {
      assert s[0] in s;
    }
  }

  lemma FirstIsLeast<T(!new)>(before: (T, T) -> bool, keys: set<T>, s: seq<T>)
    requires IsTotalOrder(before) && Lists(before, keys, s) && s != []
    ensures s[0] in keys && forall x | x in keys && x != s[0] :: before(s[0], x)
  {
  }

  lemma RestLists<T(!new)>(before: (T, T) -> bool, keys: set<T>, s: seq<T>)
    requires IsTotalOrder(before) && Lists(before, keys, s) && s != []
    ensures Lists(before, keys - {s[0]}, s[1..])
  {
  }

  /** Sorting the distinct elements of a set lists the set in order. */
  lemma SortingASetListsIt<T(!new)>(before: (T, T) -> bool, keys: set<T>, input: seq<T>, output: seq<T>)
    requires IsTotalOrder(before)
    requires IsSortOf(before, input, output)
    requires Distinct(input) && forall x :: x in input <==> x in keys
    ensures Lists(before, keys, output) && output == InOrderOf(before, keys)
  {
    SortKeepsElements(before, input, output);
    SortingKeepsDistinct(before, input, output);
    ListingIsUnique(before, keys, output, InOrderOf(before, keys));
  }

  lemma SortingKeepsDistinct<T>(before: (T, T) -> bool, input: seq<T>, output: seq<T>)
    requires IsSortOf(before, input, output) && Distinct(input)
    ensures Distinct(output)
  {
    SortKeepsElements(before, input, output);
    DistinctHasMultiplicityOne(input);
    forall i, j | 0 <= i < j < |output|
      ensures output[i] != output[j]
    {
      assert output[i] in input;
      if output[i] == output[j] {
        RepeatHasMultiplicityTwo(output, i, j);
        assert false;
      }
    }
  }

  /** A run of distinct elements is a set of its length. */
  lemma {:induction false} DistinctCounts<T>(s: seq<T>)
    requires Distinct(s)
    ensures |set x | x in s| == |s|
  {
    var all := set x | x in s;
    if s == [] {
      assert all == {};
    } else {
      var front, last := s[..|s| - 1], s[|s| - 1];
      DistinctCounts(front);
      assert s == front + [last];
      assert all == (set x | x in front) + {last};
    }
  }

  lemma DistinctHasMultiplicityOne<T>(s: seq<T>)
    requires Distinct(s)
    ensures forall x | x in s :: multiset(s)[x] == 1
  {
    if s != [] {
      var front, last := s[..|s| - 1], s[|s| - 1];
      assert s == front + [last];
      DistinctHasMultiplicityOne(front);
      assert last !in front;
      assert last !in multiset(front);
    }
  }

  lemma RepeatHasMultiplicityTwo<T>(s: seq<T>, i: nat, j: nat)
    requires i < j < |s| && s[i] == s[j]
    ensures multiset(s)[s[i]] >= 2
  {
    assert s == s[..j] + s[j..];
    assert s[..j][i] == s[i];
    assert s[i] in s[..j] && s[i] in s[j..];
    assert s[j..][0] == s[i];
    assert s[i] in multiset(s[..j]) && s[i] in multiset(s[j..]);
    assert multiset(s) == multiset(s[..j]) + multiset(s[j..]);
  }
}
