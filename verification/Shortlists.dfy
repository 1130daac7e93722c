/** Exactly when the shortlist of edits is long enough. */
module Shortlists {
  import opened Wrappers
  import opened JsonValues
  import opened Events
  import opened Visibility
  import opened Aggregation
  import Sorting
  import Text
  import Utf8

  // ----- how many edits stand before the best one

  ghost predicate IdsDistinct(refs: seq<RelationRef>) {
    forall i, j | 0 <= i < j < |refs| :: refs[i].eventId != refs[j].eventId
  }

  /** The edits a shortlist takes before this one. */
  ghost function Newer(edits: seq<RelationRef>, ref: RelationRef): set<RelationRef> {
    set other | other in edits && RecentFirst(other, ref)
  }

  lemma DifferentIdsCompare(a: RelationRef, b: RelationRef)
    requires a.eventId != b.eventId
    ensures RecentFirst(a, b) <==> !RecentFirst(b, a)
  {
    Text.LessIsTotal(a.eventId, b.eventId);
    RecentFirstIsAnOrder(a, b, a);
  }

  lemma SortKeepsIdsDistinct(edits: seq<RelationRef>, sorted: seq<RelationRef>)
    requires Sorting.IsSortOf(RecentFirst, edits, sorted) && IdsDistinct(edits)
    ensures IdsDistinct(sorted) && Sorting.Distinct(sorted)
  {
    Sorting.SortKeepsElements(RecentFirst, edits, sorted);
    Sorting.SortingKeepsDistinct(RecentFirst, edits, sorted);
    forall i, j | 0 <= i < j < |sorted|
      ensures sorted[i].eventId != sorted[j].eventId
    {
      assert sorted[i] in edits && sorted[j] in edits;
    }
  }

  /** In the sorted list as many edits come before one as are newer than it. */
  lemma NewerComeFirst(edits: seq<RelationRef>, sorted: seq<RelationRef>, k: nat)
    requires Sorting.IsSortOf(RecentFirst, edits, sorted) && IdsDistinct(edits) && k < |sorted|
    ensures |Newer(edits, sorted[k])| == k
    ensures forall i | 0 <= i < |sorted| :: RecentFirst(sorted[i], sorted[k]) <==> i < k
  {
    Sorting.SortKeepsElements(RecentFirst, edits, sorted);
    SortKeepsIdsDistinct(edits, sorted);
    forall i | 0 <= i < |sorted|
      ensures RecentFirst(sorted[i], sorted[k]) <==> i < k
    {
      if i == k {
        RecentFirstIsAnOrder(sorted[k], sorted[k], sorted[k]);
      } else {
        DifferentIdsCompare(sorted[i], sorted[k]);
      }
    }
    Sorting.DistinctCounts(sorted[..k]);
    assert Newer(edits, sorted[k]) == set ref | ref in sorted[..k];
  }

  // ----- the exact condition

  /** A most recent edit among those a rule admits. */
  ghost predicate IsBest(edits: seq<RelationRef>, valid: RelationRef -> bool, best: RelationRef) {
    best in edits && valid(best) && forall other | other in edits && valid(other) :: !RecentFirst(other, best)
  }

  /** The shortlist holds an admitted edit exactly when fewer edits than it has places are newer
      than the best of them. */
  lemma ShortlistReachesTheBest(edits: seq<RelationRef>, shortlist: seq<RelationRef>, valid: RelationRef -> bool,
                                best: RelationRef)
    requires IsShortlist(edits, shortlist) && IdsDistinct(edits) && IsBest(edits, valid, best)
    ensures (exists ref :: ref in shortlist && valid(ref)) <==> |Newer(edits, best)| < 10
    ensures best in shortlist <==> |Newer(edits, best)| < 10
  {
    var sorted :| Sorting.IsSortOf(RecentFirst, edits, sorted) && shortlist == First(sorted, MAX_REPLACE_CANDIDATES);
    Sorting.SortKeepsElements(RecentFirst, edits, sorted);
    SortKeepsIdsDistinct(edits, sorted);
    var k :| 0 <= k < |sorted| && sorted[k] == best;
    NewerComeFirst(edits, sorted, k);
    if ref :| ref in shortlist && valid(ref) {
      var i :| 0 <= i < |shortlist| && shortlist[i] == ref;
      assert sorted[i] == ref && ref in edits;
    }
    if k < MAX_REPLACE_CANDIDATES {
      assert shortlist[k] == best;
    }
  }

  lemma {:induction false} FirstAdmitted(s: seq<RelationRef>, valid: RelationRef -> bool) returns (i: nat)
    requires exists ref :: ref in s && valid(ref)
    ensures i < |s| && valid(s[i]) && forall j | 0 <= j < i :: !valid(s[j])
  {
    if valid(s[0]) {
      i := 0;
    } else {
      i := FirstAdmitted(s[1..], valid);
      i := i + 1;
    }
  }

  lemma SomeEditIsBest(edits: seq<RelationRef>, shortlist: seq<RelationRef>, valid: RelationRef -> bool)
    returns (best: RelationRef)
    requires IsShortlist(edits, shortlist) && exists ref :: ref in edits && valid(ref)
    ensures IsBest(edits, valid, best)
  {
    var sorted :| Sorting.IsSortOf(RecentFirst, edits, sorted) && shortlist == First(sorted, MAX_REPLACE_CANDIDATES);
    Sorting.SortKeepsElements(RecentFirst, edits, sorted);
    var i := FirstAdmitted(sorted, valid);
    best := sorted[i];
    forall other | other in edits && valid(other)
      ensures !RecentFirst(other, best)
    {
      var j :| 0 <= j < |sorted| && sorted[j] == other;
      RecentFirstIsAnOrder(other, other, other);
    }
  }

  lemma ShortlistSufficesExactly(edits: seq<RelationRef>, shortlist: seq<RelationRef>, valid: RelationRef -> bool)
    requires IsShortlist(edits, shortlist) && IdsDistinct(edits)
    ensures ((exists ref :: ref in shortlist && valid(ref)) <==> (exists ref :: ref in edits && valid(ref))) <==>
              forall best | IsBest(edits, valid, best) :: |Newer(edits, best)| < 10
  {
    ShortlistIsFromEdits(edits, shortlist);
    forall best | IsBest(edits, valid, best)
      ensures (exists ref :: ref in shortlist && valid(ref)) <==> |Newer(edits, best)| < 10
    {
      ShortlistReachesTheBest(edits, shortlist, valid, best);
    }
    if exists ref :: ref in edits && valid(ref) {
      var best := SomeEditIsBest(edits, shortlist, valid);
    }
  }

  // ----- the two stages

  function IsValidRef(parent: Event, store: map<int, StoredEvent>): RelationRef -> bool {
    (ref: RelationRef) => ref.childNid in store && ValidReplacement(parent, store[ref.childNid].event)
  }

  lemma {:induction false} SelectKeepsIdsDistinct(refs: seq<RelationRef>, keep: RelationRef -> bool)
    requires IdsDistinct(refs)
    ensures IdsDistinct(Select(refs, keep))
    decreases |refs|
  {
    if refs != [] {
      SelectKeepsIdsDistinct(refs[1..], keep);
      SelectKeeps(refs[1..], keep);
      forall ref | ref in Select(refs[1..], keep)
        ensures ref.eventId != refs[0].eventId
      {
        var i :| 0 <= i < |refs| - 1 && refs[1..][i] == ref;
      }
    }
  }

  /** The choice from the shortlist and the direct choice agree on whether there is anything to
      show exactly when the most recent valid edit, if any, has fewer same-sender edits before it
      than the shortlist has places.  Then they agree on what to show. */
  lemma TwoStagesAgreeExactly(parent: StoredEvent, caller: string, refs: seq<RelationRef>, plan: BundlePlan,
                              store: map<int, StoredEvent>, listed: seq<StoredEvent>, all: seq<StoredEvent>)
    requires IsPlanOf(plan, parent, caller, refs) && !parent.disposition.Redacted?
    requires RefsDescribeEvents(refs, store) && IdsDistinct(refs)
    requires Fetches(listed, plan.replacements, store)
    requires Fetches(all, Nids(Select(refs, HasType(REL_REPLACE))), store)
    ensures var edits, valid := Select(refs, IsEditBy(parent.event.Sender())), IsValidRef(parent.event, store);
            (NoneValid(parent.event, listed) <==> NoneValid(parent.event, all)) <==>
              forall best | IsBest(edits, valid, best) :: |Newer(edits, best)| < 10
    ensures forall chosen ::
              IsMostRecentValid(parent.event, listed, chosen) ==> IsMostRecentValid(parent.event, all, chosen)
  {
    var edits, valid := Select(refs, IsEditBy(parent.event.Sender())), IsValidRef(parent.event, store);
    var shortlist: seq<RelationRef> :| IsShortlist(edits, shortlist) && plan.replacements == Nids(shortlist);
    TwoStagesRefineTheDirectChoice(parent, caller, refs, plan, store, listed, all);
    SelectKeepsIdsDistinct(refs, IsEditBy(parent.event.Sender()));
    ValidListedAreRefs(parent.event, shortlist, store, listed);
    ValidAllAreEdits(parent.event, refs, store, all);
    ShortlistSufficesExactly(edits, shortlist, valid);
  }

  lemma ValidListedAreRefs(parent: Event, shortlist: seq<RelationRef>, store: map<int, StoredEvent>,
                           listed: seq<StoredEvent>)
    requires Fetches(listed, Nids(shortlist), store)
    ensures NoneValid(parent, listed) <==> !exists ref :: ref in shortlist && IsValidRef(parent, store)(ref)
  {
    FetchedFor(listed, shortlist, store);
  }

  lemma ValidAllAreEdits(parent: Event, refs: seq<RelationRef>, store: map<int, StoredEvent>, all: seq<StoredEvent>)
    requires RefsDescribeEvents(refs, store) && Fetches(all, Nids(Select(refs, HasType(REL_REPLACE))), store)
    ensures NoneValid(parent, all) <==>
              !exists ref :: ref in Select(refs, IsEditBy(parent.Sender())) && IsValidRef(parent, store)(ref)
  {
    var direct := Select(refs, HasType(REL_REPLACE));
    SelectKeeps(refs, HasType(REL_REPLACE));
    SelectKeeps(refs, IsEditBy(parent.Sender()));
    FetchedFor(all, direct, store);
    if !NoneValid(parent, all) {
      var c :| c in all && ValidReplacement(parent, c.event);
      var ref :| ref in direct && ref.childNid in store && store[ref.childNid] == c;
      ValidEditsAreTheSendersOwn(parent, refs, store, ref);
      assert IsValidRef(parent, store)(ref);
    }
  }

  // ----- edits that hide a valid one

  const AUTHOR := "@a:x"

  const EDITED := Event(map["sender" := String(AUTHOR), "type" := String("m"), "room_id" := String("!r")], "$p")

  const RELATES_TO_EDITED := Object(map["rel_type" := String(REL_REPLACE), "event_id" := String("$p")])

  function EditContent(i: nat): Fields {
    map["m.relates_to" := RELATES_TO_EDITED] + (if i == 1 then map["m.new_content" := Object(map[])] else map[])
  }

  /** The i-th edit of the message; only the first brings new content. */
  function Edit(i: nat): Event {
    Event(map["sender" := String(AUTHOR), "type" := String("m"), "room_id" := String("!r"),
              "origin_server_ts" := Number(i), "content" := Object(EditContent(i))],
          EditId(i))
  }

  function EditId(i: nat): (id: string)
    ensures |id| == i + 1
  {
    "$" + seq(i, k => '0')
  }

  function EditRef(i: nat): RelationRef {
    RelationRef(i, EditId(i), REL_REPLACE, AUTHOR, i, Position(i, i))
  }

  /** What the index holds of the first n + 1 edits, newest first. */
  function EditRefs(n: nat): seq<RelationRef> {
    seq(n + 1, k requires 0 <= k <= n => EditRef(n + 1 - k))
  }

  lemma EditFields(i: nat)
    ensures var e := Edit(i);
            && e.Sender() == AUTHOR && e.Type() == "m" && e.RoomId() == "!r" && !e.IsState()
            && e.OriginServerTs() == i && e.Content() == EditContent(i)
  {
    var fields := Edit(i).fields;
    assert fields["sender"] == String(AUTHOR) && fields["type"] == String("m") && fields["room_id"] == String("!r");
    assert fields["origin_server_ts"] == Number(i) && fields["content"] == Object(EditContent(i));
  }

  /** The server indexes every one of the edits. */
  lemma EditsAreIndexed(i: nat)
    ensures !Edit(i).IsState() && ParseRelation(Edit(i).Content()) == Some(Relation(EDITED.id, REL_REPLACE, ""))
    ensures Copies(EditRef(i), Edit(i))
  {
    EditFields(i);
    Utf8.SizeIsBounded(REL_REPLACE);
    Utf8.SizeIsBounded("$p");
    RelationReads(EditContent(i));
  }

  lemma RelationReads(content: Fields)
    requires "m.relates_to" in content && content["m.relates_to"] == RELATES_TO_EDITED
    requires Utf8.Size(REL_REPLACE) <= 255 && Utf8.Size("$p") <= 255
    ensures ParseRelation(content) == Some(Relation("$p", REL_REPLACE, ""))
  {
    var relates := RELATES_TO_EDITED.fields;
    assert relates["rel_type"] == String(REL_REPLACE) && relates["event_id"] == String("$p") && "key" !in relates;
  }

  lemma OnlyTheFirstEditIsValid(i: nat)
    ensures ValidReplacement(EDITED, Edit(i)) <==> i == 1
  {
    EditFields(i);
    assert EDITED.fields["sender"] == String(AUTHOR) && EDITED.fields["type"] == String("m");
    assert EDITED.fields["room_id"] == String("!r") && ParseRelation(EDITED.Content()).None?;
  }

  lemma EditRefsAreInOrder(n: nat)
    ensures IdsDistinct(EditRefs(n)) && IsShortlist(EditRefs(n), First(EditRefs(n), MAX_REPLACE_CANDIDATES))
    ensures Select(EditRefs(n), IsEditBy(AUTHOR)) == EditRefs(n)
  {
    var refs := EditRefs(n);
    forall i, j | 0 <= i < j < |refs|
      ensures refs[i].eventId != refs[j].eventId && !RecentFirst(refs[j], refs[i])
    {
      assert refs[i] == EditRef(n + 1 - i) && refs[j] == EditRef(n + 1 - j);
    }
    assert Sorting.IsSortOf(RecentFirst, refs, refs);
    forall ref | ref in refs
      ensures IsEditBy(AUTHOR)(ref)
    {
      var i :| 0 <= i < |refs| && refs[i] == ref;
      assert ref == EditRef(n + 1 - i);
    }
    SelectAll(refs, IsEditBy(AUTHOR));
  }

  /** However many of an author's edits are invalid, a valid older one is on the shortlist
      exactly while they are fewer than its places. */
  lemma InvalidEditsCanHideTheValidOne(n: nat)
    ensures var refs, shortlist := EditRefs(n), First(EditRefs(n), MAX_REPLACE_CANDIDATES);
            && IdsDistinct(refs) && IsShortlist(Select(refs, IsEditBy(AUTHOR)), shortlist)
            && (forall ref | ref in refs :: ref.childNid >= 1 && ref == EditRef(ref.childNid))
            && EditRef(1) in refs && (forall i :: ValidReplacement(EDITED, Edit(i)) <==> i == 1)
            && (EditRef(1) in shortlist <==> n < 10)
  {
    EditRefsAreInOrder(n);
    forall i: nat
      ensures ValidReplacement(EDITED, Edit(i)) <==> i == 1
    {
      OnlyTheFirstEditIsValid(i);
    }
    TheFirstEditComesLast(n);
  }

  lemma TheFirstEditComesLast(n: nat)
    ensures forall ref | ref in EditRefs(n) :: ref.childNid >= 1 && ref == EditRef(ref.childNid)
    ensures EditRef(1) in EditRefs(n)
    ensures EditRef(1) in First(EditRefs(n), MAX_REPLACE_CANDIDATES) <==> n < MAX_REPLACE_CANDIDATES
  {
    var refs, shortlist := EditRefs(n), First(EditRefs(n), MAX_REPLACE_CANDIDATES);
    forall ref | ref in refs
      ensures ref.childNid >= 1 && ref == EditRef(ref.childNid)
    {
      var k :| 0 <= k < |refs| && refs[k] == ref;
      assert ref == EditRef(n + 1 - k);
    }
    assert refs[n] == EditRef(1);
    if n < MAX_REPLACE_CANDIDATES {
      assert shortlist[n] == EditRef(1);
    } else {
      forall k | 0 <= k < |shortlist|
        ensures shortlist[k] != EditRef(1)
      {
        assert shortlist[k] == refs[k] == EditRef(n + 1 - k);
      }
    }
  }

  lemma {:induction false} SelectAll(refs: seq<RelationRef>, keep: RelationRef -> bool)
    requires forall ref | ref in refs :: keep(ref)
    ensures Select(refs, keep) == refs
    decreases |refs|
  {
    if refs != [] {
      assert refs == [refs[0]] + refs[1..];
      SelectAll(refs[1..], keep);
    }
  }
}
