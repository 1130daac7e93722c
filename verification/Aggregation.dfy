/** Choosing the edit to show: a shortlist planned from the relation index, then the choice
    among the shortlisted events. */
module Aggregation {
  import opened Wrappers
  import opened JsonValues
  import opened Events
  import opened Visibility
  import ByteOrder
  import Sorting
  import Text
  import Utf8

  const REL_REPLACE := "m.replace"
  const REL_THREAD := "m.thread"
  const REL_REFERENCE := "m.reference"

  const MAX_REPLACE_CANDIDATES := 10
  const MAX_REFERENCE_CHUNK := 50
  const MAX_RELATION_TYPE_BYTES := 255
  const MAX_AGGREGATION_KEY_BYTES := 255
  const MAX_EVENT_ID_BYTES := 255

  // ----- relations

  datatype Relation = Relation(parentId: string, relType: string, key: string)

  function ParseRelation(content: Fields): Option<Relation> {
    if "m.relates_to" !in content || !content["m.relates_to"].Object? then None
    else
      var relates := content["m.relates_to"].fields;
      var relType, parentId := StringIn(relates, "rel_type"), StringIn(relates, "event_id");
      var key := StringIn(relates, "key");
      if relType == "" || Utf8.Size(relType) > MAX_RELATION_TYPE_BYTES then None
      else if parentId == "" || Utf8.Size(parentId) > MAX_EVENT_ID_BYTES then None
      else if Utf8.Size(key) > MAX_AGGREGATION_KEY_BYTES then None
      else Some(Relation(parentId, relType, key))
  }

  predicate ValidReplacement(parent: Event, child: Event) {
    && parent.RoomId() == child.RoomId()
    && parent.Sender() == child.Sender()
    && parent.Type() == child.Type()
    && !parent.IsState() && !child.IsState()
    && !(ParseRelation(parent.Content()).Some? && ParseRelation(parent.Content()).value.relType == REL_REPLACE)
    && "m.new_content" in child.Content() && child.Content()["m.new_content"].Object?
  }

  predicate MoreRecent(a: Event, b: Event) {
    if a.OriginServerTs() != b.OriginServerTs() then a.OriginServerTs() > b.OriginServerTs()
    else Text.Less(b.id, a.id)
  }

  /** An event says it relates to another by an object naming the relation and the other event,
      none of whose texts is empty or over 255 bytes; the key may be empty. */
  lemma RelationsInWords(content: Fields, r: Relation)
    ensures ParseRelation(content) == Some(r) <==>
              && "m.relates_to" in content && content["m.relates_to"].Object?
              && var relates := content["m.relates_to"].fields;
              && r.relType == StringIn(relates, "rel_type") && r.parentId == StringIn(relates, "event_id")
              && r.key == StringIn(relates, "key")
              && r.relType != "" && r.parentId != ""
              && Utf8.Size(r.relType) <= 255 && Utf8.Size(r.parentId) <= 255 && Utf8.Size(r.key) <= 255
  {
  }

  /** An edit is by the author of the message, of the same type, in the same room; neither is a
      state event, the message is not itself an edit, and the edit brings new content. */
  lemma ReplacementsInWords(parent: Event, child: Event)
    ensures ValidReplacement(parent, child) <==>
              && StringIn(parent.fields, "room_id") == StringIn(child.fields, "room_id")
              && StringIn(parent.fields, "sender") == StringIn(child.fields, "sender")
              && StringIn(parent.fields, "type") == StringIn(child.fields, "type")
              && "state_key" !in parent.fields && "state_key" !in child.fields
              && "m.new_content" in child.Content() && child.Content()["m.new_content"].Object?
              && !exists r :: ParseRelation(parent.Content()) == Some(r) && r.relType == "m.replace"
  {
  }

  /** The more recent event has the greater timestamp or, at the same time, the id with the
      greater bytes. */
  lemma RecencyInWords(a: Event, b: Event)
    ensures MoreRecent(a, b) <==>
              || a.OriginServerTs() > b.OriginServerTs()
              || (a.OriginServerTs() == b.OriginServerTs() && ByteOrder.Precedes(Utf8.Encode(b.id), Utf8.Encode(a.id)))
  {
    ByteOrder.LessIsByteOrder(b.id, a.id);
  }

  lemma RecencyIsAnOrder(a: Event, b: Event, c: Event)
    ensures !(MoreRecent(a, b) && MoreRecent(b, a))
    ensures MoreRecent(a, b) && MoreRecent(b, c) ==> MoreRecent(a, c)
    ensures MoreRecent(a, b) || MoreRecent(b, a) || a.id == b.id
  {
    Text.LessIsTotal(a.id, b.id);
    if Text.Less(a.id, b.id) {
      Text.LessIsAsymmetric(a.id, b.id);
    }
    if Text.Less(b.id, a.id) && Text.Less(c.id, b.id) {
      Text.LessIsTransitive(c.id, b.id, a.id);
    }
  }

  // ----- the direct choice

  /** `best` is a valid replacement among the candidates and none of the others is more recent. */
  ghost predicate IsMostRecentValid(parent: Event, candidates: seq<StoredEvent>, best: StoredEvent) {
    && best in candidates && ValidReplacement(parent, best.event)
    && forall other | other in candidates && ValidReplacement(parent, other.event) ::
         !MoreRecent(other.event, best.event)
  }

  ghost predicate NoneValid(parent: Event, candidates: seq<StoredEvent>) {
    forall candidate | candidate in candidates :: !ValidReplacement(parent, candidate.event)
  }

  method ChooseReplacement(parent: Event, candidates: seq<StoredEvent>) returns (best: Option<StoredEvent>)
    ensures best.None? <==> NoneValid(parent, candidates)
    ensures best.Some? ==> IsMostRecentValid(parent, candidates, best.value)
  {
    best := None;
    for i := 0 to |candidates|
      invariant best.None? <==> NoneValid(parent, candidates[..i])
      invariant best.Some? ==> IsMostRecentValid(parent, candidates[..i], best.value)
    {
      assert candidates[..i + 1] == candidates[..i] + [candidates[i]];
      if !ValidReplacement(parent, candidates[i].event) {
        continue;
      }
      if best.None? || MoreRecent(candidates[i].event, best.value.event) {
        if best.Some? {
          TakingTheMoreRecent(parent, candidates[..i], best.value, candidates[i]);
        } else {
          RecencyIsAnOrder(candidates[i].event, candidates[i].event, candidates[i].event);
        }
        best := Some(candidates[i]);
      }
    }
    assert candidates[..|candidates|] == candidates;
  }

  lemma TakingTheMoreRecent(parent: Event, candidates: seq<StoredEvent>, best: StoredEvent, next: StoredEvent)
    requires IsMostRecentValid(parent, candidates, best)
    requires ValidReplacement(parent, next.event) && MoreRecent(next.event, best.event)
    ensures IsMostRecentValid(parent, candidates + [next], next)
  {
    forall other | other in candidates + [next] && ValidReplacement(parent, other.event)
      ensures !MoreRecent(other.event, next.event)
    {
      RecencyIsAnOrder(other.event, next.event, best.event);
    }
  }

  // ----- the plan

  datatype RelationRef = RelationRef(
    childNid: int,
    eventId: string,
    relType: string,
    sender: string,
    originServerTs: int,
    at: Position)

  datatype BundlePlan = BundlePlan(
    replacements: seq<int>,
    threadLatest: int,
    threadCount: nat,
    threadParticipated: bool,
    reference: seq<string>)

  /** compareRecency(b, a) < 0: the more recent reference comes first. */
  predicate RecentFirst(a: RelationRef, b: RelationRef) {
    if a.originServerTs != b.originServerTs then a.originServerTs > b.originServerTs
    else Text.Less(b.eventId, a.eventId)
  }

  predicate RefBefore(a: RelationRef, b: RelationRef) {
    a.at.Before(b.at)
  }

  lemma RefsHaveAnOrder()
    ensures Sorting.IsWeakOrder(RecentFirst) && Sorting.IsWeakOrder(RefBefore)
  {
    forall a, b, c
      ensures RecentFirst(a, b) ==> !RecentFirst(b, a)
      ensures !RecentFirst(a, b) && !RecentFirst(b, c) ==> !RecentFirst(a, c)
    {
      RecentFirstIsAnOrder(a, b, c);
    }
  }

  lemma RecentFirstIsAnOrder(a: RelationRef, b: RelationRef, c: RelationRef)
    ensures RecentFirst(a, b) ==> !RecentFirst(b, a)
    ensures !RecentFirst(a, b) && !RecentFirst(b, c) ==> !RecentFirst(a, c)
  {
    Text.LessIsTotal(a.eventId, b.eventId);
    Text.LessIsTotal(b.eventId, c.eventId);
    if Text.Less(b.eventId, a.eventId) {
      Text.LessIsAsymmetric(b.eventId, a.eventId);
    }
    if Text.Less(c.eventId, a.eventId) {
      Text.LessIsAsymmetric(c.eventId, a.eventId);
      if Text.Less(a.eventId, b.eventId) && Text.Less(b.eventId, c.eventId) {
        Text.LessIsTransitive(a.eventId, b.eventId, c.eventId);
      }
    }
  }

  /** The references a rule keeps, in the order they came. */
  function Select(refs: seq<RelationRef>, keep: RelationRef -> bool): seq<RelationRef> {
    if refs == [] then [] else (if keep(refs[0]) then [refs[0]] else []) + Select(refs[1..], keep)
  }

  function IsEditBy(sender: string): RelationRef -> bool {
    (ref: RelationRef) => ref.relType == REL_REPLACE && ref.sender == sender
  }

  function HasType(relType: string): RelationRef -> bool {
    (ref: RelationRef) => ref.relType == relType
  }

  function First<T>(s: seq<T>, limit: nat): seq<T> {
    s[..if |s| < limit then |s| else limit]
  }

  function Nids(refs: seq<RelationRef>): seq<int> {
    seq(|refs|, i requires 0 <= i < |refs| => refs[i].childNid)
  }

  function EventIds(refs: seq<RelationRef>): seq<string> {
    seq(|refs|, i requires 0 <= i < |refs| => refs[i].eventId)
  }

  ghost predicate IsShortlist(edits: seq<RelationRef>, shortlist: seq<RelationRef>) {
    exists sorted :: Sorting.IsSortOf(RecentFirst, edits, sorted) && shortlist == First(sorted, MAX_REPLACE_CANDIDATES)
  }

  /** The thread's latest reference: the earliest listed among those at the last position. */
  function Latest(threads: seq<RelationRef>, best: RelationRef): RelationRef {
    if threads == [] then best
    else Latest(threads[1..], if best.at.Before(threads[0].at) then threads[0] else best)
  }

  /** No reference in the thread is later than the one summed up as its latest. */
  lemma {:induction false} LatestIsLast(threads: seq<RelationRef>, best: RelationRef)
    ensures Latest(threads, best) == best || Latest(threads, best) in threads
    ensures !IsBelow(Latest(threads, best).at, best.at)
    ensures forall ref | ref in threads :: !IsBelow(Latest(threads, best).at, ref.at)
    decreases |threads|
  {
    if threads != [] {
      LatestIsLast(threads[1..], if best.at.Before(threads[0].at) then threads[0] else best);
      assert threads == [threads[0]] + threads[1..];
    }
  }

  /** What a plan holds for a parent and the references to it. */
  ghost predicate IsPlanOf(plan: BundlePlan, parent: StoredEvent, caller: string, refs: seq<RelationRef>) {
    var edits := Select(refs, IsEditBy(parent.event.Sender()));
    var threads := Select(refs, HasType("m.thread"));
    && (if parent.disposition.Redacted? then plan.replacements == []
        else exists shortlist :: IsShortlist(edits, shortlist) && plan.replacements == Nids(shortlist))
    && plan.threadCount == |threads|
    && (if threads == [] then plan.threadLatest == 0 && !plan.threadParticipated
        else
          && plan.threadLatest == Latest(threads, threads[0]).childNid
          && (plan.threadParticipated <==>
                parent.event.Sender() == caller || exists ref :: ref in threads && ref.sender == caller))
    && exists sorted :: Sorting.IsSortOf(RefBefore, Select(refs, HasType("m.reference")), sorted)
                     && plan.reference == EventIds(First(sorted, MAX_REFERENCE_CHUNK))
  }

  /** At most fifty are shown, in order of position, and none left out comes before one of them. */
  ghost predicate AreTheEarliest(shown: seq<RelationRef>, references: seq<RelationRef>) {
    && |shown| == (if |references| < 50 then |references| else 50)
    && (forall i, j | 0 <= i < j < |shown| :: !IsBelow(shown[j].at, shown[i].at))
    && (forall ref | ref in shown :: ref in references)
    && (forall ref, on | ref in references && on in shown && ref !in shown :: !IsBelow(ref.at, on.at))
  }

  lemma ReferencesAreTheEarliest(plan: BundlePlan, parent: StoredEvent, caller: string, refs: seq<RelationRef>)
    requires IsPlanOf(plan, parent, caller, refs)
    ensures exists shown ::
              AreTheEarliest(shown, Select(refs, HasType("m.reference"))) && plan.reference == EventIds(shown)
    ensures forall ref :: ref in Select(refs, HasType("m.reference")) <==> ref in refs && ref.relType == "m.reference"
  {
    var references := Select(refs, HasType(REL_REFERENCE));
    var sorted: seq<RelationRef> :| Sorting.IsSortOf(RefBefore, references, sorted)
               && plan.reference == EventIds(First(sorted, MAX_REFERENCE_CHUNK));
    SelectKeeps(refs, HasType(REL_REFERENCE));
    Sorting.SortKeepsElements(RefBefore, references, sorted);
    EarliestFirst(sorted, MAX_REFERENCE_CHUNK);
    assert AreTheEarliest(First(sorted, MAX_REFERENCE_CHUNK), references);
  }

  lemma EarliestFirst(sorted: seq<RelationRef>, limit: nat)
    requires Sorting.InOrder(RefBefore, sorted)
    ensures var shown := First(sorted, limit);
            && (forall i, j | 0 <= i < j < |shown| :: !IsBelow(shown[j].at, shown[i].at))
            && (forall ref, on | ref in sorted && on in shown && ref !in shown :: !IsBelow(ref.at, on.at))
  {
    var shown := First(sorted, limit);
    forall i, j | 0 <= i < j < |sorted|
      ensures !IsBelow(sorted[j].at, sorted[i].at)
    {
      assert !RefBefore(sorted[j], sorted[i]);
    }
    forall ref, on | ref in sorted && on in shown && ref !in shown
      ensures !IsBelow(ref.at, on.at)
    {
      var i :| 0 <= i < |shown| && shown[i] == on;
      var j :| 0 <= j < |sorted| && sorted[j] == ref;
      assert shown == sorted[..|shown|];
    }
  }

  lemma SelectOneMore(refs: seq<RelationRef>, i: nat, keep: RelationRef -> bool)
    requires i < |refs|
    ensures Select(refs[..i + 1], keep) == Select(refs[..i], keep) + (if keep(refs[i]) then [refs[i]] else [])
    decreases i
  {
    if i > 0 {
      SelectOneMore(refs[1..], i - 1, keep);
      assert refs[..i + 1][1..] == refs[1..][..i] && refs[..i][1..] == refs[1..][..i - 1];
    } else {
      assert refs[..1][1..] == [];
    }
  }

  method SortRefs(refs: seq<RelationRef>, parentSender: string)
    returns (edits: seq<RelationRef>, threads: seq<RelationRef>, references: seq<RelationRef>)
    ensures edits == Select(refs, IsEditBy(parentSender))
    ensures threads == Select(refs, HasType(REL_THREAD))
    ensures references == Select(refs, HasType(REL_REFERENCE))
  {
    edits, threads, references := [], [], [];
    for i := 0 to |refs|
      invariant edits == Select(refs[..i], IsEditBy(parentSender))
      invariant threads == Select(refs[..i], HasType(REL_THREAD))
      invariant references == Select(refs[..i], HasType(REL_REFERENCE))
    {
      SelectOneMore(refs, i, IsEditBy(parentSender));
      SelectOneMore(refs, i, HasType(REL_THREAD));
      SelectOneMore(refs, i, HasType(REL_REFERENCE));
      assert REL_REPLACE[2] == 'r' && REL_THREAD[2] == 't' && REL_REFERENCE[4] == 'f' && REL_REPLACE[4] == 'p';
      var ref := refs[i];
      if ref.relType == REL_REPLACE {
        if ref.sender == parentSender {
          edits := edits + [ref];
        }
      } else if ref.relType == REL_THREAD {
        threads := threads + [ref];
      } else if ref.relType == REL_REFERENCE {
        references := references + [ref];
      }
    }
    assert refs[..|refs|] == refs;
  }

  method PlanThread(threads: seq<RelationRef>, parentSender: string, caller: string)
    returns (latest: RelationRef, participated: bool)
    requires threads != []
    ensures latest == Latest(threads, threads[0])
    ensures participated <==> parentSender == caller || exists ref :: ref in threads && ref.sender == caller
  {
    latest, participated := threads[0], parentSender == caller;
    for i := 0 to |threads|
      invariant Latest(threads[i..], latest) == Latest(threads, threads[0])
      invariant participated <==> parentSender == caller || exists k | 0 <= k < i :: threads[k].sender == caller
    {
      assert threads[i..][0] == threads[i] && threads[i..][1..] == threads[i + 1..];
      if latest.at.Before(threads[i].at) {
        latest := threads[i];
      }
      if threads[i].sender == caller {
        participated := true;
      }
    }
    assert (exists ref :: ref in threads && ref.sender == caller)
        <==> exists k | 0 <= k < |threads| :: threads[k].sender == caller;
  }

  method PlanBundle(parent: StoredEvent, caller: string, refs: seq<RelationRef>) returns (plan: BundlePlan)
    ensures IsPlanOf(plan, parent, caller, refs)
  {
    var edits, threads, references := SortRefs(refs, parent.event.Sender());
    RefsHaveAnOrder();
    var replacements: seq<int> := [];
    if !parent.disposition.Redacted? {
      var sorted := Sorting.Sort(edits, RecentFirst);
      var shortlist := First(sorted, MAX_REPLACE_CANDIDATES);
      for i := 0 to |shortlist|
        invariant replacements == Nids(shortlist)[..i]
      {
        replacements := replacements + [shortlist[i].childNid];
      }
      assert IsShortlist(edits, shortlist) && replacements == Nids(shortlist);
    }
    var threadLatest, participated := 0, false;
    if threads != [] {
      var latest;
      latest, participated := PlanThread(threads, parent.event.Sender(), caller);
      threadLatest := latest.childNid;
    }
    var sorted := Sorting.Sort(references, RefBefore);
    var chunk := First(sorted, MAX_REFERENCE_CHUNK);
    var ids: seq<string> := [];
    for i := 0 to |chunk|
      invariant ids == EventIds(chunk)[..i]
    {
      ids := ids + [chunk[i].eventId];
    }
    assert ids == EventIds(chunk);
    return BundlePlan(replacements, threadLatest, |threads|, participated, ids);
  }

  // ----- the two stages against the direct choice

  /** The store holds an event for each reference, and the reference copies the event's sender,
      id and timestamp. */
  ghost predicate RefsDescribeEvents(refs: seq<RelationRef>, store: map<int, StoredEvent>) {
    forall ref | ref in refs :: ref.childNid in store && Copies(ref, store[ref.childNid].event)
  }

  ghost predicate Copies(ref: RelationRef, child: Event) {
    child.Sender() == ref.sender && child.id == ref.eventId && child.OriginServerTs() == ref.originServerTs
  }

  /** The candidates are the stored events behind the references, in any order. */
  ghost predicate Fetches(candidates: seq<StoredEvent>, nids: seq<int>, store: map<int, StoredEvent>) {
    && (forall i | 0 <= i < |nids| :: nids[i] in store)
    && (forall i | 0 <= i < |nids| :: store[nids[i]] in candidates)
    && (forall c | c in candidates :: exists i :: 0 <= i < |nids| && store[nids[i]] == c)
  }

  lemma {:induction false} SelectKeeps(refs: seq<RelationRef>, keep: RelationRef -> bool)
    ensures forall ref :: ref in Select(refs, keep) <==> ref in refs && keep(ref)
    decreases |refs|
  {
    if refs != [] {
      SelectKeeps(refs[1..], keep);
      assert refs == [refs[0]] + refs[1..];
    }
  }

  lemma FetchedFor(candidates: seq<StoredEvent>, refs: seq<RelationRef>, store: map<int, StoredEvent>)
    requires Fetches(candidates, Nids(refs), store)
    ensures forall ref | ref in refs :: ref.childNid in store && store[ref.childNid] in candidates
    ensures forall c | c in candidates :: exists ref :: ref in refs && ref.childNid in store && store[ref.childNid] == c
  {
    forall ref | ref in refs
      ensures ref.childNid in store && store[ref.childNid] in candidates
    {
      var i :| 0 <= i < |refs| && refs[i] == ref;
      assert Nids(refs)[i] == ref.childNid;
    }
    forall c | c in candidates
      ensures exists ref :: ref in refs && ref.childNid in store && store[ref.childNid] == c
    {
      var i :| 0 <= i < |Nids(refs)| && store[Nids(refs)[i]] == c;
      assert refs[i] in refs;
    }
  }

  lemma ShortlistIsFromEdits(edits: seq<RelationRef>, shortlist: seq<RelationRef>)
    requires IsShortlist(edits, shortlist)
    ensures forall ref | ref in shortlist :: ref in edits
    ensures |edits| <= MAX_REPLACE_CANDIDATES ==> forall ref | ref in edits :: ref in shortlist
    ensures forall on, off | on in shortlist && off in edits && off !in shortlist :: !RecentFirst(off, on)
  {
    var sorted :| Sorting.IsSortOf(RecentFirst, edits, sorted) && shortlist == First(sorted, MAX_REPLACE_CANDIDATES);
    Sorting.SortKeepsElements(RecentFirst, edits, sorted);
    forall ref | ref in shortlist
      ensures ref in edits
    {
      var i :| 0 <= i < |shortlist| && shortlist[i] == ref;
      assert sorted[i] == ref;
    }
    forall on, off | on in shortlist && off in edits && off !in shortlist
      ensures !RecentFirst(off, on)
    {
      var i :| 0 <= i < |shortlist| && shortlist[i] == on;
      var j :| 0 <= j < |sorted| && sorted[j] == off;
      assert forall k | 0 <= k < |shortlist| :: sorted[k] == shortlist[k] && shortlist[k] in shortlist;
    }
  }

  /** An edit finding the direct candidates is valid only when its sender is the parent's. */
  lemma ValidEditsAreTheSendersOwn(parent: Event, refs: seq<RelationRef>, store: map<int, StoredEvent>,
                                   ref: RelationRef)
    requires RefsDescribeEvents(refs, store) && ref in refs && ref.relType == REL_REPLACE
    requires ValidReplacement(parent, store[ref.childNid].event)
    ensures ref in Select(refs, IsEditBy(parent.Sender()))
  {
  }

  /** Whatever the choice from the shortlist finds is the most recent valid replacement of all;
      and with no more same-sender edits than the shortlist holds, it finds one exactly when
      there is one. */
  lemma TwoStagesRefineTheDirectChoice(parent: StoredEvent, caller: string, refs: seq<RelationRef>, plan: BundlePlan,
                                       store: map<int, StoredEvent>, listed: seq<StoredEvent>, all: seq<StoredEvent>)
    requires IsPlanOf(plan, parent, caller, refs) && !parent.disposition.Redacted?
    requires RefsDescribeEvents(refs, store)
    requires Fetches(listed, plan.replacements, store)
    requires Fetches(all, Nids(Select(refs, HasType(REL_REPLACE))), store)
    ensures forall best :: IsMostRecentValid(parent.event, listed, best) ==> IsMostRecentValid(parent.event, all, best)
    ensures |Select(refs, IsEditBy(parent.event.Sender()))| <= MAX_REPLACE_CANDIDATES ==>
              (NoneValid(parent.event, listed) <==> NoneValid(parent.event, all))
  {
    var edits, direct := Select(refs, IsEditBy(parent.event.Sender())), Select(refs, HasType(REL_REPLACE));
    var shortlist: seq<RelationRef> :| IsShortlist(edits, shortlist) && plan.replacements == Nids(shortlist);
    SelectKeeps(refs, IsEditBy(parent.event.Sender()));
    SelectKeeps(refs, HasType(REL_REPLACE));
    ShortlistIsFromEdits(edits, shortlist);
    FetchedFor(listed, shortlist, store);
    FetchedFor(all, direct, store);
    forall c | c in listed
      ensures c in all
    {
      var ref :| ref in shortlist && ref.childNid in store && store[ref.childNid] == c;
      assert ref in direct;
    }
    forall best | IsMostRecentValid(parent.event, listed, best)
      ensures IsMostRecentValid(parent.event, all, best)
    {
      forall other | other in all && ValidReplacement(parent.event, other.event)
        ensures !MoreRecent(other.event, best.event)
      {
        var off :| off in direct && off.childNid in store && store[off.childNid] == other;
        OffTheListIsOlder(parent.event, refs, store, shortlist, listed, best, off);
      }
    }
    if |edits| <= MAX_REPLACE_CANDIDATES {
      forall c | c in all && ValidReplacement(parent.event, c.event)
        ensures c in listed
      {
        var ref :| ref in direct && ref.childNid in store && store[ref.childNid] == c;
        ValidEditsAreTheSendersOwn(parent.event, refs, store, ref);
      }
    }
  }

  lemma OffTheListIsOlder(parent: Event, refs: seq<RelationRef>, store: map<int, StoredEvent>,
                          shortlist: seq<RelationRef>, listed: seq<StoredEvent>, best: StoredEvent, off: RelationRef)
    requires RefsDescribeEvents(refs, store) && off in refs && off.relType == REL_REPLACE
    requires IsShortlist(Select(refs, IsEditBy(parent.Sender())), shortlist)
    requires Fetches(listed, Nids(shortlist), store)
    requires IsMostRecentValid(parent, listed, best) && ValidReplacement(parent, store[off.childNid].event)
    ensures !MoreRecent(store[off.childNid].event, best.event)
  {
    var edits := Select(refs, IsEditBy(parent.Sender()));
    SelectKeeps(refs, IsEditBy(parent.Sender()));
    ShortlistIsFromEdits(edits, shortlist);
    FetchedFor(listed, shortlist, store);
    var on :| on in shortlist && on.childNid in store && store[on.childNid] == best;
    assert Copies(off, store[off.childNid].event) && Copies(on, best.event);
    if off !in shortlist {
      RefsCompareAsEvents(off, store[off.childNid].event, on, best.event);
    }
  }

  lemma RefsCompareAsEvents(a: RelationRef, first: Event, b: RelationRef, second: Event)
    requires Copies(a, first) && Copies(b, second)
    ensures RecentFirst(a, b) <==> MoreRecent(first, second)
  {
  }

  /** There is one most recent valid replacement. */
  lemma MostRecentIsUnique(parent: Event, candidates: seq<StoredEvent>, a: StoredEvent, b: StoredEvent)
    requires IdsTellEventsApart(set c | c in candidates :: c.event)
    requires IsMostRecentValid(parent, candidates, a) && IsMostRecentValid(parent, candidates, b)
    ensures a.event == b.event
  {
    RecencyIsAnOrder(a.event, b.event, a.event);
    assert a.event in (set c | c in candidates :: c.event) && b.event in (set c | c in candidates :: c.event);
  }
}
