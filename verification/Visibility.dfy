/** Which events a member may see: the visibility and membership in force at each position of
    a room's history. */
module Visibility {
  import opened Wrappers
  import opened JsonValues
  import opened Events
  import opened RoomState
  import Sorting

  // ----- positions and stored events

  datatype Position = Position(topological: int, stream: int) {
    predicate Before(other: Position) {
      if topological != other.topological then topological < other.topological else stream < other.stream
    }
  }

  datatype Disposition = DispositionAccepted | Redacted | Rejected | SoftFailed | Outlier {
    predicate Deliverable() {
      DispositionAccepted? || Redacted?
    }
  }

  datatype StoredEvent = StoredEvent(event: Event, at: Position, disposition: Disposition)

  const WORLD_READABLE := "world_readable"
  const SHARED := "shared"
  const INVITED := "invited"
  const JOINED := "joined"

  // ----- the filter

  datatype Change = Change(at: Position, value: string)

  datatype HistoryFilter = HistoryFilter(caller: string, visibility: seq<Change>, memberships: seq<Change>)

  predicate ChangeBefore(a: Change, b: Change) {
    a.at.Before(b.at)
  }

  lemma ChangesHaveAnOrder()
    ensures Sorting.IsWeakOrder(ChangeBefore)
  {
  }

  function VisibilityChange(e: StoredEvent): Change {
    var value := StringIn(e.event.Content(), "history_visibility");
    Change(e.at, if value in {WORLD_READABLE, SHARED, INVITED, JOINED} then value else SHARED)
  }

  function MembershipChange(e: StoredEvent): Change {
    Change(e.at, StringIn(e.event.Content(), "membership"))
  }

  function VisibilityChanges(events: seq<StoredEvent>): seq<Change> {
    seq(|events|, i requires 0 <= i < |events| => VisibilityChange(events[i]))
  }

  function MembershipChanges(events: seq<StoredEvent>): seq<Change> {
    seq(|events|, i requires 0 <= i < |events| => MembershipChange(events[i]))
  }

  /** The filter holds every change it was given, in order of position.  The sort is not stable,
      so which order equal positions end up in is left open. */
  ghost predicate IsFilterOf(f: HistoryFilter, caller: string,
                             visibility: seq<StoredEvent>, memberships: seq<StoredEvent>)
  {
    && f.caller == caller
    && Sorting.IsSortOf(ChangeBefore, VisibilityChanges(visibility), f.visibility)
    && Sorting.IsSortOf(ChangeBefore, MembershipChanges(memberships), f.memberships)
  }

  method NewHistoryFilter(caller: string, visibility: seq<StoredEvent>, memberships: seq<StoredEvent>)
    returns (f: HistoryFilter)
    ensures IsFilterOf(f, caller, visibility, memberships)
  {
    var changes: seq<Change> := [];
    for i := 0 to |visibility|
      invariant changes == VisibilityChanges(visibility)[..i]
    {
      changes := changes + [VisibilityChange(visibility[i])];
    }
    var joins: seq<Change> := [];
    for i := 0 to |memberships|
      invariant joins == MembershipChanges(memberships)[..i]
    {
      joins := joins + [MembershipChange(memberships[i])];
    }
    assert changes == VisibilityChanges(visibility) && joins == MembershipChanges(memberships);
    ChangesHaveAnOrder();
    var sortedVisibility := Sorting.Sort(changes, ChangeBefore);
    var sortedMemberships := Sorting.Sort(joins, ChangeBefore);
    return HistoryFilter(caller, sortedVisibility, sortedMemberships);
  }

  // ----- what was in force

  ghost predicate PositionsDistinct(changes: seq<Change>) {
    forall i, j | 0 <= i < j < |changes| :: changes[i].at != changes[j].at
  }

  /** `change` is the last of the changes that `past` lets through. */
  ghost predicate IsLatest(changes: seq<Change>, past: Position -> bool, change: Change) {
    && change in changes && past(change.at)
    && forall other | other in changes && past(other.at) :: !change.at.Before(other.at)
  }

  /** The value left by the latest change that `past` lets through, or the one to start from. */
  ghost predicate InForce(changes: seq<Change>, past: Position -> bool, start: string, value: string) {
    || ((forall change | change in changes :: !past(change.at)) && value == start)
    || exists change :: IsLatest(changes, past, change) && value == change.value
  }

  /** Everything up to the first change that is not past: the scan's loop, as a recursion. */
  function Scan(changes: seq<Change>, past: Position -> bool, start: string): string
    decreases |changes|
  {
    if changes == [] || !past(changes[0].at) then start else Scan(changes[1..], past, changes[0].value)
  }

  /** Being past never comes back once it is over. */
  ghost predicate DownwardClosed(past: Position -> bool) {
    forall p: Position, q: Position :: past(q) && p.Before(q) ==> past(p)
  }

  function StrictlyBefore(at: Position): Position -> bool {
    (p: Position) => p.Before(at)
  }

  function NotAfter(at: Position): Position -> bool {
    (p: Position) => !at.Before(p)
  }

  method ScanChanges(changes: seq<Change>, past: Position -> bool, start: string) returns (value: string)
    ensures value == Scan(changes, past, start)
  {
    value := start;
    for i := 0 to |changes|
      invariant Scan(changes[i..], past, value) == Scan(changes, past, start)
    {
      assert changes[i..][0] == changes[i] && changes[i..][1..] == changes[i + 1..];
      if !past(changes[i].at) {
        return;
      }
      value := changes[i].value;
    }
  }

  /** On changes in order, at distinct positions, the scan finds what was in force. */
  lemma ScanFindsTheLatest(given: seq<Change>, sorted: seq<Change>, past: Position -> bool, start: string)
    requires Sorting.IsSortOf(ChangeBefore, given, sorted)
    requires PositionsDistinct(given) && DownwardClosed(past)
    ensures InForce(given, past, start, Scan(sorted, past, start))
    ensures forall value :: InForce(given, past, start, value) ==> value == Scan(sorted, past, start)
  {
    Sorting.SortKeepsElements(ChangeBefore, given, sorted);
    var k := PastRun(sorted, past);
    ScanStopsAtThePast(sorted, past, start);
    if k > 0 {
      forall other | other in given && past(other.at)
        ensures !sorted[k - 1].at.Before(other.at)
      {
        var i :| 0 <= i < |sorted| && sorted[i] == other;
        assert i < k;
      }
      assert IsLatest(given, past, sorted[k - 1]);
    } else {
      forall change | change in given
        ensures !past(change.at)
      {
        var i :| 0 <= i < |sorted| && sorted[i] == change;
      }
    }
    forall value | InForce(given, past, start, value)
      ensures value == Scan(sorted, past, start)
    {
      if k > 0 {
        assert sorted[k - 1] in given && past(sorted[k - 1].at);
        var change :| IsLatest(given, past, change) && value == change.value;
        assert !change.at.Before(sorted[k - 1].at) && !sorted[k - 1].at.Before(change.at);
        SamePositionSameChange(given, change, sorted[k - 1]);
      }
    }
  }

  lemma SamePositionSameChange(changes: seq<Change>, a: Change, b: Change)
    requires PositionsDistinct(changes) && a in changes && b in changes && a.at == b.at
    ensures a == b
  {
  }

  /** How many leading changes are past. */
  function PastRun(changes: seq<Change>, past: Position -> bool): (k: nat)
    ensures k <= |changes| && (forall i | 0 <= i < k :: past(changes[i].at))
    ensures k < |changes| ==> !past(changes[k].at)
  {
    if changes == [] || !past(changes[0].at) then 0 else 1 + PastRun(changes[1..], past)
  }

  lemma {:induction false} ScanStopsAtThePast(changes: seq<Change>, past: Position -> bool, start: string)
    requires DownwardClosed(past) && Sorting.InOrder(ChangeBefore, changes)
    ensures var k := PastRun(changes, past);
            && Scan(changes, past, start) == (if k == 0 then start else changes[k - 1].value)
            && forall i | k <= i < |changes| :: !past(changes[i].at)
    decreases |changes|
  {
    if changes != [] && past(changes[0].at) {
      ScanStopsAtThePast(changes[1..], past, changes[0].value);
    } else if changes != [] {
      forall i | 0 <= i < |changes|
        ensures !past(changes[i].at)
      {
        assert i == 0 || !ChangeBefore(changes[i], changes[0]);
      }
    }
  }

  // ----- the rules

  function VisibilityBefore(f: HistoryFilter, at: Position): string {
    Scan(f.visibility, StrictlyBefore(at), SHARED)
  }

  function MembershipBefore(f: HistoryFilter, at: Position): string {
    Scan(f.memberships, StrictlyBefore(at), "")
  }

  function MembershipAt(f: HistoryFilter, at: Position): string {
    var value := Scan(f.memberships, NotAfter(at), "");
    if value == "" then LEAVE else value
  }

  predicate JoinedAtOrAfter(f: HistoryFilter, at: Position) {
    exists i | 0 <= i < |f.memberships| :: f.memberships[i].value == JOIN && !f.memberships[i].at.Before(at)
  }

  predicate Allows(f: HistoryFilter, visibility: string, membership: string, at: Position) {
    || visibility == WORLD_READABLE
    || membership == JOIN
    || (visibility == SHARED && JoinedAtOrAfter(f, at))
    || (visibility == INVITED && membership == INVITE)
  }

  predicate VisibleAt(f: HistoryFilter, at: Position, disposition: Disposition) {
    disposition.Deliverable() && Allows(f, VisibilityBefore(f, at), MembershipBefore(f, at), at)
  }

  /** A change of visibility or of the caller's membership is also shown when what it changes to
      would show it. */
  predicate Visible(f: HistoryFilter, e: StoredEvent) {
    var visibility, membership := VisibilityBefore(f, e.at), MembershipBefore(f, e.at);
    var content := e.event.Content();
    && e.disposition.Deliverable()
    && if Allows(f, visibility, membership, e.at) then true
       else if KeyOf(e.event) == Some(StateKey(TYPE_HISTORY_VISIBILITY, ""))
       then Allows(f, StringIn(content, "history_visibility"), membership, e.at)
       else KeyOf(e.event) == Some(MemberKey(f.caller)) && Allows(f, visibility, StringIn(content, "membership"), e.at)
  }

  predicate EverEntitled(f: HistoryFilter) {
    f.memberships != [] || exists i | 0 <= i < |f.visibility| :: f.visibility[i].value == WORLD_READABLE
  }

  method HasJoinedAtOrAfter(f: HistoryFilter, at: Position) returns (found: bool)
    ensures found == JoinedAtOrAfter(f, at)
  {
    for i := 0 to |f.memberships|
      invariant forall k | 0 <= k < i :: f.memberships[k].value != JOIN || f.memberships[k].at.Before(at)
    {
      if f.memberships[i].value == JOIN && !f.memberships[i].at.Before(at) {
        return true;
      }
    }
    return false;
  }

  // ----- the rules in the specification's words, without scans
  //
  // Positions are compared here as pairs, and names are spelled out.

  /** The first pair comes before the second. */
  ghost predicate IsBelow(p: Position, q: Position) {
    p.topological < q.topological || (p.topological == q.topological && p.stream < q.stream)
  }

  lemma PositionsAreOrderedAsPairs(p: Position, q: Position)
    ensures p.Before(q) <==> IsBelow(p, q)
  {
  }

  ghost function Below(at: Position): Position -> bool {
    (p: Position) => IsBelow(p, at)
  }

  ghost function UpTo(at: Position): Position -> bool {
    (p: Position) => !IsBelow(at, p)
  }

  /** The last of the events that `past` lets through. */
  ghost predicate IsLast(events: seq<StoredEvent>, past: Position -> bool, e: StoredEvent) {
    e in events && past(e.at) && forall other | other in events && past(other.at) :: !IsBelow(e.at, other.at)
  }

  /** The visibility the last of them set; shared before any, and where what it set is unknown. */
  ghost predicate IsVisibility(events: seq<StoredEvent>, past: Position -> bool, v: string) {
    || ((forall e | e in events :: !past(e.at)) && v == "shared")
    || exists e :: IsLast(events, past, e) && var named := StringIn(e.event.Content(), "history_visibility");
         v == if named in {"world_readable", "shared", "invited", "joined"} then named else "shared"
  }

  /** The membership the last of them set, none before any. */
  ghost predicate IsMembership(events: seq<StoredEvent>, past: Position -> bool, m: string) {
    || ((forall e | e in events :: !past(e.at)) && m == "")
    || exists e :: IsLast(events, past, e) && m == StringIn(e.event.Content(), "membership")
  }

  lemma InForceIsLast(events: seq<StoredEvent>, changes: seq<Change>, past: Position -> bool, inWords: Position -> bool,
                      start: string, value: string)
    requires |changes| == |events| && forall i | 0 <= i < |events| :: changes[i].at == events[i].at
    requires forall p :: past(p) <==> inWords(p)
    ensures InForce(changes, past, start, value) <==>
              || ((forall e | e in events :: !inWords(e.at)) && value == start)
              || exists i | 0 <= i < |events| :: IsLast(events, inWords, events[i]) && value == changes[i].value
  {
    if exists change :: IsLatest(changes, past, change) && value == change.value {
      var change :| IsLatest(changes, past, change) && value == change.value;
      var i :| 0 <= i < |changes| && changes[i] == change;
      forall other | other in events && inWords(other.at)
        ensures !IsBelow(events[i].at, other.at)
      {
        var j :| 0 <= j < |events| && events[j] == other;
        assert changes[j] in changes;
      }
      assert IsLast(events, inWords, events[i]);
    }
    if i :| 0 <= i < |events| && IsLast(events, inWords, events[i]) && value == changes[i].value {
      forall other | other in changes && past(other.at)
        ensures !changes[i].at.Before(other.at)
      {
        var j :| 0 <= j < |changes| && changes[j] == other;
        assert events[j] in events;
      }
      assert IsLatest(changes, past, changes[i]);
    }
    forall e | e in events && forall change | change in changes :: !past(change.at)
      ensures !inWords(e.at)
    {
      var i :| 0 <= i < |events| && events[i] == e;
      assert changes[i] in changes;
    }
    forall change | change in changes && forall e | e in events :: !inWords(e.at)
      ensures !past(change.at)
    {
      var i :| 0 <= i < |changes| && changes[i] == change;
      assert events[i] in events;
    }
  }

  lemma VisibilityInForce(visibility: seq<StoredEvent>, past: Position -> bool, inWords: Position -> bool, v: string)
    requires forall p :: past(p) <==> inWords(p)
    ensures InForce(VisibilityChanges(visibility), past, SHARED, v) <==> IsVisibility(visibility, inWords, v)
  {
    InForceIsLast(visibility, VisibilityChanges(visibility), past, inWords, SHARED, v);
    if e :| IsLast(visibility, inWords, e) && v == VisibilityChange(e).value {
      var i :| 0 <= i < |visibility| && visibility[i] == e;
    }
  }

  lemma MembershipInForce(memberships: seq<StoredEvent>, past: Position -> bool, inWords: Position -> bool, m: string)
    requires forall p :: past(p) <==> inWords(p)
    ensures InForce(MembershipChanges(memberships), past, "", m) <==> IsMembership(memberships, inWords, m)
  {
    InForceIsLast(memberships, MembershipChanges(memberships), past, inWords, "", m);
    if e :| IsLast(memberships, inWords, e) && m == MembershipChange(e).value {
      var i :| 0 <= i < |memberships| && memberships[i] == e;
    }
  }

  /** The three lookups of a filter built from events in any order, at distinct positions, are
      what the event at the greatest pair below, or not above, the one asked for set. */
  lemma LookupsAreTheLatest(f: HistoryFilter, visibility: seq<StoredEvent>, memberships: seq<StoredEvent>, at: Position)
    requires IsFilterOf(f, f.caller, visibility, memberships)
    requires PositionsDistinct(VisibilityChanges(visibility)) && PositionsDistinct(MembershipChanges(memberships))
    ensures forall v :: IsVisibility(visibility, Below(at), v) <==> v == VisibilityBefore(f, at)
    ensures forall m :: IsMembership(memberships, Below(at), m) <==> m == MembershipBefore(f, at)
    ensures forall m :: IsMembership(memberships, UpTo(at), m) ==>
              MembershipAt(f, at) == (if m == "" then "leave" else m)
    ensures exists m :: IsMembership(memberships, UpTo(at), m)
  {
    ScanFindsTheLatest(VisibilityChanges(visibility), f.visibility, StrictlyBefore(at), SHARED);
    ScanFindsTheLatest(MembershipChanges(memberships), f.memberships, StrictlyBefore(at), "");
    ScanFindsTheLatest(MembershipChanges(memberships), f.memberships, NotAfter(at), "");
    forall v
      ensures IsVisibility(visibility, Below(at), v) <==> v == VisibilityBefore(f, at)
    {
      VisibilityInForce(visibility, StrictlyBefore(at), Below(at), v);
    }
    forall m
      ensures IsMembership(memberships, Below(at), m) <==> m == MembershipBefore(f, at)
      ensures IsMembership(memberships, UpTo(at), m) <==> m == Scan(f.memberships, NotAfter(at), "")
    {
      MembershipInForce(memberships, StrictlyBefore(at), Below(at), m);
      MembershipInForce(memberships, NotAfter(at), UpTo(at), m);
    }
    assert IsMembership(memberships, UpTo(at), Scan(f.memberships, NotAfter(at), ""));
  }

  /** This visibility and membership let the caller read at this position: the history is for the
      world, or the caller is in the room, or it is shared and they join it then or later, or it
      is for the invited and they are invited. */
  ghost predicate Readable(memberships: seq<StoredEvent>, visibility: string, membership: string, at: Position) {
    || visibility == "world_readable"
    || membership == "join"
    || (visibility == "shared" && exists e :: e in memberships && IsJoin(e) && !IsBelow(e.at, at))
    || (visibility == "invited" && membership == "invite")
  }

  ghost predicate IsJoin(e: StoredEvent) {
    StringIn(e.event.Content(), "membership") == "join"
  }

  lemma AllowsIsReadable(f: HistoryFilter, visibility: seq<StoredEvent>, memberships: seq<StoredEvent>,
                         v: string, m: string, at: Position)
    requires IsFilterOf(f, f.caller, visibility, memberships)
    ensures Allows(f, v, m, at) <==> Readable(memberships, v, m, at)
  {
    var changes := MembershipChanges(memberships);
    Sorting.SortKeepsElements(ChangeBefore, changes, f.memberships);
    if JoinedAtOrAfter(f, at) {
      var i :| 0 <= i < |f.memberships| && f.memberships[i].value == JOIN && !f.memberships[i].at.Before(at);
      assert f.memberships[i] in changes;
      var j :| 0 <= j < |changes| && changes[j] == f.memberships[i];
      assert memberships[j] in memberships && IsJoin(memberships[j]) && !IsBelow(memberships[j].at, at);
    }
    if e :| e in memberships && IsJoin(e) && !IsBelow(e.at, at) {
      var j :| 0 <= j < |memberships| && memberships[j] == e;
      assert changes[j] == MembershipChange(e) && changes[j] in f.memberships;
    }
  }

  /** The filter shows exactly what the room's history entitles the caller to: by the visibility
      and the membership left by the last events below this one or, for an event that changes
      either, by the one it changes to. */
  lemma VisibilityRefinesHistory(f: HistoryFilter, visibility: seq<StoredEvent>, memberships: seq<StoredEvent>,
                                 e: StoredEvent, v: string, m: string)
    requires IsFilterOf(f, f.caller, visibility, memberships)
    requires PositionsDistinct(VisibilityChanges(visibility)) && PositionsDistinct(MembershipChanges(memberships))
    requires IsVisibility(visibility, Below(e.at), v) && IsMembership(memberships, Below(e.at), m)
    ensures VisibleAt(f, e.at, e.disposition) <==> IsServed(e) && Readable(memberships, v, m, e.at)
    ensures Visible(f, e) <==>
              && IsServed(e)
              && (|| Readable(memberships, v, m, e.at)
                  || (KeyOf(e.event) == Some(StateKey("m.room.history_visibility", ""))
                      && Readable(memberships, StringIn(e.event.Content(), "history_visibility"), m, e.at))
                  || (KeyOf(e.event) == Some(StateKey("m.room.member", f.caller))
                      && Readable(memberships, v, StringIn(e.event.Content(), "membership"), e.at)))
  {
    LookupsAreTheLatest(f, visibility, memberships, e.at);
    AllowsIsReadable(f, visibility, memberships, v, m, e.at);
    AllowsIsReadable(f, visibility, memberships, StringIn(e.event.Content(), "history_visibility"), m, e.at);
    AllowsIsReadable(f, visibility, memberships, v, StringIn(e.event.Content(), "membership"), e.at);
    assert TYPE_HISTORY_VISIBILITY[7] != TYPE_MEMBER[7];
  }

  /** Accepted and redacted events are served, nothing else. */
  ghost predicate IsServed(e: StoredEvent) {
    e.disposition == DispositionAccepted || e.disposition == Redacted
  }

  /** Under history open to members only, a caller sees an ordinary event exactly when the last of
      their membership events below it is a join. */
  lemma MembersOnlyHistory(f: HistoryFilter, visibility: seq<StoredEvent>, memberships: seq<StoredEvent>,
                           e: StoredEvent)
    requires IsFilterOf(f, f.caller, visibility, memberships)
    requires PositionsDistinct(VisibilityChanges(visibility)) && PositionsDistinct(MembershipChanges(memberships))
    requires IsVisibility(visibility, Below(e.at), "joined") && IsServed(e)
    requires e.event.Type() != "m.room.history_visibility" && e.event.Type() != "m.room.member"
    ensures Visible(f, e) <==> exists last :: IsLast(memberships, Below(e.at), last) && IsJoin(last)
  {
    LookupsAreTheLatest(f, visibility, memberships, e.at);
    var m := MembershipBefore(f, e.at);
    VisibilityRefinesHistory(f, visibility, memberships, e, "joined", m);
    assert "joined"[0] == 'j' && "world_readable"[0] == 'w' && "shared"[0] == 's' && "invited"[0] == 'i';
    assert IsMembership(memberships, Below(e.at), "join") <==> m == "join";
  }

  /** The coarse test asks for a membership event of the caller or a change of visibility to the
      world, wherever they are. */
  lemma EntitlementInWords(f: HistoryFilter, caller: string, visibility: seq<StoredEvent>,
                           memberships: seq<StoredEvent>)
    requires IsFilterOf(f, caller, visibility, memberships)
    ensures EverEntitled(f) <==>
              || memberships != []
              || exists e :: e in visibility && StringIn(e.event.Content(), "history_visibility") == "world_readable"
  {
    var changes := VisibilityChanges(visibility);
    Sorting.SortKeepsElements(ChangeBefore, changes, f.visibility);
    Sorting.SortKeepsElements(ChangeBefore, MembershipChanges(memberships), f.memberships);
    if i :| 0 <= i < |f.visibility| && f.visibility[i].value == WORLD_READABLE {
      assert f.visibility[i] in changes;
      var j :| 0 <= j < |changes| && changes[j] == f.visibility[i];
      assert visibility[j] in visibility;
    }
    if e :| e in visibility && StringIn(e.event.Content(), "history_visibility") == "world_readable" {
      var j :| 0 <= j < |visibility| && visibility[j] == e;
      assert changes[j] in f.visibility;
    }
  }

  // ----- joining reveals

  /** Joining, at any fresh position, hides nothing that was visible. */
  lemma JoiningHidesNothing(before: HistoryFilter, after: HistoryFilter, visibility: seq<StoredEvent>,
                            memberships: seq<StoredEvent>, join: StoredEvent, e: StoredEvent)
    requires PositionsDistinct(VisibilityChanges(visibility))
    requires PositionsDistinct(MembershipChanges(memberships + [join]))
    requires MembershipChange(join).value == JOIN
    requires after.caller == before.caller
    requires IsFilterOf(before, before.caller, visibility, memberships)
    requires IsFilterOf(after, before.caller, visibility, memberships + [join])
    ensures VisibleAt(before, e.at, e.disposition) ==> VisibleAt(after, e.at, e.disposition)
    ensures Visible(before, e) ==> Visible(after, e)
  {
    var earlier, later := MembershipChanges(memberships), MembershipChanges(memberships + [join]);
    assert later == earlier + [MembershipChange(join)];
    assert PositionsDistinct(earlier) by {
      assert forall i | 0 <= i < |earlier| :: earlier[i] == later[i];
    }
    ScanFindsTheLatest(VisibilityChanges(visibility), before.visibility, StrictlyBefore(e.at), SHARED);
    ScanFindsTheLatest(VisibilityChanges(visibility), after.visibility, StrictlyBefore(e.at), SHARED);
    assert VisibilityBefore(before, e.at) == VisibilityBefore(after, e.at);
    ScanFindsTheLatest(earlier, before.memberships, StrictlyBefore(e.at), "");
    ScanFindsTheLatest(later, after.memberships, StrictlyBefore(e.at), "");
    JoinIsInForceOrChangesNothing(earlier, MembershipChange(join), StrictlyBefore(e.at), MembershipBefore(after, e.at));
    JoinsAreSeen(before.memberships, after.memberships, earlier, later, before, after, e.at);
  }

  /** After a join is added, either it is in force or whatever was in force still is. */
  lemma JoinIsInForceOrChangesNothing(changes: seq<Change>, join: Change, past: Position -> bool, value: string)
    requires InForce(changes + [join], past, "", value)
    ensures value == join.value || InForce(changes, past, "", value)
  {
  }

  lemma JoinsAreSeen(sortedEarlier: seq<Change>, sortedLater: seq<Change>, earlier: seq<Change>, later: seq<Change>,
                     before: HistoryFilter, after: HistoryFilter, at: Position)
    requires before.memberships == sortedEarlier && after.memberships == sortedLater
    requires Sorting.IsSortOf(ChangeBefore, earlier, sortedEarlier)
    requires Sorting.IsSortOf(ChangeBefore, later, sortedLater)
    requires forall change | change in earlier :: change in later
    ensures JoinedAtOrAfter(before, at) ==> JoinedAtOrAfter(after, at)
  {
    Sorting.SortKeepsElements(ChangeBefore, earlier, sortedEarlier);
    Sorting.SortKeepsElements(ChangeBefore, later, sortedLater);
    if JoinedAtOrAfter(before, at) {
      var i :| 0 <= i < |sortedEarlier| && sortedEarlier[i].value == JOIN && !sortedEarlier[i].at.Before(at);
      assert sortedEarlier[i] in sortedLater;
    }
  }

  // ----- entitlement

  /** The filter was given every history visibility event of the room and every membership
      event of the caller. */
  ghost predicate CoversRoom(caller: string, room: set<StoredEvent>,
                             visibility: seq<StoredEvent>, memberships: seq<StoredEvent>)
  {
    && (forall e | e in room && KeyOf(e.event) == Some(StateKey(TYPE_HISTORY_VISIBILITY, "")) :: e in visibility)
    && (forall e | e in room && KeyOf(e.event) == Some(MemberKey(caller)) :: e in memberships)
  }

  /** Whoever can see some event of the room passes the coarse entitlement test. */
  lemma SeeingMeansEntitled(f: HistoryFilter, caller: string, room: set<StoredEvent>,
                            visibility: seq<StoredEvent>, memberships: seq<StoredEvent>, e: StoredEvent)
    requires IsFilterOf(f, caller, visibility, memberships)
    requires CoversRoom(caller, room, visibility, memberships) && e in room
    requires Visible(f, e)
    ensures EverEntitled(f)
  {
    if f.memberships == [] {
      assert MembershipBefore(f, e.at) == "";
      Sorting.SortKeepsElements(ChangeBefore, MembershipChanges(memberships), f.memberships);
      Sorting.SortKeepsElements(ChangeBefore, VisibilityChanges(visibility), f.visibility);
      assert memberships == [];
      if VisibilityBefore(f, e.at) == WORLD_READABLE {
        ScanComesFromSomewhere(f.visibility, StrictlyBefore(e.at), SHARED);
      } else {
        assert e in visibility;
        var i :| 0 <= i < |visibility| && visibility[i] == e;
        assert VisibilityChanges(visibility)[i].value == WORLD_READABLE;
        assert VisibilityChanges(visibility)[i] in f.visibility;
      }
    }
  }

  lemma {:induction false} ScanComesFromSomewhere(changes: seq<Change>, past: Position -> bool, start: string)
    ensures Scan(changes, past, start) == start
         || exists i | 0 <= i < |changes| :: changes[i].value == Scan(changes, past, start)
    decreases |changes|
  {
    if changes != [] && past(changes[0].at) {
      ScanComesFromSomewhere(changes[1..], past, changes[0].value);
      if Scan(changes, past, start) != changes[0].value {
        var i :| 0 <= i < |changes[1..]| && changes[1..][i].value == Scan(changes, past, start);
        assert changes[i + 1].value == Scan(changes, past, start);
      }
    }
  }
}
