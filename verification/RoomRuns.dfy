/** Runs of a room: an accepted create event, then authorised events each naming one
    predecessor.  The invariant every later result stands on is kept by every step. */
module RoomRuns {
  import opened Wrappers
  import opened JsonValues
  import opened RoomVersions
  import opened Events
  import opened PowerLevels
  import opened RoomState
  import opened AuthRules

  // ----- runs

  ghost predicate StartsRoom(create: Event, version: RoomVersion) {
    && create.Type() == TYPE_CREATE
    && create.StateKey() == Some("")
    && Authorise(create, map[], version).Accepted?
  }

  /** An event that is not the room's first names exactly one predecessor. */
  ghost predicate Accepts(s: StateMap, e: Event, version: RoomVersion) {
    |e.PrevEvents()| == 1 && Authorise(e, s, version).Accepted?
  }

  function Replay(s: StateMap, es: seq<Event>): StateMap
    decreases |es|
  {
    if es == [] then s else Replay(Apply(s, es[0]), es[1..])
  }

  ghost predicate AuthorisedRun(s: StateMap, es: seq<Event>, version: RoomVersion)
    decreases |es|
  {
    es == [] || (Accepts(s, es[0], version) && AuthorisedRun(Apply(s, es[0]), es[1..], version))
  }

  ghost predicate Reachable(s: StateMap, create: Event, version: RoomVersion) {
    && StartsRoom(create, version)
    && exists es :: AuthorisedRun(map[CREATE_KEY := create], es, version) && s == Replay(map[CREATE_KEY := create], es)
  }

  // ----- the room invariant

  ghost predicate RoomInvariant(s: StateMap, create: Event, version: RoomVersion) {
    && CREATE_KEY in s && s[CREATE_KEY] == create
    && (forall key | key in s :: KeyOf(s[key]) == Some(key))
    && (s.Keys == {CREATE_KEY} || MemberKey(create.Sender()) in s)
    && LevelsOf(s, version).Some?
  }

  lemma StartHolds(create: Event, version: RoomVersion)
    requires StartsRoom(create, version)
    ensures RoomInvariant(map[CREATE_KEY := create], create, version)
  {
  }

  lemma KeysDiffer()
    ensures CREATE_KEY != LEVELS_KEY && CREATE_KEY != JOIN_RULES_KEY && LEVELS_KEY != JOIN_RULES_KEY
    ensures TYPE_CREATE != TYPE_MEMBER && TYPE_POWER_LEVELS != TYPE_MEMBER && TYPE_JOIN_RULES != TYPE_MEMBER
    ensures TYPE_THIRD_PARTY_INVITE != TYPE_POWER_LEVELS && TYPE_THIRD_PARTY_INVITE != TYPE_MEMBER
    ensures TYPE_THIRD_PARTY_INVITE != TYPE_JOIN_RULES && TYPE_THIRD_PARTY_INVITE != TYPE_CREATE
  {
  }

  lemma MembershipsDiffer()
    ensures JOIN != INVITE && JOIN != LEAVE && JOIN != BAN && JOIN != KNOCK
    ensures INVITE != LEAVE && INVITE != BAN && INVITE != KNOCK && LEAVE != BAN && LEAVE != KNOCK && BAN != KNOCK
  {
  }

  lemma StepKeepsInvariant(s: StateMap, e: Event, create: Event, version: RoomVersion)
    requires RoomInvariant(s, create, version)
    requires Accepts(s, e, version)
    ensures RoomInvariant(Apply(s, e), create, version)
  {
    KeysDiffer();
    CreateIsNeverReplaced(s, e, version);
    if s.Keys == {CREATE_KEY} && KeyOf(e).Some? {
      FirstEventAdmitsTheCreator(s, e, create, version);
    }
    AcceptedLevelsParse(s, e, create, version);
  }

  lemma CreateIsNeverReplaced(s: StateMap, e: Event, version: RoomVersion)
    requires Accepts(s, e, version)
    ensures e.Type() != TYPE_CREATE
  {
  }

  lemma FirstEventAdmitsTheCreator(s: StateMap, e: Event, create: Event, version: RoomVersion)
    requires RoomInvariant(s, create, version) && s.Keys == {CREATE_KEY}
    requires Accepts(s, e, version)
    ensures KeyOf(e) == Some(MemberKey(create.Sender()))
    ensures StringIn(e.Content(), "membership") == JOIN
  {
  }

  lemma AcceptedLevelsParse(s: StateMap, e: Event, create: Event, version: RoomVersion)
    requires RoomInvariant(s, create, version)
    requires Accepts(s, e, version) && e.Type() != TYPE_CREATE
    ensures LevelsOf(Apply(s, e), version).Some?
    ensures KeyOf(e) == Some(LEVELS_KEY) ==>
              LevelsOf(Apply(s, e), version) == Parse(e.Content(), version, Creators(s, version))
    ensures KeyOf(e) != Some(LEVELS_KEY) ==> LevelsOf(Apply(s, e), version) == LevelsOf(s, version)
  {
    KeysDiffer();
    var t := Apply(s, e);
    assert CREATE_KEY in t && t[CREATE_KEY] == create;
    assert Creators(t, version) == Creators(s, version);
  }

  lemma {:induction false} RunKeepsInvariant(s: StateMap, es: seq<Event>, create: Event, version: RoomVersion)
    requires RoomInvariant(s, create, version)
    requires AuthorisedRun(s, es, version)
    ensures RoomInvariant(Replay(s, es), create, version)
    decreases |es|
  {
    if es != [] {
      StepKeepsInvariant(s, es[0], create, version);
      RunKeepsInvariant(Apply(s, es[0]), es[1..], create, version);
    }
  }

  /** In every reachable state the create event is the first one accepted, each event is under
      its own key, the creator has a member entry as soon as anything else is stored, and the
      stored power levels parse. */
  lemma ReachableStatesAreSound(s: StateMap, create: Event, version: RoomVersion)
    requires Reachable(s, create, version)
    ensures RoomInvariant(s, create, version)
  {
    StartHolds(create, version);
    var es :| AuthorisedRun(map[CREATE_KEY := create], es, version) && s == Replay(map[CREATE_KEY := create], es);
    RunKeepsInvariant(map[CREATE_KEY := create], es, create, version);
  }

  // ----- positions in a run

  ghost function StateBefore(s: StateMap, es: seq<Event>, i: nat): StateMap
    requires i <= |es|
  {
    Replay(s, es[..i])
  }

  lemma {:induction false} RunSplits(s: StateMap, es: seq<Event>, i: nat, version: RoomVersion)
    requires i <= |es| && AuthorisedRun(s, es, version)
    ensures AuthorisedRun(s, es[..i], version)
    ensures AuthorisedRun(StateBefore(s, es, i), es[i..], version)
    ensures Replay(StateBefore(s, es, i), es[i..]) == Replay(s, es)
    decreases |es|
  {
    if i > 0 {
      RunSplits(Apply(s, es[0]), es[1..], i - 1, version);
      assert es[..i][1..] == es[1..][..i - 1];
      assert es[1..][i - 1..] == es[i..];
    } else {
      assert es[0..] == es;
    }
  }

  lemma StateBeforeTail(s: StateMap, es: seq<Event>, i: nat)
    requires 1 <= i <= |es|
    ensures StateBefore(Apply(s, es[0]), es[1..], i - 1) == StateBefore(s, es, i)
  {
    assert es[..i][1..] == es[1..][..i - 1];
  }

  lemma {:induction false} NextState(s: StateMap, es: seq<Event>, i: nat)
    requires i < |es|
    ensures StateBefore(s, es, i + 1) == Apply(StateBefore(s, es, i), es[i])
    decreases i
  {
    if i == 0 {
      assert es[..0] == [] && es[..1] == [es[0]] && [es[0]][1..] == [];
      assert Replay(s, [es[0]]) == Replay(Apply(s, es[0]), []);
    } else {
      NextState(Apply(s, es[0]), es[1..], i - 1);
      StateBeforeTail(s, es, i);
      StateBeforeTail(s, es, i + 1);
    }
  }

  /** Each event of a run is accepted by the sound state it meets, and leads to the next. */
  lemma RunStep(s: StateMap, es: seq<Event>, create: Event, version: RoomVersion, i: nat)
    requires RoomInvariant(s, create, version) && AuthorisedRun(s, es, version) && i < |es|
    ensures RoomInvariant(StateBefore(s, es, i), create, version)
    ensures Accepts(StateBefore(s, es, i), es[i], version)
    ensures StateBefore(s, es, i + 1) == Apply(StateBefore(s, es, i), es[i])
  {
    RunSplits(s, es, i, version);
    RunKeepsInvariant(s, es[..i], create, version);
    assert es[i..][0] == es[i];
    NextState(s, es, i);
  }

  lemma {:induction false} RunExtends(s: StateMap, es: seq<Event>, e: Event, version: RoomVersion)
    requires AuthorisedRun(s, es, version) && Accepts(Replay(s, es), e, version)
    ensures AuthorisedRun(s, es + [e], version) && Replay(s, es + [e]) == Apply(Replay(s, es), e)
    decreases |es|
  {
    if es == [] {
      assert [] + [e] == [e] && [e][1..] == [];
      assert Replay(Apply(s, e), []) == Apply(s, e);
    } else {
      RunExtends(Apply(s, es[0]), es[1..], e, version);
      assert (es + [e])[1..] == es[1..] + [e];
    }
  }

  /** An accepted event leads from a reachable state to a reachable state. */
  lemma StepStaysReachable(s: StateMap, e: Event, create: Event, version: RoomVersion)
    requires Reachable(s, create, version) && Accepts(s, e, version)
    ensures Reachable(Apply(s, e), create, version)
  {
    var start := map[CREATE_KEY := create];
    var es :| AuthorisedRun(start, es, version) && s == Replay(start, es);
    RunExtends(start, es, e, version);
  }

  lemma StartIsReachable(create: Event, version: RoomVersion)
    requires StartsRoom(create, version)
    ensures Reachable(map[CREATE_KEY := create], create, version)
  {
    var start := map[CREATE_KEY := create];
    assert AuthorisedRun(start, [], version) && Replay(start, []) == start;
  }
}
