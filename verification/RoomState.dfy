/** A room's state: the latest event stored under each (type, state key) pair. */
module RoomState {
  import opened Wrappers
  import opened JsonValues
  import opened RoomVersions
  import opened Events
  import opened PowerLevels

  const JOIN := "join"
  const INVITE := "invite"
  const LEAVE := "leave"
  const BAN := "ban"
  const KNOCK := "knock"

  const RULE_PUBLIC := "public"
  const RULE_INVITE := "invite"
  const RULE_KNOCK := "knock"
  const RULE_RESTRICTED := "restricted"
  const RULE_KNOCK_RESTRICTED := "knock_restricted"

  datatype StateKey = StateKey(eventType: string, stateKey: string)

  type StateMap = map<StateKey, Event>

  const CREATE_KEY := StateKey(TYPE_CREATE, "")
  const LEVELS_KEY := StateKey(TYPE_POWER_LEVELS, "")
  const JOIN_RULES_KEY := StateKey(TYPE_JOIN_RULES, "")

  function MemberKey(userId: string): StateKey {
    StateKey(TYPE_MEMBER, userId)
  }

  /** The pair an event is stored under, if it is a state event. */
  function KeyOf(e: Event): Option<StateKey> {
    if e.StateKey().Some? then Some(StateKey(e.Type(), e.StateKey().value)) else None
  }

  function Apply(s: StateMap, e: Event): StateMap {
    if KeyOf(e).Some? then s[KeyOf(e).value := e] else s
  }

  function Membership(s: StateMap, userId: string): string {
    if MemberKey(userId) in s then StringIn(s[MemberKey(userId)].Content(), "membership") else ""
  }

  function JoinRule(s: StateMap): string {
    if JOIN_RULES_KEY in s then StringIn(s[JOIN_RULES_KEY].Content(), "join_rule") else RULE_INVITE
  }

  function Creators(s: StateMap, version: RoomVersion): seq<string> {
    if CREATE_KEY in s then CreatorsNamedBy(s[CREATE_KEY], version) else []
  }

  function CreatorsNamedBy(create: Event, version: RoomVersion): seq<string> {
    if version.additionalCreators
    then WithoutRepeats([create.Sender()], ItemsIn(create.Content(), "additional_creators"))
    else [create.Sender()]
  }

  /** Adds to `out`, in order, each listed string it does not hold yet. */
  function WithoutRepeats(out: seq<string>, items: seq<Json>): (r: seq<string>)
    ensures forall id :: id in r <==> id in out || String(id) in items
    ensures (forall i, j | 0 <= i < j < |out| :: out[i] != out[j])
            ==> forall i, j | 0 <= i < j < |r| :: r[i] != r[j]
    decreases |items|
  {
    if items == [] then out
    else if items[0].String? && items[0].s !in out then WithoutRepeats(out + [items[0].s], items[1..])
    else WithoutRepeats(out, items[1..])
  }

  /** The levels in force.  Before the first power levels event, version 11 gives the room's
      creator 100 and version 12 relies on the creator's rank. */
  function LevelsOf(s: StateMap, version: RoomVersion): Option<Levels> {
    var creators := Creators(s, version);
    if LEVELS_KEY in s then Parse(s[LEVELS_KEY].Content(), version, creators)
    else
      var levels := DefaultLevels(version, creators);
      Some(if CREATE_KEY in s && !version.creatorsOutrankPowerLevels
           then levels.(users := map[s[CREATE_KEY].Sender() := 100])
           else levels)
  }

  /** Before the first power levels event every threshold is the default of empty content, and
      only the creators stand out. */
  lemma LevelsBeforeAnySet(s: StateMap, version: RoomVersion, userId: string)
    requires CREATE_KEY in s && LEVELS_KEY !in s
    ensures var creators := Creators(s, version);
            && LevelsOf(s, version).Some?
            && Parse(map[], version, creators) == Some(LevelsOf(s, version).value.(users := map[]))
            && LevelsOf(s, version).value.UserLevel(userId) ==
                 if version.creatorsOutrankPowerLevels then if userId in creators then CREATOR_RANK else Power(0)
                 else if userId == s[CREATE_KEY].Sender() then Power(100) else Power(0)
  {
  }

  method ListCreators(s: StateMap, version: RoomVersion) returns (out: seq<string>)
    ensures out == Creators(s, version)
  {
    if CREATE_KEY !in s {
      return [];
    }
    var create := s[CREATE_KEY];
    out := [create.Sender()];
    if !version.additionalCreators {
      return;
    }
    var extra := ItemsIn(create.Content(), "additional_creators");
    for i := 0 to |extra|
      invariant WithoutRepeats(out, extra[i..]) == WithoutRepeats([create.Sender()], extra)
    {
      assert extra[i..][1..] == extra[i + 1..];
      if extra[i].String? && extra[i].s !in out {
        out := out + [extra[i].s];
      }
    }
  }
}
