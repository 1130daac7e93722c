/** The ceiling on a room's power: the highest level that users_default or any entry grants. */
module PowerCeiling {
  import opened Wrappers
  import opened RoomVersions
  import opened Events
  import opened PowerLevels
  import opened RoomState
  import opened AuthRules
  import opened RoomRuns
  import opened RoomSteps
  import opened RoomSafety
  import opened RoomsWithLevels

  ghost predicate IsCeiling(ceiling: int, levels: Levels, users: set<string>)
    requires users <= levels.users.Keys
  {
    && levels.usersDefault <= ceiling && (forall user | user in users :: levels.users[user] <= ceiling)
    && (levels.usersDefault == ceiling || exists user :: user in users && levels.users[user] == ceiling)
  }

  ghost function Ceiling(levels: Levels): (ceiling: int)
    ensures IsCeiling(ceiling, levels, levels.users.Keys) && Bounds(ceiling, levels)
  {
    CeilingExists(levels, levels.users.Keys);
    var ceiling :| IsCeiling(ceiling, levels, levels.users.Keys);
    ceiling
  }

  lemma CeilingExists(levels: Levels, users: set<string>)
    requires users <= levels.users.Keys
    ensures exists ceiling :: IsCeiling(ceiling, levels, users)
    decreases users
  {
    if users == {} {
      assert IsCeiling(levels.usersDefault, levels, users);
    } else {
      var user :| user in users;
      CeilingExists(levels, users - {user});
      var low :| IsCeiling(low, levels, users - {user});
      var high := if levels.users[user] > low then levels.users[user] else low;
      assert IsCeiling(high, levels, users);
    }
  }

  /** Whatever is above the ceiling on either side is the same on both. */
  ghost predicate FrozenAbove(ceiling: int, before: Levels, after: Levels) {
    && SameAbove(ceiling, before.ban, after.ban)
    && SameAbove(ceiling, before.kick, after.kick)
    && SameAbove(ceiling, before.redact, after.redact)
    && SameAbove(ceiling, before.invite, after.invite)
    && SameAbove(ceiling, before.stateDefault, after.stateDefault)
    && SameAbove(ceiling, before.eventsDefault, after.eventsDefault)
    && SameAbove(ceiling, before.usersDefault, after.usersDefault)
    && TableFrozenAbove(ceiling, before.events, after.events)
    && TableFrozenAbove(ceiling, before.notifications, after.notifications)
  }

  ghost predicate SameAbove(ceiling: int, before: int, after: int) {
    before > ceiling || after > ceiling ==> before == after
  }

  ghost predicate TableFrozenAbove(ceiling: int, before: Table, after: Table) {
    forall key :: (key in before && before[key] > ceiling) || (key in after && after[key] > ceiling) ==>
      key in before && key in after && before[key] == after[key]
  }

  lemma CeilingStep(s: StateMap, e: Event, create: Event, version: RoomVersion, ceiling: int)
    requires RoomInvariant(s, create, version) && Accepts(s, e, version)
    requires LEVELS_KEY in s
    requires !LevelsOf(s, version).value.IsCreator(e.Sender())
    requires Bounds(ceiling, LevelsOf(s, version).value)
    ensures LEVELS_KEY in Apply(s, e) && LevelsOf(Apply(s, e), version).Some?
    ensures Bounds(ceiling, LevelsOf(Apply(s, e), version).value)
    ensures FrozenAbove(ceiling, LevelsOf(s, version).value, LevelsOf(Apply(s, e), version).value)
  {
    StepChangesLevels(s, e, create, version);
    if KeyOf(e) == Some(LEVELS_KEY) {
      ChangeStaysBelow(e.Sender(), LevelsOf(s, version).value, LevelsOf(Apply(s, e), version).value, ceiling);
    }
  }

  lemma ChangeStaysBelow(sender: string, before: Levels, after: Levels, ceiling: int)
    requires MayChange(before.UserLevel(sender), sender, before, after)
    requires !before.IsCreator(sender) && Bounds(ceiling, before)
    ensures Bounds(ceiling, after) && FrozenAbove(ceiling, before, after)
  {
    assert before.UserLevel(sender).value <= ceiling;
    ThresholdsAreJudgedOneByOne(before.UserLevel(sender), before, after);
  }

  lemma {:induction false} RunStaysBelow(s: StateMap, es: seq<Event>, create: Event, version: RoomVersion,
                                         ceiling: int, before: Levels)
    requires RoomInvariant(s, create, version) && AuthorisedRun(s, es, version)
    requires LEVELS_KEY in s && LevelsOf(s, version) == Some(before) && Bounds(ceiling, before)
    requires forall i | 0 <= i < |es| :: !before.IsCreator(es[i].Sender())
    ensures LevelsOf(Replay(s, es), version).Some?
    ensures Bounds(ceiling, LevelsOf(Replay(s, es), version).value)
    ensures FrozenAbove(ceiling, before, LevelsOf(Replay(s, es), version).value)
    decreases |es|
  {
    if es != [] {
      var next := Apply(s, es[0]);
      StepKeepsInvariant(s, es[0], create, version);
      CeilingStep(s, es[0], create, version, ceiling);
      var after := LevelsOf(next, version).value;
      CreatorsAreKept(s, es[0], create, version, before, after);
      RunStaysBelow(next, es[1..], create, version, ceiling, after);
      FreezingComposes(ceiling, before, after, LevelsOf(Replay(s, es), version).value);
    }
  }

  lemma CreatorsAreKept(s: StateMap, e: Event, create: Event, version: RoomVersion, before: Levels, after: Levels)
    requires RoomInvariant(s, create, version) && Accepts(s, e, version)
    requires LevelsOf(s, version) == Some(before) && LevelsOf(Apply(s, e), version) == Some(after)
    ensures forall user :: after.IsCreator(user) <==> before.IsCreator(user)
  {
    StepChangesLevels(s, e, create, version);
    LevelsCarryCreators(s, version);
    LevelsCarryCreators(Apply(s, e), version);
  }

  lemma FreezingComposes(ceiling: int, a: Levels, b: Levels, c: Levels)
    requires FrozenAbove(ceiling, a, b) && FrozenAbove(ceiling, b, c)
    ensures FrozenAbove(ceiling, a, c)
  {
  }

  /** Once a power levels event is in state, events by senders without a creator's rank never
      raise the ceiling, leave every threshold above it as it is, and raise none above it. */
  lemma CeilingNeverRises(s: StateMap, es: seq<Event>, create: Event, version: RoomVersion)
    requires RoomInvariant(s, create, version) && AuthorisedRun(s, es, version)
    requires LEVELS_KEY in s
    requires forall i | 0 <= i < |es| :: !LevelsOf(s, version).value.IsCreator(es[i].Sender())
    ensures LevelsOf(Replay(s, es), version).Some?
    ensures var before, after := LevelsOf(s, version).value, LevelsOf(Replay(s, es), version).value;
            Ceiling(after) <= Ceiling(before) && FrozenAbove(Ceiling(before), before, after)
  {
    var before := LevelsOf(s, version).value;
    RunStaysBelow(s, es, create, version, Ceiling(before), before);
  }

  /** Nothing sharper holds user by user.  An ordinary user ends up above the sender of an
      accepted change exactly when they were there already at that level, or when an entry
      that held them down was dropped under a users_default above the sender. */
  lemma WhoEndsUpAboveTheSender(sender: string, before: Levels, after: Levels, user: string)
    requires MayChange(before.UserLevel(sender), sender, before, after)
    requires !before.IsCreator(user) && !after.IsCreator(user)
    ensures after.UserLevel(user).GreaterThan(before.UserLevel(sender)) <==>
              || (&& before.UserLevel(user).GreaterThan(before.UserLevel(sender))
                  && after.UserLevel(user) == before.UserLevel(user))
              || (&& user in before.users && user !in after.users
                  && before.users[user] != before.usersDefault
                  && Power(before.usersDefault).GreaterThan(before.UserLevel(sender)))
  {
    ThresholdsAreJudgedOneByOne(before.UserLevel(sender), before, after);
  }

  /** Nor event type by event type.  Against any bound on the sender, an event type ends up above
      it after an accepted change exactly when it was there already at that level, or when an
      entry that held it down was dropped under a default above the bound. */
  lemma WhichEventTypesEndUpAbove(sender: string, before: Levels, after: Levels,
                                  eventType: string, isState: bool, bound: int)
    requires MayChange(before.UserLevel(sender), sender, before, after)
    requires Power(bound).AtLeast(before.UserLevel(sender))
    ensures var default := if isState then before.stateDefault else before.eventsDefault;
            after.EventLevel(eventType, isState).GreaterThan(Power(bound)) <==>
              || (&& before.EventLevel(eventType, isState).GreaterThan(Power(bound))
                  && after.EventLevel(eventType, isState) == before.EventLevel(eventType, isState))
              || (&& eventType in before.events && before.events[eventType] <= bound
                  && eventType !in after.events && default > bound)
  {
    ThresholdsAreJudgedOneByOne(before.UserLevel(sender), before, after);
  }

  // ----- a room where it happens

  const HELD_TYPE := "t"

  /** A member at 40 who may change the levels; an absent user held at 10 under a users_default
      of 60, and an event type held at 30 under a state_default of 90. */
  function HeldDown(version: RoomVersion): Levels {
    Levels(50, 50, 50, 0, 90, 0, 60, map[HELD_TYPE := 30, TYPE_POWER_LEVELS := 40],
           map[MEMBER := 40, ABSENT := 10], map[], [CREATOR], version)
  }

  /** The same without the two entries. */
  function LetGo(version: RoomVersion): Levels {
    HeldDown(version).(events := map[TYPE_POWER_LEVELS := 40], users := map[MEMBER := 40])
  }

  lemma HeldDownFits(version: RoomVersion)
    ensures Fits(HeldDown(version), version) && Fits(LetGo(version), version)
    ensures HeldDown(version).UserLevel(CREATOR).AtLeast(Power(0))
    ensures HeldDown(version).UserLevel(MEMBER) == Power(40) && Ceiling(HeldDown(version)) == 60
  {
    UsersAreApart();
    ShortIdsAreUserIds(MEMBER);
    ShortIdsAreUserIds(ABSENT);
  }

  lemma LettingGoIsAllowed(version: RoomVersion)
    ensures var before, after := HeldDown(version), LetGo(version);
            && MayChange(before.UserLevel(MEMBER), MEMBER, before, after)
            && after.UserLevel(ABSENT).GreaterThan(before.UserLevel(MEMBER))
            && !before.UserLevel(ABSENT).GreaterThan(before.UserLevel(MEMBER))
            && after.EventLevel(HELD_TYPE, true).GreaterThan(Power(60))
            && !before.EventLevel(HELD_TYPE, true).GreaterThan(Power(60))
  {
    UsersAreApart();
    assert HELD_TYPE[0] != TYPE_POWER_LEVELS[0];
  }

  /** Both do happen, in a reachable room of either version: an accepted change of levels puts a
      user above its sender and an event type above the ceiling that were not. */
  lemma DroppingAnEntryCanRaise(version: RoomVersion)
    requires Supported(version)
    ensures exists s: StateMap, e: Event, user: string, eventType: string ::
              && Reachable(s, FirstEvent(version), version) && LEVELS_KEY in s && Accepts(s, e, version)
              && LevelsOf(s, version).Some? && LevelsOf(Apply(s, e), version).Some?
              && Raises(LevelsOf(s, version).value, LevelsOf(Apply(s, e), version).value, e.Sender(), user, eventType)
  {
    var before, after := HeldDown(version), LetGo(version);
    var s, e := RoomWith(version, before), LevelsEvent(MEMBER, after);
    HeldDownFits(version);
    LettingGoIsAllowed(version);
    LevelsAreReachable(version, before);
    ChangesAreJudged(version, before, after);
    StateEventFields(TYPE_POWER_LEVELS, MEMBER, "", Render(after), "$l" + MEMBER);
    assert Raises(before, after, e.Sender(), ABSENT, HELD_TYPE);
  }

  /** The user ends up above the sender and the state event type above the ceiling, and neither
      was before. */
  ghost predicate Raises(before: Levels, after: Levels, sender: string, user: string, eventType: string) {
    && after.UserLevel(user).GreaterThan(before.UserLevel(sender))
    && !before.UserLevel(user).GreaterThan(before.UserLevel(sender))
    && after.EventLevel(eventType, true).GreaterThan(Power(Ceiling(before)))
    && !before.EventLevel(eventType, true).GreaterThan(Power(Ceiling(before)))
  }
}
