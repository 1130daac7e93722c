/** Rooms to try the rules on: whatever levels name ordinary users only and let the creator invite
    are the levels of a reachable room with a second member in it. */
module RoomsWithLevels {
  import opened Wrappers
  import opened JsonValues
  import opened RoomVersions
  import opened Events
  import opened PowerLevels
  import opened RoomState
  import opened AuthRules
  import opened RoomRuns
  import opened RoomSteps
  import Text
  import Utf8

  const CREATOR := "@a:x"
  const MEMBER := "@s:x"
  const ABSENT := "@u:x"

  lemma UsersAreApart()
    ensures CREATOR != MEMBER && CREATOR != ABSENT && MEMBER != ABSENT
  {
    assert CREATOR[1] == 'a' && MEMBER[1] == 's' && ABSENT[1] == 'u';
  }

  /** An at sign, a letter, a colon and a letter make a user id. */
  lemma ShortIdsAreUserIds(id: string)
    requires |id| == 4 && id[0] == '@' && id[1] != ':' && id[1] != '\0' && id[2] == ':'
    ensures IsUserId(id)
  {
    var body := id[1..];
    Utf8.SizeIsBounded(id);
    assert Text.OccursAt(body, ":", 1);
    assert body[0..1] == [id[1]] && !Text.OccursAt(body, ":", 0);
    assert id[..1] == "@" && body[..1] == [id[1]];
  }

  // ----- events

  function FirstEvent(version: RoomVersion): Event {
    Event(map["type" := String(TYPE_CREATE), "sender" := String(CREATOR), "state_key" := String(""),
              "content" := Object(map["room_version" := String(version.id)])]
          + (if version.createCarriesRoomId then map["room_id" := String("!c")] else map[]), "$c")
  }

  function StateEvent(eventType: string, sender: string, stateKey: string, content: Fields, id: string): Event
    requires id != ""
  {
    Event(map["type" := String(eventType), "sender" := String(sender), "state_key" := String(stateKey),
              "room_id" := String("!c"), "content" := Object(content), "prev_events" := Array([String("$c")])], id)
  }

  lemma StateEventFields(eventType: string, sender: string, stateKey: string, content: Fields, id: string)
    requires id != ""
    ensures var e := StateEvent(eventType, sender, stateKey, content, id);
            && e.Type() == eventType && e.Sender() == sender && KeyOf(e) == Some(StateKey(eventType, stateKey))
            && e.RoomId() == "!c" && e.Content() == content && |e.PrevEvents()| == 1
  {
    var fields := StateEvent(eventType, sender, stateKey, content, id).fields;
    assert fields["type"] == String(eventType) && fields["sender"] == String(sender);
    assert fields["state_key"] == String(stateKey) && fields["room_id"] == String("!c");
    assert fields["content"] == Object(content) && fields["prev_events"] == Array([String("$c")]);
  }

  function MemberEvent(sender: string, target: string, membership: string, id: string): Event
    requires id != ""
  {
    StateEvent(TYPE_MEMBER, sender, target, map["membership" := String(membership)], id)
  }

  function LevelsEvent(sender: string, levels: Levels): Event {
    StateEvent(TYPE_POWER_LEVELS, sender, "", Render(levels), "$l" + sender)
  }

  lemma FirstEventStartsRoom(version: RoomVersion)
    requires Supported(version)
    ensures var create := FirstEvent(version);
            && StartsRoom(create, version) && create.Sender() == CREATOR && create.id == "$c"
            && create.Content() == map["room_version" := String(version.id)]
  {
    var create := FirstEvent(version);
    assert create.fields["type"] == String(TYPE_CREATE) && create.fields["sender"] == String(CREATOR);
    assert create.fields["state_key"] == String("");
    assert create.fields["content"] == Object(map["room_version" := String(version.id)]);
    assert "prev_events" !in create.fields;
    CreationIsPermission(create, map[], version);
  }

  // ----- steps

  /** In a room of ours an event is accepted exactly when the rules for its type let its sender. */
  lemma EventIsJudged(s: StateMap, e: Event, version: RoomVersion, levels: Levels)
    requires Supported(version) && Reachable(s, FirstEvent(version), version) && LevelsOf(s, version) == Some(levels)
    requires e.Type() != TYPE_CREATE && e.RoomId() == "!c" && |e.PrevEvents()| == 1 && KeyOf(e).Some?
    ensures Accepts(s, e, version) <==>
              if e.Type() == TYPE_MEMBER then MayMove(s, levels, FirstEvent(version), e, KeyOf(e).value.stateKey)
              else MaySend(s, levels, FirstEvent(version), e, version)
    ensures Accepts(s, e, version) ==> Reachable(Apply(s, e), FirstEvent(version), version)
  {
    var create := FirstEvent(version);
    FirstEventStartsRoom(version);
    ReachableStatesAreSound(s, create, version);
    AuthorisationIsPermission(s, e, create, version);
    assert "m.federate" != "room_version";
    assert "$c"[1..] == "c" && "!" + "c" == "!c";
    if Accepts(s, e, version) {
      StepStaysReachable(s, e, create, version);
    }
  }

  lemma MembershipsAfter(s: StateMap, e: Event, userId: string)
    ensures Membership(Apply(s, e), userId)
         == if KeyOf(e) == Some(MemberKey(userId)) then MembershipIn(e) else Membership(s, userId)
    ensures KeyOf(e) != Some(JOIN_RULES_KEY) ==> JoinRule(Apply(s, e)) == JoinRule(s)
  {
  }

  /** A reachable room with these levels, closed to the uninvited, where these two stand so. */
  ghost predicate IsRoom(s: StateMap, version: RoomVersion, levels: Levels, creator: string, member: string) {
    && Reachable(s, FirstEvent(version), version) && LevelsOf(s, version) == Some(levels)
    && JoinRule(s) == RULE_INVITE
    && Membership(s, CREATOR) == creator && Membership(s, MEMBER) == member
  }

  /** A permitted membership event changes one membership and nothing else. */
  lemma MemberStep(s: StateMap, version: RoomVersion, levels: Levels, creator: string, member: string, e: Event,
                   sender: string, target: string, membership: string, id: string)
    requires Supported(version) && IsRoom(s, version, levels, creator, member) && id != ""
    requires e == MemberEvent(sender, target, membership, id) && target in {CREATOR, MEMBER}
    requires MayMove(s, levels, FirstEvent(version), e, target)
    ensures Accepts(s, e, version)
    ensures IsRoom(Apply(s, e), version, levels, if target == CREATOR then membership else creator,
                   if target == MEMBER then membership else member)
  {
    StateEventFields(TYPE_MEMBER, sender, target, map["membership" := String(membership)], id);
    KeysDiffer();
    UsersAreApart();
    EventIsJudged(s, e, version, levels);
    FirstEventStartsRoom(version);
    ReachableStatesAreSound(s, FirstEvent(version), version);
    AcceptedLevelsParse(s, e, FirstEvent(version), version);
    MembershipsAfter(s, e, CREATOR);
    MembershipsAfter(s, e, MEMBER);
  }

  // ----- the room

  /** Levels a room of this version can have, as far as the creators go. */
  ghost predicate Fits(levels: Levels, version: RoomVersion) {
    levels.version == version && levels.creators == [CREATOR] && NamesOrdinaryUsers(levels)
  }

  function Start(version: RoomVersion): StateMap {
    map[CREATE_KEY := FirstEvent(version)]
  }

  function Founded(version: RoomVersion): StateMap {
    Apply(Start(version), MemberEvent(CREATOR, CREATOR, JOIN, "$j"))
  }

  function Levelled(version: RoomVersion, levels: Levels): StateMap {
    Apply(Founded(version), LevelsEvent(CREATOR, levels))
  }

  /** Created, joined by its creator, given its levels, and joined by an invited member. */
  function RoomWith(version: RoomVersion, levels: Levels): StateMap {
    var invited := Apply(Levelled(version, levels), MemberEvent(CREATOR, MEMBER, INVITE, "$i"));
    Apply(invited, MemberEvent(MEMBER, MEMBER, JOIN, "$k"))
  }

  lemma CreatorsAreTheCreator(version: RoomVersion)
    requires Supported(version)
    ensures CreatorsNamedBy(FirstEvent(version), version) == [CREATOR]
  {
    FirstEventStartsRoom(version);
    assert "additional_creators" != "room_version";
    assert ItemsIn(FirstEvent(version).Content(), "additional_creators") == [];
  }

  lemma RoomIsFounded(version: RoomVersion)
    requires Supported(version)
    ensures LevelsOf(Start(version), version).Some?
    ensures IsRoom(Founded(version), version, LevelsOf(Start(version), version).value, JOIN, "")
    ensures LEVELS_KEY !in Founded(version)
  {
    var start, join := Start(version), MemberEvent(CREATOR, CREATOR, JOIN, "$j");
    FirstEventStartsRoom(version);
    StartIsReachable(FirstEvent(version), version);
    StateEventFields(TYPE_MEMBER, CREATOR, CREATOR, map["membership" := String(JOIN)], "$j");
    KeysDiffer();
    LevelsBeforeAnySet(start, version, CREATOR);
    MemberStep(start, version, LevelsOf(start, version).value, "", "", join, CREATOR, CREATOR, JOIN, "$j");
  }

  lemma RenderedLevelsParse(levels: Levels)
    requires NamesOrdinaryUsers(levels)
    ensures Parse(Render(levels), levels.version, levels.creators) == Some(levels)
  {
    LevelsReadBack(levels, {});
    assert Render(levels) - {} == Render(levels);
  }

  /** A joined user's change of levels is accepted exactly when they reach the level for it and,
      once there are levels to change, the change is within their reach; then the levels are the
      proposed ones. */
  lemma LevelsStep(s: StateMap, version: RoomVersion, before: Levels, creator: string, member: string,
                   sender: string, proposed: Levels)
    requires Supported(version) && IsRoom(s, version, before, creator, member) && Fits(proposed, version)
    requires Membership(s, sender) == JOIN
    ensures var e, rank := LevelsEvent(sender, proposed), before.UserLevel(sender);
            && (Accepts(s, e, version) <==>
                  && rank.AtLeast(before.EventLevel(TYPE_POWER_LEVELS, true))
                  && (LEVELS_KEY in s ==> MayChange(rank, sender, before, proposed)))
            && (Accepts(s, e, version) ==>
                  IsRoom(Apply(s, e), version, proposed, creator, member) && LEVELS_KEY in Apply(s, e))
  {
    var e := LevelsEvent(sender, proposed);
    StateEventFields(TYPE_POWER_LEVELS, sender, "", Render(proposed), "$l" + sender);
    KeysDiffer();
    CreatorsAreTheCreator(version);
    RenderedLevelsParse(proposed);
    LevelsMaySend(s, before, FirstEvent(version), e, version, Some(proposed));
    EventIsJudged(s, e, version, before);
    if Accepts(s, e, version) {
      FirstEventStartsRoom(version);
      ReachableStatesAreSound(s, FirstEvent(version), version);
      AcceptedLevelsParse(s, e, FirstEvent(version), version);
      MembershipsAfter(s, e, CREATOR);
      MembershipsAfter(s, e, MEMBER);
    }
  }

  lemma RoomGetsItsLevels(version: RoomVersion, levels: Levels)
    requires Supported(version) && Fits(levels, version)
    ensures IsRoom(Levelled(version, levels), version, levels, JOIN, "") && LEVELS_KEY in Levelled(version, levels)
  {
    var before := LevelsOf(Start(version), version).value;
    RoomIsFounded(version);
    FirstLevels(version);
    LevelsStep(Founded(version), version, before, JOIN, "", CREATOR, levels);
  }

  lemma FirstLevels(version: RoomVersion)
    requires Supported(version)
    ensures LevelsOf(Start(version), version).Some?
    ensures var levels := LevelsOf(Start(version), version).value;
            levels.UserLevel(CREATOR).AtLeast(levels.EventLevel(TYPE_POWER_LEVELS, true))
  {
    FirstEventStartsRoom(version);
    CreatorsAreTheCreator(version);
    LevelsBeforeAnySet(Start(version), version, CREATOR);
  }

  lemma InviteStep(s: StateMap, version: RoomVersion, levels: Levels)
    requires Supported(version) && IsRoom(s, version, levels, JOIN, "") && LEVELS_KEY in s
    requires levels.UserLevel(CREATOR).AtLeast(Power(levels.invite))
    ensures var t := Apply(s, MemberEvent(CREATOR, MEMBER, INVITE, "$i"));
            IsRoom(t, version, levels, JOIN, INVITE) && LEVELS_KEY in t
  {
    var invite := MemberEvent(CREATOR, MEMBER, INVITE, "$i");
    MembershipsDiffer();
    UsersAreApart();
    StateEventFields(TYPE_MEMBER, CREATOR, MEMBER, map["membership" := String(INVITE)], "$i");
    MemberStep(s, version, levels, JOIN, "", invite, CREATOR, MEMBER, INVITE, "$i");
  }

  lemma JoinStep(s: StateMap, version: RoomVersion, levels: Levels)
    requires Supported(version) && IsRoom(s, version, levels, JOIN, INVITE) && LEVELS_KEY in s
    ensures var t := Apply(s, MemberEvent(MEMBER, MEMBER, JOIN, "$k"));
            IsRoom(t, version, levels, JOIN, JOIN) && LEVELS_KEY in t
  {
    var join := MemberEvent(MEMBER, MEMBER, JOIN, "$k");
    MembershipsDiffer();
    UsersAreApart();
    StateEventFields(TYPE_MEMBER, MEMBER, MEMBER, map["membership" := String(JOIN)], "$k");
    MemberStep(s, version, levels, JOIN, INVITE, join, MEMBER, MEMBER, JOIN, "$k");
  }

  /** Whatever levels fit a room and let its creator invite are the levels of a reachable room
      with a second member. */
  lemma LevelsAreReachable(version: RoomVersion, levels: Levels)
    requires Supported(version) && Fits(levels, version)
    requires levels.UserLevel(CREATOR).AtLeast(Power(levels.invite))
    ensures IsRoom(RoomWith(version, levels), version, levels, JOIN, JOIN) && LEVELS_KEY in RoomWith(version, levels)
  {
    var s := Levelled(version, levels);
    RoomGetsItsLevels(version, levels);
    InviteStep(s, version, levels);
    JoinStep(Apply(s, MemberEvent(CREATOR, MEMBER, INVITE, "$i")), version, levels);
  }

  /** In that room the member's change of levels is accepted exactly when they reach the level
      for it and the change is within their reach; then the levels are the proposed ones. */
  lemma ChangesAreJudged(version: RoomVersion, levels: Levels, proposed: Levels)
    requires Supported(version) && Fits(levels, version) && Fits(proposed, version)
    requires levels.UserLevel(CREATOR).AtLeast(Power(levels.invite))
    ensures var s, e, rank := RoomWith(version, levels), LevelsEvent(MEMBER, proposed), levels.UserLevel(MEMBER);
            && (Accepts(s, e, version) <==>
                  rank.AtLeast(levels.EventLevel(TYPE_POWER_LEVELS, true)) && MayChange(rank, MEMBER, levels, proposed))
            && (Accepts(s, e, version) ==> LevelsOf(Apply(s, e), version) == Some(proposed))
  {
    LevelsAreReachable(version, levels);
    LevelsStep(RoomWith(version, levels), version, levels, JOIN, JOIN, MEMBER, proposed);
  }
}
