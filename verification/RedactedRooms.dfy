/** Redaction and authorisation: what the rules read of an event, and of the state, survives
    redaction, with one exception among the power levels. */
module RedactedRooms {
  import opened Wrappers
  import opened JsonValues
  import opened RoomVersions
  import opened Events
  import opened PowerLevels
  import opened RoomState
  import opened AuthRules
  import opened RoomRuns
  import opened RoomSteps
  import opened RoomsWithLevels
  import opened Redaction

  // ----- one event

  /** Fields outside the content keep their values when they are on the list. */
  lemma ListedFieldsStay(fields: Fields)
    ensures forall key | key in TOP_LEVEL && key != "content" ::
              (key in Redact(fields) <==> key in fields) && (key in fields ==> Redact(fields)[key] == fields[key])
  {
  }

  lemma EnvelopeSurvives(e: Event)
    ensures var r := Redacted(e);
            && r.Type() == e.Type() && r.Sender() == e.Sender() && r.RoomId() == e.RoomId()
            && r.StateKey() == e.StateKey() && KeyOf(r) == KeyOf(e) && r.PrevEvents() == e.PrevEvents()
            && ("room_id" in r.fields <==> "room_id" in e.fields)
            && r.Content() == RedactContent(e.Type(), e.Content())
  {
    RedactKeepsTypeAndContent(e.fields);
    ListedFieldsStay(e.fields);
    assert TOP_LEVEL[1] == "type" && TOP_LEVEL[2] == "room_id"
        && TOP_LEVEL[3] == "sender" && TOP_LEVEL[4] == "state_key";
    assert TOP_LEVEL[9] == "prev_events";
    assert "room_id"[0] != "content"[0] && "sender"[0] != "content"[0]
        && "state_key"[0] != "content"[0] && "prev_events"[0] != "content"[0];
  }

  lemma MemberContentSurvives(content: Fields)
    ensures var kept := RedactContent(TYPE_MEMBER, content);
            && StringIn(kept, "membership") == StringIn(content, "membership")
            && StringIn(kept, "join_authorised_via_users_server")
               == StringIn(content, "join_authorised_via_users_server")
            && ThirdPartyToken(kept) == ThirdPartyToken(content)
  {
  }

  /** The membership rules see no difference between the two events. */
  ghost predicate AlikeToMemberRules(r: Event, e: Event) {
    && r.Sender() == e.Sender() && r.StateKey() == e.StateKey() && r.PrevEvents() == e.PrevEvents()
    && MembershipIn(r) == MembershipIn(e) && VoucherIn(r) == VoucherIn(e)
    && ThirdPartyToken(r.Content()) == ThirdPartyToken(e.Content())
  }

  lemma AlikeEventsJudgedAlike(r: Event, e: Event, s: StateMap, levels: Levels, version: RoomVersion)
    requires AlikeToMemberRules(r, e)
    ensures AuthoriseMember(r, s, levels, version) == AuthoriseMember(e, s, levels, version)
  {
    if e.StateKey().Some? {
      AlikeJoinsJudgedAlike(r, e, s, e.StateKey().value, version);
      AlikeMovesJudgedAlike(r, e, s, levels, e.StateKey().value);
    }
  }

  lemma AlikeJoinsJudgedAlike(r: Event, e: Event, s: StateMap, target: string, version: RoomVersion)
    requires r.Sender() == e.Sender() && r.PrevEvents() == e.PrevEvents() && VoucherIn(r) == VoucherIn(e)
    ensures AuthoriseJoin(r, s, target, version) == AuthoriseJoin(e, s, target, version)
  {
  }

  lemma AlikeMovesJudgedAlike(r: Event, e: Event, s: StateMap, levels: Levels, target: string)
    requires r.Sender() == e.Sender() && ThirdPartyToken(r.Content()) == ThirdPartyToken(e.Content())
    ensures AuthoriseInvite(r, s, levels, target) == AuthoriseInvite(e, s, levels, target)
    ensures AuthoriseLeave(r, s, levels, target) == AuthoriseLeave(e, s, levels, target)
    ensures AuthoriseBan(r, s, levels, target) == AuthoriseBan(e, s, levels, target)
    ensures AuthoriseKnock(r, s, target) == AuthoriseKnock(e, s, target)
  {
  }

  lemma MembershipEventsStayAlike(e: Event)
    requires e.Type() == TYPE_MEMBER
    ensures AlikeToMemberRules(Redacted(e), e)
  {
    EnvelopeSurvives(e);
    MemberContentSurvives(e.Content());
  }

  lemma OtherVerdictSurvives(e: Event, s: StateMap, levels: Levels, version: RoomVersion)
    requires e.Type() != TYPE_POWER_LEVELS
    ensures AuthoriseOther(Redacted(e), s, levels, version) == AuthoriseOther(e, s, levels, version)
  {
    EnvelopeSurvives(e);
  }

  /** Whether an event other than a power levels event is accepted, and the cause if not, does
      not depend on whether it has been redacted. */
  lemma RedactingTheEvent(e: Event, s: StateMap, version: RoomVersion)
    requires e.Type() != TYPE_POWER_LEVELS
    ensures Authorise(Redacted(e), s, version) == Authorise(e, s, version)
  {
    EnvelopeSurvives(e);
    if e.Type() == TYPE_CREATE {
      assert AuthoriseCreate(Redacted(e), version) == AuthoriseCreate(e, version);
    } else if CREATE_KEY in s {
      assert CheckFederate(Redacted(e), s[CREATE_KEY]) == CheckFederate(e, s[CREATE_KEY]);
      if LevelsOf(s, version).Some? {
        if e.Type() == TYPE_MEMBER {
          MembershipEventsStayAlike(e);
          AlikeEventsJudgedAlike(Redacted(e), e, s, LevelsOf(s, version).value, version);
        } else {
          OtherVerdictSurvives(e, s, LevelsOf(s, version).value, version);
        }
      }
    }
  }

  // ----- the state

  /** The state once the events under these keys have been redacted in place. */
  function RedactAt(s: StateMap, keys: set<StateKey>): StateMap {
    map key | key in s :: if key in keys then Redacted(s[key]) else s[key]
  }

  /** The create event as it then is. */
  function CreateAt(create: Event, keys: set<StateKey>): Event {
    if CREATE_KEY in keys then Redacted(create) else create
  }

  /** The levels in force as they then are. */
  function LevelsAt(levels: Levels, keys: set<StateKey>): Levels {
    if LEVELS_KEY in keys then levels.(notifications := map[]) else levels
  }

  lemma LevelsContentSurvives(content: Fields, version: RoomVersion, creators: seq<string>)
    requires Parse(content, version, creators).Some?
    ensures Parse(RedactContent(TYPE_POWER_LEVELS, content), version, creators)
         == Some(Parse(content, version, creators).value.(notifications := map[]))
  {
    LevelsKeysSurvive(content);
    ParseWithoutNotifications(RedactContent(TYPE_POWER_LEVELS, content), content, version, creators);
  }

  ghost predicate OnlyNotificationsDropped(kept: Fields, content: Fields) {
    && SameField(kept, content, "ban") && SameField(kept, content, "events")
    && SameField(kept, content, "events_default")
    && SameField(kept, content, "invite") && SameField(kept, content, "kick") && SameField(kept, content, "redact")
    && SameField(kept, content, "state_default") && SameField(kept, content, "users")
    && SameField(kept, content, "users_default") && "notifications" !in kept
  }

  lemma ParseWithoutNotifications(kept: Fields, content: Fields, version: RoomVersion, creators: seq<string>)
    requires OnlyNotificationsDropped(kept, content)
    requires Parse(content, version, creators).Some?
    ensures Parse(kept, version, creators) == Some(Parse(content, version, creators).value.(notifications := map[]))
  {
    ReadWithoutNotifications(kept, content, version, creators);
  }

  lemma ReadWithoutNotifications(kept: Fields, content: Fields, version: RoomVersion, creators: seq<string>)
    requires OnlyNotificationsDropped(kept, content)
    requires Read(content, version, creators).Some?
    ensures Read(kept, version, creators) == Some(Read(content, version, creators).value.(notifications := map[]))
  {
    ScalarsAlike(kept, content);
    assert TableIn(kept, "events") == TableIn(content, "events") && TableIn(kept, "users") == TableIn(content, "users");
    assert TableIn(kept, "notifications") == Some(map[]);
  }

  lemma ScalarsAlike(kept: Fields, content: Fields)
    requires OnlyNotificationsDropped(kept, content)
    ensures ScalarIn(kept, "ban", 50) == ScalarIn(content, "ban", 50)
    ensures ScalarIn(kept, "kick", 50) == ScalarIn(content, "kick", 50)
    ensures ScalarIn(kept, "redact", 50) == ScalarIn(content, "redact", 50)
    ensures ScalarIn(kept, "invite", 0) == ScalarIn(content, "invite", 0)
    ensures ScalarIn(kept, "state_default", 50) == ScalarIn(content, "state_default", 50)
    ensures ScalarIn(kept, "events_default", 0) == ScalarIn(content, "events_default", 0)
    ensures ScalarIn(kept, "users_default", 0) == ScalarIn(content, "users_default", 0)
  {
  }

  lemma LevelsKeysSurvive(content: Fields)
    ensures OnlyNotificationsDropped(RedactContent(TYPE_POWER_LEVELS, content), content)
  {
    LevelsTypeIsItsOwn();
    var keys, kept := KeptContentKeys(TYPE_POWER_LEVELS), RedactContent(TYPE_POWER_LEVELS, content);
    assert kept == Keep(content, keys);
    assert forall key | key in keys :: SameField(kept, content, key);
    assert keys[0] == "ban" && keys[1] == "events" && keys[2] == "events_default"
        && keys[3] == "invite" && keys[4] == "kick" && keys[5] == "redact"
        && keys[6] == "state_default" && keys[7] == "users" && keys[8] == "users_default";
    assert forall i | 0 <= i < |keys| :: keys[i][0] != 'n';
  }

  lemma LevelsTypeIsItsOwn()
    ensures TYPE_POWER_LEVELS != TYPE_CREATE && TYPE_POWER_LEVELS != TYPE_MEMBER && TYPE_POWER_LEVELS != TYPE_JOIN_RULES
    ensures TYPE_POWER_LEVELS != TYPE_HISTORY_VISIBILITY && TYPE_POWER_LEVELS != TYPE_REDACTION
  {
  }

  lemma JoinRuleSurvives(content: Fields)
    ensures StringIn(RedactContent(TYPE_JOIN_RULES, content), "join_rule") == StringIn(content, "join_rule")
  {
  }

  lemma LookupsSurvive(s: StateMap, keys: set<StateKey>, userId: string)
    requires forall key | key in s :: KeyOf(s[key]) == Some(key)
    ensures Membership(RedactAt(s, keys), userId) == Membership(s, userId)
    ensures JoinRule(RedactAt(s, keys)) == JoinRule(s)
  {
    if MemberKey(userId) in s {
      EnvelopeSurvives(s[MemberKey(userId)]);
      MemberContentSurvives(s[MemberKey(userId)].Content());
    }
    if JOIN_RULES_KEY in s {
      EnvelopeSurvives(s[JOIN_RULES_KEY]);
      JoinRuleSurvives(s[JOIN_RULES_KEY].Content());
    }
  }

  lemma CreateSurvives(create: Event, keys: set<StateKey>, version: RoomVersion)
    requires create.Type() == TYPE_CREATE
    ensures var made := CreateAt(create, keys);
            && made.Sender() == create.Sender() && made.Content() == create.Content() && KeyOf(made) == KeyOf(create)
            && made.id == create.id && CreatorsNamedBy(made, version) == CreatorsNamedBy(create, version)
  {
    EnvelopeSurvives(create);
  }

  /** The levels in force survive but for the notifications table. */
  lemma LevelsSurvive(s: StateMap, keys: set<StateKey>, create: Event, version: RoomVersion)
    requires RoomInvariant(s, create, version)
    ensures LevelsOf(RedactAt(s, keys), version) == Some(LevelsAt(LevelsOf(s, version).value, keys))
    ensures Creators(RedactAt(s, keys), version) == Creators(s, version)
  {
    CreateSurvives(create, keys, version);
    assert RedactAt(s, keys)[CREATE_KEY] == CreateAt(create, keys);
    if LEVELS_KEY in s && LEVELS_KEY in keys {
      EnvelopeSurvives(s[LEVELS_KEY]);
      LevelsContentSurvives(s[LEVELS_KEY].Content(), version, Creators(s, version));
    }
  }

  lemma RedactedRoomIsSound(s: StateMap, keys: set<StateKey>, create: Event, version: RoomVersion)
    requires RoomInvariant(s, create, version)
    ensures RoomInvariant(RedactAt(s, keys), CreateAt(create, keys), version)
  {
    LevelsSurvive(s, keys, create, version);
    CreateSurvives(create, keys, version);
    forall key | key in s
      ensures KeyOf(RedactAt(s, keys)[key]) == Some(key)
    {
      EnvelopeSurvives(s[key]);
    }
    assert RedactAt(s, keys).Keys == s.Keys;
  }

  /** The rules look the same things up in both rooms. */
  ghost predicate AlikeToRules(t: StateMap, stripped: Levels, s: StateMap, levels: Levels) {
    && t.Keys == s.Keys && JoinRule(t) == JoinRule(s)
    && (forall user :: Membership(t, user) == Membership(s, user))
    && stripped == levels.(notifications := stripped.notifications)
  }

  lemma AlikeRoomsMoveAlike(t: StateMap, stripped: Levels, s: StateMap, levels: Levels, made: Event, create: Event,
                            e: Event, target: string)
    requires AlikeToRules(t, stripped, s, levels) && made.Sender() == create.Sender()
    ensures MayMove(t, stripped, made, e, target) <==> MayMove(s, levels, create, e, target)
  {
    assert forall user :: stripped.UserLevel(user) == levels.UserLevel(user);
    assert DoorOpen(t, stripped, target, VoucherIn(e)) <==> DoorOpen(s, levels, target, VoucherIn(e));
  }

  lemma AlikeRoomsSendAlike(t: StateMap, stripped: Levels, s: StateMap, levels: Levels, made: Event, create: Event,
                            e: Event, version: RoomVersion)
    requires AlikeToRules(t, stripped, s, levels) && e.Type() != TYPE_POWER_LEVELS
    ensures MaySend(t, stripped, made, e, version) <==> MaySend(s, levels, create, e, version)
  {
  }

  lemma RedactedRoomsAreAlike(s: StateMap, keys: set<StateKey>, create: Event, version: RoomVersion)
    requires RoomInvariant(s, create, version)
    ensures AlikeToRules(RedactAt(s, keys), LevelsAt(LevelsOf(s, version).value, keys), s, LevelsOf(s, version).value)
  {
    forall user
      ensures Membership(RedactAt(s, keys), user) == Membership(s, user)
    {
      LookupsSurvive(s, keys, user);
    }
    LookupsSurvive(s, keys, "");
    assert RedactAt(s, keys).Keys == s.Keys;
  }

  /** What the rules ask of any event, whoever sends it. */
  ghost predicate PassesTheGate(e: Event, create: Event, version: RoomVersion) {
    (version.roomIdFormat.CreateEventHash? ==> e.RoomId() == "!" + create.id[1..]) && Federates(e, create)
  }

  lemma GateSurvives(e: Event, keys: set<StateKey>, create: Event, version: RoomVersion)
    requires create.Type() == TYPE_CREATE
    ensures PassesTheGate(e, CreateAt(create, keys), version) <==> PassesTheGate(e, create, version)
  {
    CreateSurvives(create, keys, version);
  }

  /** Redacting any events of the state changes the verdict on no event but a power levels
      event. */
  lemma RedactingTheState(e: Event, s: StateMap, keys: set<StateKey>, create: Event, version: RoomVersion)
    requires RoomInvariant(s, create, version)
    requires e.Type() != TYPE_POWER_LEVELS && |e.PrevEvents()| == 1
    ensures Authorise(e, RedactAt(s, keys), version).Accepted? <==> Authorise(e, s, version).Accepted?
  {
    var t, levels, made := RedactAt(s, keys), LevelsOf(s, version).value, CreateAt(create, keys);
    LevelsSurvive(s, keys, create, version);
    RedactedRoomIsSound(s, keys, create, version);
    AuthorisationIsPermission(s, e, create, version);
    AuthorisationIsPermission(t, e, made, version);
    GateSurvives(e, keys, create, version);
    CreateSurvives(create, keys, version);
    RedactedRoomsAreAlike(s, keys, create, version);
    if e.Type() != TYPE_MEMBER {
      AlikeRoomsSendAlike(t, LevelsAt(levels, keys), s, levels, made, create, e, version);
    } else if e.StateKey().Some? {
      AlikeRoomsMoveAlike(t, LevelsAt(levels, keys), s, levels, made, create, e, e.StateKey().value);
    }
  }

  // ----- the exception

  /** The proposed levels replace stored ones, are within the sender's reach apart from the
      notifications table, and that table is judged differently against the stored one and
      against none. */
  ghost predicate TableDecides(e: Event, hasLevels: bool, before: Levels, proposed: Option<Levels>) {
    var sender := before.UserLevel(e.Sender());
    && hasLevels && proposed.Some?
    && sender.AtLeast(before.EventLevel(TYPE_POWER_LEVELS, KeyOf(e).Some?)) && !OwnedByAnother(e)
    && ScalarsMayChange(sender, before.Scalars(), proposed.value.Scalars())
    && TableMayChange(sender, before.events, proposed.value.events)
    && UsersMayChange(sender, e.Sender(), before.users, proposed.value.users)
    && var after := proposed.value.notifications;
    TableMayChange(sender, before.notifications, after)
      != forall key | key in after :: sender.AtLeast(Power(after[key]))
  }

  /** All else is in order with the event, and the notifications table decides on it. */
  ghost predicate NotificationsDecide(e: Event, s: StateMap, create: Event, version: RoomVersion, before: Levels) {
    && PassesTheGate(e, create, version) && Membership(s, e.Sender()) == JOIN
    && TableDecides(e, LEVELS_KEY in s, before, Parse(e.Content(), version, CreatorsNamedBy(create, version)))
  }

  /** On a power levels event the verdicts part exactly when the stored levels are redacted and
      their notifications table decides: an entry the sender may not touch stops protecting
      itself, and one that was left as it was counts as newly granted. */
  lemma RedactingTheLevels(e: Event, s: StateMap, keys: set<StateKey>, create: Event, version: RoomVersion,
                           before: Levels)
    requires RoomInvariant(s, create, version) && LevelsOf(s, version) == Some(before)
    requires e.Type() == TYPE_POWER_LEVELS && |e.PrevEvents()| == 1
    ensures (Authorise(e, RedactAt(s, keys), version).Accepted? <==> Authorise(e, s, version).Accepted?) <==>
              !(LEVELS_KEY in keys && NotificationsDecide(e, s, create, version, before))
  {
    var proposed := Parse(e.Content(), version, CreatorsNamedBy(create, version));
    LevelsVerdict(e, s, create, version, before, proposed);
    VerdictAfterRedaction(e, s, keys, create, version, before, proposed);
    RulingAfterRedaction(e, LEVELS_KEY in s, before, proposed);
  }

  /** What the rules ask of a power levels event past the gate and the sender's membership. */
  ghost predicate LevelsRuling(e: Event, hasLevels: bool, before: Levels, proposed: Option<Levels>) {
    var sender := before.UserLevel(e.Sender());
    && sender.AtLeast(before.EventLevel(TYPE_POWER_LEVELS, KeyOf(e).Some?)) && !OwnedByAnother(e)
    && proposed.Some? && (hasLevels ==> MayChange(sender, e.Sender(), before, proposed.value))
  }

  lemma LevelsVerdict(e: Event, s: StateMap, create: Event, version: RoomVersion,
                      before: Levels, proposed: Option<Levels>)
    requires RoomInvariant(s, create, version) && LevelsOf(s, version) == Some(before)
    requires e.Type() == TYPE_POWER_LEVELS && |e.PrevEvents()| == 1
    requires proposed == Parse(e.Content(), version, CreatorsNamedBy(create, version))
    ensures Authorise(e, s, version).Accepted? <==>
              && PassesTheGate(e, create, version) && Membership(s, e.Sender()) == JOIN
              && LevelsRuling(e, LEVELS_KEY in s, before, proposed)
  {
    AuthorisationIsPermission(s, e, create, version);
    LevelsTypeIsItsOwn();
    LevelsMaySend(s, before, create, e, version, proposed);
  }

  lemma VerdictAfterRedaction(e: Event, s: StateMap, keys: set<StateKey>, create: Event, version: RoomVersion,
                              before: Levels, proposed: Option<Levels>)
    requires RoomInvariant(s, create, version) && LevelsOf(s, version) == Some(before)
    requires e.Type() == TYPE_POWER_LEVELS && |e.PrevEvents()| == 1
    requires proposed == Parse(e.Content(), version, CreatorsNamedBy(create, version))
    ensures Authorise(e, RedactAt(s, keys), version).Accepted? <==>
              && PassesTheGate(e, create, version) && Membership(s, e.Sender()) == JOIN
              && LevelsRuling(e, LEVELS_KEY in s, LevelsAt(before, keys), proposed)
  {
    LevelsSurvive(s, keys, create, version);
    RedactedRoomIsSound(s, keys, create, version);
    CreateSurvives(create, keys, version);
    LevelsVerdict(e, RedactAt(s, keys), CreateAt(create, keys), version, LevelsAt(before, keys), proposed);
    GateSurvives(e, keys, create, version);
    LookupsSurvive(s, keys, e.Sender());
  }

  lemma RulingAfterRedaction(e: Event, hasLevels: bool, before: Levels, proposed: Option<Levels>)
    ensures TableDecides(e, hasLevels, before, proposed) <==>
              LevelsRuling(e, hasLevels, before.(notifications := map[]), proposed)
                != LevelsRuling(e, hasLevels, before, proposed)
  {
    var sender, stripped := before.UserLevel(e.Sender()), before.(notifications := map[]);
    assert stripped.UserLevel(e.Sender()) == sender && stripped.Scalars() == before.Scalars();
  }

  // ----- a room where it happens

  const KEYWORD := "room"

  /** A member at 50, which is enough for the power levels, and a notifications entry. */
  function Notifying(version: RoomVersion, level: int): Levels {
    Levels(50, 50, 50, 0, 50, 0, 0, map[], map[MEMBER := 50], map[KEYWORD := level], [CREATOR], version)
  }

  lemma NotifyingFits(version: RoomVersion, level: int)
    ensures Fits(Notifying(version, level), version)
    ensures Notifying(version, level).UserLevel(CREATOR).AtLeast(Power(0))
    ensures Notifying(version, level).UserLevel(MEMBER) == Power(50)
  {
    UsersAreApart();
    ShortIdsAreUserIds(MEMBER);
  }

  lemma NotifyingMayChange(version: RoomVersion, level: int)
    ensures var before, after := Notifying(version, 100), Notifying(version, level);
            && (MayChange(Power(50), MEMBER, before, after) <==> level == 100)
            && (MayChange(Power(50), MEMBER, before.(notifications := map[]), after) <==> level <= 50)
  {
    var before, after := Notifying(version, 100), Notifying(version, level);
    assert before.notifications[KEYWORD] == 100 && after.notifications[KEYWORD] == level;
  }

  lemma EventsPassTheGate(version: RoomVersion, e: Event)
    requires Supported(version) && e.RoomId() == "!c"
    ensures PassesTheGate(e, FirstEvent(version), version)
  {
    FirstEventStartsRoom(version);
    assert "m.federate" != "room_version" && "!" + "$c"[1..] == "!c";
  }

  /** In a room of ours, redacting the levels judges a change of them by what is left. */
  lemma RedactedChangesAreJudged(version: RoomVersion, levels: Levels, proposed: Levels)
    requires Supported(version) && Fits(levels, version) && Fits(proposed, version)
    requires levels.UserLevel(CREATOR).AtLeast(Power(levels.invite))
    ensures var t, e := RedactAt(RoomWith(version, levels), {LEVELS_KEY}), LevelsEvent(MEMBER, proposed);
            Authorise(e, t, version).Accepted? <==>
              LevelsRuling(e, true, levels.(notifications := map[]), Some(proposed))
  {
    var s, e, create := RoomWith(version, levels), LevelsEvent(MEMBER, proposed), FirstEvent(version);
    LevelsAreReachable(version, levels);
    ReachableStatesAreSound(s, create, version);
    StateEventFields(TYPE_POWER_LEVELS, MEMBER, "", Render(proposed), "$l" + MEMBER);
    FirstEventStartsRoom(version);
    CreatorsAreTheCreator(version);
    RenderedLevelsParse(proposed);
    EventsPassTheGate(version, e);
    VerdictAfterRedaction(e, s, {LEVELS_KEY}, create, version, levels, Some(proposed));
  }

  /** What becomes of a change of the entry from 100 when the stored levels are redacted: the
      member may then lower it to 50, and may no longer leave it alone. */
  lemma ChangeMeetsRedaction(version: RoomVersion, level: int)
    requires Supported(version)
    ensures var s, e := RoomWith(version, Notifying(version, 100)), LevelsEvent(MEMBER, Notifying(version, level));
            && Reachable(s, FirstEvent(version), version)
            && (Authorise(e, s, version).Accepted? <==> level == 100)
            && (Authorise(e, RedactAt(s, {LEVELS_KEY}), version).Accepted? <==> level <= 50)
  {
    var before, after := Notifying(version, 100), Notifying(version, level);
    NotifyingFits(version, 100);
    NotifyingFits(version, level);
    LevelsAreReachable(version, before);
    ChangesAreJudged(version, before, after);
    RedactedChangesAreJudged(version, before, after);
    StateEventFields(TYPE_POWER_LEVELS, MEMBER, "", Render(after), "$l" + MEMBER);
    NotifyingMayChange(version, level);
  }

  /** Both ways of parting happen in a reachable room of either version. */
  lemma RedactionCanOpenAndClose(version: RoomVersion)
    requires Supported(version)
    ensures exists s: StateMap, freed: Event, barred: Event ::
              && Reachable(s, FirstEvent(version), version)
              && Authorise(freed, s, version).Refused?
              && Authorise(freed, RedactAt(s, {LEVELS_KEY}), version).Accepted?
              && Authorise(barred, s, version).Accepted?
              && Authorise(barred, RedactAt(s, {LEVELS_KEY}), version).Refused?
  {
    ChangeMeetsRedaction(version, 50);
    ChangeMeetsRedaction(version, 100);
  }
}
