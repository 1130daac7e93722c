/** What one accepted event can do to a room: the rules as conditions on the state, with no
    order of checks, and the changes they allow. */
module RoomSteps {
  import opened Wrappers
  import opened JsonValues
  import opened RoomVersions
  import opened Events
  import opened PowerLevels
  import opened RoomState
  import opened AuthRules
  import opened RoomRuns

  function MembershipIn(e: Event): string {
    StringIn(e.Content(), "membership")
  }

  function VoucherIn(e: Event): string {
    StringIn(e.Content(), "join_authorised_via_users_server")
  }

  // ----- the conditions
  //
  // Event types, memberships, join rules and content keys are spelled out here as the
  // specification spells them, not by the names the rules use for them.

  /** A joined sender with power for `level` who outranks the target. */
  ghost predicate Overrules(s: StateMap, levels: Levels, sender: string, target: string, level: int) {
    && Membership(s, sender) == "join"
    && levels.UserLevel(sender).AtLeast(Power(level))
    && levels.UserLevel(sender).GreaterThan(levels.UserLevel(target))
  }

  /** The join rule lets the user in: public to anyone; otherwise to the invited and the joined,
      and under the restricted rules to whoever a joined user with power to invite vouches for. */
  ghost predicate DoorOpen(s: StateMap, levels: Levels, userId: string, voucher: string) {
    var rule := JoinRule(s);
    var restricted := rule == "restricted" || rule == "knock_restricted";
    || rule == "public"
    || ((rule == "invite" || rule == "knock" || restricted)
        && (Membership(s, userId) == "invite" || Membership(s, userId) == "join"))
    || (restricted && voucher != "" && Membership(s, voucher) == "join"
        && levels.UserLevel(voucher).AtLeast(Power(levels.invite)))
  }

  /** The content carries a signed third party invite with a token. */
  ghost predicate HoldsToken(content: Fields) {
    && "third_party_invite" in content && content["third_party_invite"].Object?
    && var invite := content["third_party_invite"].fields;
    && "signed" in invite && invite["signed"].Object?
    && var signed := invite["signed"].fields;
    && "token" in signed && signed["token"].String? && signed["token"].s != ""
  }

  /** The event's sender may take the target to the membership the event asks for. */
  ghost predicate MayMove(s: StateMap, levels: Levels, create: Event, e: Event, target: string) {
    var sender, from, to := e.Sender(), Membership(s, target), MembershipIn(e);
    || (to == "join" && s.Keys == {StateKey("m.room.create", "")} && target == create.Sender())
    || (to == "join" && sender == target && from != "ban" && DoorOpen(s, levels, target, VoucherIn(e)))
    || (to == "invite" && Membership(s, sender) == "join" && from != "join" && from != "ban"
        && (HoldsToken(e.Content()) || levels.UserLevel(sender).AtLeast(Power(levels.invite))))
    || (to == "leave" && sender == target && (from == "invite" || from == "join" || from == "knock"))
    || (to == "leave" && sender != target && Overrules(s, levels, sender, target, levels.kick)
        && (from == "ban" ==> Overrules(s, levels, sender, target, levels.ban)))
    || (to == "ban" && Overrules(s, levels, sender, target, levels.ban))
    || (to == "knock" && sender == target && from != "ban" && from != "invite" && from != "join"
        && (JoinRule(s) == "knock" || JoinRule(s) == "knock_restricted"))
  }

  /** A threshold that changes is within the sender's reach before and after. */
  ghost predicate IsReached(sender: Rank, before: int, after: int) {
    before == after || (sender.AtLeast(Power(before)) && sender.AtLeast(Power(after)))
  }

  function EntryOf(table: Table, key: string): Option<int> {
    if key in table then Some(table[key]) else None
  }

  /** An entry that appears, changes or goes is within the sender's reach on either side. */
  ghost predicate IsEntryReached(sender: Rank, before: Option<int>, after: Option<int>) {
    before == after
    || ((before.Some? ==> sender.AtLeast(Power(before.value))) && (after.Some? ==> sender.AtLeast(Power(after.value))))
  }

  /** So is a user's, except that somebody else's must have been below the sender. */
  ghost predicate IsUserReached(sender: Rank, own: bool, before: Option<int>, after: Option<int>) {
    before == after
    || ((before.Some? && !own ==> sender.GreaterThan(Power(before.value)))
        && (after.Some? ==> sender.AtLeast(Power(after.value))))
  }

  /** The sender may replace these levels by those: each threshold, each entry of the events and
      notifications tables and each user's entry by itself. */
  ghost predicate MayReplace(sender: Rank, senderId: string, before: Levels, after: Levels) {
    && IsReached(sender, before.ban, after.ban)
    && IsReached(sender, before.kick, after.kick)
    && IsReached(sender, before.redact, after.redact)
    && IsReached(sender, before.invite, after.invite)
    && IsReached(sender, before.stateDefault, after.stateDefault)
    && IsReached(sender, before.eventsDefault, after.eventsDefault)
    && IsReached(sender, before.usersDefault, after.usersDefault)
    && (forall key :: IsEntryReached(sender, EntryOf(before.events, key), EntryOf(after.events, key)))
    && (forall key :: IsEntryReached(sender, EntryOf(before.notifications, key), EntryOf(after.notifications, key)))
    && (forall user ::
          IsUserReached(sender, user == senderId, EntryOf(before.users, user), EntryOf(after.users, user)))
  }

  /** A joined sender may send this, which is not a membership event. */
  ghost predicate MaySend(s: StateMap, levels: Levels, create: Event, e: Event, version: RoomVersion) {
    var rank, key := levels.UserLevel(e.Sender()), KeyOf(e);
    && Membership(s, e.Sender()) == "join"
    && if e.Type() == "m.room.third_party_invite" then rank.AtLeast(Power(levels.invite))
       else
         && rank.AtLeast(levels.EventLevel(e.Type(), key.Some?))
         && (key.Some? && "@" <= key.value.stateKey ==> key.value.stateKey == e.Sender())
         && (e.Type() == "m.room.power_levels" ==>
               var proposed := Parse(e.Content(), version, CreatorsNamedBy(create, version));
               && proposed.Some?
               && (StateKey("m.room.power_levels", "") in s ==> MayReplace(rank, e.Sender(), levels, proposed.value)))
  }

  /** The room does not keep other servers out, or the sender is on its creator's server. */
  ghost predicate Federates(e: Event, create: Event) {
    "m.federate" in create.Content() && create.Content()["m.federate"] == Bool(false) ==>
      SenderDomain(e.Sender()).Some? && SenderDomain(e.Sender()) == SenderDomain(create.Sender())
  }

  ghost predicate Permitted(s: StateMap, e: Event, create: Event, version: RoomVersion)
    requires LevelsOf(s, version).Some?
  {
    var levels := LevelsOf(s, version).value;
    && e.Type() != "m.room.create"
    && (version.roomIdFormat.CreateEventHash? ==> e.RoomId() == "!" + create.id[1..])
    && Federates(e, create)
    && if e.Type() == "m.room.member" then e.StateKey().Some? && MayMove(s, levels, create, e, e.StateKey().value)
       else MaySend(s, levels, create, e, version)
  }

  /** Every item is the text of a user id. */
  ghost predicate HoldsUserIds(extra: Json) {
    extra.Array? && forall item | item in extra.items :: item.String? && IsUserId(item.s)
  }

  /** A create event that may start a room of this version. */
  ghost predicate MayStart(e: Event, version: RoomVersion) {
    var declared, content := StringIn(e.Content(), "room_version"), e.Content();
    && e.PrevEvents() == []
    && ("room_id" in e.fields <==> version.createCarriesRoomId)
    && (declared == version.id || (declared == "" && version.id == "11"))
    && (version.additionalCreators && "additional_creators" in content ==> HoldsUserIds(content["additional_creators"]))
  }

  /** The walks over the thresholds and tables ask of each level what it asks for by itself. */
  lemma ChangesAreJudgedLevelByLevel(sender: Rank, senderId: string, before: Levels, after: Levels)
    ensures MayChange(sender, senderId, before, after) <==> MayReplace(sender, senderId, before, after)
  {
    ThresholdsAreJudgedOneByOne(sender, before, after);
    TableIsJudgedEntryByEntry(sender, before.events, after.events);
    TableIsJudgedEntryByEntry(sender, before.notifications, after.notifications);
    UsersAreJudgedOneByOne(sender, senderId, before.users, after.users);
  }

  lemma ThresholdsAreJudgedOneByOne(sender: Rank, before: Levels, after: Levels)
    ensures ScalarsMayChange(sender, before.Scalars(), after.Scalars()) <==>
              && IsReached(sender, before.ban, after.ban) && IsReached(sender, before.kick, after.kick)
              && IsReached(sender, before.redact, after.redact) && IsReached(sender, before.invite, after.invite)
              && IsReached(sender, before.stateDefault, after.stateDefault)
              && IsReached(sender, before.eventsDefault, after.eventsDefault)
              && IsReached(sender, before.usersDefault, after.usersDefault)
  {
    var was, now := before.Scalars(), after.Scalars();
    assert was[0] == before.usersDefault && was[1] == before.eventsDefault && was[2] == before.stateDefault;
    assert was[3] == before.ban && was[4] == before.redact && was[5] == before.kick && was[6] == before.invite;
    assert now[0] == after.usersDefault && now[1] == after.eventsDefault && now[2] == after.stateDefault;
    assert now[3] == after.ban && now[4] == after.redact && now[5] == after.kick && now[6] == after.invite;
  }

  lemma TableIsJudgedEntryByEntry(sender: Rank, before: Table, after: Table)
    ensures TableMayChange(sender, before, after) <==>
              forall key :: IsEntryReached(sender, EntryOf(before, key), EntryOf(after, key))
  {
    if forall key :: IsEntryReached(sender, EntryOf(before, key), EntryOf(after, key)) {
      forall key | key in before || key in after
        ensures key in before ==> (key in after && after[key] == before[key]) || sender.AtLeast(Power(before[key]))
        ensures key in after ==> (key in before && after[key] == before[key]) || sender.AtLeast(Power(after[key]))
      {
        assert IsEntryReached(sender, EntryOf(before, key), EntryOf(after, key));
      }
    }
  }

  lemma UsersAreJudgedOneByOne(sender: Rank, senderId: string, before: Table, after: Table)
    ensures UsersMayChange(sender, senderId, before, after) <==>
              forall user :: IsUserReached(sender, user == senderId, EntryOf(before, user), EntryOf(after, user))
  {
    if forall user :: IsUserReached(sender, user == senderId, EntryOf(before, user), EntryOf(after, user)) {
      forall user | user in before || user in after
        ensures user in before ==>
                  || (user in after && after[user] == before[user])
                  || user == senderId || sender.GreaterThan(Power(before[user]))
        ensures user in after ==>
                  (user in before && after[user] == before[user]) || sender.AtLeast(Power(after[user]))
      {
        assert IsUserReached(sender, user == senderId, EntryOf(before, user), EntryOf(after, user));
      }
    }
  }

  // ----- the rules are exactly the conditions

  /** A create event is accepted exactly when it may start a room, whatever the state; then all
      the creators it names besides its sender are user ids. */
  lemma CreationIsPermission(e: Event, s: StateMap, version: RoomVersion)
    requires e.Type() == TYPE_CREATE && version.id != ""
    ensures Authorise(e, s, version).Accepted? <==> MayStart(e, version)
    ensures MayStart(e, version) ==>
              forall creator | creator in CreatorsNamedBy(e, version) :: creator == e.Sender() || IsUserId(creator)
  {
    var key := "additional_creators";
    ListedIdsAreHeld(if key in e.Content() then e.Content()[key] else Null);
    if MayStart(e, version) {
      NamedCreatorsAreUserIds(e, version);
    }
  }

  lemma ListedIdsAreHeld(extra: Json)
    ensures ListsUserIds(extra) <==> HoldsUserIds(extra)
  {
  }

  lemma NamedCreatorsAreUserIds(e: Event, version: RoomVersion)
    requires MayStart(e, version)
    ensures forall creator | creator in CreatorsNamedBy(e, version) :: creator == e.Sender() || IsUserId(creator)
  {
  }

  /** A create event of version 11 carries a room id and may leave the version unsaid. */
  lemma CreationInVersion11(e: Event, s: StateMap)
    requires e.Type() == "m.room.create"
    ensures Authorise(e, s, VERSION_11).Accepted? <==>
              && e.PrevEvents() == [] && "room_id" in e.fields
              && (StringIn(e.Content(), "room_version") == "11" || StringIn(e.Content(), "room_version") == "")
  {
    CreationIsPermission(e, s, VERSION_11);
  }

  /** One of version 12 carries none, says its version, and may name further creators. */
  lemma CreationInVersion12(e: Event, s: StateMap)
    requires e.Type() == "m.room.create"
    ensures Authorise(e, s, VERSION_12).Accepted? <==>
              && e.PrevEvents() == [] && "room_id" !in e.fields && StringIn(e.Content(), "room_version") == "12"
              && ("additional_creators" in e.Content() ==> HoldsUserIds(e.Content()["additional_creators"]))
  {
    CreationIsPermission(e, s, VERSION_12);
    assert "11" != "12" by {
      assert "11"[1] != "12"[1];
    }
  }

  /** Only version 12 ties an event to its room by the create event's id, gives the creators the
      rank above all numbers, and lets a create event name more than its sender. */
  lemma VersionsDiffer(e: Event, create: Event, levels: Levels, creator: string)
    ensures Supported(VERSION_11) && Supported(VERSION_12) && VERSION_11.id == "11" && VERSION_12.id == "12"
    ensures RoomIdMatches(e, create, VERSION_11)
    ensures RoomIdMatches(e, create, VERSION_12) <==> e.RoomId() == "!" + create.id[1..]
    ensures CreatorsNamedBy(create, VERSION_11) == [create.Sender()]
    ensures creator in CreatorsNamedBy(create, VERSION_12) <==>
              || creator == create.Sender()
              || (&& "additional_creators" in create.Content() && create.Content()["additional_creators"].Array?
                  && String(creator) in create.Content()["additional_creators"].items)
    ensures levels.version == VERSION_11 && levels.creators == CreatorsNamedBy(create, VERSION_11) ==>
              levels.UserLevel(creator)
                == Power(if creator in levels.users then levels.users[creator] else levels.usersDefault)
    ensures levels.version == VERSION_12 && levels.creators == CreatorsNamedBy(create, VERSION_12) ==>
              (levels.UserLevel(creator) == CREATOR_RANK <==> creator in CreatorsNamedBy(create, VERSION_12))
  {
  }

  /** Why an event after the first is refused, where it is not for want of permission: the
      room keeps other servers out and a sender's is unreadable, or the event would be permitted
      to set levels and its levels are unreadable. */
  lemma RefusalsHaveTheirCause(s: StateMap, e: Event, create: Event, version: RoomVersion)
    requires RoomInvariant(s, create, version) && e.Type() != TYPE_CREATE
    ensures var levels := LevelsOf(s, version).value;
            && Authorise(e, s, version) != Refused(VersionUnsupported)
            && (Authorise(e, s, version) == Refused(SenderMalformed) <==>
                  && (version.roomIdFormat.CreateEventHash? ==> e.RoomId() == "!" + create.id[1..])
                  && "m.federate" in create.Content() && create.Content()["m.federate"] == Bool(false)
                  && (SenderDomain(e.Sender()).None? || SenderDomain(create.Sender()).None?))
            && (Authorise(e, s, version) == Refused(LevelsInvalid) <==>
                  && (version.roomIdFormat.CreateEventHash? ==> e.RoomId() == "!" + create.id[1..])
                  && Federates(e, create) && e.Type() == "m.room.power_levels" && Membership(s, e.Sender()) == "join"
                  && levels.UserLevel(e.Sender()).AtLeast(levels.EventLevel("m.room.power_levels", KeyOf(e).Some?))
                  && !OwnedByAnother(e)
                  && Parse(e.Content(), version, CreatorsNamedBy(create, version)).None?)
  {
    KeysDiffer();
    assert TYPE_THIRD_PARTY_INVITE[7] != TYPE_POWER_LEVELS[7];
    MemberRefusalsAreForPermission(e, s, LevelsOf(s, version).value, version);
  }

  lemma MemberRefusalsAreForPermission(e: Event, s: StateMap, levels: Levels, version: RoomVersion)
    requires LevelsOf(s, version).Some?
    ensures AuthoriseMember(e, s, levels, version) in {Accepted, Refused(NotAuthorised)}
  {
  }

  /** The checks in their order accept an event that names one predecessor exactly when the
      conditions hold. */
  lemma AuthorisationIsPermission(s: StateMap, e: Event, create: Event, version: RoomVersion)
    requires RoomInvariant(s, create, version) && |e.PrevEvents()| == 1
    ensures Authorise(e, s, version).Accepted? <==> Permitted(s, e, create, version)
  {
    assert CheckFederate(e, create).Accepted? <==> Federates(e, create);
    var levels := LevelsOf(s, version).value;
    if e.Type() == TYPE_MEMBER {
      if e.StateKey().Some? {
        MemberRulesAreConditions(s, e, create, version, e.StateKey().value);
      }
    } else if e.Type() != TYPE_CREATE {
      OtherRulesAreConditions(s, e, create, version);
    }
  }

  lemma OtherRulesAreConditions(s: StateMap, e: Event, create: Event, version: RoomVersion)
    requires RoomInvariant(s, create, version)
    ensures AuthoriseOther(e, s, LevelsOf(s, version).value, version).Accepted?
       <==> MaySend(s, LevelsOf(s, version).value, create, e, version)
  {
    assert TYPE_THIRD_PARTY_INVITE[7] != TYPE_POWER_LEVELS[7];
    assert Creators(s, version) == CreatorsNamedBy(create, version);
    if e.Type() == TYPE_POWER_LEVELS {
      var proposed := Parse(e.Content(), version, CreatorsNamedBy(create, version));
      LevelsMaySend(s, LevelsOf(s, version).value, create, e, version, proposed);
    }
  }

  lemma MemberRulesAreConditions(s: StateMap, e: Event, create: Event, version: RoomVersion, target: string)
    requires RoomInvariant(s, create, version) && |e.PrevEvents()| == 1 && e.StateKey() == Some(target)
    ensures AuthoriseMember(e, s, LevelsOf(s, version).value, version).Accepted?
       <==> MayMove(s, LevelsOf(s, version).value, create, e, target)
  {
    MembershipsDiffer();
    if MembershipIn(e) == JOIN {
      JoinRulesAreConditions(s, e, create, version, target);
    }
  }

  lemma JoinRulesAreConditions(s: StateMap, e: Event, create: Event, version: RoomVersion, target: string)
    requires RoomInvariant(s, create, version) && |e.PrevEvents()| == 1
    ensures AuthoriseJoin(e, s, target, version).Accepted? <==>
              || (s.Keys == {CREATE_KEY} && target == create.Sender())
              || (e.Sender() == target && Membership(s, target) != BAN
                  && DoorOpen(s, LevelsOf(s, version).value, target, VoucherIn(e)))
  {
    OnlyCreateMeansNothingElse(s);
    MembershipsDiffer();
    JoinRulesDiffer();
  }

  lemma JoinRulesDiffer()
    ensures RULE_PUBLIC != RULE_INVITE && RULE_PUBLIC != RULE_KNOCK
    ensures RULE_PUBLIC != RULE_RESTRICTED && RULE_PUBLIC != RULE_KNOCK_RESTRICTED
    ensures RULE_INVITE != RULE_RESTRICTED && RULE_INVITE != RULE_KNOCK_RESTRICTED
    ensures RULE_KNOCK != RULE_RESTRICTED && RULE_KNOCK != RULE_KNOCK_RESTRICTED
  {
  }

  /** The conditions on a power levels event in the terms of the walks. */
  lemma LevelsMaySend(s: StateMap, levels: Levels, create: Event, e: Event, version: RoomVersion,
                      proposed: Option<Levels>)
    requires e.Type() == TYPE_POWER_LEVELS
    requires proposed == Parse(e.Content(), version, CreatorsNamedBy(create, version))
    ensures var rank := levels.UserLevel(e.Sender());
            MaySend(s, levels, create, e, version) <==>
              && Membership(s, e.Sender()) == JOIN
              && rank.AtLeast(levels.EventLevel(TYPE_POWER_LEVELS, KeyOf(e).Some?)) && !OwnedByAnother(e)
              && proposed.Some? && (LEVELS_KEY in s ==> MayChange(rank, e.Sender(), levels, proposed.value))
  {
    assert TYPE_THIRD_PARTY_INVITE[7] != TYPE_POWER_LEVELS[7];
    if proposed.Some? {
      ChangesAreJudgedLevelByLevel(levels.UserLevel(e.Sender()), e.Sender(), levels, proposed.value);
    }
  }

  // ----- the changes

  /** A user's membership changes only by an accepted event of their own member entry, and then
      only as the event's sender may move them. */
  lemma StepMovesMembers(s: StateMap, e: Event, create: Event, version: RoomVersion, userId: string)
    requires RoomInvariant(s, create, version)
    requires Accepts(s, e, version)
    ensures KeyOf(e) != Some(MemberKey(userId)) ==> Membership(Apply(s, e), userId) == Membership(s, userId)
    ensures KeyOf(e) == Some(MemberKey(userId)) ==>
              && Membership(Apply(s, e), userId) == MembershipIn(e)
              && MayMove(s, LevelsOf(s, version).value, create, e, userId)
  {
    AuthorisationIsPermission(s, e, create, version);
  }

  /** Anything but a membership event comes from a joined sender. */
  lemma OnlyTheJoinedSend(s: StateMap, e: Event, create: Event, version: RoomVersion)
    requires RoomInvariant(s, create, version)
    requires Accepts(s, e, version) && e.Type() != TYPE_MEMBER
    ensures MaySend(s, LevelsOf(s, version).value, create, e, version)
  {
    AuthorisationIsPermission(s, e, create, version);
  }

  /** The levels change only by an accepted power levels event from a joined sender who reaches
      the level for it; the new levels name ordinary users only, and replace earlier ones only
      within the sender's reach. */
  lemma StepChangesLevels(s: StateMap, e: Event, create: Event, version: RoomVersion)
    requires RoomInvariant(s, create, version)
    requires Accepts(s, e, version)
    ensures var before, after := LevelsOf(s, version).value, LevelsOf(Apply(s, e), version);
            && after.Some?
            && (KeyOf(e) != Some(LEVELS_KEY) ==> after.value == before)
            && (KeyOf(e) == Some(LEVELS_KEY) ==>
                  && NamesOrdinaryUsers(after.value)
                  && after.value.version == version && after.value.creators == before.creators
                  && Membership(s, e.Sender()) == JOIN
                  && before.UserLevel(e.Sender()).AtLeast(before.EventLevel(TYPE_POWER_LEVELS, true))
                  && (LEVELS_KEY in s ==> MayChange(before.UserLevel(e.Sender()), e.Sender(), before, after.value)))
  {
    AcceptedLevelsParse(s, e, create, version);
    LevelsCarryCreators(s, version);
    LevelsCarryCreators(Apply(s, e), version);
    if KeyOf(e) == Some(LEVELS_KEY) {
      KeysDiffer();
      OnlyTheJoinedSend(s, e, create, version);
      if LEVELS_KEY in s {
        var before, after := LevelsOf(s, version).value, LevelsOf(Apply(s, e), version).value;
        ChangesAreJudgedLevelByLevel(before.UserLevel(e.Sender()), e.Sender(), before, after);
      }
    }
  }

  lemma LevelsCarryCreators(s: StateMap, version: RoomVersion)
    ensures LevelsOf(s, version).Some? ==>
              && LevelsOf(s, version).value.creators == Creators(s, version)
              && LevelsOf(s, version).value.version == version
  {
  }
}
