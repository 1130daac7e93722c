/** Safety over whole runs of a room: bans, the top user of version 11, the creators of
    version 12, and the ceiling on everybody's power. */
module RoomSafety {
  import opened Wrappers
  import opened JsonValues
  import opened RoomVersions
  import opened Events
  import opened PowerLevels
  import opened RoomState
  import opened AuthRules
  import opened RoomRuns
  import opened RoomSteps

  // ----- bans

  ghost predicate Moves(e: Event, userId: string, membership: string) {
    KeyOf(e) == Some(MemberKey(userId)) && MembershipIn(e) == membership
  }

  /** Another user, joined, with the ban and the kick levels and outranking the banned one,
      takes them from banned to gone. */
  ghost predicate LiftsBan(s: StateMap, e: Event, version: RoomVersion, userId: string) {
    && Moves(e, userId, LEAVE) && e.Sender() != userId
    && Membership(s, e.Sender()) == JOIN
    && LevelsOf(s, version).Some?
    && var levels := LevelsOf(s, version).value;
    var rank := levels.UserLevel(e.Sender());
    rank.AtLeast(Power(levels.ban)) && rank.AtLeast(Power(levels.kick)) && rank.GreaterThan(levels.UserLevel(userId))
  }

  /** A banned user gets nothing accepted, and stays banned but for a lifted ban. */
  lemma BanStep(s: StateMap, e: Event, create: Event, version: RoomVersion, userId: string)
    requires RoomInvariant(s, create, version) && Accepts(s, e, version)
    requires Membership(s, userId) == BAN
    ensures e.Sender() != userId
    ensures Membership(Apply(s, e), userId) == BAN || LiftsBan(s, e, version, userId)
  {
    MembershipsDiffer();
    KeysDiffer();
    assert MemberKey(userId) in s && MemberKey(userId) != CREATE_KEY;
    StepMovesMembers(s, e, create, version, userId);
    if e.Type() == TYPE_MEMBER {
      assert e.StateKey().Some?;
      StepMovesMembers(s, e, create, version, e.StateKey().value);
    } else {
      OnlyTheJoinedSend(s, e, create, version);
    }
  }

  /** The event at position k of a run lifts the user's ban. */
  ghost predicate LiftedAt(s: StateMap, es: seq<Event>, version: RoomVersion, userId: string, k: nat)
    requires k < |es|
  {
    LiftsBan(StateBefore(s, es, k), es[k], version, userId)
  }

  lemma BanStepInRun(s: StateMap, es: seq<Event>, create: Event, version: RoomVersion, userId: string, i: nat)
    requires RoomInvariant(s, create, version) && AuthorisedRun(s, es, version) && i < |es|
    requires Membership(StateBefore(s, es, i), userId) == BAN
    ensures Membership(StateBefore(s, es, i + 1), userId) == BAN || LiftedAt(s, es, version, userId, i)
  {
    RunStep(s, es, create, version, i);
    BanStep(StateBefore(s, es, i), es[i], create, version, userId);
  }

  lemma {:induction false} BanHoldsUnlessLifted(s: StateMap, es: seq<Event>, create: Event, version: RoomVersion,
                                                userId: string, i: nat, j: nat)
    requires RoomInvariant(s, create, version) && AuthorisedRun(s, es, version) && i <= j <= |es|
    requires Membership(StateBefore(s, es, i), userId) == BAN
    requires forall k | i <= k < j :: !LiftedAt(s, es, version, userId, k)
    ensures Membership(StateBefore(s, es, j), userId) == BAN
    decreases j - i
  {
    if i < j {
      BanHoldsUnlessLifted(s, es, create, version, userId, i, j - 1);
      BanStepInRun(s, es, create, version, userId, j - 1);
    }
  }

  lemma AdmissionMeetsNoBan(s: StateMap, e: Event, create: Event, version: RoomVersion, userId: string)
    requires RoomInvariant(s, create, version) && Accepts(s, e, version)
    requires Moves(e, userId, JOIN) || Moves(e, userId, INVITE) || Moves(e, userId, KNOCK)
    ensures Membership(s, userId) != BAN
  {
    MembershipsDiffer();
    StepMovesMembers(s, e, create, version, userId);
    if Membership(s, userId) == BAN {
      BanStep(s, e, create, version, userId);
      assert false;
    }
  }

  lemma BanTakesHold(s: StateMap, es: seq<Event>, create: Event, version: RoomVersion, userId: string, i: nat)
    requires RoomInvariant(s, create, version) && AuthorisedRun(s, es, version) && i < |es|
    requires Moves(es[i], userId, BAN)
    ensures Membership(StateBefore(s, es, i + 1), userId) == BAN
  {
    RunStep(s, es, create, version, i);
    StepMovesMembers(StateBefore(s, es, i), es[i], create, version, userId);
  }

  lemma NoBanBeforeAdmission(s: StateMap, es: seq<Event>, create: Event, version: RoomVersion, userId: string, j: nat)
    requires RoomInvariant(s, create, version) && AuthorisedRun(s, es, version) && j < |es|
    requires Moves(es[j], userId, JOIN) || Moves(es[j], userId, INVITE) || Moves(es[j], userId, KNOCK)
    ensures Membership(StateBefore(s, es, j), userId) != BAN
  {
    RunStep(s, es, create, version, j);
    AdmissionMeetsNoBan(StateBefore(s, es, j), es[j], create, version, userId);
  }

  lemma BanIsLiftedBetween(s: StateMap, es: seq<Event>, create: Event, version: RoomVersion,
                           userId: string, i: nat, j: nat)
    requires RoomInvariant(s, create, version) && AuthorisedRun(s, es, version) && i < j < |es|
    requires Moves(es[i], userId, BAN)
    requires Moves(es[j], userId, JOIN) || Moves(es[j], userId, INVITE) || Moves(es[j], userId, KNOCK)
    ensures exists k | i < k < j :: LiftedAt(s, es, version, userId, k)
  {
    BanTakesHold(s, es, create, version, userId, i);
    NoBanBeforeAdmission(s, es, create, version, userId, j);
    if forall k | i < k < j :: !LiftedAt(s, es, version, userId, k) {
      BanHoldsUnlessLifted(s, es, create, version, userId, i + 1, j);
      assert false;
    }
  }

  /** Between a ban and any later join, invite or knock of the same user, the ban was lifted. */
  lemma BansPersist(create: Event, es: seq<Event>, version: RoomVersion, userId: string, i: nat, j: nat)
    requires StartsRoom(create, version) && AuthorisedRun(map[CREATE_KEY := create], es, version)
    requires i < j < |es|
    requires Moves(es[i], userId, BAN)
    requires Moves(es[j], userId, JOIN) || Moves(es[j], userId, INVITE) || Moves(es[j], userId, KNOCK)
    ensures exists k | i < k < j :: LiftedAt(map[CREATE_KEY := create], es, version, userId, k)
  {
    StartHolds(create, version);
    BanIsLiftedBetween(map[CREATE_KEY := create], es, create, version, userId, i, j);
  }

  // ----- rooms closed to the uninvited

  /** An invite by a joined user who has the power to invite or holds a third party token. */
  ghost predicate IsProperInvite(s: StateMap, e: Event, version: RoomVersion, userId: string) {
    && Moves(e, userId, INVITE)
    && Membership(s, e.Sender()) == JOIN
    && LevelsOf(s, version).Some?
    && (|| ThirdPartyToken(e.Content()) != ""
        || LevelsOf(s, version).value.UserLevel(e.Sender()).AtLeast(Power(LevelsOf(s, version).value.invite)))
  }

  ghost predicate InvitedAt(s: StateMap, es: seq<Event>, version: RoomVersion, userId: string, k: nat)
    requires k < |es|
  {
    IsProperInvite(StateBefore(s, es, k), es[k], version, userId)
  }

  ghost predicate InvitationNeeded(s: StateMap) {
    JoinRule(s) == RULE_INVITE || JoinRule(s) == RULE_KNOCK
  }

  lemma AdmissionStep(s: StateMap, e: Event, create: Event, version: RoomVersion, userId: string)
    requires RoomInvariant(s, create, version) && Accepts(s, e, version)
    requires InvitationNeeded(s) && userId != create.Sender()
    requires Membership(s, userId) != JOIN && Membership(s, userId) != INVITE
    ensures IsProperInvite(s, e, version, userId)
         || (Membership(Apply(s, e), userId) != JOIN && Membership(Apply(s, e), userId) != INVITE)
  {
  }

  /** The room only admits the invited in every state the run passes through. */
  ghost predicate ClosedThroughout(s: StateMap, es: seq<Event>)
    decreases |es|
  {
    es == [] || (InvitationNeeded(s) && ClosedThroughout(Apply(s, es[0]), es[1..]))
  }

  lemma {:induction false} InvitedDuring(s: StateMap, es: seq<Event>, create: Event, version: RoomVersion,
                                         userId: string)
    requires RoomInvariant(s, create, version) && AuthorisedRun(s, es, version)
    requires ClosedThroughout(s, es) && userId != create.Sender()
    requires Membership(s, userId) != JOIN && Membership(s, userId) != INVITE
    requires Membership(Replay(s, es), userId) == JOIN
    ensures exists k | 0 <= k < |es| :: InvitedAt(s, es, version, userId, k)
    decreases |es|
  {
    var next := Apply(s, es[0]);
    assert es[..0] == [];
    if !InvitedAt(s, es, version, userId, 0) {
      AdmissionStep(s, es[0], create, version, userId);
      StepKeepsInvariant(s, es[0], create, version);
      InvitedDuring(next, es[1..], create, version, userId);
      var k :| 0 <= k < |es| - 1 && InvitedAt(next, es[1..], version, userId, k);
      StateBeforeTail(s, es, k + 1);
      assert InvitedAt(s, es, version, userId, k + 1);
    }
  }

  /** While a room only admits the invited, everyone in it but the creator was once properly
      invited. */
  lemma MembersWereInvited(create: Event, es: seq<Event>, version: RoomVersion, userId: string)
    requires StartsRoom(create, version) && AuthorisedRun(map[CREATE_KEY := create], es, version)
    requires ClosedThroughout(map[CREATE_KEY := create], es) && userId != create.Sender()
    requires Membership(Replay(map[CREATE_KEY := create], es), userId) == JOIN
    ensures exists k | 0 <= k < |es| :: InvitedAt(map[CREATE_KEY := create], es, version, userId, k)
  {
    StartHolds(create, version);
    KeysDiffer();
    InvitedDuring(map[CREATE_KEY := create], es, create, version, userId);
  }

  // ----- version 11: the top user

  /** A joined user with an entry of their own that nobody's level exceeds. */
  ghost predicate Sovereign(s: StateMap, version: RoomVersion, userId: string, level: int) {
    && Membership(s, userId) == JOIN
    && LevelsOf(s, version).Some?
    && var levels := LevelsOf(s, version).value;
    && userId in levels.users && levels.users[userId] == level
    && Bounds(level, levels)
  }

  ghost predicate Bounds(ceiling: int, levels: Levels) {
    levels.usersDefault <= ceiling && forall user | user in levels.users :: levels.users[user] <= ceiling
  }

  lemma SovereigntyStep(s: StateMap, e: Event, create: Event, version: RoomVersion, userId: string, level: int)
    requires RoomInvariant(s, create, version) && Accepts(s, e, version)
    requires !version.creatorsOutrankPowerLevels
    requires Sovereign(s, version, userId, level) && e.Sender() != userId
    ensures Sovereign(Apply(s, e), version, userId, level)
  {
    var before := LevelsOf(s, version).value;
    LevelsCarryCreators(s, version);
    SovereignStays(s, e, create, version, userId, level, before);
    StepChangesLevels(s, e, create, version);
    if KeyOf(e) == Some(LEVELS_KEY) {
      if LEVELS_KEY !in s {
        OnlyTheCreatorStartsHigh(s, version, userId, e.Sender());
        assert false;
      }
      EntryIsOutOfReach(e.Sender(), before, LevelsOf(Apply(s, e), version).value, userId, level);
    }
  }

  lemma SovereignStays(s: StateMap, e: Event, create: Event, version: RoomVersion,
                       userId: string, level: int, levels: Levels)
    requires RoomInvariant(s, create, version) && Accepts(s, e, version)
    requires LevelsOf(s, version) == Some(levels) && !levels.version.creatorsOutrankPowerLevels
    requires Sovereign(s, version, userId, level) && e.Sender() != userId
    ensures Membership(Apply(s, e), userId) == JOIN
  {
    MembershipsDiffer();
    StepMovesMembers(s, e, create, version, userId);
    assert levels.UserLevel(e.Sender()).value <= level;
    assert MemberKey(userId) in s && MemberKey(userId) != CREATE_KEY;
  }

  /** Before the first power levels event, only version 11's creator reaches the level for one. */
  lemma OnlyTheCreatorStartsHigh(s: StateMap, version: RoomVersion, userId: string, sender: string)
    requires CREATE_KEY in s && LEVELS_KEY !in s && !version.creatorsOutrankPowerLevels
    ensures var levels := LevelsOf(s, version).value;
            userId in levels.users && sender != userId ==>
              !levels.UserLevel(sender).AtLeast(levels.EventLevel(TYPE_POWER_LEVELS, true))
  {
  }

  lemma EntryIsOutOfReach(sender: string, before: Levels, after: Levels, userId: string, level: int)
    requires MayChange(before.UserLevel(sender), sender, before, after)
    requires !before.IsCreator(sender) && sender != userId
    requires userId in before.users && before.users[userId] == level && Bounds(level, before)
    ensures userId in after.users && after.users[userId] == level && Bounds(level, after)
  {
    assert before.UserLevel(sender).value <= level;
    ThresholdsAreJudgedOneByOne(before.UserLevel(sender), before, after);
  }

  /** While the top user stays silent, no authorised run removes them, touches their entry or
      raises anyone above them. */
  lemma {:induction false} SovereigntyHolds(s: StateMap, es: seq<Event>, create: Event, version: RoomVersion,
                                            userId: string, level: int)
    requires RoomInvariant(s, create, version) && AuthorisedRun(s, es, version)
    requires !version.creatorsOutrankPowerLevels
    requires Sovereign(s, version, userId, level)
    requires forall i | 0 <= i < |es| :: es[i].Sender() != userId
    ensures Sovereign(Replay(s, es), version, userId, level)
    ensures forall other :: Power(level).AtLeast(LevelsOf(Replay(s, es), version).value.UserLevel(other))
    decreases |es|
  {
    LevelsCarryCreators(s, version);
    if es != [] {
      SovereigntyStep(s, es[0], create, version, userId, level);
      StepKeepsInvariant(s, es[0], create, version);
      SovereigntyHolds(Apply(s, es[0]), es[1..], create, version, userId, level);
    }
  }

  // ----- version 12: creators

  ghost predicate IsOwnLeave(e: Event, userId: string) {
    Moves(e, userId, LEAVE) && e.Sender() == userId
  }

  /** A power levels event naming a creator is refused, whatever its state key. */
  lemma LevelsNameNoCreator(s: StateMap, e: Event, create: Event, version: RoomVersion)
    requires RoomInvariant(s, create, version) && Accepts(s, e, version)
    requires version.creatorsOutrankPowerLevels && e.Type() == TYPE_POWER_LEVELS
    ensures var proposed := Parse(e.Content(), version, CreatorsNamedBy(create, version));
            && proposed.Some?
            && forall creator | creator in CreatorsNamedBy(create, version) :: creator !in proposed.value.users
  {
    KeysDiffer();
    OnlyTheJoinedSend(s, e, create, version);
    LevelsThatParseNameNoCreator(e.Content(), version, CreatorsNamedBy(create, version));
  }

  lemma LevelsThatParseNameNoCreator(content: Fields, version: RoomVersion, creators: seq<string>)
    requires version.creatorsOutrankPowerLevels
    ensures Parse(content, version, creators).Some? ==>
              forall creator | creator in creators :: creator !in Parse(content, version, creators).value.users
  {
  }

  lemma CreatorStep(s: StateMap, e: Event, create: Event, version: RoomVersion, creator: string)
    requires RoomInvariant(s, create, version) && Accepts(s, e, version)
    requires version.creatorsOutrankPowerLevels && creator in CreatorsNamedBy(create, version)
    requires Membership(s, creator) == JOIN
    ensures Membership(Apply(s, e), creator) == JOIN <==> !IsOwnLeave(e, creator)
  {
    MembershipsDiffer();
    LevelsCarryCreators(s, version);
    StepMovesMembers(s, e, create, version, creator);
  }

  lemma {:induction false} JoinedWithoutOwnLeave(s: StateMap, es: seq<Event>, create: Event, version: RoomVersion,
                                                 creator: string)
    requires RoomInvariant(s, create, version) && AuthorisedRun(s, es, version)
    requires version.creatorsOutrankPowerLevels && creator in CreatorsNamedBy(create, version)
    requires Membership(s, creator) == JOIN
    requires forall k | 0 <= k < |es| :: !IsOwnLeave(es[k], creator)
    ensures Membership(Replay(s, es), creator) == JOIN
    decreases |es|
  {
    if es != [] {
      CreatorStep(s, es[0], create, version, creator);
      StepKeepsInvariant(s, es[0], create, version);
      JoinedWithoutOwnLeave(Apply(s, es[0]), es[1..], create, version, creator);
    }
  }

  /** A joined creator stays joined through exactly the runs without a leave of their own. */
  lemma CreatorsAreImmovable(s: StateMap, es: seq<Event>, create: Event, version: RoomVersion, creator: string)
    requires RoomInvariant(s, create, version) && AuthorisedRun(s, es, version)
    requires version.creatorsOutrankPowerLevels && creator in CreatorsNamedBy(create, version)
    requires Membership(s, creator) == JOIN
    ensures (forall i | 0 <= i < |es| :: !IsOwnLeave(es[i], creator)) <==>
            (forall i | 0 <= i <= |es| :: Membership(StateBefore(s, es, i), creator) == JOIN)
  {
    if forall i | 0 <= i < |es| :: !IsOwnLeave(es[i], creator) {
      forall i | 0 <= i <= |es|
        ensures Membership(StateBefore(s, es, i), creator) == JOIN
      {
        RunSplits(s, es, i, version);
        JoinedWithoutOwnLeave(s, es[..i], create, version, creator);
      }
    }
    if forall i | 0 <= i <= |es| :: Membership(StateBefore(s, es, i), creator) == JOIN {
      forall i | 0 <= i < |es|
        ensures !IsOwnLeave(es[i], creator)
      {
        RunStep(s, es, create, version, i);
        assert Membership(StateBefore(s, es, i + 1), creator) == JOIN;
        CreatorStep(StateBefore(s, es, i), es[i], create, version, creator);
      }
    }
  }

  /** A creator keeps the rank above every number throughout any run, joined or not. */
  lemma CreatorsKeepTheirRank(s: StateMap, es: seq<Event>, create: Event, version: RoomVersion, creator: string, i: nat)
    requires RoomInvariant(s, create, version) && AuthorisedRun(s, es, version) && i <= |es|
    requires version.creatorsOutrankPowerLevels && creator in CreatorsNamedBy(create, version)
    ensures LevelsOf(StateBefore(s, es, i), version).Some?
    ensures LevelsOf(StateBefore(s, es, i), version).value.UserLevel(creator) == CREATOR_RANK
  {
    RunSplits(s, es, i, version);
    RunKeepsInvariant(s, es[..i], create, version);
    LevelsCarryCreators(StateBefore(s, es, i), version);
  }
}
