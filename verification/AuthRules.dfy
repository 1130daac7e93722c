/** Who may add what to a room: the authorisation rules of room versions 11 and 12, and the
    selection of the events they read. */
module AuthRules {
  import opened Wrappers
  import opened JsonValues
  import opened RoomVersions
  import opened Events
  import opened PowerLevels
  import opened RoomState

  datatype Cause = NotAuthorised | LevelsInvalid | SenderMalformed | VersionUnsupported

  datatype Verdict = Accepted | Refused(cause: Cause)

  function Require(condition: bool): Verdict {
    if condition then Accepted else Refused(NotAuthorised)
  }

  function Authorise(e: Event, s: StateMap, version: RoomVersion): Verdict {
    if e.Type() == TYPE_CREATE then AuthoriseCreate(e, version)
    else if CREATE_KEY !in s then Refused(NotAuthorised)
    else if !RoomIdMatches(e, s[CREATE_KEY], version) then Refused(NotAuthorised)
    else
      var federation := CheckFederate(e, s[CREATE_KEY]);
      if federation.Refused? then federation
      else if LevelsOf(s, version).None? then Refused(LevelsInvalid)
      else
        var levels := LevelsOf(s, version).value;
        if e.Type() == TYPE_MEMBER then AuthoriseMember(e, s, levels, version)
        else AuthoriseOther(e, s, levels, version)
  }

  function AuthoriseOther(e: Event, s: StateMap, levels: Levels, version: RoomVersion): Verdict {
    var rank := levels.UserLevel(e.Sender());
    if Membership(s, e.Sender()) != JOIN then Refused(NotAuthorised)
    else if e.Type() == TYPE_THIRD_PARTY_INVITE then Require(rank.AtLeast(Power(levels.invite)))
    else if !rank.AtLeast(levels.EventLevel(e.Type(), e.StateKey().Some?)) then Refused(NotAuthorised)
    else if OwnedByAnother(e) then Refused(NotAuthorised)
    else if e.Type() == TYPE_POWER_LEVELS then AuthorisePowerLevels(e, s, levels, version)
    else Accepted
  }

  /** The state key is some user's id and that user is not the sender. */
  predicate OwnedByAnother(e: Event) {
    && e.StateKey().Some?
    && var stateKey := e.StateKey().value;
    stateKey != "" && stateKey[0] == '@' && stateKey != e.Sender()
  }

  function AuthoriseCreate(e: Event, version: RoomVersion): Verdict {
    var declared := StringIn(e.Content(), "room_version");
    if e.PrevEvents() != [] then Refused(NotAuthorised)
    else if ("room_id" in e.fields) != version.createCarriesRoomId then Refused(NotAuthorised)
    else if (if declared == "" then ROOM_VERSION_11 else declared) != version.id then Refused(VersionUnsupported)
    else if version.additionalCreators && "additional_creators" in e.Content()
    then Require(ListsUserIds(e.Content()["additional_creators"]))
    else Accepted
  }

  predicate ListsUserIds(extra: Json) {
    extra.Array? && forall i | 0 <= i < |extra.items| :: extra.items[i].String? && IsUserId(extra.items[i].s)
  }

  predicate RoomIdMatches(e: Event, create: Event, version: RoomVersion) {
    version.roomIdFormat.CreateEventHash? ==> e.RoomId() == "!" + create.id[1..]
  }

  function CheckFederate(e: Event, create: Event): Verdict {
    var federate := "m.federate";
    if federate !in create.Content() || create.Content()[federate] != Bool(false) then Accepted
    else if SenderDomain(e.Sender()).None? || SenderDomain(create.Sender()).None? then Refused(SenderMalformed)
    else Require(SenderDomain(e.Sender()) == SenderDomain(create.Sender()))
  }

  // ----- membership

  function AuthoriseMember(e: Event, s: StateMap, levels: Levels, version: RoomVersion): Verdict {
    if e.StateKey().None? then Refused(NotAuthorised)
    else
      var target := e.StateKey().value;
      var membership := StringIn(e.Content(), "membership");
      if membership == JOIN then AuthoriseJoin(e, s, target, version)
      else if membership == INVITE then AuthoriseInvite(e, s, levels, target)
      else if membership == LEAVE then AuthoriseLeave(e, s, levels, target)
      else if membership == BAN then AuthoriseBan(e, s, levels, target)
      else if membership == KNOCK then AuthoriseKnock(e, s, target)
      else Refused(NotAuthorised)
  }

  /** The create event is all there is. */
  predicate OnlyCreate(s: StateMap) {
    |s| == 1 && CREATE_KEY in s
  }

  lemma OnlyCreateMeansNothingElse(s: StateMap)
    ensures OnlyCreate(s) <==> s.Keys == {CREATE_KEY}
  {
    assert |s| == |s.Keys|;
    if CREATE_KEY in s {
      assert |s.Keys| == |s.Keys - {CREATE_KEY}| + 1;
      if s.Keys == {CREATE_KEY} {
        assert s.Keys - {CREATE_KEY} == {};
      } else {
        assert s.Keys - {CREATE_KEY} != {};
      }
    }
  }

  function AuthoriseJoin(e: Event, s: StateMap, target: string, version: RoomVersion): Verdict {
    var rule := JoinRule(s);
    var welcome := Membership(s, target) == INVITE || Membership(s, target) == JOIN;
    if OnlyCreate(s) && |e.PrevEvents()| == 1 && target == s[CREATE_KEY].Sender() then Accepted
    else if target != e.Sender() then Refused(NotAuthorised)
    else if Membership(s, target) == BAN then Refused(NotAuthorised)
    else if rule == RULE_INVITE || rule == RULE_KNOCK then Require(welcome)
    else if rule == RULE_RESTRICTED || rule == RULE_KNOCK_RESTRICTED
    then if welcome then Accepted else AuthoriseVouchedJoin(e, s, version)
    else Require(rule == RULE_PUBLIC)
  }

  function AuthoriseVouchedJoin(e: Event, s: StateMap, version: RoomVersion): Verdict {
    var via := StringIn(e.Content(), "join_authorised_via_users_server");
    if via == "" || Membership(s, via) != JOIN then Refused(NotAuthorised)
    else if LevelsOf(s, version).None? then Refused(LevelsInvalid)
    else
      var levels := LevelsOf(s, version).value;
      Require(levels.UserLevel(via).AtLeast(Power(levels.invite)))
  }

  function ThirdPartyToken(content: Fields): string {
    StringIn(FieldsIn(FieldsIn(content, "third_party_invite"), "signed"), "token")
  }

  function AuthoriseInvite(e: Event, s: StateMap, levels: Levels, target: string): Verdict {
    if Membership(s, e.Sender()) != JOIN then Refused(NotAuthorised)
    else if Membership(s, target) == JOIN || Membership(s, target) == BAN then Refused(NotAuthorised)
    else if ThirdPartyToken(e.Content()) != "" then Accepted
    else Require(levels.UserLevel(e.Sender()).AtLeast(Power(levels.invite)))
  }

  function AuthoriseLeave(e: Event, s: StateMap, levels: Levels, target: string): Verdict {
    var own := Membership(s, e.Sender());
    var rank := levels.UserLevel(e.Sender());
    if target == e.Sender() then Require(own == INVITE || own == JOIN || own == KNOCK)
    else if own != JOIN then Refused(NotAuthorised)
    else if Membership(s, target) == BAN && !rank.AtLeast(Power(levels.ban)) then Refused(NotAuthorised)
    else if !rank.AtLeast(Power(levels.kick)) then Refused(NotAuthorised)
    else Require(rank.GreaterThan(levels.UserLevel(target)))
  }

  function AuthoriseBan(e: Event, s: StateMap, levels: Levels, target: string): Verdict {
    var rank := levels.UserLevel(e.Sender());
    Require(&& Membership(s, e.Sender()) == JOIN
            && rank.AtLeast(Power(levels.ban))
            && rank.GreaterThan(levels.UserLevel(target)))
  }

  function AuthoriseKnock(e: Event, s: StateMap, target: string): Verdict {
    var rule, own := JoinRule(s), Membership(s, target);
    Require(&& (rule == RULE_KNOCK || rule == RULE_KNOCK_RESTRICTED)
            && target == e.Sender()
            && own != BAN && own != INVITE && own != JOIN)
  }

  // ----- power levels

  function AuthorisePowerLevels(e: Event, s: StateMap, current: Levels, version: RoomVersion): Verdict {
    var proposed := Parse(e.Content(), version, Creators(s, version));
    if proposed.None? then Refused(LevelsInvalid)
    else if LEVELS_KEY !in s then Accepted
    else Require(MayChange(current.UserLevel(e.Sender()), e.Sender(), current, proposed.value))
  }

  predicate MayChange(sender: Rank, senderId: string, before: Levels, after: Levels) {
    && ScalarsMayChange(sender, before.Scalars(), after.Scalars())
    && TableMayChange(sender, before.events, after.events)
    && TableMayChange(sender, before.notifications, after.notifications)
    && UsersMayChange(sender, senderId, before.users, after.users)
  }

  predicate ScalarsMayChange(sender: Rank, before: seq<int>, after: seq<int>)
    requires |before| == |after|
  {
    forall i | 0 <= i < |before| ::
      before[i] == after[i] || (sender.AtLeast(Power(before[i])) && sender.AtLeast(Power(after[i])))
  }

  /** Every entry touched, on either side, is within the sender's reach. */
  predicate TableMayChange(sender: Rank, before: Table, after: Table) {
    && (forall key | key in before ::
          (key in after && after[key] == before[key]) || sender.AtLeast(Power(before[key])))
    && (forall key | key in after ::
          (key in before && after[key] == before[key]) || sender.AtLeast(Power(after[key])))
  }

  /** Another user's entry must be below the sender to be touched; nobody, the sender
      included, is given more than the sender has. */
  predicate UsersMayChange(sender: Rank, senderId: string, before: Table, after: Table) {
    && (forall user | user in before ::
          (user in after && after[user] == before[user]) || user == senderId || sender.GreaterThan(Power(before[user])))
    && (forall user | user in after ::
          (user in before && after[user] == before[user]) || sender.AtLeast(Power(after[user])))
  }

  method CheckScalars(sender: Rank, before: seq<int>, after: seq<int>) returns (ok: bool)
    requires |before| == |after|
    ensures ok == ScalarsMayChange(sender, before, after)
  {
    for i := 0 to |before|
      invariant ScalarsMayChange(sender, before[..i], after[..i])
    {
      if before[i] != after[i] && (!sender.AtLeast(Power(before[i])) || !sender.AtLeast(Power(after[i]))) {
        return false;
      }
    }
    assert before[..|before|] == before && after[..|after|] == after;
    return true;
  }

  method CheckLevelTable(sender: Rank, before: Table, after: Table) returns (ok: bool)
    ensures ok == TableMayChange(sender, before, after)
  {
    var rest := before.Keys;
    while rest != {}
      invariant rest <= before.Keys
      invariant forall key | key in before && key !in rest ::
                  (key in after && after[key] == before[key]) || sender.AtLeast(Power(before[key]))
      decreases rest
    {
      var key :| key in rest;
      rest := rest - {key};
      if !(key in after && after[key] == before[key]) && !sender.AtLeast(Power(before[key])) {
        return false;
      }
    }
    rest := after.Keys;
    while rest != {}
      invariant rest <= after.Keys
      invariant forall key | key in after && key !in rest ::
                  (key in before && after[key] == before[key]) || sender.AtLeast(Power(after[key]))
      decreases rest
    {
      var key :| key in rest;
      rest := rest - {key};
      if !(key in before && before[key] == after[key]) && !sender.AtLeast(Power(after[key])) {
        return false;
      }
    }
    return true;
  }

  method CheckUserTable(sender: Rank, senderId: string, before: Table, after: Table) returns (ok: bool)
    ensures ok == UsersMayChange(sender, senderId, before, after)
  {
    var rest := before.Keys;
    while rest != {}
      invariant rest <= before.Keys
      invariant forall user | user in before && user !in rest ::
                  || (user in after && after[user] == before[user])
                  || user == senderId || sender.GreaterThan(Power(before[user]))
      decreases rest
    {
      var user :| user in rest;
      rest := rest - {user};
      if && !(user in after && after[user] == before[user])
         && user != senderId && !sender.GreaterThan(Power(before[user])) {
        return false;
      }
    }
    rest := after.Keys;
    while rest != {}
      invariant rest <= after.Keys
      invariant forall user | user in after && user !in rest ::
                  (user in before && after[user] == before[user]) || sender.AtLeast(Power(after[user]))
      decreases rest
    {
      var user :| user in rest;
      rest := rest - {user};
      if !(user in before && before[user] == after[user]) && !sender.AtLeast(Power(after[user])) {
        return false;
      }
    }
    return true;
  }

  /** The power levels rule as the server runs it: parse, then walk the scalars and the tables. */
  method CheckPowerLevels(e: Event, s: StateMap, current: Levels, version: RoomVersion) returns (verdict: Verdict)
    ensures verdict == AuthorisePowerLevels(e, s, current, version)
  {
    var creators := ListCreators(s, version);
    var proposed := ParsePowerLevels(e.Content(), version, creators);
    if proposed.Err? {
      return Refused(LevelsInvalid);
    }
    if LEVELS_KEY !in s {
      return Accepted;
    }
    var sender := current.UserLevel(e.Sender());
    var after := proposed.value;
    var ok := CheckScalars(sender, current.Scalars(), after.Scalars());
    if !ok {
      return Refused(NotAuthorised);
    }
    ok := CheckLevelTable(sender, current.events, after.events);
    if !ok {
      return Refused(NotAuthorised);
    }
    ok := CheckLevelTable(sender, current.notifications, after.notifications);
    if !ok {
      return Refused(NotAuthorised);
    }
    ok := CheckUserTable(sender, e.Sender(), current.users, after.users);
    return Require(ok);
  }
}
